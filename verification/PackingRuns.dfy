/** When packing preserves meaning, in terms of the input: which records open an ASDU, and how
    long a run of consecutive objects may be. */
module PackingRuns {
  import opened Basics
  import opened Octets
  import opened HexText
  import opened AsduCodec
  import opened AsduPacker
  import opened PackingMeaning

  // ---------- record by record ----------

  /** `ps[n]` is the packing of the first n records. */
  ghost predicate Traces(rs: seq<Record>, ps: seq<Packing>) {
    && AllValid(rs) && |ps| == |rs| + 1 && ps[0] == Packing([], None)
    && forall n :: 0 <= n < |rs| ==> Leads(rs, ps, n)
  }

  ghost predicate Leads(rs: seq<Record>, ps: seq<Packing>, n: nat)
    requires n < |rs| && n + 1 < |ps|
  {
    Sound(ps[n]) && ps[n + 1] == Next(ps[n], rs[n])
  }

  ghost function At(rs: seq<Record>, n: nat): Packing
    requires AllValid(rs) && n <= |rs|
  {
    ValidSlice(rs, 0, n);
    Pack(rs[..n])
  }

  lemma {:induction false} StepAt(rs: seq<Record>, n: nat)
    requires AllValid(rs) && n < |rs|
    ensures Sound(At(rs, n)) && At(rs, n + 1) == Next(At(rs, n), rs[n])
  {
    assert rs[..n + 1][..n] == rs[..n];
  }

  lemma {:induction false} PackTraces(rs: seq<Record>) returns (ps: seq<Packing>)
    requires AllValid(rs)
    ensures Traces(rs, ps) && forall n :: 0 <= n <= |rs| ==> ps[n] == Pack(rs[..n])
  {
    ps := seq(|rs| + 1, n requires 0 <= n <= |rs| && AllValid(rs) => At(rs, n));
    forall n | 0 <= n < |rs| ensures Leads(rs, ps, n) {
      StepAt(rs, n);
    }
    assert rs[..0] == [] && ps[0] == Pack([]);
  }

  /** Record i begins an ASDU. */
  ghost predicate OpensIn(rs: seq<Record>, ps: seq<Packing>, i: nat) {
    i < |rs| && i + 1 < |ps| && ps[i + 1].pending == Some(Start(rs[i]))
  }

  ghost predicate Opens(rs: seq<Record>, i: nat)
    requires AllValid(rs)
  {
    i < |rs| && Pack(rs[..i + 1]).pending == Some(Start(rs[i]))
  }

  /** A record joins the open ASDU at its end or begins one. */
  lemma {:induction false} NextCases(rs: seq<Record>, ps: seq<Packing>, n: nat)
    requires Traces(rs, ps) && n < |rs|
    ensures var p, b := ps[n], ps[n + 1].pending;
      && b.Some?
      && (b.value == Start(rs[n]) || (n > 0 && p.pending.Some? && b.value.recs == p.pending.value.recs + [rs[n]]))
  {
    assert Leads(rs, ps, n);
  }

  lemma {:induction false} PendingGood(rs: seq<Record>, ps: seq<Packing>, n: nat)
    requires Traces(rs, ps) && 1 <= n <= |rs|
    ensures ps[n].pending.Some? && Good(ps[n].pending.value)
  {
    assert Leads(rs, ps, n - 1);
    NextSound(ps[n - 1], rs[n - 1]);
  }

  /** The open ASDU holds the last records read, and its first record began it. */
  lemma {:induction false} PendingSlice(rs: seq<Record>, ps: seq<Packing>, n: nat) returns (i: nat)
    requires Traces(rs, ps) && 1 <= n <= |rs|
    ensures i < n && ps[n].pending.Some? && ps[n].pending.value.recs == rs[i..n] && OpensIn(rs, ps, i)
    decreases n
  {
    NextCases(rs, ps, n - 1);
    if ps[n].pending.value == Start(rs[n - 1]) {
      i := n - 1;
      assert rs[n - 1..n] == [rs[n - 1]];
    } else {
      i := PendingSlice(rs, ps, n - 1);
      SliceMore(rs, i, n - 1);
    }
  }

  lemma SliceMore(rs: seq<Record>, i: nat, n: nat)
    requires i <= n < |rs|
    ensures rs[i..n + 1] == rs[i..n] + [rs[n]]
  {
  }

  /** Blocks only grow as records follow, and only the last one does. */
  lemma {:induction false} NextGrows(rs: seq<Record>, ps: seq<Packing>, n: nat, k: nat)
    requires Traces(rs, ps) && n < |rs|
    ensures var bs, cs := Blocks(ps[n]), Blocks(ps[n + 1]);
      && (k < |bs| ==> k < |cs| && |cs[k].recs| >= |bs[k].recs|)
      && (k + 1 < |cs| ==> k < |bs| && cs[k] == bs[k])
      && (k + 1 == |cs| ==> ps[n + 1].pending == Some(cs[k]))
  {
    assert Leads(rs, ps, n);
  }

  lemma {:induction false} Persists(rs: seq<Record>, ps: seq<Packing>, n: nat, k: nat)
    requires Traces(rs, ps) && n <= |rs| && k < |Blocks(ps[n])|
    ensures k < |Blocks(ps[|rs|])| && |Blocks(ps[|rs|])[k].recs| >= |Blocks(ps[n])[k].recs|
    decreases |rs| - n
  {
    if n < |rs| {
      NextGrows(rs, ps, n, k);
      Persists(rs, ps, n + 1, k);
    }
  }

  /** So an ASDU once open ends up in the output, at least as long. */
  lemma {:induction false} PendingPersists(rs: seq<Record>, ps: seq<Packing>, n: nat) returns (k: nat)
    requires Traces(rs, ps) && n <= |rs| && ps[n].pending.Some?
    ensures k < |Blocks(ps[|rs|])| && |Blocks(ps[|rs|])[k].recs| >= |ps[n].pending.value.recs|
  {
    k := |ps[n].done|;
    assert Blocks(ps[n])[k] == ps[n].pending.value;
    Persists(rs, ps, n, k);
  }

  /** Every ASDU of the output was the open one at some point. */
  lemma {:induction false} WasPending(rs: seq<Record>, ps: seq<Packing>, n: nat, k: nat) returns (l: nat)
    requires Traces(rs, ps) && n <= |rs| && k < |Blocks(ps[n])|
    ensures 1 <= l <= n && ps[l].pending == Some(Blocks(ps[n])[k])
    decreases n
  {
    NextGrows(rs, ps, n - 1, k);
    if k == |Blocks(ps[n])| - 1 {
      l := n;
    } else {
      l := WasPending(rs, ps, n - 1, k);
    }
  }

  // ---------- runs ----------

  /** Records of one address and type with consecutive object numbers. */
  predicate Run(rs: seq<Record>, typ: nat) {
    Alike(rs) && Consecutive(rs) && (rs != [] ==> TypeId(rs[0].info) == typ)
  }

  predicate RunAt(rs: seq<Record>, typ: nat, i: nat, n: nat) { i + n <= |rs| && Run(rs[i..i + n], typ) }

  /** Octets of a run of n objects with one address, for the two types that may form one. */
  function RunOctets(typ: nat, n: nat): nat { 3 + if typ == 1 then n else 5 * n }

  /** Of a run, an object alone takes as many octets as a sequence of one. */
  lemma {:induction false} RunLength(rs: seq<Record>, typ: nat)
    requires AllValid(rs) && Run(rs, typ) && typ in {1, 13} && rs != []
    ensures |Body(Block(|rs| > 1, rs))| == RunOctets(typ, |rs|)
  {
    ElemsLength(rs, typ, rs[0].addr);
    ObjsLength(rs, typ, rs[0].addr);
    LittleEndianLength(rs[0].obj, 3);
  }

  lemma {:induction false} JoinsRun(b: Block, r: Record)
    requires AllValid(b.recs) && b.recs != [] && (b.sq <==> |b.recs| > 1) && !Timed(r)
    requires DataLength(b) + IeLength(r) <= LIMIT && r.obj == b.recs[|b.recs| - 1].obj + 1
    ensures Join(b, r) == Some(Block(true, b.recs + [r]))
  {
  }

  lemma {:induction false} RunPrefix(rs: seq<Record>, typ: nat, i: nat, n: nat)
    requires RunAt(rs, typ, i, n + 1) && 1 <= n
    ensures RunAt(rs, typ, i, n)
    ensures rs[i + n].obj == rs[i + n - 1].obj + 1 && rs[i + n].addr == rs[i].addr && TypeId(rs[i + n].info) == typ
  {
    var x := rs[i..i + n + 1];
    assert x[n] == rs[i + n] && x[n - 1] == rs[i + n - 1] && x[0] == rs[i];
    assert rs[i..i + n] == x[..n];
  }

  /** A run whose first record opens an ASDU stays in it as long as it fits. */
  lemma {:induction false} OpenedRun(rs: seq<Record>, ps: seq<Packing>, typ: nat, i: nat, n: nat)
    requires Traces(rs, ps) && typ in {1, 13} && OpensIn(rs, ps, i) && 1 <= n && RunAt(rs, typ, i, n)
    requires RunOctets(typ, n) <= 249
    ensures ps[i + n].pending == Some(Block(n > 1, rs[i..i + n]))
    decreases n
  {
    if n == 1 {
      assert rs[i..i + 1] == [rs[i]];
    } else {
      RunPrefix(rs, typ, i, n - 1);
      OpenedRun(rs, ps, typ, i, n - 1);
      OpenedMore(rs, ps, typ, i, n - 1);
    }
  }

  lemma {:induction false} OpenedMore(rs: seq<Record>, ps: seq<Packing>, typ: nat, i: nat, n: nat)
    requires Traces(rs, ps) && typ in {1, 13} && 1 <= n && RunAt(rs, typ, i, n + 1) && RunAt(rs, typ, i, n)
    requires RunOctets(typ, n + 1) <= 249
    requires ps[i + n].pending == Some(Block(n > 1, rs[i..i + n]))
    ensures ps[i + n + 1].pending == Some(Block(true, rs[i..i + n + 1]))
  {
    var b := Block(n > 1, rs[i..i + n]);
    ValidSlice(rs, i, i + n);
    RunPrefix(rs, typ, i, n);
    assert b.recs[0] == rs[i] && TypeId(rs[i].info) == typ;
    RunJoins(rs, typ, i, n);
    NextJoins(rs, ps, i + n, b, Block(true, rs[i..i + n + 1]));
  }

  lemma ValidSlice(rs: seq<Record>, i: nat, n: nat)
    requires AllValid(rs) && i <= n <= |rs|
    ensures AllValid(rs[i..n])
  {
  }

  lemma {:induction false} RunJoins(rs: seq<Record>, typ: nat, i: nat, n: nat)
    requires typ in {1, 13} && 1 <= n && RunAt(rs, typ, i, n + 1) && RunAt(rs, typ, i, n) && AllValid(rs[i..i + n])
    requires RunOctets(typ, n + 1) <= 249
    ensures Join(Block(n > 1, rs[i..i + n]), rs[i + n]) == Some(Block(true, rs[i..i + n + 1]))
  {
    var b := Block(n > 1, rs[i..i + n]);
    RunPrefix(rs, typ, i, n);
    RunFits(b.recs, rs[i + n], typ);
    assert b.recs[n - 1] == rs[i + n - 1];
    JoinsRun(b, rs[i + n]);
    SliceMore(rs, i, i + n);
  }

  lemma {:induction false} RunFits(rs: seq<Record>, r: Record, typ: nat)
    requires AllValid(rs) && Run(rs, typ) && typ in {1, 13} && rs != [] && TypeId(r.info) == typ
    requires RunOctets(typ, |rs| + 1) <= 249
    ensures DataLength(Block(|rs| > 1, rs)) + IeLength(r) <= LIMIT
  {
    RunLength(rs, typ);
  }

  lemma {:induction false} NextJoins(rs: seq<Record>, ps: seq<Packing>, n: nat, b: Block, c: Block)
    requires Traces(rs, ps) && n < |rs| && ps[n].pending == Some(b) && b.recs != [] && AllValid(b.recs)
    requires rs[n].addr == b.recs[0].addr && TypeId(rs[n].info) == Type(b) && Join(b, rs[n]) == Some(c)
    ensures ps[n + 1].pending == Some(c)
  {
    assert Leads(rs, ps, n);
  }

  // ---------- exactly which inputs come back ----------

  /** 128 consecutive single points of one address, the first of which opens an ASDU. */
  ghost predicate OverflowAt(rs: seq<Record>, i: nat)
    requires AllValid(rs)
  {
    RunAt(rs, 1, i, 128) && Opens(rs, i)
  }

  lemma {:induction false} OverflowFails(rs: seq<Record>, ps: seq<Packing>, i: nat, n: nat)
    requires Traces(rs, ps) && RunAt(rs, 1, i, n) && OpensIn(rs, ps, i) && 127 < n <= 246
    ensures !CountsFit(Blocks(ps[|rs|]))
  {
    OpenedRun(rs, ps, 1, i, n);
    var k := PendingPersists(rs, ps, i + n);
    assert |Blocks(ps[|rs|])[k].recs| > 127;
  }

  /** A long ASDU is a run of single points. */
  lemma {:induction false} LongBlockIsRun(b: Block)
    requires Good(b) && |b.recs| > 127
    ensures Run(b.recs, 1)
  {
    CountBounds(b);
  }

  lemma {:induction false} FailsOverflow(rs: seq<Record>, ps: seq<Packing>, k: nat) returns (i: nat, n: nat)
    requires Traces(rs, ps) && k < |Blocks(ps[|rs|])| && |Blocks(ps[|rs|])[k].recs| > 127
    ensures OpensIn(rs, ps, i) && n > 127 && RunAt(rs, 1, i, n)
  {
    var l := WasPending(rs, ps, |rs|, k);
    i := PendingSlice(rs, ps, l);
    n := l - i;
    PendingGood(rs, ps, l);
    LongBlockIsRun(ps[l].pending.value);
  }

  /** Packing preserves meaning if and only if no record opens an ASDU with 128 consecutive
      single points of one address before it. */
  lemma {:induction false} PreservedIff(cot: nat, rs: seq<Record>)
    requires AllValid(rs) && cot < 65536
    ensures DecodeLines(Output(cot, rs)) == Some(rs) <==> forall i :: !OverflowAt(rs, i)
  {
    PackingPreservesMeaning(cot, rs);
    var ps := PackTraces(rs);
    var bs := Blocks(Pack(rs));
    assert rs[..|rs|] == rs;
    if i :| OverflowAt(rs, i) {
      OverflowFails(rs, ps, i, 128);
    } else if !CountsFit(bs) {
      var k :| 0 <= k < |bs| && |bs[k].recs| > 127;
      var i, n := FailsOverflow(rs, ps, k);
      SubRun(rs, 1, i, n, i, 128);
      assert OverflowAt(rs, i);
    }
  }

  /** Any input without 128 consecutive single points of one address comes back exactly. */
  lemma {:induction false} ShortRunsPreserved(cot: nat, rs: seq<Record>)
    requires AllValid(rs) && cot < 65536
    requires forall i :: !RunAt(rs, 1, i, 128)
    ensures DecodeLines(Output(cot, rs)) == Some(rs)
  {
    PreservedIff(cot, rs);
  }

  /** With one run of exactly 128 and no other, it depends on whether the run opens an ASDU. */
  lemma {:induction false} ExactRunIff(cot: nat, rs: seq<Record>, i: nat)
    requires AllValid(rs) && cot < 65536 && RunAt(rs, 1, i, 128)
    requires forall j :: j != i ==> !RunAt(rs, 1, j, 128)
    ensures DecodeLines(Output(cot, rs)) == Some(rs) <==> !Opens(rs, i)
  {
    PreservedIff(cot, rs);
    assert OverflowAt(rs, i) <==> Opens(rs, i);
  }

  /** Two runs that overlap in a record are one run. */
  lemma {:induction false} RunsMeet(rs: seq<Record>, j: nat, i: nat, n: nat)
    requires j <= i && RunAt(rs, 1, j, i + 1 - j) && 1 <= n && RunAt(rs, 1, i, n)
    ensures RunAt(rs, 1, j, i + n - j)
  {
    var x, y, z := rs[j..i + 1], rs[i..i + n], rs[j..i + n];
    assert x[i - j] == rs[i] == y[0] && x[0] == z[0];
    forall k | 0 <= k < |z| ensures z[k].addr == z[0].addr && TypeId(z[k].info) == 1 && z[k].obj == z[0].obj + k {
      if k <= i - j {
        assert z[k] == x[k];
      } else {
        assert z[k] == y[k - (i - j)];
      }
    }
  }

  lemma {:induction false} SubRun(rs: seq<Record>, typ: nat, i: nat, n: nat, j: nat, k: nat)
    requires RunAt(rs, typ, i, n) && i <= j && 1 <= k && j + k <= i + n
    ensures RunAt(rs, typ, j, k)
  {
    var x, y := rs[i..i + n], rs[j..j + k];
    assert forall l :: 0 <= l < k ==> y[l] == x[j - i + l];
  }

  lemma {:induction false} NoJoinSingles(b: Block, r: Record)
    requires AllValid(b.recs) && |b.recs| > 1 && !b.sq && !Timed(r) && r.obj == b.recs[|b.recs| - 1].obj + 1
    ensures Join(b, r).None?
  {
  }

  lemma OneRecord(b: Block, r: Record)
    requires b.recs != [] && b.recs[|b.recs| - 1] == r && !b.sq
    ensures |b.recs| == 1 ==> b == Start(r)
  {
  }

  /** In the middle of a run, an ASDU that lists its objects singly takes no further one. */
  lemma {:induction false} SinglesStop(rs: seq<Record>, ps: seq<Packing>, i: nat)
    requires Traces(rs, ps) && RunAt(rs, 1, i, 2) && !OpensIn(rs, ps, i)
    requires ps[i + 1].pending.Some? && !ps[i + 1].pending.value.sq
    ensures OpensIn(rs, ps, i + 1)
  {
    var j := PendingSlice(rs, ps, i + 1);
    ValidSlice(rs, j, i + 1);
    var b := ps[i + 1].pending.value;
    RunPrefix(rs, 1, i, 1);
    assert b.recs[|b.recs| - 1] == rs[i];
    OneRecord(b, rs[i]);
    NoJoinSingles(b, rs[i + 1]);
    NextRefuses(rs, ps, i + 1, b);
  }

  lemma {:induction false} NextRefuses(rs: seq<Record>, ps: seq<Packing>, n: nat, b: Block)
    requires Traces(rs, ps) && n < |rs| && ps[n].pending == Some(b) && b.recs != [] && AllValid(b.recs)
    requires rs[n].addr != b.recs[0].addr || TypeId(rs[n].info) != Type(b) || Join(b, rs[n]).None?
    ensures OpensIn(rs, ps, n)
  {
    assert Leads(rs, ps, n);
  }

  lemma {:induction false} PendingRun(rs: seq<Record>, j: nat, i: nat, b: Block)
    requires RunAt(rs, 1, i, 1) && Good(b) && b.sq && j <= i && b.recs == rs[j..i + 1]
    ensures RunAt(rs, 1, j, i + 1 - j)
  {
    assert rs[i..i + 1][0] == rs[i] == b.recs[|b.recs| - 1];
  }

  lemma {:induction false} SomeOverflow(rs: seq<Record>, ps: seq<Packing>, i: nat) returns (j: nat)
    requires Traces(rs, ps) && RunAt(rs, 1, i, 129)
    ensures RunAt(rs, 1, j, 128) && OpensIn(rs, ps, j)
  {
    var k := PendingSlice(rs, ps, i + 1);
    PendingGood(rs, ps, i + 1);
    var b := ps[i + 1].pending.value;
    if OpensIn(rs, ps, i) {
      j := i;
      SubRun(rs, 1, i, 129, i, 128);
    } else if !b.sq {
      j := i + 1;
      SubRun(rs, 1, i, 129, i, 2);
      SinglesStop(rs, ps, i);
      SubRun(rs, 1, i, 129, i + 1, 128);
    } else {
      j := k;
      SubRun(rs, 1, i, 129, i, 1);
      PendingRun(rs, j, i, b);
      RunsMeet(rs, j, i, 129);
      SubRun(rs, 1, j, i + 129 - j, j, 128);
    }
  }

  /** Any input with 129 consecutive single points of one address does not come back: the first
      may be absorbed by an open ASDU, the other 128 then share one. */
  lemma {:induction false} LongRunFails(cot: nat, rs: seq<Record>, i: nat)
    requires AllValid(rs) && cot < 65536 && RunAt(rs, 1, i, 129)
    ensures DecodeLines(Output(cot, rs)) != Some(rs)
  {
    var ps := PackTraces(rs);
    var j := SomeOverflow(rs, ps, i);
    PreservedIff(cot, rs);
    assert OverflowAt(rs, j);
  }

  /** A record opens an ASDU at the start of the input and wherever address or type changes. */
  lemma {:induction false} BoundaryOpens(rs: seq<Record>, i: nat)
    requires AllValid(rs) && i < |rs|
    requires i == 0 || rs[i - 1].addr != rs[i].addr || TypeId(rs[i - 1].info) != TypeId(rs[i].info)
    ensures Opens(rs, i)
  {
    var ps := PackTraces(rs);
    if i == 0 {
      NextCases(rs, ps, 0);
    } else {
      ChangeOpens(rs, ps, i);
    }
  }

  lemma {:induction false} ChangeOpens(rs: seq<Record>, ps: seq<Packing>, i: nat)
    requires Traces(rs, ps) && 1 <= i < |rs|
    requires rs[i - 1].addr != rs[i].addr || TypeId(rs[i - 1].info) != TypeId(rs[i].info)
    ensures OpensIn(rs, ps, i)
  {
    var j := PendingSlice(rs, ps, i);
    PendingGood(rs, ps, i);
    var b := ps[i].pending.value;
    assert b.recs[|b.recs| - 1] == rs[i - 1];
    NextRefuses(rs, ps, i, b);
  }

  /** For an input that is one run of single points, 127 is the exact bound. */
  lemma {:induction false} RunPreservedIff(cot: nat, rs: seq<Record>)
    requires AllValid(rs) && Run(rs, 1) && cot < 65536 && rs != []
    ensures DecodeLines(Output(cot, rs)) == Some(rs) <==> |rs| <= 127
  {
    PreservedIff(cot, rs);
    if |rs| > 127 {
      BoundaryOpens(rs, 0);
      assert rs[0..|rs|] == rs;
      SubRun(rs, 1, 0, |rs|, 0, 128);
      assert OverflowAt(rs, 0);
    }
  }
}
