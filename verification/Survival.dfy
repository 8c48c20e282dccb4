/** Which inputs of the packer survive the way to the link, in terms of the input. */
module Survival {
  import opened Basics
  import opened Octets
  import opened HexText
  import opened AsduCodec
  import opened AsduPacker
  import opened PackingMeaning
  import opened PackingRuns
  import opened Pipeline
  import S = StdinLines

  lemma {:induction false} BodyOctets(b: Block)
    requires Good(b)
    ensures |Body(b)| == if b.sq then 3 + |b.recs| * ElemLength(Type(b)) else |b.recs| * (3 + ElemLength(Type(b)))
  {
    if b.sq {
      ElemsLength(b.recs, Type(b), b.recs[0].addr);
      LittleEndianLength(b.recs[0].obj, 3);
    } else {
      ObjsLength(b.recs, Type(b), b.recs[0].addr);
    }
  }

  /** The longest ASDU that survives; one with time always does. */
  function Longest(typ: nat, sq: bool): nat {
    if typ == 1 then (if sq then 127 else 60) else if typ == 13 then (if sq then 48 else 30) else 22
  }

  lemma {:induction false} BlockSurvivesIff(b: Block)
    requires Good(b)
    ensures Survives(b) <==> |b.recs| <= Longest(Type(b), b.sq)
    ensures Type(b) in {30, 36} ==> Survives(b)
  {
    BodyOctets(b);
    assert Type(b) in {1, 13, 30, 36};
  }

  /** Records of one address and type, none of them next to the one before. */
  predicate Scattered(rs: seq<Record>, typ: nat) {
    && Of(rs, typ, if rs == [] then 0 else rs[0].addr)
    && forall k :: 0 < k < |rs| ==> rs[k].obj != rs[k - 1].obj + 1
  }

  predicate ScatterAt(rs: seq<Record>, typ: nat, i: nat, n: nat) { i + n <= |rs| && Scattered(rs[i..i + n], typ) }

  lemma {:induction false} SubScatter(rs: seq<Record>, typ: nat, i: nat, n: nat, k: nat)
    requires ScatterAt(rs, typ, i, n) && 1 <= k <= n
    ensures ScatterAt(rs, typ, i, k)
  {
    var x, y := rs[i..i + n], rs[i..i + k];
    assert forall l :: 0 <= l < k ==> y[l] == x[l];
  }

  lemma {:induction false} JoinsScatter(b: Block, r: Record)
    requires AllValid(b.recs) && b.recs != [] && !b.sq && !Timed(r) && r.obj != b.recs[|b.recs| - 1].obj + 1
    requires DataLength(b) + ObjLength(r) <= LIMIT
    ensures Join(b, r) == Some(Block(false, b.recs + [r]))
  {
  }

  function ScatterOctets(typ: nat, n: nat): nat { if typ == 1 then 4 * n else 8 * n }

  lemma {:induction false} ScatterLength(rs: seq<Record>, typ: nat)
    requires AllValid(rs) && Scattered(rs, typ) && typ in {1, 13} && rs != []
    ensures |Body(Block(false, rs))| == ScatterOctets(typ, |rs|)
  {
    ObjsLength(rs, typ, rs[0].addr);
  }

  /** Scattered records of which the first opens an ASDU share it as long as they fit. */
  lemma {:induction false} OpenedScatter(rs: seq<Record>, ps: seq<Packing>, typ: nat, i: nat, n: nat)
    requires Traces(rs, ps) && typ in {1, 13} && OpensIn(rs, ps, i) && 1 <= n && ScatterAt(rs, typ, i, n)
    requires ScatterOctets(typ, n) <= 249
    ensures ps[i + n].pending == Some(Block(false, rs[i..i + n]))
    decreases n
  {
    if n == 1 {
      assert rs[i..i + 1] == [rs[i]];
    } else {
      SubScatter(rs, typ, i, n, n - 1);
      OpenedScatter(rs, ps, typ, i, n - 1);
      ScatterMore(rs, ps, typ, i, n - 1);
    }
  }

  lemma {:induction false} ScatterMore(rs: seq<Record>, ps: seq<Packing>, typ: nat, i: nat, n: nat)
    requires Traces(rs, ps) && typ in {1, 13} && 1 <= n && ScatterAt(rs, typ, i, n + 1) && ScatterAt(rs, typ, i, n)
    requires ScatterOctets(typ, n + 1) <= 249
    requires ps[i + n].pending == Some(Block(false, rs[i..i + n]))
    ensures ps[i + n + 1].pending == Some(Block(false, rs[i..i + n + 1]))
  {
    var b := Block(false, rs[i..i + n]);
    ValidSlice(rs, i, i + n);
    ScatterJoins(rs, typ, i, n);
    NextJoins(rs, ps, i + n, b, Block(false, rs[i..i + n + 1]));
  }

  lemma {:induction false} ScatterJoins(rs: seq<Record>, typ: nat, i: nat, n: nat)
    requires typ in {1, 13} && 1 <= n && ScatterAt(rs, typ, i, n + 1) && ScatterAt(rs, typ, i, n)
    requires ScatterOctets(typ, n + 1) <= 249 && AllValid(rs[i..i + n])
    ensures rs[i + n].addr == rs[i..i + n][0].addr && TypeId(rs[i + n].info) == typ == TypeId(rs[i..i + n][0].info)
    ensures Join(Block(false, rs[i..i + n]), rs[i + n]) == Some(Block(false, rs[i..i + n + 1]))
  {
    var b, r, x := Block(false, rs[i..i + n]), rs[i + n], rs[i..i + n + 1];
    assert x[n] == r && x[n - 1] == rs[i + n - 1] == b.recs[n - 1] && x[0] == b.recs[0];
    ScatterLength(b.recs, typ);
    JoinsScatter(b, r);
    SliceMore(rs, i, i + n);
  }

  /** An open ASDU without time that lists its objects singly is scattered. */
  lemma {:induction false} PendingScattered(rs: seq<Record>, ps: seq<Packing>, n: nat)
    requires Traces(rs, ps) && 1 <= n <= |rs|
    ensures ps[n].pending.Some? && ps[n].pending.value.recs != []
    ensures var b := ps[n].pending.value;
      !b.sq && Type(b) in {1, 13} ==> Scattered(b.recs, Type(b))
    decreases n
  {
    PendingGood(rs, ps, n);
    NextCases(rs, ps, n - 1);
    var b, r := ps[n].pending.value, rs[n - 1];
    if b != Start(r) && !b.sq && Type(b) in {1, 13} {
      PendingScattered(rs, ps, n - 1);
      NextSingles(rs, ps, n - 1);
      ScatteredMore(ps[n - 1].pending.value.recs, r, Type(b));
    }
  }

  lemma {:induction false} NextSingles(rs: seq<Record>, ps: seq<Packing>, n: nat)
    requires Traces(rs, ps) && n < |rs| && ps[n].pending.Some? && ps[n].pending.value.recs != []
    requires ps[n + 1].pending.Some? && ps[n + 1].pending.value != Start(rs[n]) && !ps[n + 1].pending.value.sq
    ensures var b := ps[n].pending.value;
      && !b.sq && rs[n].addr == b.recs[0].addr && TypeId(rs[n].info) == Type(b)
      && (Timed(rs[n]) || rs[n].obj != b.recs[|b.recs| - 1].obj + 1)
  {
    assert Leads(rs, ps, n);
  }

  lemma {:induction false} ScatteredMore(xs: seq<Record>, r: Record, typ: nat)
    requires xs != [] && Scattered(xs, typ) && r.addr == xs[0].addr && TypeId(r.info) == typ
    requires r.obj != xs[|xs| - 1].obj + 1
    ensures Scattered(xs + [r], typ)
  {
  }

  /** A record opens an ASDU that will not survive. */
  ghost predicate LostAt(rs: seq<Record>, i: nat)
    requires AllValid(rs)
  {
    && Opens(rs, i)
    && (RunAt(rs, 1, i, 128) || RunAt(rs, 13, i, 49) || ScatterAt(rs, 1, i, 61) || ScatterAt(rs, 13, i, 31))
  }

  /** Opened, such a run or scatter makes an ASDU at least as long. */
  lemma {:induction false} LostFails(rs: seq<Record>, ps: seq<Packing>, typ: nat, i: nat, n: nat, sq: bool) returns (k: nat)
    requires Traces(rs, ps) && OpensIn(rs, ps, i) && typ in {1, 13} && n > 1
    requires if sq then RunAt(rs, typ, i, n) && RunOctets(typ, n) <= 249
             else ScatterAt(rs, typ, i, n) && ScatterOctets(typ, n) <= 249
    ensures k < |Blocks(ps[|rs|])| && Keeps(Blocks(ps[|rs|])[k], Block(sq, rs[i..i + n]))
  {
    if sq {
      OpenedRun(rs, ps, typ, i, n);
    } else {
      OpenedScatter(rs, ps, typ, i, n);
    }
    k := |ps[i + n].done|;
    assert Blocks(ps[i + n])[k] == ps[i + n].pending.value;
    KeptOn(rs, ps, i + n, k);
  }

  /** `b` has the records of `c` and perhaps more, of the same type and form. */
  predicate Keeps(b: Block, c: Block) {
    |c.recs| > 1 && |b.recs| >= |c.recs| && b.recs[0] == c.recs[0] && b.sq == c.sq
  }

  lemma {:induction false} KeptOn(rs: seq<Record>, ps: seq<Packing>, n: nat, k: nat)
    requires Traces(rs, ps) && n <= |rs| && k < |Blocks(ps[n])| && |Blocks(ps[n])[k].recs| > 1
    ensures k < |Blocks(ps[|rs|])| && Keeps(Blocks(ps[|rs|])[k], Blocks(ps[n])[k])
    decreases |rs| - n
  {
    if n < |rs| {
      NextKeeps(rs, ps, n, k);
      KeptOn(rs, ps, n + 1, k);
    }
  }

  lemma {:induction false} NextKeeps(rs: seq<Record>, ps: seq<Packing>, n: nat, k: nat)
    requires Traces(rs, ps) && n < |rs| && k < |Blocks(ps[n])| && |Blocks(ps[n])[k].recs| > 1
    ensures k < |Blocks(ps[n + 1])| && Keeps(Blocks(ps[n + 1])[k], Blocks(ps[n])[k])
  {
    assert Leads(rs, ps, n);
  }

  lemma {:induction false} LostNotSurviving(rs: seq<Record>, ps: seq<Packing>, i: nat)
    requires Traces(rs, ps) && OpensIn(rs, ps, i) && AllGood(Blocks(ps[|rs|]))
    requires RunAt(rs, 1, i, 128) || RunAt(rs, 13, i, 49) || ScatterAt(rs, 1, i, 61) || ScatterAt(rs, 13, i, 31)
    ensures !AllSurvive(Blocks(ps[|rs|]))
  {
    var k;
    if RunAt(rs, 1, i, 128) {
      k := LostBlock(rs, ps, 1, i, 128, true);
    } else if RunAt(rs, 13, i, 49) {
      k := LostBlock(rs, ps, 13, i, 49, true);
    } else if ScatterAt(rs, 1, i, 61) {
      k := LostBlock(rs, ps, 1, i, 61, false);
    } else {
      k := LostBlock(rs, ps, 13, i, 31, false);
    }
  }

  lemma {:induction false} LostBlock(rs: seq<Record>, ps: seq<Packing>, typ: nat, i: nat, n: nat, sq: bool) returns (k: nat)
    requires Traces(rs, ps) && OpensIn(rs, ps, i) && typ in {1, 13} && n > Longest(typ, sq)
    requires if sq then RunAt(rs, typ, i, n) && RunOctets(typ, n) <= 249
             else ScatterAt(rs, typ, i, n) && ScatterOctets(typ, n) <= 249
    requires AllGood(Blocks(ps[|rs|]))
    ensures k < |Blocks(ps[|rs|])| && !Survives(Blocks(ps[|rs|])[k])
  {
    k := LostFails(rs, ps, typ, i, n, sq);
    var b := Blocks(ps[|rs|])[k];
    assert b.recs[0] == rs[i..i + n][0] && TypeId(rs[i..i + n][0].info) == typ;
    BlockSurvivesIff(b);
  }

  lemma {:induction false} FailsLost(rs: seq<Record>, ps: seq<Packing>, k: nat) returns (i: nat)
    requires Traces(rs, ps) && k < |Blocks(ps[|rs|])| && Good(Blocks(ps[|rs|])[k]) && !Survives(Blocks(ps[|rs|])[k])
    ensures OpensIn(rs, ps, i)
    ensures RunAt(rs, 1, i, 128) || RunAt(rs, 13, i, 49) || ScatterAt(rs, 1, i, 61) || ScatterAt(rs, 13, i, 31)
  {
    var b := Blocks(ps[|rs|])[k];
    var l := WasPending(rs, ps, |rs|, k);
    i := PendingSlice(rs, ps, l);
    BlockSurvivesIff(b);
    if b.sq {
      assert RunAt(rs, Type(b), i, l - i);
      SubRun(rs, Type(b), i, l - i, i, Longest(Type(b), true) + 1);
    } else {
      PendingScattered(rs, ps, l);
      SubScatter(rs, Type(b), i, l - i, Longest(Type(b), false) + 1);
    }
  }

  /** Exactly which inputs survive the way from the packer to the link: those in which no record
      opens an ASDU with 128 consecutive or 61 scattered single points, or 49 consecutive or 31
      scattered measured values. */
  lemma {:induction false} InputSurvivesIff(rs: seq<Record>)
    requires AllValid(rs)
    ensures AllGood(Blocks(Pack(rs))) && (AllSurvive(Blocks(Pack(rs))) <==> forall i :: !LostAt(rs, i))
  {
    PackPartitions(rs);
    var ps := PackTraces(rs);
    assert rs[..|rs|] == rs;
    var bs := Blocks(Pack(rs));
    if i :| LostAt(rs, i) {
      LostNotSurviving(rs, ps, i);
    } else if !AllSurvive(bs) {
      var k :| 0 <= k < |bs| && !Survives(bs[k]);
      var i := FailsLost(rs, ps, k);
      assert LostAt(rs, i);
    }
  }

  /** The same for what the bridge takes of the packer's text, cut into reads anyhow. */
  lemma {:induction false} DeliveredIff(cot: nat, rs: seq<Record>, chunks: seq<string>)
    requires AllValid(rs) && cot < 65536
    requires Concat(chunks) == S.LinesText(Output(cot, rs)) + ">\n"
    requires forall i :: 0 <= i < |chunks| ==> chunks[i] != ""
    ensures DecodeItems(S.ReadAll("", chunks).items) == Some(rs) <==> forall i :: !LostAt(rs, i)
  {
    SurvivesIff(cot, rs, chunks);
    InputSurvivesIff(rs);
  }

  /** Records with time always survive. */
  lemma {:induction false} TimedSurvives(rs: seq<Record>)
    requires AllValid(rs) && forall i :: 0 <= i < |rs| ==> Timed(rs[i])
    ensures AllGood(Blocks(Pack(rs))) && AllSurvive(Blocks(Pack(rs)))
  {
    InputSurvivesIff(rs);
    forall i ensures !LostAt(rs, i) {
      TimedNotLost(rs, i);
    }
  }

  lemma {:induction false} TimedNotLost(rs: seq<Record>, i: nat)
    requires AllValid(rs) && forall i :: 0 <= i < |rs| ==> Timed(rs[i])
    ensures !LostAt(rs, i)
  {
    FirstTwo(rs, i);
  }

  /** An input that is one run of measured values survives if and only if it has at most 48. */
  lemma {:induction false} MeasuredRunIff(rs: seq<Record>)
    requires AllValid(rs) && Run(rs, 13) && rs != []
    ensures AllGood(Blocks(Pack(rs))) && (AllSurvive(Blocks(Pack(rs))) <==> |rs| <= 48)
  {
    InputSurvivesIff(rs);
    assert rs[0..|rs|] == rs;
    if |rs| > 48 {
      BoundaryOpens(rs, 0);
      SubRun(rs, 13, 0, |rs|, 0, 49);
      assert LostAt(rs, 0);
    } else {
      forall i ensures !LostAt(rs, i) {
        RunNotLost(rs, i);
      }
    }
  }

  lemma {:induction false} RunNotLost(rs: seq<Record>, i: nat)
    requires AllValid(rs) && Run(rs, 13) && |rs| <= 48
    ensures !LostAt(rs, i)
  {
    FirstTwo(rs, i);
  }

  /** A slice begins with what it was cut from. */
  lemma FirstTwo(rs: seq<Record>, i: nat)
    ensures forall n :: i + 2 <= n <= |rs| ==> rs[i..n][0] == rs[i] && rs[i..n][1] == rs[i + 1]
  {
  }

  /** An input of scattered records of one address and type survives if and only if it has at
      most 60 single points, or 30 measured values. */
  lemma {:induction false} ScatteredIff(rs: seq<Record>, typ: nat)
    requires AllValid(rs) && Scattered(rs, typ) && typ in {1, 13} && rs != []
    ensures AllGood(Blocks(Pack(rs))) && (AllSurvive(Blocks(Pack(rs))) <==> |rs| <= if typ == 1 then 60 else 30)
  {
    InputSurvivesIff(rs);
    assert rs[0..|rs|] == rs;
    if |rs| > if typ == 1 then 60 else 30 {
      BoundaryOpens(rs, 0);
      SubScatter(rs, typ, 0, |rs|, if typ == 1 then 61 else 31);
      assert LostAt(rs, 0);
    } else {
      forall i ensures !LostAt(rs, i) {
        ScatterNotLost(rs, typ, i);
      }
    }
  }

  lemma {:induction false} ScatterNotLost(rs: seq<Record>, typ: nat, i: nat)
    requires AllValid(rs) && Scattered(rs, typ) && |rs| <= if typ == 1 then 60 else 30
    ensures !LostAt(rs, i)
  {
    FirstTwo(rs, i);
  }
}
