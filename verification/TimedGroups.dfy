/** The grouping of records with time: those of one address and type share an ASDU until it is
    full, 22 single points or 16 measured values to each. */
module TimedGroups {
  import opened Basics
  import opened Octets
  import opened HexText
  import opened AsduCodec
  import opened AsduPacker
  import opened PackingMeaning
  import opened PackingRuns

  /** Objects that fit an ASDU of 249 octets of data. */
  function Full(typ: nat): nat { if typ == 30 then 22 else 16 }

  /** Records g to i have one address and one type with time, and record g is the first of them. */
  ghost predicate Group(rs: seq<Record>, typ: nat, g: nat, i: nat) {
    && g <= i < |rs| && typ in {30, 36}
    && (forall k :: g <= k <= i ==> rs[k].addr == rs[g].addr && TypeId(rs[k].info) == typ)
    && (g == 0 || rs[g - 1].addr != rs[g].addr || TypeId(rs[g - 1].info) != typ)
  }

  lemma {:induction false} TimedLength(b: Block, typ: nat)
    requires b.recs != [] && AllValid(b.recs) && !b.sq && typ in {30, 36} && Of(b.recs, typ, b.recs[0].addr)
    ensures DataLength(b) == |b.recs| * (if typ == 30 then 22 else 30)
  {
    ObjsLength(b.recs, typ, b.recs[0].addr);
  }

  lemma {:induction false} TimedJoin(b: Block, r: Record, typ: nat)
    requires b.recs != [] && AllValid(b.recs) && !b.sq && typ in {30, 36} && Of(b.recs, typ, b.recs[0].addr)
    requires TypeId(r.info) == typ && |b.recs| <= Full(typ)
    ensures Join(b, r) == if |b.recs| < Full(typ) then Some(Block(false, b.recs + [r])) else None
  {
    TimedLength(b, typ);
  }

  /** The last record from g on, up to i, that a multiple of the capacity separates from g. */
  function Since(typ: nat, g: nat, i: nat): (j: nat)
    requires g <= i
    ensures g <= j <= i < j + Full(typ)
  {
    i - (i - g) % Full(typ)
  }

  lemma SinceNext(typ: nat, g: nat, i: nat)
    requires g < i
    ensures var j := Since(typ, g, i - 1);
      && j < i <= j + Full(typ)
      && Since(typ, g, i) == (if i == j + Full(typ) then i else j)
      && (i - g) / Full(typ) == (i - 1 - g) / Full(typ) + if i == j + Full(typ) then 1 else 0
  {
    if typ == 30 {
      assert Full(typ) == 22;
    } else {
      assert Full(typ) == 16;
    }
  }

  /** A record that joins leaves the ASDUs before as they are; one that opens adds the open one. */
  lemma {:induction false} NextDone(rs: seq<Record>, ps: seq<Packing>, n: nat, b: Block)
    requires Traces(rs, ps) && n < |rs| && ps[n].pending == Some(b) && b.recs != [] && AllValid(b.recs)
    requires rs[n].addr == b.recs[0].addr && TypeId(rs[n].info) == Type(b)
    ensures |ps[n + 1].done| == |ps[n].done| + if Join(b, rs[n]).Some? then 0 else 1
  {
    assert Leads(rs, ps, n);
  }

  /** Within a group, the open ASDU holds the records since the last multiple of its capacity. */
  lemma {:induction false} GroupPending(rs: seq<Record>, ps: seq<Packing>, typ: nat, g: nat, i: nat)
    requires Traces(rs, ps) && Group(rs, typ, g, i) && OpensIn(rs, ps, g)
    ensures ps[i + 1].pending == Some(Block(false, rs[Since(typ, g, i)..i + 1]))
    ensures |ps[i + 1].done| == |ps[g + 1].done| + (i - g) / Full(typ)
    decreases i
  {
    if i == g {
      assert rs[i..i + 1] == [rs[i]];
    } else {
      GroupPending(rs, ps, typ, g, i - 1);
      SinceNext(typ, g, i);
      var j := Since(typ, g, i - 1);
      if i == j + Full(typ) {
        GroupOpens(rs, ps, typ, g, j, i);
        assert rs[i..i + 1] == [rs[i]];
      } else {
        GroupTakes(rs, ps, typ, g, j, i);
      }
    }
  }

  /** An ASDU with room takes the next record of the group ... */
  lemma {:induction false} GroupTakes(rs: seq<Record>, ps: seq<Packing>, typ: nat, g: nat, j: nat, i: nat)
    requires Traces(rs, ps) && Group(rs, typ, g, i) && g <= j < i < j + Full(typ)
    requires ps[i].pending == Some(Block(false, rs[j..i]))
    ensures ps[i + 1].pending == Some(Block(false, rs[j..i + 1])) && |ps[i + 1].done| == |ps[i].done|
  {
    var b := Block(false, rs[j..i]);
    GroupSlice(rs, typ, g, i, j);
    TimedJoin(b, rs[i], typ);
    NextDone(rs, ps, i, b);
    NextJoins(rs, ps, i, b, Block(false, b.recs + [rs[i]]));
    SliceMore(rs, j, i);
  }

  /** ... and a full one gives way to a new one. */
  lemma {:induction false} GroupOpens(rs: seq<Record>, ps: seq<Packing>, typ: nat, g: nat, j: nat, i: nat)
    requires Traces(rs, ps) && Group(rs, typ, g, i) && g <= j < i == j + Full(typ)
    requires ps[i].pending == Some(Block(false, rs[j..i]))
    ensures OpensIn(rs, ps, i) && |ps[i + 1].done| == |ps[i].done| + 1
  {
    var b := Block(false, rs[j..i]);
    GroupSlice(rs, typ, g, i, j);
    TimedJoin(b, rs[i], typ);
    NextDone(rs, ps, i, b);
    NextRefuses(rs, ps, i, b);
  }

  lemma {:induction false} GroupSlice(rs: seq<Record>, typ: nat, g: nat, i: nat, j: nat)
    requires AllValid(rs) && Group(rs, typ, g, i) && g <= j < i
    ensures var xs := rs[j..i];
      && AllValid(xs) && Of(xs, typ, xs[0].addr)
      && rs[i].addr == xs[0].addr && TypeId(rs[i].info) == typ == TypeId(xs[0].info)
  {
    var xs := rs[j..i];
    forall k | 0 <= k < |xs| ensures xs[k].addr == rs[g].addr && TypeId(xs[k].info) == typ && ValidRecord(xs[k]) {
      assert xs[k] == rs[j + k];
    }
  }

  /** In any input, of the records of a group exactly every 22nd single point, or 16th measured
      value, opens an ASDU. */
  lemma {:induction false} TimedOpensIff(rs: seq<Record>, typ: nat, g: nat, i: nat)
    requires AllValid(rs) && Group(rs, typ, g, i)
    ensures Opens(rs, i) <==> (i - g) % Full(typ) == 0
  {
    BoundaryOpens(rs, g);
    var ps := PackTraces(rs);
    GroupOpensIff(rs, ps, typ, g, i);
  }

  lemma {:induction false} GroupOpensIff(rs: seq<Record>, ps: seq<Packing>, typ: nat, g: nat, i: nat)
    requires Traces(rs, ps) && Group(rs, typ, g, i) && OpensIn(rs, ps, g)
    ensures OpensIn(rs, ps, i) <==> (i - g) % Full(typ) == 0
  {
    GroupPending(rs, ps, typ, g, i);
    var j := Since(typ, g, i);
    assert |rs[j..i + 1]| == i + 1 - j;
    if j == i {
      assert rs[i..i + 1] == [rs[i]];
    }
  }

  /** So n records of one address and one type with time make n / 22, or n / 16, ASDUs, rounded up. */
  lemma {:induction false} TimedBlocks(rs: seq<Record>, typ: nat)
    requires AllValid(rs) && rs != [] && Group(rs, typ, 0, |rs| - 1)
    ensures |Blocks(Pack(rs))| == if typ == 30 then (|rs| + 21) / 22 else (|rs| + 15) / 16
  {
    BoundaryOpens(rs, 0);
    var ps := PackTraces(rs);
    assert rs[..|rs|] == rs && ps[|rs|] == Pack(rs);
    GroupBlocks(rs, ps, typ);
  }

  lemma {:induction false} GroupBlocks(rs: seq<Record>, ps: seq<Packing>, typ: nat)
    requires Traces(rs, ps) && rs != [] && Group(rs, typ, 0, |rs| - 1) && OpensIn(rs, ps, 0)
    ensures |Blocks(ps[|rs|])| == (|rs| - 1) / Full(typ) + 1
  {
    GroupPending(rs, ps, typ, 0, |rs| - 1);
    FirstDone(rs, ps);
  }

  lemma {:induction false} FirstDone(rs: seq<Record>, ps: seq<Packing>)
    requires Traces(rs, ps) && rs != []
    ensures ps[1].done == []
  {
    assert Leads(rs, ps, 0);
  }
}
