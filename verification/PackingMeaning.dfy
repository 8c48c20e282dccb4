/** Packing preserves meaning: decoding every printed ASDU gives the records back, exactly as
    long as no ASDU counts more than 127 objects. */
module PackingMeaning {
  import opened Basics
  import opened Octets
  import opened HexText
  import opened AsduCodec
  import opened AsduPacker

  // ---------- one ASDU ----------

  lemma {:induction false} ObjDecodes(r: Record)
    requires ValidRecord(r)
    ensures var os, len := ObjOctets(r), 3 + ElemLength(TypeId(r.info));
      |os| == len && FromLittleEndian(os[..3]) == r.obj && os[3..len] == ElemOctets(r.info)
  {
    assert Pow256(3) == 256 * Pow256(2) == 65536 * Pow256(1) == 16777216;
    LittleEndianLength(r.obj, 3);
    FromToLittleEndian(r.obj, 3);
    ElemOctetsLength(r.info);
    assert ObjOctets(r)[..3] == LittleEndian(r.obj, 3);
    assert ObjOctets(r)[3..] == ElemOctets(r.info);
  }

  lemma Front(a: seq<Octet>, b: seq<Octet>, k: nat)
    requires k <= |a|
    ensures (a + b)[..k] == a[..k] && (a + b)[k..|a|] == a[k..] && (a + b)[|a|..] == b
    ensures a[..|a|] == a && a[k..|a|] == a[k..]
  {
  }

  lemma {:induction false} EachDecodes(typ: nat, addr: nat, rs: seq<Record>)
    requires AllValid(rs) && Of(rs, typ, addr) && typ in {1, 13, 30, 36}
    ensures DecodeEach(typ, addr, |rs|, Objs(rs)) == Some(rs)
    decreases |rs|
  {
    if rs != [] {
      EachDecodes(typ, addr, rs[1..]);
      OneDecodes(typ, addr, rs[0], |rs| - 1, Objs(rs[1..]));
      assert [rs[0]] + rs[1..] == rs;
    }
  }

  lemma {:induction false} OneDecodes(typ: nat, addr: nat, r: Record, n: nat, more: seq<Octet>)
    requires ValidRecord(r) && r.addr == addr && TypeId(r.info) == typ && typ in {1, 13, 30, 36}
    ensures DecodeEach(typ, addr, n + 1, ObjOctets(r) + more) ==
      (var rest := DecodeEach(typ, addr, n, more);
       if rest.None? then None else Some([r] + rest.value))
  {
    ObjDecodes(r);
    ElemDecodes(r.info);
    Front(ObjOctets(r), more, 3);
  }

  lemma {:induction false} RunDecodes(typ: nat, addr: nat, obj: nat, rs: seq<Record>)
    requires AllValid(rs) && Of(rs, typ, addr) && typ in {1, 13, 30, 36}
    requires forall i :: 0 <= i < |rs| ==> rs[i].obj == obj + i
    ensures DecodeRun(typ, addr, obj, |rs|, Elems(rs)) == Some(rs)
    decreases |rs|
  {
    if rs != [] {
      RunDecodes(typ, addr, obj + 1, rs[1..]);
      NextDecodes(typ, addr, obj, rs[0], |rs| - 1, Elems(rs[1..]));
      assert [rs[0]] + rs[1..] == rs;
    }
  }

  lemma {:induction false} NextDecodes(typ: nat, addr: nat, obj: nat, r: Record, n: nat, more: seq<Octet>)
    requires ValidRecord(r) && r.addr == addr && r.obj == obj && TypeId(r.info) == typ && typ in {1, 13, 30, 36}
    ensures DecodeRun(typ, addr, obj, n + 1, ElemOctets(r.info) + more) ==
      (var rest := DecodeRun(typ, addr, obj + 1, n, more);
       if rest.None? then None else Some([r] + rest.value))
  {
    ElemDecodes(r.info);
    Front(ElemOctets(r.info), more, ElemLength(typ));
  }

  lemma {:induction false} EachLength(typ: nat, addr: nat, n: nat, os: seq<Octet>)
    requires typ in {1, 13, 30, 36}
    ensures DecodeEach(typ, addr, n, os).Some? ==> |DecodeEach(typ, addr, n, os).value| == n
    decreases n
  {
    var len := 3 + ElemLength(typ);
    if n > 0 && |os| >= len {
      EachLength(typ, addr, n - 1, os[len..]);
    }
  }

  /** Only a sequence of single points can hold more than 127 objects, and at most 246. */
  lemma {:induction false} CountBounds(b: Block)
    requires Good(b)
    ensures |b.recs| > 127 ==> b.sq && Type(b) == 1
    ensures |b.recs| <= 246 && Vsq(b) < 4096
  {
    var n := |b.recs|;
    if b.sq {
      ElemsLength(b.recs, Type(b), b.recs[0].addr);
      LittleEndianLength(b.recs[0].obj, 3);
      CountStep(n, ElemLength(Type(b)), if Type(b) == 1 then 1 else 5);
    } else {
      ObjsLength(b.recs, Type(b), b.recs[0].addr);
      CountStep(n, 3 + ElemLength(Type(b)), 4);
    }
  }

  lemma CountStep(n: nat, k: nat, least: nat)
    requires k >= least
    ensures n * k >= n * least
  {
  }

  lemma {:induction false} HeaderReads(typ: Octet, vsq: Octet, cot: nat, addr: nat, body: seq<Octet>)
    requires addr < 65536
    ensures var os := HeaderOctets(typ, vsq, cot, addr) + body;
      && |os| == 6 + |body| && os[0] == typ && os[1] == vsq && os[6..] == body
      && FromLittleEndian(os[4..6]) == addr && (cot < 65536 ==> FromLittleEndian(os[2..4]) == cot)
  {
    LittleEndianLength(cot, 2);
    LittleEndianLength(addr, 2);
    assert Pow256(2) == 256 * Pow256(1) == 65536;
    FromToLittleEndian(addr, 2);
    var os := HeaderOctets(typ, vsq, cot, addr) + body;
    assert os[4..6] == LittleEndian(addr, 2) && os[2..4] == LittleEndian(cot, 2);
    if cot < 65536 {
      FromToLittleEndian(cot, 2);
    }
  }

  lemma AsduEach(os: seq<Octet>)
    requires |os| >= 6 && os[0] in {1, 13, 30, 36} && 0 < os[1] < 128
    ensures DecodeAsdu(os) == DecodeEach(os[0], FromLittleEndian(os[4..6]), os[1], os[6..])
  {
  }

  lemma AsduRun(os: seq<Octet>)
    requires |os| >= 9 && os[0] in {1, 13, 30, 36} && 128 < os[1]
    ensures DecodeAsdu(os) ==
            DecodeRun(os[0], FromLittleEndian(os[4..6]), FromLittleEndian(os[6..][..3]), os[1] - 128, os[6..][3..])
  {
  }

  lemma {:induction false} AsduOfRun(os: seq<Octet>, addr: nat, obj: nat, n: nat, elems: seq<Octet>)
    requires |os| >= 9 && os[0] in {1, 13, 30, 36} && n > 0 && os[1] == 128 + n
    requires FromLittleEndian(os[4..6]) == addr && FromLittleEndian(os[6..][..3]) == obj && os[6..][3..] == elems
    ensures DecodeAsdu(os) == DecodeRun(os[0], addr, obj, n, elems)
  {
    AsduRun(os);
  }

  /** What the decoder makes of a printed block. */
  lemma {:induction false} LineReads(cot: nat, b: Block)
    requires Good(b) && cot < 65536
    ensures Vsq(b) < 4096
    ensures DecodeLine(Line(cot, b))
         == DecodeAsdu(HeaderOctets(Type(b), ShownOctet(Vsq(b)), cot, b.recs[0].addr) + Body(b))
  {
    CountBounds(b);
    LineParses(cot, b);
  }

  /** Up to 127 objects, an ASDU decodes to exactly the records it was made from. */
  lemma {:induction false} LineDecodes(cot: nat, b: Block)
    requires Good(b) && cot < 65536 && |b.recs| <= 127
    ensures DecodeLine(Line(cot, b)) == Some(b.recs)
  {
    LineReads(cot, b);
    if b.sq {
      RunBlockDecodes(cot, b);
    } else {
      EachBlockDecodes(cot, b);
    }
  }

  lemma {:induction false} RunBlockDecodes(cot: nat, b: Block)
    requires Good(b) && b.sq && |b.recs| <= 127
    ensures DecodeAsdu(HeaderOctets(Type(b), Vsq(b), cot, b.recs[0].addr) + Body(b)) == Some(b.recs)
  {
    var typ, addr := Type(b), b.recs[0].addr;
    HeaderReads(typ, Vsq(b), cot, addr, Body(b));
    RunBodyReads(b);
    AsduOfRun(HeaderOctets(typ, Vsq(b), cot, addr) + Body(b), addr, b.recs[0].obj, |b.recs|, Elems(b.recs));
    RunDecodes(typ, addr, b.recs[0].obj, b.recs);
  }

  lemma {:induction false} EachBlockDecodes(cot: nat, b: Block)
    requires Good(b) && !b.sq && |b.recs| <= 127
    ensures DecodeAsdu(HeaderOctets(Type(b), Vsq(b), cot, b.recs[0].addr) + Body(b)) == Some(b.recs)
  {
    var typ, addr := Type(b), b.recs[0].addr;
    HeaderReads(typ, Vsq(b), cot, addr, Body(b));
    AsduEach(HeaderOctets(typ, Vsq(b), cot, addr) + Body(b));
    EachDecodes(typ, addr, b.recs);
  }

  lemma {:induction false} RunBodyReads(b: Block)
    requires Good(b) && b.sq
    ensures var body := Body(b);
      |body| >= 3 && FromLittleEndian(body[..3]) == b.recs[0].obj && body[3..] == Elems(b.recs)
  {
    assert Pow256(3) == 256 * Pow256(2) == 65536 * Pow256(1) == 16777216;
    LittleEndianLength(b.recs[0].obj, 3);
    FromToLittleEndian(b.recs[0].obj, 3);
    assert Body(b)[..3] == LittleEndian(b.recs[0].obj, 3);
  }

  /** Beyond 127 the seven-bit count overflows into the printed digits: what is decoded, if
      anything, has fewer records. */
  lemma {:induction false} LineOverflows(cot: nat, b: Block)
    requires Good(b) && cot < 65536 && |b.recs| > 127
    ensures DecodeLine(Line(cot, b)).Some? ==> |DecodeLine(Line(cot, b)).value| < |b.recs|
  {
    CountBounds(b);
    LineReads(cot, b);
    var vsq := ShownOctet(Vsq(b));
    assert 16 <= vsq <= 23;
    HeaderReads(Type(b), vsq, cot, b.recs[0].addr, Body(b));
    AsduEach(HeaderOctets(Type(b), vsq, cot, b.recs[0].addr) + Body(b));
    EachLength(Type(b), b.recs[0].addr, vsq as int, Body(b));
  }

  /** Every line carries its type, the cause of transmission and the address in the first six
      octets. */
  lemma {:induction false} LineIdentifies(cot: nat, b: Block)
    requires Good(b) && cot < 65536
    ensures var os := Parse(Line(cot, b));
      && os.Some? && |os.value| >= 6 && os.value[0] == Type(b)
      && FromLittleEndian(os.value[2..4]) == cot && FromLittleEndian(os.value[4..6]) == b.recs[0].addr
  {
    CountBounds(b);
    LineParses(cot, b);
    HeaderReads(Type(b), ShownOctet(Vsq(b)), cot, b.recs[0].addr, Body(b));
  }

  // ---------- all ASDUs ----------

  function Lines(cot: nat, bs: seq<Block>): seq<string>
    requires forall i :: 0 <= i < |bs| ==> bs[i].recs != [] && AllValid(bs[i].recs)
  {
    if bs == [] then [] else Lines(cot, bs[..|bs| - 1]) + [Line(cot, bs[|bs| - 1])]
  }

  /** What the script prints for an input. */
  function Output(cot: nat, rs: seq<Record>): seq<string>
    requires AllValid(rs)
  {
    PackPartitions(rs);
    if rs == [] then [EmptyLine(cot)] else Lines(cot, Blocks(Pack(rs)))
  }

  function DecodeLines(ls: seq<string>): Option<seq<Record>> {
    if ls == [] then Some([])
    else
      var front, last := DecodeLines(ls[..|ls| - 1]), DecodeLine(ls[|ls| - 1]);
      if front.None? || last.None? then None else Some(front.value + last.value)
  }

  predicate CountsFit(bs: seq<Block>) { forall i :: 0 <= i < |bs| ==> |bs[i].recs| <= 127 }

  /** One more ASDU at the end. */
  lemma {:induction false} LinesSnoc(cot: nat, bs: seq<Block>, b: Block)
    requires AllGood(bs) && Good(b)
    ensures Lines(cot, bs + [b]) == Lines(cot, bs) + [Line(cot, b)]
    ensures DecodeLines(Lines(cot, bs + [b])) ==
      (var front, last := DecodeLines(Lines(cot, bs)), DecodeLine(Line(cot, b));
       if front.None? || last.None? then None else Some(front.value + last.value))
  {
    assert (bs + [b])[..|bs|] == bs;
    var ls := Lines(cot, bs) + [Line(cot, b)];
    assert ls[..|ls| - 1] == Lines(cot, bs);
  }

  lemma {:induction false} LinesDecode(cot: nat, bs: seq<Block>)
    requires AllGood(bs) && cot < 65536
    ensures var d := DecodeLines(Lines(cot, bs));
      && (CountsFit(bs) ==> d == Some(Flatten(bs)))
      && (d.Some? ==> |d.value| <= |Flatten(bs)|)
      && (!CountsFit(bs) && d.Some? ==> |d.value| < |Flatten(bs)|)
    decreases |bs|
  {
    if bs != [] {
      var front, b := bs[..|bs| - 1], bs[|bs| - 1];
      SplitLast(bs);
      LinesDecode(cot, front);
      LinesSnoc(cot, front, b);
      FlattenSnoc(front, b);
      CountsFitSnoc(front, b);
      if |b.recs| <= 127 {
        LineDecodes(cot, b);
      } else {
        LineOverflows(cot, b);
      }
    }
  }

  lemma {:induction false} CountsFitSnoc(bs: seq<Block>, b: Block)
    ensures CountsFit(bs + [b]) <==> CountsFit(bs) && |b.recs| <= 127
  {
    var cs := bs + [b];
    assert forall i :: 0 <= i < |bs| ==> cs[i] == bs[i];
    assert cs[|bs|] == b;
  }

  lemma {:induction false} EmptyDecodes(cot: nat)
    requires cot < 65536
    ensures DecodeLines([EmptyLine(cot)]) == Some([])
  {
    EmptyReads(cot);
    var ls := [EmptyLine(cot)];
    assert ls[..|ls| - 1] == [] && ls[|ls| - 1] == EmptyLine(cot);
    var none: seq<Record> := [];
    assert none + none == none;
  }

  lemma {:induction false} EmptyReads(cot: nat)
    requires cot < 65536
    ensures DecodeLine(EmptyLine(cot)) == Some([])
  {
    HeaderExact(0, 0, cot, 0);
    HeaderReads(0, 0, cot, 0, []);
    var os := HeaderOctets(0, 0, cot, 0);
    assert os + [] == os;
    ParsePrint(os);
  }

  /** Meaning is preserved, records and order, if and only if every ASDU counts at most 127. */
  lemma {:induction false} PackingPreservesMeaning(cot: nat, rs: seq<Record>)
    requires AllValid(rs) && cot < 65536
    ensures DecodeLines(Output(cot, rs)) == Some(rs) <==> CountsFit(Blocks(Pack(rs)))
  {
    PackPartitions(rs);
    if rs == [] {
      EmptyDecodes(cot);
      assert Blocks(Pack(rs)) == [];
    } else {
      LinesDecode(cot, Blocks(Pack(rs)));
    }
  }
}
