/** The packer: records in a row become ASDUs, with one address for a run of consecutive
    objects (SQ = 1) or one per object (SQ = 0).  `Next` gives the grouping; class `Packer` is
    the script's accumulators, updated record by record.
 */
module AsduPacker {
  import opened Basics
  import opened Octets
  import opened HexText
  import opened AsduCodec

  const LIMIT: nat := 498   // hexadecimal digits of DATA

  /** The records of one ASDU. */
  datatype Block = Block(sq: bool, recs: seq<Record>)

  /** ASDUs printed so far and the one being filled. */
  datatype Packing = Packing(done: seq<Block>, pending: Option<Block>)

  // ---------- octets of a block ----------

  predicate AllValid(rs: seq<Record>) { forall i :: 0 <= i < |rs| ==> ValidRecord(rs[i]) }

  function Objs(rs: seq<Record>): seq<Octet>
    requires AllValid(rs)
  {
    if rs == [] then [] else ObjOctets(rs[0]) + Objs(rs[1..])
  }

  function Elems(rs: seq<Record>): seq<Octet>
    requires AllValid(rs)
  {
    if rs == [] then [] else ElemOctets(rs[0].info) + Elems(rs[1..])
  }

  function Body(b: Block): seq<Octet>
    requires AllValid(b.recs) && b.recs != []
  {
    if b.sq then RunBody(b.recs) else Objs(b.recs)
  }

  function Type(b: Block): nat
    requires b.recs != []
  {
    TypeId(b.recs[0].info)
  }

  function DataLength(b: Block): nat
    requires AllValid(b.recs) && b.recs != []
  {
    2 * |Body(b)|
  }

  // ---------- grouping ----------

  function Start(r: Record): Block { Block(false, [r]) }

  function Add(b: Block, sq: bool, r: Record): Block { Block(sq, b.recs + [r]) }

  function IeLength(r: Record): nat { 2 * ElemLength(TypeId(r.info)) }

  function ObjLength(r: Record): nat { 6 + IeLength(r) }

  predicate Timed(r: Record) { r.info.SinglePointAt? || r.info.MeasuredAt? }

  /** What assemble_asdu does with a record of the same address and type: the block it joins,
      or None when the block must be printed first. */
  function Join(b: Block, r: Record): Option<Block>
    requires AllValid(b.recs) && b.recs != []
  {
    var last := b.recs[|b.recs| - 1].obj;
    if Timed(r) then
      if DataLength(b) + ObjLength(r) > LIMIT then None else Some(Add(b, b.sq, r))
    else if DataLength(b) + IeLength(r) > LIMIT then None
    else if r.obj == last + 1 then
      if !b.sq && |b.recs| == 1 then Some(Add(b, true, r))
      else if b.sq then Some(Add(b, true, r))
      else None
    else if DataLength(b) + ObjLength(r) > LIMIT then None
    else if !b.sq then Some(Add(b, false, r))
    else None
  }

  function Next(p: Packing, r: Record): Packing
    requires p.pending.Some? ==> p.pending.value.recs != [] && AllValid(p.pending.value.recs)
  {
    if p.pending.None? then p.(pending := Some(Start(r)))
    else
      var b := p.pending.value;
      var j := if r.addr != b.recs[0].addr || TypeId(r.info) != Type(b) then None else Join(b, r);
      if j.Some? then p.(pending := j) else Packing(p.done + [b], Some(Start(r)))
  }

  // ---------- what a block keeps ----------

  predicate Alike(rs: seq<Record>) {
    forall i :: 0 <= i < |rs| ==> rs[i].addr == rs[0].addr && TypeId(rs[i].info) == TypeId(rs[0].info)
  }

  predicate Consecutive(rs: seq<Record>) {
    forall i :: 0 <= i < |rs| ==> rs[i].obj == rs[0].obj + i
  }

  /** One address, one type, DATA within the limit; a sequence block numbers its objects
      consecutively and carries no time. */
  predicate Good(b: Block) {
    && b.recs != [] && AllValid(b.recs) && Alike(b.recs)
    && (b.sq ==> Consecutive(b.recs) && Type(b) in {1, 13})
    && DataLength(b) <= LIMIT
  }

  predicate Of(rs: seq<Record>, typ: nat, addr: nat) {
    forall i :: 0 <= i < |rs| ==> rs[i].addr == addr && TypeId(rs[i].info) == typ
  }

  lemma {:induction false} ObjsLength(rs: seq<Record>, typ: nat, addr: nat)
    requires AllValid(rs) && Of(rs, typ, addr)
    ensures |Objs(rs)| == |rs| * (3 + ElemLength(typ))
  {
    if rs != [] {
      ElemOctetsLength(rs[0].info);
      LittleEndianLength(rs[0].obj, 3);
      ObjsLength(rs[1..], typ, addr);
      var k := 3 + ElemLength(typ);
      assert |rs| * k == (|rs| - 1) * k + k;
    }
  }

  lemma {:induction false} ElemsLength(rs: seq<Record>, typ: nat, addr: nat)
    requires AllValid(rs) && Of(rs, typ, addr)
    ensures |Elems(rs)| == |rs| * ElemLength(typ)
  {
    if rs != [] {
      ElemOctetsLength(rs[0].info);
      ElemsLength(rs[1..], typ, addr);
      var k := ElemLength(typ);
      assert |rs| * k == (|rs| - 1) * k + k;
    }
  }

  lemma {:induction false} Singles(r: Record)
    requires ValidRecord(r)
    ensures Objs([r]) == ObjOctets(r) && Elems([r]) == ElemOctets(r.info)
  {
    assert [r][1..] == [];
    assert ObjOctets(r) + [] == ObjOctets(r);
    assert ElemOctets(r.info) + [] == ElemOctets(r.info);
  }

  lemma {:induction false} ObjsSnoc(rs: seq<Record>, r: Record)
    requires AllValid(rs) && ValidRecord(r)
    ensures Objs(rs + [r]) == Objs(rs) + ObjOctets(r)
  {
    if rs == [] {
      assert rs + [r] == [r];
      Singles(r);
      assert [] + ObjOctets(r) == ObjOctets(r);
    } else {
      ObjsSnoc(rs[1..], r);
      assert (rs + [r])[1..] == rs[1..] + [r];
      Assoc(ObjOctets(rs[0]), Objs(rs[1..]), ObjOctets(r));
    }
  }

  lemma {:induction false} ElemsSnoc(rs: seq<Record>, r: Record)
    requires AllValid(rs) && ValidRecord(r)
    ensures Elems(rs + [r]) == Elems(rs) + ElemOctets(r.info)
  {
    if rs == [] {
      assert rs + [r] == [r];
      Singles(r);
      assert [] + ElemOctets(r.info) == ElemOctets(r.info);
    } else {
      ElemsSnoc(rs[1..], r);
      assert (rs + [r])[1..] == rs[1..] + [r];
      Assoc(ElemOctets(rs[0].info), Elems(rs[1..]), ElemOctets(r.info));
    }
  }

  lemma {:induction false} StartGood(r: Record)
    requires ValidRecord(r)
    ensures Good(Start(r)) && Body(Start(r)) == ObjOctets(r)
  {
    Singles(r);
    ElemOctetsLength(r.info);
    LittleEndianLength(r.obj, 3);
  }

  lemma {:induction false} AddLength(b: Block, r: Record)
    requires Good(b) && ValidRecord(r)
    ensures Objs(b.recs + [r]) == Objs(b.recs) + ObjOctets(r)
    ensures Elems(b.recs + [r]) == Elems(b.recs) + ElemOctets(r.info)
    ensures |ObjOctets(r)| == 3 + ElemLength(TypeId(r.info)) && |ElemOctets(r.info)| == ElemLength(TypeId(r.info))
  {
    ObjsSnoc(b.recs, r);
    ElemsSnoc(b.recs, r);
    ElemOctetsLength(r.info);
    LittleEndianLength(r.obj, 3);
  }

  function RunBody(rs: seq<Record>): seq<Octet>
    requires AllValid(rs) && rs != []
  {
    LittleEndian(rs[0].obj, 3) + Elems(rs)
  }

  /** A single object reads the same whether addressed alone or as a sequence. */
  lemma {:induction false} SingleBody(r: Record)
    requires ValidRecord(r)
    ensures RunBody([r]) == Objs([r])
  {
    Singles(r);
  }

  lemma {:induction false} RunAdd(rs: seq<Record>, r: Record)
    requires AllValid(rs) && rs != [] && ValidRecord(r)
    ensures RunBody(rs + [r]) == RunBody(rs) + ElemOctets(r.info)
  {
    var lead := LittleEndian(rs[0].obj, 3);
    ElemsSnoc(rs, r);
    assert (rs + [r])[0] == rs[0];
    Assoc(lead, Elems(rs), ElemOctets(r.info));
  }

  /** SQ is chosen by the second record of a block. */
  predicate MayUse(b: Block, sq: bool) { sq == b.sq || (sq && |b.recs| == 1) }

  /** How DATA grows: a whole object, or just the element in a sequence. */
  lemma {:induction false} BodyAdd(b: Block, sq: bool, r: Record)
    requires Good(b) && ValidRecord(r) && MayUse(b, sq)
    ensures AllValid(b.recs + [r])
    ensures Body(Add(b, sq, r)) == Body(b) + (if sq then ElemOctets(r.info) else ObjOctets(r))
    ensures |Body(Add(b, sq, r))| == |Body(b)| + (if sq then 0 else 3) + ElemLength(TypeId(r.info))
  {
    AddLength(b, r);
    if sq {
      RunAdd(b.recs, r);
      if !b.sq {
        assert b.recs == [b.recs[0]];
        SingleBody(b.recs[0]);
      }
    }
  }

  lemma {:induction false} AddGood(b: Block, sq: bool, r: Record)
    requires Good(b) && ValidRecord(r) && MayUse(b, sq) && r.addr == b.recs[0].addr && TypeId(r.info) == Type(b)
    requires sq ==> r.obj == b.recs[|b.recs| - 1].obj + 1 && Type(b) in {1, 13}
    requires DataLength(b) + (if sq then IeLength(r) else ObjLength(r)) <= LIMIT
    ensures Good(Add(b, sq, r))
  {
    BodyAdd(b, sq, r);
    var rs := b.recs + [r];
    assert rs[0] == b.recs[0];
    assert Alike(rs);
    if sq {
      forall i | 0 <= i < |rs| ensures rs[i].obj == rs[0].obj + i {
        if i < |b.recs| && !b.sq {
          assert i == 0;
        }
      }
    }
  }

  lemma {:induction false} JoinGood(b: Block, r: Record)
    requires Good(b) && ValidRecord(r) && r.addr == b.recs[0].addr && TypeId(r.info) == Type(b)
    requires Join(b, r).Some?
    ensures var sq := Join(b, r).value.sq;
      Join(b, r).value == Add(b, sq, r) && MayUse(b, sq) && Good(Add(b, sq, r))
  {
    AddGood(b, Join(b, r).value.sq, r);
  }

  /** Everything printed is good, and printed and pending blocks together are the input. */
  ghost predicate Sound(p: Packing) {
    && (forall i :: 0 <= i < |p.done| ==> Good(p.done[i]))
    && (p.pending.Some? ==> Good(p.pending.value))
    && (p.pending.None? ==> p.done == [])
  }

  function Flatten(bs: seq<Block>): seq<Record> {
    if bs == [] then [] else Flatten(bs[..|bs| - 1]) + bs[|bs| - 1].recs
  }

  function Blocks(p: Packing): seq<Block> { p.done + (if p.pending.Some? then [p.pending.value] else []) }

  lemma {:induction false} FlattenSnoc(bs: seq<Block>, b: Block)
    ensures Flatten(bs + [b]) == Flatten(bs) + b.recs
  {
    assert (bs + [b])[..|bs|] == bs;
  }

  lemma {:induction false} Joined(p: Packing, r: Record)
    requires Sound(p) && ValidRecord(r) && p.pending.Some?
    requires r.addr == p.pending.value.recs[0].addr && TypeId(r.info) == Type(p.pending.value)
    requires Join(p.pending.value, r).Some?
    ensures Sound(Next(p, r)) && Flatten(Blocks(Next(p, r))) == Flatten(Blocks(p)) + [r]
  {
    var b := p.pending.value;
    JoinGood(b, r);
    FlattenSnoc(p.done, b);
    FlattenSnoc(p.done, Add(b, Join(b, r).value.sq, r));
    assert Flatten(p.done) + (b.recs + [r]) == (Flatten(p.done) + b.recs) + [r];
  }

  lemma {:induction false} Began(p: Packing, r: Record)
    requires Sound(p) && ValidRecord(r)
    ensures var n := Packing(Blocks(p), Some(Start(r)));
      Sound(n) && Flatten(Blocks(n)) == Flatten(Blocks(p)) + [r]
  {
    StartGood(r);
    FlattenSnoc(Blocks(p), Start(r));
  }

  lemma {:induction false} NextSound(p: Packing, r: Record)
    requires Sound(p) && ValidRecord(r)
    ensures Sound(Next(p, r)) && Flatten(Blocks(Next(p, r))) == Flatten(Blocks(p)) + [r]
  {
    if p.pending.Some? && r.addr == p.pending.value.recs[0].addr
       && TypeId(r.info) == Type(p.pending.value) && Join(p.pending.value, r).Some? {
      Joined(p, r);
    } else {
      Began(p, r);
      assert Next(p, r) == Packing(Blocks(p), Some(Start(r)));
    }
  }

  /** All records, one after another. */
  function Pack(rs: seq<Record>): (q: Packing)
    requires AllValid(rs)
    ensures Sound(q)
  {
    if rs == [] then Packing([], None)
    else
      var p, r := Pack(rs[..|rs| - 1]), rs[|rs| - 1];
      NextSound(p, r);
      Next(p, r)
  }

  lemma SplitLast<T>(xs: seq<T>)
    requires xs != []
    ensures xs == xs[..|xs| - 1] + [xs[|xs| - 1]]
  {
  }

  predicate AllGood(bs: seq<Block>) { forall i :: 0 <= i < |bs| ==> Good(bs[i]) }

  lemma BlocksGood(p: Packing)
    requires Sound(p)
    ensures AllGood(Blocks(p))
  {
  }

  lemma {:induction false} PackFlattens(rs: seq<Record>)
    requires AllValid(rs)
    ensures Flatten(Blocks(Pack(rs))) == rs
    ensures Pack(rs).pending.None? <==> rs == []
    decreases |rs|
  {
    if rs != [] {
      var front, r := rs[..|rs| - 1], rs[|rs| - 1];
      PackFlattens(front);
      NextSound(Pack(front), r);
      SplitLast(rs);
    }
  }

  /** The grouping is an ordered partition of the input into good blocks. */
  lemma {:induction false} PackPartitions(rs: seq<Record>)
    requires AllValid(rs)
    ensures Flatten(Blocks(Pack(rs))) == rs && AllGood(Blocks(Pack(rs)))
    ensures Blocks(Pack(rs)) == [] <==> rs == []
  {
    PackFlattens(rs);
    BlocksGood(Pack(rs));
  }

  // ---------- the printed line ----------

  function Header(typ: nat, vsq: nat, cot: nat, addr: nat): string {
    Int2Hex(typ, 1) + Int2Hex(vsq, 1) + Int2Hex(cot, 2) + Int2Hex(addr, 2)
  }

  function Vsq(b: Block): nat { (if b.sq then 128 else 0) + |b.recs| }

  function Line(cot: nat, b: Block): string
    requires AllValid(b.recs) && b.recs != []
  {
    Header(Type(b), Vsq(b), cot, b.recs[0].addr) + Print(Body(b))
  }

  /** What END prints when no record was taken. */
  function EmptyLine(cot: nat): string { Header(0, 0, cot, 0) }

  /** The octet that one-octet int2hex really prints: the number, or its leading digits. */
  function ShownOctet(v: nat): Octet
    requires v < 4096
  {
    if v < 256 then v else v / 16
  }

  lemma {:induction false} ShownExact(v: nat)
    requires v < 4096
    ensures Int2Hex(v, 1) == Print([ShownOctet(v)])
  {
    if v < 256 {
      OneOctet(v);
    } else {
      assert Hex(v) == Hex(v / 16) + [Digit(v % 16)];
      assert Hex(v / 16) == Hex(v / 256) + [Digit(v / 16 % 16)] by {
        assert v / 16 / 16 == v / 256;
      }
      var s := Padded(v, 2);
      assert s == [Digit(v / 256), Digit(v / 16 % 16), Digit(v % 16)];
      PaddedLength(v, 2);
      assert PairsReversed(s, 1) == s[0..2] + PairsReversed(s, 0) == s[0..2];
      assert v / 16 / 16 == v / 256;
      assert Print([(v / 16) as Octet]) == PrintOctet((v / 16) as Octet) + Print([]);
    }
  }

  function HeaderOctets(typ: Octet, vsq: Octet, cot: nat, addr: nat): seq<Octet> {
    [typ, vsq] + LittleEndian(cot, 2) + LittleEndian(addr, 2)
  }

  lemma {:induction false} HeaderExact(typ: nat, vsq: nat, cot: nat, addr: nat)
    requires typ < 256 && vsq < 4096 && cot < 65536 && addr < 65536
    ensures Header(typ, vsq, cot, addr) == Print(HeaderOctets(typ, ShownOctet(vsq), cot, addr))
  {
    assert Pow256(2) == 256 * Pow256(1) == 65536;
    OneOctet(typ);
    ShownExact(vsq);
    Int2HexExact(cot, 2);
    Int2HexExact(addr, 2);
    var a, b := [typ as Octet], [ShownOctet(vsq)];
    PrintConcat(a, b);
    PrintConcat(a + b, LittleEndian(cot, 2));
    PrintConcat(a + b + LittleEndian(cot, 2), LittleEndian(addr, 2));
    assert a + b == [typ as Octet, ShownOctet(vsq)];
  }

  /** A line parses to its header and body octets. */
  lemma {:induction false} LineParses(cot: nat, b: Block)
    requires Good(b) && cot < 65536 && Vsq(b) < 4096
    ensures Parse(Line(cot, b))
         == Some(HeaderOctets(Type(b), ShownOctet(Vsq(b)), cot, b.recs[0].addr) + Body(b))
  {
    var h := HeaderOctets(Type(b), ShownOctet(Vsq(b)), cot, b.recs[0].addr);
    HeaderExact(Type(b), Vsq(b), cot, b.recs[0].addr);
    PrintConcat(h, Body(b));
    ParsePrint(h + Body(b));
  }
}
