/** The script's accumulators, updated record by record.  Lines of other types only advance the
    record counter. */
module AsduConv {
  import opened Basics
  import opened Octets
  import opened HexText
  import opened AsduCodec
  import opened AsduPacker
  import opened PackingMeaning

  /** The records among the input lines. */
  function Known(input: seq<Option<Record>>): seq<Record> {
    if input == [] then []
    else Known(input[..|input| - 1]) + (var l := input[|input| - 1]; if l.Some? then [l.value] else [])
  }

  predicate ValidInput(input: seq<Option<Record>>) {
    forall i :: 0 <= i < |input| ==> input[i].Some? ==> ValidRecord(input[i].value)
  }

  /** What printing the pending block and starting another does to the packing. */
  lemma {:induction false} Restarted(cot: nat, p: Packing, r: Record)
    requires Sound(p) && p.pending.Some? && ValidRecord(r)
    ensures var b := p.pending.value;
      && Blocks(p) == p.done + [b] && AllGood(p.done) && AllGood(Blocks(p))
      && Lines(cot, Blocks(p)) == Lines(cot, p.done) + [Line(cot, b)]
      && Sound(Packing(Blocks(p), Some(Start(r))))
  {
    StartGood(r);
    BlocksGood(p);
    LinesSnoc(cot, p.done, p.pending.value);
  }

  /** DATA grows by the text of an element or of a whole object. */
  lemma {:induction false} AppendedText(b: Block, run: bool, r: Record)
    requires Good(b) && ValidRecord(r) && MayUse(b, run)
    ensures AllValid(b.recs + [r])
    ensures Print(Body(Add(b, run, r))) == Print(Body(b)) + (if run then IeHex(r.info) else FormObj(r))
  {
    BodyAdd(b, run, r);
    IeHexExact(r.info);
    FormObjExact(r);
    PrintConcat(Body(b), ElemOctets(r.info));
    PrintConcat(Body(b), ObjOctets(r));
  }

  /** The script's globals: TYPE, COUNT, ADDR, OBJ_ADDR, SQ, NUMHR and DATA. */
  datatype Acc = Acc(asduType: nat, asduCount: nat, asduAddr: nat, objAddr: nat, sq: nat, numhr: nat, data: string)

  const UNSET := Acc(0, 0, 0, 0, 0, 0, "")

  /** The accumulators describe a block. */
  ghost predicate Holds(a: Acc, b: Block)
    requires b.recs != [] && AllValid(b.recs)
  {
    && a.asduType == Type(b) && a.asduCount == |b.recs| && a.asduAddr == b.recs[0].addr
    && a.objAddr == b.recs[|b.recs| - 1].obj && a.sq == Bit(b.sq)
    && a.data == Print(Body(b))
  }

  /** ... or nothing, before the first record. */
  ghost predicate Shows(a: Acc, p: Packing)
    requires Sound(p)
  {
    if p.pending.None? then a == UNSET else Holds(a, p.pending.value)
  }

  /** What print_asdu prints. */
  function Printed(cot: nat, a: Acc): string {
    Header(a.asduType, a.sq * 128 + a.asduCount, cot, a.asduAddr) + a.data
  }

  lemma PrintedLine(cot: nat, a: Acc, b: Block)
    requires b.recs != [] && AllValid(b.recs) && Holds(a, b)
    ensures Printed(cot, a) == Line(cot, b)
  {
  }

  lemma PrintedEmpty(cot: nat)
    ensures Printed(cot, UNSET) == EmptyLine(cot)
  {
  }

  lemma {:induction false} StartHolds(r: Record, nr: nat)
    requires ValidRecord(r)
    ensures Holds(Acc(TypeId(r.info), 1, r.addr, r.obj, 0, nr, FormObj(r)), Start(r)) && Good(Start(r))
  {
    StartGood(r);
    FormObjExact(r);
  }

  lemma {:induction false} AppendHolds(a: Acc, b: Block, run: bool, r: Record)
    requires Good(b) && Holds(a, b) && ValidRecord(r) && MayUse(b, run)
    ensures AllValid(Add(b, run, r).recs)
    ensures Holds(a.(asduCount := a.asduCount + 1, objAddr := r.obj, sq := if run then 1 else a.sq,
                     data := a.data + if run then IeHex(r.info) else FormObj(r)), Add(b, run, r))
  {
    AppendedText(b, run, r);
  }

  lemma {:induction false} Lengths(a: Acc, b: Block, r: Record)
    requires Good(b) && Holds(a, b) && ValidRecord(r)
    ensures |a.data| == DataLength(b) && |FormObj(r)| == ObjLength(r) && |IeHex(r.info)| == IeLength(r)
  {
    FormObjExact(r);
    IeHexExact(r.info);
    PrintLength(Body(b));
    PrintLength(ObjOctets(r));
    PrintLength(ElemOctets(r.info));
    ElemOctetsLength(r.info);
    LittleEndianLength(r.obj, 3);
  }

  class Packer {
    const cot: nat
    var nr: nat
    var acc: Acc
    var lines: seq<string>
    ghost var view: Packing

    constructor (cot: nat)
      ensures Valid() && view == Packing([], None) && this.cot == cot && nr == 0
    {
      this.cot := cot;
      nr, acc, lines := 0, UNSET, [];
      view := Packing([], None);
    }

    ghost predicate Valid()
      reads this
    {
      var all :=
        && Sound(view) && Shows(acc, view)
        && AllGood(view.done) && lines == Lines(cot, view.done)
        && acc.numhr <= nr;
      all
    }

    method InitElem(r: Record)
      modifies `acc
      ensures acc == Acc(TypeId(r.info), 1, r.addr, r.obj, 0, nr, FormObj(r))
    {
      acc := acc.(asduAddr := r.addr, asduType := TypeId(r.info), asduCount := 1);
      acc := acc.(sq := 0, numhr := nr, objAddr := r.obj, data := FormObj(r));
    }

    method PrintAsdu()
      modifies `acc, `lines
      ensures lines == old(lines) + [Printed(cot, old(acc))] && acc == old(acc).(data := "")
    {
      lines := lines + [Printed(cot, acc)];
      acc := acc.(data := "");
    }

    /** Print the open ASDU and begin one with this record. */
    method Restart(r: Record)
      requires Valid() && view.pending.Some? && ValidRecord(r)
      modifies `acc, `lines, `view
      ensures Valid() && view == Packing(old(Blocks(view)), Some(Start(r)))
    {
      ghost var p := view;
      Restarted(cot, p, r);
      PrintedLine(cot, acc, p.pending.value);
      PrintAsdu();
      InitElem(r);
      StartHolds(r, nr);
      view := Packing(Blocks(p), Some(Start(r)));
    }

    /** Add the record to the open ASDU, as the next of a run or with its own address. */
    method Append(r: Record, run: bool)
      requires Valid() && view.pending.Some? && ValidRecord(r)
      requires MayUse(view.pending.value, run) && Good(Add(view.pending.value, run, r))
      modifies `acc, `view
      ensures Valid()
      ensures view == old(view).(pending := Some(Add(old(view).pending.value, run, r)))
    {
      ghost var b := view.pending.value;
      AppendHolds(acc, b, run, r);
      acc := acc.(asduCount := acc.asduCount + 1, objAddr := r.obj, sq := if run then 1 else acc.sq,
                  data := acc.data + if run then IeHex(r.info) else FormObj(r));
      view := view.(pending := Some(Add(b, run, r)));
    }

    method AssembleAsdu(r: Record)
      requires Valid() && view.pending.Some? && ValidRecord(r)
      requires r.addr == acc.asduAddr && TypeId(r.info) == acc.asduType
      modifies `acc, `lines, `view
      ensures Valid() && view == Next(old(view), r)
    {
      ghost var b := view.pending.value;
      Lengths(acc, b, r);
      if Join(b, r).Some? {
        JoinGood(b, r);
      }
      if Timed(r) {
        if |acc.data| + |FormObj(r)| > 498 {
          Restart(r);
        } else {
          Append(r, false);
        }
      } else if |acc.data| + |IeHex(r.info)| > 498 {
        Restart(r);
      } else if r.obj == acc.objAddr + 1 {
        if (acc.sq == 0 && acc.asduCount == 1) || acc.sq == 1 {
          Append(r, true);
        } else {
          Restart(r);
        }
      } else if |acc.data| + |FormObj(r)| > 498 {
        Restart(r);
      } else if acc.sq == 0 {
        Append(r, false);
      } else {
        Restart(r);
      }
    }

    /** The first record. */
    method Begin(r: Record)
      requires Valid() && view.pending.None? && ValidRecord(r)
      modifies `acc, `view
      ensures Valid() && view == Next(old(view), r)
    {
      StartHolds(r, nr);
      InitElem(r);
      view := Packing(view.done, Some(Start(r)));
    }

    /** The rule for a line of one of the four types. */
    method TakeRecord(r: Record)
      requires Valid() && ValidRecord(r)
      modifies this
      ensures Valid() && view == Next(old(view), r)
    {
      nr := nr + 1;
      if acc.asduType == 0 {
        Begin(r);
      } else if r.addr != acc.asduAddr {
        Restart(r);
      } else if TypeId(r.info) != acc.asduType {
        Restart(r);
      } else if acc.numhr < nr {   // always so: NUMHR is an earlier record's number
        AssembleAsdu(r);
      }
    }

    method TakeLine(l: Option<Record>)
      requires Valid() && (l.Some? ==> ValidRecord(l.value))
      modifies this
      ensures Valid() && view == if l.Some? then Next(old(view), l.value) else old(view)
    {
      if l.Some? {
        TakeRecord(l.value);
      } else {
        nr := nr + 1;
      }
    }

    /** END */
    method Finish()
      requires Valid()
      modifies `acc, `lines
      ensures AllGood(old(Blocks(view)))
      ensures lines == (if old(view).pending.None? then [EmptyLine(cot)] else Lines(cot, old(Blocks(view))))
    {
      FinishedLines(cot, view);
      if view.pending.Some? {
        PrintedLine(cot, acc, view.pending.value);
      } else {
        PrintedEmpty(cot);
      }
      PrintAsdu();
    }
  }

  lemma {:induction false} FinishedLines(cot: nat, p: Packing)
    requires Sound(p)
    ensures AllGood(p.done) && AllGood(Blocks(p))
    ensures p.pending.Some? ==> Lines(cot, Blocks(p)) == Lines(cot, p.done) + [Line(cot, p.pending.value)]
    ensures p.pending.None? ==> Lines(cot, p.done) == []
  {
    BlocksGood(p);
    if p.pending.Some? {
      LinesSnoc(cot, p.done, p.pending.value);
    }
  }

  lemma {:induction false} KnownStep(input: seq<Option<Record>>, i: nat)
    requires ValidInput(input) && i < |input|
    ensures AllValid(Known(input[..i])) && AllValid(Known(input[..i + 1]))
    ensures Pack(Known(input[..i + 1])) ==
            if input[i].Some? then Next(Pack(Known(input[..i])), input[i].value) else Pack(Known(input[..i]))
  {
    KnownValid(input, i);
    KnownValid(input, i + 1);
    var front := input[..i];
    assert input[..i + 1][..i] == front;
    var ks := Known(front);
    if input[i].Some? {
      SnocFacts(ks, input[i].value);
    } else {
      assert ks + [] == ks;
    }
  }

  lemma SnocFacts(ks: seq<Record>, r: Record)
    ensures (ks + [r])[..|ks + [r]| - 1] == ks && (ks + [r])[|ks + [r]| - 1] == r
  {
  }

  lemma {:induction false} KnownValid(input: seq<Option<Record>>, i: nat)
    requires ValidInput(input) && i <= |input|
    ensures AllValid(Known(input[..i]))
    decreases i
  {
    if i > 0 {
      KnownValid(input, i - 1);
      assert input[..i][..i - 1] == input[..i - 1];
    }
  }

  lemma {:induction false} OutputOf(cot: nat, rs: seq<Record>)
    requires AllValid(rs)
    ensures AllGood(Blocks(Pack(rs)))
    ensures Output(cot, rs) == if Pack(rs).pending.None? then [EmptyLine(cot)] else Lines(cot, Blocks(Pack(rs)))
  {
    PackPartitions(rs);
    PackFlattens(rs);
  }

  /** Feed the lines to a new packer. */
  method Feed(cot: nat, input: seq<Option<Record>>) returns (p: Packer)
    requires ValidInput(input)
    ensures fresh(p) && p.Valid() && p.cot == cot
    ensures AllValid(Known(input)) && p.view == Pack(Known(input))
  {
    p := new Packer(cot);
    var i := 0;
    assert Known(input[..0]) == [];
    while i < |input|
      invariant 0 <= i <= |input| && fresh(p) && p.Valid() && p.cot == cot
      invariant AllValid(Known(input[..i])) && p.view == Pack(Known(input[..i]))
    {
      KnownStep(input, i);
      p.TakeLine(input[i]);
      i := i + 1;
    }
    assert input[..i] == input;
  }

  /** The whole script: what it prints is the packing of the records it knows. */
  method Transform(cot: nat, input: seq<Option<Record>>) returns (lines: seq<string>)
    requires ValidInput(input)
    ensures AllValid(Known(input)) && lines == Output(cot, Known(input))
  {
    var p := Feed(cot, input);
    OutputOf(cot, Known(input));
    p.Finish();
    lines := p.lines;
  }
}
