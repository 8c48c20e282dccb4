/** asduconv feeding ieclink: which records survive the way from the packer's text to the ASDUs
    that the bridge hands to the link. */
module Pipeline {
  import opened Basics
  import opened Octets
  import opened HexText
  import opened AsduCodec
  import opened AsduPacker
  import opened PackingMeaning
  import S = StdinLines

  /** The octets of a printed block. */
  ghost function Whole(cot: nat, b: Block): seq<Octet>
    requires Good(b)
  {
    CountBounds(b);
    HeaderOctets(Type(b), ShownOctet(Vsq(b)), cot, b.recs[0].addr) + Body(b)
  }

  lemma {:induction false} WholeLength(cot: nat, b: Block)
    requires Good(b)
    ensures |Whole(cot, b)| == 6 + |Body(b)| <= 255
  {
    CountBounds(b);
    LittleEndianLength(cot, 2);
    LittleEndianLength(b.recs[0].addr, 2);
    if b.sq {
      ElemsLength(b.recs, Type(b), b.recs[0].addr);
      LittleEndianLength(b.recs[0].obj, 3);
    } else {
      ObjsLength(b.recs, Type(b), b.recs[0].addr);
    }
  }

  lemma {:induction false} LineIsPrint(cot: nat, b: Block)
    requires Good(b) && cot < 65536
    ensures Line(cot, b) == Print(Whole(cot, b))
  {
    CountBounds(b);
    HeaderExact(Type(b), Vsq(b), cot, b.recs[0].addr);
    PrintConcat(HeaderOctets(Type(b), ShownOctet(Vsq(b)), cot, b.recs[0].addr), Body(b));
  }

  /** The bridge takes the line as one ASDU, cut to 249 octets. */
  lemma {:induction false} LineTaken(cot: nat, b: Block)
    requires Good(b) && cot < 65536
    ensures S.Tidy(Line(cot, b)) && S.LineItem(Line(cot, b)) == [S.Data(S.Cap(Whole(cot, b)))]
  {
    var os := Whole(cot, b);
    LineIsPrint(cot, b);
    WholeLength(cot, b);
    S.LineRoundTrip(os);
    S.PrintIsClean(os);
    PrintLength(os);
  }

  // ---------- what a cut ASDU means ----------

  lemma {:induction false} EachSize(typ: nat, addr: nat, n: nat, os: seq<Octet>)
    requires typ in {1, 13, 30, 36} && DecodeEach(typ, addr, n, os).Some?
    ensures |os| == n * (3 + ElemLength(typ))
    decreases n
  {
    var k := 3 + ElemLength(typ);
    if n > 0 {
      EachSize(typ, addr, n - 1, os[k..]);
      assert n * k == (n - 1) * k + k;
    }
  }

  lemma {:induction false} RunSize(typ: nat, addr: nat, obj: nat, n: nat, os: seq<Octet>)
    requires typ in {1, 13, 30, 36} && DecodeRun(typ, addr, obj, n, os).Some?
    ensures |os| == n * ElemLength(typ)
    decreases n
  {
    var k := ElemLength(typ);
    if n > 0 {
      RunSize(typ, addr, obj + 1, n - 1, os[k..]);
      assert n * k == (n - 1) * k + k;
    }
  }

  /** Octets short of a whole ASDU decode to nothing. */
  lemma {:induction false} CutUnreadable(cot: nat, b: Block, cut: seq<Octet>)
    requires Good(b) && |b.recs| <= 127 && |cut| < |Body(b)|
    ensures DecodeAsdu(HeaderOctets(Type(b), Vsq(b), cot, b.recs[0].addr) + cut).None?
  {
    var typ, addr, n := Type(b), b.recs[0].addr, |b.recs|;
    HeaderReads(typ, Vsq(b), cot, addr, cut);
    var os := HeaderOctets(typ, Vsq(b), cot, addr) + cut;
    if b.sq {
      RunBodyReads(b);
      ElemsLength(b.recs, typ, addr);
      if |cut| >= 3 && DecodeRun(typ, addr, FromLittleEndian(cut[..3]), n, cut[3..]).Some? {
        RunSize(typ, addr, FromLittleEndian(cut[..3]), n, cut[3..]);
      }
    } else {
      ObjsLength(b.recs, typ, addr);
      AsduEach(os);
      if DecodeEach(typ, addr, n, cut).Some? {
        EachSize(typ, addr, n, cut);
      }
    }
  }

  /** A block that the bridge does not cut and whose count fits. */
  predicate Survives(b: Block)
    requires AllValid(b.recs) && b.recs != []
  {
    |b.recs| <= 127 && |Body(b)| <= 243
  }

  /** What the far end decodes of a block: its records, or else nothing or fewer. */
  lemma {:induction false} BlockTaken(cot: nat, b: Block)
    requires Good(b) && cot < 65536
    ensures var d := DecodeAsdu(S.Cap(Whole(cot, b)));
      if Survives(b) then d == Some(b.recs) else d.Some? ==> |d.value| < |b.recs|
  {
    WholeLength(cot, b);
    LineReads(cot, b);
    var h := HeaderOctets(Type(b), ShownOctet(Vsq(b)), cot, b.recs[0].addr);
    if |b.recs| > 127 {
      OverflowTaken(cot, b);
    } else {
      LineDecodes(cot, b);
      if |Body(b)| > 243 {
        CapBody(h, Body(b));
        CutUnreadable(cot, b, Body(b)[..243]);
      }
    }
  }

  lemma CapBody(h: seq<Octet>, body: seq<Octet>)
    requires |h| == 6 && |body| > 243
    ensures S.Cap(h + body) == h + body[..243]
  {
  }

  lemma {:induction false} OverflowTaken(cot: nat, b: Block)
    requires Good(b) && cot < 65536 && |b.recs| > 127
    ensures var d := DecodeAsdu(S.Cap(Whole(cot, b))); d.Some? ==> |d.value| < |b.recs|
  {
    CountBounds(b);
    WholeLength(cot, b);
    var vsq, addr := ShownOctet(Vsq(b)), b.recs[0].addr;
    assert 16 <= vsq <= 23;
    var body := if |Body(b)| > 243 then Body(b)[..243] else Body(b);
    var h := HeaderOctets(Type(b), vsq, cot, addr);
    if |Body(b)| > 243 {
      CapBody(h, Body(b));
    }
    HeaderReads(Type(b), vsq, cot, addr, body);
    AsduEach(h + body);
    EachLength(Type(b), addr, vsq as int, body);
  }

  // ---------- the whole way ----------

  /** Decode the ASDUs among the items taken. */
  function DecodeItems(items: seq<S.Item>): Option<seq<Record>> {
    if items == [] then Some([])
    else
      var front, last := DecodeItems(items[..|items| - 1]), items[|items| - 1];
      if last.End? then front
      else
        var d := DecodeAsdu(last.a);
        if front.None? || d.None? then None else Some(front.value + d.value)
  }

  lemma {:induction false} ItemsSnoc(ls: seq<string>, l: string)
    ensures S.ItemsOf(ls + [l]) == S.ItemsOf(ls) + S.LineItem(l)
    decreases |ls|
  {
    if ls == [] {
      assert [] + [l] == [l] && [l][1..] == [];
    } else {
      ItemsSnoc(ls[1..], l);
      assert (ls + [l])[1..] == ls[1..] + [l];
      Assoc(S.LineItem(ls[0]), S.ItemsOf(ls[1..]), S.LineItem(l));
    }
  }

  lemma {:induction false} DecodeSnoc(items: seq<S.Item>, x: S.Item)
    ensures DecodeItems(items + [x]) ==
      if x.End? then DecodeItems(items)
      else (var front, d := DecodeItems(items), DecodeAsdu(x.a);
            if front.None? || d.None? then None else Some(front.value + d.value))
  {
    var all := items + [x];
    assert all[..|all| - 1] == items && all[|all| - 1] == x;
  }

  ghost predicate AllSurvive(bs: seq<Block>)
    requires AllGood(bs)
  {
    forall i :: 0 <= i < |bs| ==> Survives(bs[i])
  }

  lemma {:induction false} AllSurviveSnoc(bs: seq<Block>, b: Block)
    requires AllGood(bs) && Good(b)
    ensures AllGood(bs + [b]) && (AllSurvive(bs + [b]) <==> AllSurvive(bs) && Survives(b))
  {
    var cs := bs + [b];
    assert forall i :: 0 <= i < |bs| ==> cs[i] == bs[i];
    assert cs[|bs|] == b;
  }

  /** Decoding gives the records of all blocks if they survive, and else nothing or fewer. */
  ghost predicate Faithful(d: Option<seq<Record>>, bs: seq<Block>)
    requires AllGood(bs)
  {
    if AllSurvive(bs) then d == Some(Flatten(bs)) else d.Some? ==> |d.value| < |Flatten(bs)|
  }

  lemma {:induction false} FaithfulSnoc(front: Option<seq<Record>>, last: Option<seq<Record>>, bs: seq<Block>, b: Block)
    requires AllGood(bs) && Good(b) && Faithful(front, bs)
    requires if Survives(b) then last == Some(b.recs) else last.Some? ==> |last.value| < |b.recs|
    ensures AllGood(bs + [b])
    ensures Faithful(if front.None? || last.None? then None else Some(front.value + last.value), bs + [b])
  {
    AllSurviveSnoc(bs, b);
    FlattenSnoc(bs, b);
  }

  lemma {:induction false} TakenSnoc(cot: nat, bs: seq<Block>, b: Block)
    requires AllGood(bs) && Good(b) && cot < 65536
    ensures var front, last := DecodeItems(S.ItemsOf(Lines(cot, bs))), DecodeAsdu(S.Cap(Whole(cot, b)));
      DecodeItems(S.ItemsOf(Lines(cot, bs) + [Line(cot, b)]))
      == if front.None? || last.None? then None else Some(front.value + last.value)
  {
    LineTaken(cot, b);
    ItemsSnoc(Lines(cot, bs), Line(cot, b));
    DecodeSnoc(S.ItemsOf(Lines(cot, bs)), S.Data(S.Cap(Whole(cot, b))));
  }

  lemma {:induction false} OneMoreTaken(cot: nat, bs: seq<Block>, b: Block)
    requires AllGood(bs) && Good(b) && cot < 65536 && AllGood(bs + [b])
    requires Faithful(DecodeItems(S.ItemsOf(Lines(cot, bs))), bs)
    ensures Faithful(DecodeItems(S.ItemsOf(Lines(cot, bs + [b]))), bs + [b])
  {
    var front, last := DecodeItems(S.ItemsOf(Lines(cot, bs))), DecodeAsdu(S.Cap(Whole(cot, b)));
    LinesSnoc(cot, bs, b);
    TakenSnoc(cot, bs, b);
    BlockTaken(cot, b);
    FaithfulSnoc(front, last, bs, b);
  }

  lemma {:induction false} LinesTaken(cot: nat, bs: seq<Block>)
    requires AllGood(bs) && cot < 65536
    ensures Faithful(DecodeItems(S.ItemsOf(Lines(cot, bs))), bs)
    decreases |bs|
  {
    if bs != [] {
      var front, b := bs[..|bs| - 1], bs[|bs| - 1];
      SplitLast(bs);
      LinesTaken(cot, front);
      OneMoreTaken(cot, front, b);
    }
  }

  lemma {:induction false} LinesTidy(cot: nat, bs: seq<Block>)
    requires AllGood(bs) && cot < 65536
    ensures S.AllTidy(Lines(cot, bs))
    decreases |bs|
  {
    if bs != [] {
      LinesTidy(cot, bs[..|bs| - 1]);
      LineTaken(cot, bs[|bs| - 1]);
    }
  }

  lemma {:induction false} EmptyTaken(cot: nat)
    requires cot < 65536
    ensures S.AllTidy([EmptyLine(cot)]) && DecodeItems(S.ItemsOf([EmptyLine(cot)])) == Some([])
  {
    var os := HeaderOctets(0, 0, cot, 0);
    HeaderExact(0, 0, cot, 0);
    HeaderReads(0, 0, cot, 0, []);
    assert os + [] == os;
    S.LineRoundTrip(os);
    S.PrintIsClean(os);
    PrintLength(os);
    var ls := [EmptyLine(cot)];
    assert ls[1..] == [];
    var none: seq<Record> := [];
    DecodeSnoc([], S.Data(os));
    assert [] + [S.Data(os)] == [S.Data(os)] == [S.Data(os)] + [] && none + none == none;
  }

  /** From records to the link: whatever the packer prints, followed by the end mark and cut
      into reads anyhow, the bridge takes up to the mark; and the ASDUs it takes stand for
      exactly the input if and only if every block counts at most 127 records and has at most
      243 octets of data. */
  lemma {:induction false} SurvivesIff(cot: nat, rs: seq<Record>, chunks: seq<string>)
    requires AllValid(rs) && cot < 65536
    requires Concat(chunks) == S.LinesText(Output(cot, rs)) + ">\n"
    requires forall i :: 0 <= i < |chunks| ==> chunks[i] != ""
    ensures AllGood(Blocks(Pack(rs)))
    ensures var t := S.ReadAll("", chunks);
      && t.stopped && t.rest == ""
      && (DecodeItems(t.items) == Some(rs) <==> AllSurvive(Blocks(Pack(rs))))
  {
    PackPartitions(rs);
    if rs == [] {
      EmptyTaken(cot);
      assert Blocks(Pack(rs)) == [];
    } else {
      LinesTaken(cot, Blocks(Pack(rs)));
      LinesTidy(cot, Blocks(Pack(rs)));
    }
    S.MessageRead(Output(cot, rs), chunks);
    DecodeSnoc(S.ItemsOf(Output(cot, rs)), S.End);
  }
}
