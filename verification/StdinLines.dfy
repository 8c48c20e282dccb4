/** The line protocol on ieclink's standard input: hexadecimal ASDUs, one a line, and '>' for the
    end of a message.  Reads may cut the text anywhere. */
module StdinLines {
  import opened Basics
  import opened Octets
  import opened HexText

  const ASDU_MAX: nat := 249
  const BUFFER: nat := 1024

  datatype Item = Data(a: Asdu) | End

  // ---------- one line ----------

  function Cap(os: seq<Octet>): seq<Octet> { if |os| <= ASDU_MAX then os else os[..ASDU_MAX] }

  /** What one line contributes: a line of hexadecimal pairs its octets, of which a buffer of
      249 keeps the first; a line starting with '>' the end mark; any other line nothing. */
  function LineItem(line: string): seq<Item> {
    var os := Parse(line);
    if line != "" && line[0] == '>' then [End]
    else if os.Some? && os.value != [] then [Data(Cap(os.value))]
    else []
  }

  /** One turn of the digit loop, seen from the text still to be read. */
  lemma {:induction false} ParseStep(line: string, cp: nat)
    requires cp + 1 < |line|
    ensures var hi, lo, rest := Value(line[cp]), Value(line[cp + 1]), Parse(line[cp + 2..]);
      Parse(line[cp..]) ==
        if hi.None? || lo.None? || rest.None? then None
        else Some([(16 * hi.value + lo.value) as Octet] + rest.value)
  {
    var s := line[cp..];
    assert s[0] == line[cp] && s[1] == line[cp + 1] && s[2..] == line[cp + 2..];
  }

  lemma ParseShort(line: string, cp: nat)
    requires cp <= |line| <= cp + 1
    ensures Parse(line[cp..]) == if cp == |line| then Some([]) else None
  {
  }

  /** `asdu` is what the buffer keeps of the octets that the first `cp` characters stand for. */
  ghost predicate ReadUpTo(line: string, cp: nat, asdu: Asdu)
    requires cp <= |line|
  {
    var all, rest := Parse(line), Parse(line[cp..]);
    && (all.Some? <==> rest.Some?)
    && (all.Some? ==> exists done: Asdu {:trigger Cap(done)} :: asdu == Cap(done) && all.value == done + rest.value)
  }

  lemma {:induction false} ReadStart(line: string)
    ensures ReadUpTo(line, 0, [])
  {
    assert line[0..] == line;
    if Parse(line).Some? {
      assert [] == Cap([]) && Parse(line).value == [] + Parse(line).value;
    }
  }

  lemma {:induction false} ReadPair(line: string, cp: nat, asdu: Asdu, v: Octet)
    requires cp + 1 < |line| && ReadUpTo(line, cp, asdu)
    requires Value(line[cp]).Some? && Value(line[cp + 1]).Some?
    requires v == 16 * Value(line[cp]).value + Value(line[cp + 1]).value
    ensures ReadUpTo(line, cp + 2, if |asdu| < ASDU_MAX then asdu + [v] else asdu)
  {
    ParseStep(line, cp);
    var all, rest := Parse(line), Parse(line[cp + 2..]);
    if all.Some? {
      var done: Asdu :| asdu == Cap(done) && all.value == done + Parse(line[cp..]).value;
      Assoc(done, [v], rest.value);
      assert Cap(done + [v]) == if |asdu| < ASDU_MAX then asdu + [v] else asdu;
    }
  }

  /** The digit loop: pairs until the end of the line or a character that is no digit.
      `whole` says that the line was used up. */
  method ParseLine(line: string) returns (asdu: Asdu, whole: bool)
    ensures whole <==> Parse(line).Some?
    ensures whole ==> asdu == Cap(Parse(line).value)
  {
    asdu := [];
    var cp := 0;
    ReadStart(line);
    while cp + 1 < |line|
      invariant 0 <= cp <= |line| && ReadUpTo(line, cp, asdu)
      decreases |line| - cp
    {
      var hi, lo := Value(line[cp]), Value(line[cp + 1]);
      if hi.None? || lo.None? {
        ParseStep(line, cp);
        return asdu, false;
      }
      var v: Octet := 16 * hi.value + lo.value;
      ReadPair(line, cp, asdu, v);
      if |asdu| < ASDU_MAX {
        asdu := asdu + [v];
      }
      cp := cp + 2;
    }
    ParseShort(line, cp);
    whole := cp == |line|;
    if whole {
      ReadWhole(line, asdu);
    }
  }

  lemma {:induction false} ReadWhole(line: string, asdu: Asdu)
    requires ReadUpTo(line, |line|, asdu)
    ensures Parse(line).Some? && asdu == Cap(Parse(line).value)
  {
    ParseShort(line, |line|);
    var done: Asdu :| asdu == Cap(done) && Parse(line).value == done + [];
    assert done + [] == done;
  }

  // ---------- a buffer of text ----------

  /** Index of the first newline, or the length of the text. */
  function Newline(s: string): (k: nat)
    ensures k <= |s| && (k < |s| ==> s[k] == '\n')
    ensures forall i :: 0 <= i < k ==> s[i] != '\n'
  {
    if s == "" || s[0] == '\n' then 0 else 1 + Newline(s[1..])
  }

  datatype Scanned = Scanned(items: seq<Item>, rest: string, stopped: bool)

  /** All complete lines of the text; an end mark drops whatever follows it. */
  function Scan(s: string): Scanned
    decreases |s|
  {
    var k := Newline(s);
    if k == |s| then Scanned([], s, false)
    else
      var item := LineItem(s[..k]);
      if item == [End] then Scanned(item, "", true)
      else
        var r := Scan(s[k + 1..]);
        r.(items := item + r.items)
  }

  lemma {:induction false} NewlineConcat(a: string, b: string)
    ensures Newline(a) < |a| ==> Newline(a + b) == Newline(a)
    ensures Newline(a) == |a| ==> Newline(a + b) == |a| + Newline(b)
  {
    if a == "" {
      assert a + b == b;
    } else if a[0] != '\n' {
      NewlineConcat(a[1..], b);
      assert (a + b)[1..] == a[1..] + b;
    }
  }

  lemma {:induction false} ScanRest(s: string)
    ensures Newline(Scan(s).rest) == |Scan(s).rest| <= |s|
    ensures Scan(Scan(s).rest) == Scanned([], Scan(s).rest, false)
    decreases |s|
  {
    var k := Newline(s);
    if k < |s| && LineItem(s[..k]) != [End] {
      ScanRest(s[k + 1..]);
    }
  }

  /** Where a read cuts the text does not matter. */
  lemma {:induction false} ScanConcat(a: string, b: string)
    requires !Scan(a).stopped
    ensures Scan(a + b) == Then(Scan(a).items, Scan(Scan(a).rest + b))
    decreases |a|
  {
    var k := Newline(a);
    NewlineConcat(a, b);
    if k == |a| {
      ThenNone(Scan(a + b));
    } else {
      ScanConcat(a[k + 1..], b);
      ScanOneMore(a, b);
    }
  }

  function Then(items: seq<Item>, r: Scanned): Scanned { r.(items := items + r.items) }

  lemma {:induction false} ThenNone(r: Scanned)
    ensures Then([], r) == r
  {
    assert [] + r.items == r.items;
  }

  /** The first line of a text, and the rest of it. */
  lemma {:induction false} ScanFirst(line: string, tail: string)
    requires Newline(line) == |line|
    ensures Scan(line + ("\n" + tail)) ==
      if LineItem(line) == [End] then Scanned([End], "", true) else Then(LineItem(line), Scan(tail))
  {
    var s := line + ("\n" + tail);
    NewlineConcat(line, "\n" + tail);
    assert Newline(s) == |line| < |s| && s[..|line|] == line && s[|line| + 1..] == tail;
  }

  lemma {:induction false} ScanOneMore(a: string, b: string)
    requires Newline(a) < |a| && !Scan(a).stopped
    requires var r := Scan(a[Newline(a) + 1..]);
      Scan(a[Newline(a) + 1..] + b) == Then(r.items, Scan(r.rest + b))
    ensures Scan(a + b) == Then(Scan(a).items, Scan(Scan(a).rest + b))
  {
    var k := Newline(a);
    var line, tail := a[..k], a[k + 1..];
    FirstLine(a, b);
    ScanFirst(line, tail);
    ScanFirst(line, tail + b);
    var r := Scan(tail);
    Assoc(LineItem(line), r.items, Scan(r.rest + b).items);
  }

  lemma FirstLine(a: string, b: string)
    requires Newline(a) < |a|
    ensures var line, tail := a[..Newline(a)], a[Newline(a) + 1..];
      && Newline(line) == |line|
      && a == line + ("\n" + tail) && a + b == line + ("\n" + (tail + b))
  {
  }

  // ---------- successive reads ----------

  /** One read: what was left over, then the new text.  A buffer full without a newline is
      thrown away. */
  function Read(left: string, chunk: string): Scanned {
    var r := Scan(left + chunk);
    if |r.rest| == BUFFER then r.(rest := "") else r
  }

  /** The read loop until the reads run out or an end mark stops it. */
  function ReadAll(left: string, chunks: seq<string>): Scanned
    decreases |chunks|
  {
    if chunks == [] then Scanned([], left, false)
    else
      var r := Read(left, chunks[0]);
      if r.stopped then r
      else
        var q := ReadAll(r.rest, chunks[1..]);
        q.(items := r.items + q.items)
  }

  /** Lines short enough that the buffer never fills, and no end mark before the last read. */
  predicate Comfortable(left: string, chunks: seq<string>)
    decreases |chunks|
  {
    chunks != [] ==>
      var r := Scan(left + chunks[0]);
      && |r.rest| < BUFFER
      && (r.stopped ==> chunks[1..] == [])
      && Comfortable(r.rest, chunks[1..])
  }

  /** Every way of cutting the text into reads gives the same items. */
  lemma {:induction false} ReadsDoNotMatter(left: string, chunks: seq<string>)
    requires Comfortable(left, chunks) && Scan(left) == Scanned([], left, false)
    ensures ReadAll(left, chunks) == Scan(left + Concat(chunks))
    decreases |chunks|
  {
    if chunks == [] {
      assert left + Concat(chunks) == left;
    } else {
      var s, more := left + chunks[0], Concat(chunks[1..]);
      assert left + Concat(chunks) == s + more by {
        Assoc(left, chunks[0], more);
      }
      if Scan(s).stopped {
        assert s + more == s;
      } else {
        ScanRest(s);
        ReadsDoNotMatter(Scan(s).rest, chunks[1..]);
        ScanConcat(s, more);
      }
    }
  }

  // ---------- a message of lines ----------

  function LinesText(ls: seq<string>): string {
    if ls == [] then "" else ls[0] + ("\n" + LinesText(ls[1..]))
  }

  function ItemsOf(ls: seq<string>): seq<Item> {
    if ls == [] then [] else LineItem(ls[0]) + ItemsOf(ls[1..])
  }

  /** A line without newline that fits the buffer and is no end mark. */
  predicate Tidy(l: string) { Newline(l) == |l| < BUFFER && LineItem(l) != [End] }

  ghost predicate AllTidy(ls: seq<string>) { forall i :: 0 <= i < |ls| ==> Tidy(ls[i]) }

  lemma {:induction false} TextAfter(ls: seq<string>, after: string)
    requires ls != []
    ensures LinesText(ls) + after == ls[0] + ("\n" + (LinesText(ls[1..]) + after))
  {
    Assoc(ls[0], "\n" + LinesText(ls[1..]), after);
    Assoc("\n", LinesText(ls[1..]), after);
  }

  /** Lines, and whatever text comes after them. */
  lemma {:induction false} ScanLines(ls: seq<string>, after: string)
    requires AllTidy(ls)
    ensures Scan(LinesText(ls) + after) == Then(ItemsOf(ls), Scan(after))
    decreases |ls|
  {
    if ls == [] {
      assert LinesText(ls) + after == after;
      ThenNone(Scan(after));
    } else {
      TextAfter(ls, after);
      ScanFirst(ls[0], LinesText(ls[1..]) + after);
      ScanLines(ls[1..], after);
      Assoc(LineItem(ls[0]), ItemsOf(ls[1..]), Scan(after).items);
    }
  }

  lemma {:induction false} ScanEnd()
    ensures Scan(">\n") == Scanned([End], "", true)
  {
    assert ">"[1..] == "" && Newline(">") == 1;
    assert ">\n" == ">" + ("\n" + "");
    ScanFirst(">", "");
  }

  /** Any line that starts with '>' ends the message, and whatever the buffer holds behind it is
      dropped. */
  lemma {:induction false} MarkDropsRest(ls: seq<string>, junk: string, more: string)
    requires AllTidy(ls) && Newline(junk) == |junk|
    ensures Scan(LinesText(ls) + ((">" + junk) + ("\n" + more))) == Scanned(ItemsOf(ls) + [End], "", true)
  {
    var mark := ">" + junk;
    assert mark[1..] == junk;
    ScanFirst(mark, more);
    ScanLines(ls, mark + ("\n" + more));
  }

  /** A buffer of 1024 without a newline is thrown away; a shorter one is kept. */
  lemma {:induction false} FullBufferDropped(left: string, chunk: string)
    requires Newline(left + chunk) == |left + chunk|
    ensures Read(left, chunk) == Scanned([], if |left + chunk| == 1024 then "" else left + chunk, false)
  {
  }

  /** What reading any prefix of a message leaves in the buffer is short, and only the whole
      message stops the reader. */
  lemma {:induction false} PrefixOfMessage(ls: seq<string>, p: string, q: string)
    requires AllTidy(ls) && p + q == LinesText(ls) + ">\n"
    ensures |Scan(p).rest| < BUFFER
    ensures Scan(p).stopped ==> q == ""
    decreases |ls|
  {
    if ls == [] {
      PrefixOfMark(p, q);
    } else {
      var line, rest := ls[0], LinesText(ls[1..]) + ">\n";
      TextAfter(ls, ">\n");
      if |p| <= |line| {
        PrefixOfClean(line, p, q, "\n" + rest);
      } else {
        CutTwo(p, q, line, rest);
        ScanFirst(line, p[|line| + 1..]);
        PrefixOfMessage(ls[1..], p[|line| + 1..], q);
      }
    }
  }

  lemma {:induction false} PrefixOfMark(p: string, q: string)
    requires p + q == LinesText([]) + ">\n"
    ensures |Scan(p).rest| < BUFFER && (Scan(p).stopped ==> q == "")
  {
    assert LinesText([]) + ">\n" == ">\n" && |p| + |q| == 2;
    ScanRest(p);
    if |p| < 2 {
      assert p == "" || p == ">" by {
        assert |p| == 1 ==> p[0] == (p + q)[0];
      }
      assert ">"[1..] == "" && Newline(">") == 1;
    }
  }

  lemma {:induction false} PrefixOfClean(line: string, p: string, q: string, more: string)
    requires p + q == line + more && |p| <= |line| && Newline(line) == |line|
    ensures Scan(p) == Scanned([], p, false)
  {
    forall i | 0 <= i < |p| ensures p[i] != '\n' {
      assert p[i] == (p + q)[i] == line[i];
    }
  }

  lemma {:induction false} CutTwo(p: string, q: string, line: string, rest: string)
    requires p + q == line + ("\n" + rest) && |p| > |line|
    ensures p == line + ("\n" + p[|line| + 1..]) && p[|line| + 1..] + q == rest
  {
    var n := |line|;
    var t := p + q;
    assert p == t[..|p|] && t[..n] == line && t[n] == '\n' && t[n + 1..] == rest;
    assert p[..n] == line && p[n] == '\n';
    assert (p + q)[n + 1..] == p[n + 1..] + q;
  }

  lemma JoinEmpty(chunks: seq<string>)
    requires Concat(chunks) == "" && forall i :: 0 <= i < |chunks| ==> chunks[i] != ""
    ensures chunks == []
  {
  }

  /** However a message is cut into reads, the buffer never fills and nothing follows the mark. */
  lemma {:induction false} EveryCutComfortable(ls: seq<string>, done: string, chunks: seq<string>)
    requires AllTidy(ls) && done + Concat(chunks) == LinesText(ls) + ">\n" && !Scan(done).stopped
    requires forall i :: 0 <= i < |chunks| ==> chunks[i] != ""
    ensures Comfortable(Scan(done).rest, chunks)
    decreases |chunks|
  {
    if chunks != [] {
      var next, more := done + chunks[0], Concat(chunks[1..]);
      Assoc(done, chunks[0], more);
      PrefixOfMessage(ls, next, more);
      ScanConcat(done, chunks[0]);
      assert Scan(Scan(done).rest + chunks[0]).rest == Scan(next).rest;
      if Scan(next).stopped {
        JoinEmpty(chunks[1..]);
      } else {
        EveryCutComfortable(ls, next, chunks[1..]);
      }
    }
  }

  /** A message, however its text is cut into reads, is taken line by line. */
  lemma {:induction false} MessageRead(ls: seq<string>, chunks: seq<string>)
    requires AllTidy(ls) && Concat(chunks) == LinesText(ls) + ">\n"
    requires forall i :: 0 <= i < |chunks| ==> chunks[i] != ""
    ensures ReadAll("", chunks) == Scanned(ItemsOf(ls) + [End], "", true)
  {
    assert Newline("") == 0;
    assert "" + Concat(chunks) == Concat(chunks);
    EveryCutComfortable(ls, "", chunks);
    ReadsDoNotMatter("", chunks);
    ScanLines(ls, ">\n");
    ScanEnd();
  }

  // ---------- round trip ----------

  /** What data_received_hook prints: one line for each ASDU. */
  function Printed(asdus: seq<Asdu>): seq<string> {
    if asdus == [] then [] else [Print(asdus[0])] + Printed(asdus[1..])
  }

  function Text(asdus: seq<Asdu>): string { LinesText(Printed(asdus)) }

  lemma {:induction false} PrintIsClean(os: seq<Octet>)
    ensures Newline(Print(os)) == |Print(os)| && (os != [] ==> Print(os)[0] != '>')
  {
    if os != [] {
      PrintIsClean(os[1..]);
      DigitValue(os[0] / 16);
      DigitValue(os[0] % 16);
      NewlineConcat(PrintOctet(os[0]), Print(os[1..]));
      assert PrintOctet(os[0])[1..] == [Digit(os[0] % 16)] && PrintOctet(os[0])[1..][1..] == [];
    }
  }

  predicate Sendable(a: Asdu) { 1 <= |a| <= ASDU_MAX }

  function Datas(asdus: seq<Asdu>): seq<Item> {
    if asdus == [] then [] else [Data(asdus[0])] + Datas(asdus[1..])
  }

  /** A printed ASDU is read back as itself if it fits the buffer, cut to 249 octets otherwise. */
  lemma {:induction false} LineRoundTrip(a: Asdu)
    requires a != []
    ensures LineItem(Print(a)) == [Data(Cap(a))] && Cap(a) == if |a| <= 249 then a else a[..249]
    ensures LineItem(Print(a)) == [Data(a)] <==> |a| <= 249
  {
    ParsePrint(a);
    PrintIsClean(a);
    PrintLength(a);
  }

  lemma {:induction false} PrintedLines(asdus: seq<Asdu>)
    requires forall i :: 0 <= i < |asdus| ==> Sendable(asdus[i])
    ensures AllTidy(Printed(asdus)) && ItemsOf(Printed(asdus)) == Datas(asdus)
    decreases |asdus|
  {
    if asdus != [] {
      LineRoundTrip(asdus[0]);
      PrintIsClean(asdus[0]);
      PrintLength(asdus[0]);
      PrintedLines(asdus[1..]);
      assert Printed(asdus)[1..] == Printed(asdus[1..]);
    }
  }

  /** A message, however its text is cut into reads, is read back exactly. */
  lemma {:induction false} MessageRoundTrip(asdus: seq<Asdu>, chunks: seq<string>)
    requires forall i :: 0 <= i < |asdus| ==> Sendable(asdus[i])
    requires forall i :: 0 <= i < |chunks| ==> chunks[i] != ""
    requires Concat(chunks) == Text(asdus) + ">\n"
    ensures ReadAll("", chunks) == Scanned(Datas(asdus) + [End], "", true)
  {
    PrintedLines(asdus);
    MessageRead(Printed(asdus), chunks);
  }

  /** Odd or non-hexadecimal lines contribute nothing. */
  lemma {:induction false} BadLineIgnored(line: string)
    requires line == "" || line[0] != '>'
    requires |line| % 2 == 1 || exists i :: 0 <= i < |line| && Value(line[i]).None?
    ensures LineItem(line) == []
  {
    ParseOnlyPairs(line);
  }

  lemma {:induction false} ParseOnlyPairs(s: string)
    ensures Parse(s).Some? ==> |s| % 2 == 0 && forall i :: 0 <= i < |s| ==> Value(s[i]).Some?
    decreases |s|
  {
    if |s| >= 2 && Parse(s).Some? {
      ParseOnlyPairs(s[2..]);
      forall i | 0 <= i < |s| ensures Value(s[i]).Some? {
        if i >= 2 {
          assert s[i] == s[2..][i - 2];
        }
      }
    }
  }
}
