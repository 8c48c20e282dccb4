/** The bridge as the program runs it: callbacks that change the session, the read buffer, the
    backlog and the handshake flags in place.
 */
module IecLink {
  import opened Octets
  import opened LinkLayer
  import IecSock
  import opened HexText
  import opened StdinLines
  import opened Backlog
  import Handshake

  /** memchr: the first newline from `p` on, or the end of the text. */
  method FindNewline(text: string, p: nat) returns (end: nat)
    requires p <= |text|
    ensures p <= end <= |text| && end - p == Newline(text[p..])
  {
    end := p;
    while end < |text| && text[end] != '\n'
      invariant p <= end <= |text|
      invariant forall i :: p <= i < end ==> text[i] != '\n'
    {
      end := end + 1;
    }
    FirstNewline(text[p..], end - p);
  }

  lemma FirstNewline(s: string, k: nat)
    requires k <= |s| && (k < |s| ==> s[k] == '\n') && forall i :: 0 <= i < k ==> s[i] != '\n'
    ensures Newline(s) == k
  {
  }

  /** One line of the text from `p` on: what it contributes, and where the scan goes next. */
  lemma {:induction false} ScanStep(text: string, p: nat, end: nat)
    requires p <= end < |text| && end - p == Newline(text[p..])
    ensures var item := LineItem(text[p..end]);
      Scan(text[p..]) ==
        if item == [End] then Scanned(item, "", true)
        else var r := Scan(text[end + 1..]); r.(items := item + r.items)
  {
    var s, k := text[p..], end - p;
    assert s[..k] == text[p..end] && s[k + 1..] == text[end + 1..];
  }

  /** Scanning from `start`, the state is `b` with the text from `p` on still to be scanned. */
  ghost predicate Scans(start: State, text: string, p: nat, b: State)
    requires p <= |text|
  {
    var all, rest := Scan(text), Scan(text[p..]);
    && TakeAll(b, rest.items) == TakeAll(start, all.items)
    && rest.rest == all.rest && rest.stopped == all.stopped
  }

  lemma {:induction false} ScansMore(start: State, text: string, p: nat, end: nat, b: State)
    requires p <= end < |text| && end - p == Newline(text[p..]) && Scans(start, text, p, b)
    ensures var item, b1 := LineItem(text[p..end]), TakeAll(b, LineItem(text[p..end]));
      if item == [End] then Scan(text).stopped && Scan(text).rest == "" && b1 == TakeAll(start, Scan(text).items)
      else Scans(start, text, end + 1, b1)
  {
    ScanStep(text, p, end);
    TakeAllConcat(b, LineItem(text[p..end]), Scan(text[end + 1..]).items);
  }

  lemma {:induction false} ScansDone(start: State, text: string, p: nat, b: State)
    requires p <= |text| && Newline(text[p..]) == |text| - p && Scans(start, text, p, b)
    ensures b == TakeAll(start, Scan(text).items) && Scan(text).rest == text[p..] && !Scan(text).stopped
  {
  }

  class Bridge {
    const s: IecSock.Session
    var d: Desk

    /** The program connects: the session has asked for the start of data transfer. */
    constructor (w: nat, k: nat)
      ensures View() == Start(w, k) && fresh(s)
    {
      s := new IecSock.Session(Master, w, k);
      d := Start(w, k).d;
      new;
      Handshake.NoPayload(U(StartAct));
    }

    ghost function View(): State
      reads this, s
    {
      State(s.View(), Payloads(s.wire), d)
    }

    // ---------- standard input ----------

    method AsduSend(a: Asdu)
      modifies s
      ensures View() == Send(old(View()), a)
    {
      ghost var o := Submit(s.View(), a);
      PayloadsConcat(s.wire, o.wire);
      s.Submit(a);
    }

    /** Link the ASDU behind the tail pointer, wherever that points. */
    method SaveAsdu(a: Asdu)
      modifies `d
      ensures d == Append(old(d), a)
    {
      if d.attached {
        d := d.(list := d.list + [a]);
      } else {
        d := d.(lost := d.lost + [a]);
      }
      d := d.(size := d.size + 1);
    }

    method TakeAsdu(a: Asdu)
      modifies this, s
      ensures View() == Take(old(View()), Data(a))
    {
      d := d.(accepted := d.accepted + [a], msg := d.msg + 1);
      var room := s.CanQueue();
      if room != 0 {
        AsduSend(a);
      } else {
        SaveAsdu(a);
      }
    }

    /** One complete line of the buffer; says whether it was the end mark. */
    method TakeLine(line: string) returns (stop: bool)
      modifies this, s
      ensures View() == TakeAll(old(View()), LineItem(line))
      ensures stop <==> LineItem(line) == [End]
    {
      stop := line != "" && line[0] == '>';
      var asdu, whole := ParseLine(line);
      ParseEmpty(line);
      if whole && asdu != [] {
        Handshake.TakeOne(View(), Data(asdu), []);
        TakeAsdu(asdu);
      }
      if stop {
        Handshake.TakeOne(View(), End, []);
        d := d.(endmsg := true, marks := d.marks + ">");
      }
    }

    /** The loop over the lines of the buffer. */
    method ScanBuffer(text: string) returns (stop: bool)
      modifies this, s
      ensures var t := Scan(text);
        View() == WithText(TakeAll(old(View()), t.items), t.rest) && stop == t.stopped
    {
      var p := 0;
      ghost var start := View();
      assert text[0..] == text;
      while p < |text|
        invariant p <= |text| && Scans(start, text, p, View())
      {
        var end := FindNewline(text, p);
        if end == |text| {
          break;
        }
        ScansMore(start, text, p, end, View());
        stop := TakeLine(text[p..end]);
        if stop {
          d := d.(rbuf := "");
          return;
        }
        p := end + 1;
      }
      ScansDone(start, text, p, View());
      d := d.(rbuf := text[p..]);
      stop := false;
    }

    method ReadChunk(chunk: string) returns (stop: bool)
      modifies this, s
      ensures View() == ReadOne(old(View()), chunk) && stop == Read(old(d.rbuf), chunk).stopped
    {
      ghost var b, t := View(), Read(d.rbuf, chunk);
      TakeAllText(b, t.items, t.rest);
      stop := ScanBuffer(d.rbuf + chunk);
      if |d.rbuf| == BUFFER {
        d := d.(rbuf := "");
      }
    }

    /** The callback of standard input, given what successive reads return. */
    method StdinRead(chunks: seq<string>)
      modifies this, s
      ensures View() == Backlog.StdinRead(old(View()), chunks)
    {
      d := d.(pending := false);
      ghost var goal := ReadLoop(View(), chunks);
      var i := 0;
      assert chunks[0..] == chunks;
      while i < |chunks|
        invariant 0 <= i <= |chunks| && ReadLoop(View(), chunks[i..]) == goal
      {
        assert chunks[i..][1..] == chunks[i + 1..];
        var stop := ReadChunk(chunks[i]);
        if stop || d.size == LIST_LIMIT {
          return;
        }
        i := i + 1;
      }
    }

    // ---------- the session's hooks ----------

    method SendBacklog()
      modifies this, s
      ensures View() == KickLoop(old(View()))
    {
      ghost var goal := KickLoop(View());
      while d.list != []
        invariant KickLoop(View()) == goal
        decreases |d.list|
      {
        var room := s.CanQueue();
        if room == 0 {
          break;
        }
        AsduSend(d.list[0]);
        d := d.(list := d.list[1..]);
      }
    }

    /** Everything sent is acknowledged: send from the backlog, then ask for more input or
        confirm the message. */
    method KickCallback()
      modifies this, s
      ensures View() == Kick(old(View()))
    {
      var freed := d.list != [];
      SendBacklog();
      if d.list == [] && !d.endmsg {
        d := d.(attached := true, pending := true);
      } else if d.list == [] && d.endmsg {
        d := d.(marks := d.marks + "<", msg := 0, attached := d.attached && !freed);
        d := d.(pending := true, endmsg := false);
      }
    }

    method TakeNr(nr: nat)
      modifies this, s
      ensures View() == Backlog.TakeNr(old(View()), nr)
    {
      d := d.(acked := d.acked + Distance(s.va, nr));
      var wake := s.vs == nr;
      s.TakeNr(nr, []);
      assert s.wire == old(s.wire);
      if wake {
        KickCallback();
      }
    }

    method IFrameRecv(f: Frame)
      requires f.I?
      modifies this, s
      ensures View() == TakeNs(Backlog.TakeNr(old(View()), f.nr), f)
    {
      TakeNr(f.nr);
      Handshake.NsRefines(View(), f);
      PayloadsConcat(s.wire, Accept(s.View(), f).wire);
      var ok := s.TakeNs(f);
      d := d.(closed := !ok);
    }

    method SFrameRecv(nr: nat)
      modifies this, s
      ensures var b := old(View());
        View() == Backlog.TakeNr(b.(e := b.e.(ackwQ := Prune(b.e.ackwQ, nr))), nr)
    {
      s.RunAckwQueue(nr);
      TakeNr(nr);
    }

    /** STARTCON calls the activation hook, which asks for input. */
    method UFrameRecv(func: UFunc)
      requires s.role.Master?
      modifies this, s
      ensures View() == TakeU(old(View()), func)
    {
      ghost var o := LinkLayer.UFrameRecv(s.View(), func);
      Handshake.NoPayload(U(TestCon));
      PayloadsConcat(s.wire, o.wire);
      var ok := s.UFrameRecv(func);
      d := d.(closed := !ok);
      if func.StartCon? && ok {
        d := d.(pending := true);
      }
    }

    method FrameRecv(f: Frame)
      requires s.role.Master?
      modifies this, s
      ensures View() == Recv(old(View()), f)
    {
      s.t3 := true;
      if !f.U? && Distance(s.va, f.nr) > Distance(s.va, s.vs) {
        d := d.(closed := true);
        return;
      }
      match f {
        case I(_, _, _) => IFrameRecv(f);
        case S(nr) => SFrameRecv(nr);
        case U(func) => UFrameRecv(func);
      }
    }
  }

  /** A line that parses to something does not start with '>'. */
  lemma {:induction false} ParseEmpty(line: string)
    ensures Parse(line).Some? && Cap(Parse(line).value) != [] ==> line != "" && line[0] != '>'
    ensures Parse(line).Some? ==> (Cap(Parse(line).value) != [] <==> Parse(line).value != [])
  {
    ParseOnlyPairs(line);
  }
}
