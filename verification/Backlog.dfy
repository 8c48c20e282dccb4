/** The bridge of ieclink between standard input and one master session: the backlog of ASDUs
    that found the window closed, and the '>' / '<' handshake.  Class `IecLink.Bridge` updates
    this state in place.
 */
module Backlog {
  import opened Basics
  import opened Octets
  import opened LinkLayer
  import opened LinkWindow
  import opened StdinLines

  const LIST_LIMIT: nat := 12

  /** The globals of the program, and a history of what went through it.
      `attached` says that the tail pointer of the backlog points into the backlog. */
  datatype Desk = Desk(
    rbuf: string,
    list: seq<Asdu>, attached: bool, size: nat,
    endmsg: bool, pending: bool, closed: bool,
    marks: string,        // '>' taken and '<' printed
    accepted: seq<Asdu>,  // every ASDU line taken
    lost: seq<Asdu>,      // ASDUs linked to a node already freed
    msg: nat,             // ASDUs taken since the last '<'
    acked: nat)           // I-frames acknowledged

  datatype State = State(e: Endpoint, sent: seq<Asdu>, d: Desk)

  // ---------- standard input ----------

  function Send(b: State, a: Asdu): State {
    var o := Submit(b.e, a);
    b.(e := o.e, sent := b.sent + Payloads(o.wire))
  }

  function Append(d: Desk, a: Asdu): Desk {
    if d.attached then d.(list := d.list + [a], size := d.size + 1)
    else d.(lost := d.lost + [a], size := d.size + 1)
  }

  function Count(d: Desk, a: Asdu): Desk { d.(accepted := d.accepted + [a], msg := d.msg + 1) }

  function Take(b: State, item: Item): State {
    match item
    case End => b.(d := b.d.(endmsg := true, marks := b.d.marks + ">"))
    case Data(a) =>
      var c := b.(d := Count(b.d, a));
      if CanQueue(c.e) != 0 then Send(c, a) else c.(d := Append(c.d, a))
  }

  function TakeAll(b: State, items: seq<Item>): State
    decreases |items|
  {
    if items == [] then b else TakeAll(Take(b, items[0]), items[1..])
  }

  function ReadOne(b: State, chunk: string): State {
    var r := Read(b.d.rbuf, chunk);
    TakeAll(b.(d := b.d.(rbuf := r.rest)), r.items)
  }

  /** The loop goes on after this read: no end mark, and the size counter not at its limit. */
  predicate Goes(b: State, chunk: string) {
    !Read(b.d.rbuf, chunk).stopped && ReadOne(b, chunk).d.size != LIST_LIMIT
  }

  function ReadLoop(b: State, chunks: seq<string>): State
    decreases |chunks|
  {
    if chunks == [] then b
    else
      var c := ReadOne(b, chunks[0]);
      if Goes(b, chunks[0]) then ReadLoop(c, chunks[1..]) else c
  }

  /** How many reads the loop makes. */
  function Reads(b: State, chunks: seq<string>): (n: nat)
    ensures n <= |chunks|
    decreases |chunks|
  {
    if chunks == [] then 0
    else if Goes(b, chunks[0]) then 1 + Reads(ReadOne(b, chunks[0]), chunks[1..])
    else 1
  }

  /** The event fires once, and the callback reads until there is nothing to read. */
  function StdinRead(b: State, chunks: seq<string>): State {
    ReadLoop(b.(d := b.d.(pending := false)), chunks)
  }

  // ---------- the wakeup ----------

  function KickLoop(b: State): State
    decreases |b.d.list|
  {
    if b.d.list == [] || CanQueue(b.e) == 0 then b
    else
      var c := Send(b, b.d.list[0]);
      KickLoop(c.(d := c.d.(list := b.d.list[1..])))
  }

  /** Freeing the last node leaves the tail pointer behind unless it is reset. */
  function Settle(d: Desk, freed: bool): Desk {
    if d.list != [] then d
    else if !d.endmsg then d.(attached := true, pending := true)
    else d.(marks := d.marks + "<", pending := true, endmsg := false, msg := 0,
            attached := d.attached && !freed)
  }

  function Kick(b: State): State {
    var c := KickLoop(b);
    c.(d := Settle(c.d, b.d.list != []))
  }

  // ---------- receipt ----------

  function TakeNr(b: State, nr: nat): State {
    var d := b.d.(acked := b.d.acked + Distance(b.e.va, nr));
    if b.e.vs == nr then Kick(b.(e := b.e.(va := nr, t1 := false), d := d))
    else b.(e := b.e.(va := nr), d := d)
  }

  function TakeNs(b: State, f: Frame): State
    requires f.I?
  {
    var o := Accept(b.e, f);
    b.(e := o.e, d := b.d.(closed := !o.ok))
  }

  function TakeU(b: State, func: UFunc): State {
    var o := UFrameRecv(b.e, func);
    b.(e := o.e, d := b.d.(closed := !o.ok, pending := b.d.pending || (func.StartCon? && o.ok)))
  }

  function Recv(b: State, f: Frame): State {
    var b0 := b.(e := b.e.(t3 := true));
    if !f.U? && !CheckNr(b.e, f.nr) then b0.(d := b.d.(closed := true))
    else match f
      case U(func) => TakeU(b0, func)
      case S(nr) => TakeNr(b0.(e := b0.e.(ackwQ := Prune(b.e.ackwQ, nr))), nr)
      case I(_, nr, _) => TakeNs(TakeNr(b0, nr), f)
  }

  datatype Event = Stdin(chunks: seq<string>) | Arrived(f: Frame) | T2 | T3

  function Step(b: State, ev: Event): State {
    match ev
    case Stdin(chunks) => StdinRead(b, chunks)
    case Arrived(f) => Recv(b, f)
    case T2 => b.(e := T2TimerRun(b.e).e)
    case T3 => b.(e := T3TimerRun(b.e).e)
  }

  /** What reads can return: something, and no more than the buffer has room for. */
  predicate Readable(b: State, chunks: seq<string>)
    decreases |chunks|
  {
    chunks != [] ==>
      && chunks[0] != "" && |b.d.rbuf| + |chunks[0]| <= BUFFER
      && (Goes(b, chunks[0]) ==> Readable(ReadOne(b, chunks[0]), chunks[1..]))
  }

  /** What the program's surroundings do: standard input fires only when asked for; the peer
      confirms the start once and before it numbers anything, numbers below 32767, and confirms
      no stop nobody asked for. */
  predicate Enabled(b: State, ev: Event) {
    && !b.d.closed
    && (ev.Stdin? ==> b.d.pending && Readable(b, ev.chunks))
    && (ev.Arrived? && !ev.f.U? ==> !b.e.stopdt && ev.f.nr < MODULUS)
    && (ev.Arrived? && ev.f == U(StartCon) ==> b.e.stopdt)
    && !(ev.Arrived? && ev.f == U(StopCon))
  }

  function Start(w: nat, k: nat): State {
    State(Endpoint(Master, true, false, w, k, 0, 0, 0, 0, true, false, false, [], []), [],
          Desk("", [], true, 0, false, false, false, "", [], [], 0, 0))
  }

  // ---------- the invariant ----------

  ghost predicate Windowed(b: State) {
    && b.e.role.Master? && b.e.writeQ == []
    && Counts(b.e, |b.sent|, b.d.acked)
  }

  /** '>' and '<' in turn, beginning with '>'; `open` if the last is '>'. */
  predicate Alternates(marks: string, open: bool) {
    if marks == "" then !open
    else
      var n := |marks| - 1;
      marks[n] == (if open then '>' else '<') && Alternates(marks[..n], !open)
  }

  /** c is an interleaving of a and b, both in order. */
  ghost predicate Merges(a: seq<Asdu>, b: seq<Asdu>, c: seq<Asdu>)
    decreases |c|
  {
    if c == [] then a == [] && b == []
    else
      var n := |c| - 1;
      || (a != [] && a[|a| - 1] == c[n] && Merges(a[..|a| - 1], b, c[..n]))
      || (b != [] && b[|b| - 1] == c[n] && Merges(a, b[..|b| - 1], c[..n]))
  }

  /** What was taken is what was transmitted and then the backlog, in order, with what went
      astray in between. */
  ghost predicate InOrder(b: State) { Merges(b.sent + b.d.list, b.d.lost, b.d.accepted) }

  lemma {:induction false} MergesLeft(a: seq<Asdu>, b: seq<Asdu>, c: seq<Asdu>, xs: seq<Asdu>)
    requires Merges(a, b, c)
    ensures Merges(a + xs, b, c + xs)
    decreases |xs|
  {
    if xs == [] {
      assert a + xs == a && c + xs == c;
    } else {
      var n := |xs| - 1;
      MergesLeft(a, b, c, xs[..n]);
      assert (a + xs)[..|a + xs| - 1] == a + xs[..n] && (c + xs)[..|c + xs| - 1] == c + xs[..n];
    }
  }

  lemma {:induction false} MergesRight(a: seq<Asdu>, b: seq<Asdu>, c: seq<Asdu>, xs: seq<Asdu>)
    requires Merges(a, b, c)
    ensures Merges(a, b + xs, c + xs)
    decreases |xs|
  {
    if xs == [] {
      assert b + xs == b && c + xs == c;
    } else {
      var n := |xs| - 1;
      MergesRight(a, b, c, xs[..n]);
      assert (b + xs)[..|b + xs| - 1] == b + xs[..n] && (c + xs)[..|c + xs| - 1] == c + xs[..n];
    }
  }

  /** With nothing astray there is only one interleaving. */
  lemma {:induction false} MergesAll(a: seq<Asdu>, c: seq<Asdu>)
    requires Merges(a, [], c)
    ensures a == c
    decreases |c|
  {
    if c != [] {
      MergesAll(a[..|a| - 1], c[..|c| - 1]);
    }
  }

  ghost predicate Orderly(d: Desk) {
    && (d.pending ==> d.list == [] && !d.endmsg)
    && (d.list != [] ==> d.attached)
    && |d.list| <= d.size
    && Alternates(d.marks, d.endmsg)
  }

  ghost predicate Linked(b: State) {
    && Windowed(b) && InOrder(b) && Orderly(b.d)
    && (b.e.stopdt ==> !b.d.pending && b.d.list == [] && !b.d.endmsg)
  }

  // ---------- sending ----------

  /** With the window open, an ASDU is transmitted at once. */
  lemma {:induction false} SendExact(b: State, a: Asdu)
    requires Windowed(b) && CanQueue(b.e) != 0
    ensures Windowed(Send(b, a)) && Send(b, a).sent == b.sent + [a]
    ensures Send(b, a).d == b.d && Send(b, a).e.stopdt == b.e.stopdt && Send(b, a).e.k == b.e.k
    ensures Submit(b.e, a).wire == [I(b.e.vs, b.e.vr, a)] && Send(b, a).e.vs == (|b.sent| + 1) % MODULUS
  {
    WindowExact(b.e, |b.sent|, b.d.acked);
    SubmitExact(b.e, a, |b.sent|, b.d.acked);
    var q := [] + [a];
    assert q == [a] && q[..1] == [a] && q[1..] == [] && [a][1..] == [];
    NumberedAt(|b.sent|, b.e.vr, q[..1]);
    var wire := Numbered(|b.sent|, b.e.vr, q[..1]);
    assert wire == [I(b.e.vs, b.e.vr, a)] && wire[1..] == [];
    assert Payloads(wire) == [a];
  }

  /** can_queue is positive exactly while the window test of the send loop is open. */
  lemma {:induction false} RoomExact(b: State)
    requires Windowed(b)
    ensures CanQueue(b.e) == b.d.acked + b.e.k - |b.sent| >= 0
    ensures CanQueue(b.e) != 0 <==> WindowOpen(b.e)
  {
    WindowExact(b.e, |b.sent|, b.d.acked);
  }

  // ---------- what one callback of standard input does ----------

  /** Of the lines `ds` the first `n` went out, the rest to the backlog or astray. */
  ghost function Filed(d: Desk, ds: seq<Asdu>, n: nat): Desk
    requires n <= |ds|
  {
    var d1 := d.(accepted := d.accepted + ds, msg := d.msg + |ds|, size := d.size + |ds| - n);
    if d.attached then d1.(list := d.list + ds[n..]) else d1.(lost := d.lost + ds[n..])
  }

  ghost function Marked(d: Desk, ended: bool): Desk {
    if ended then d.(endmsg := true, marks := d.marks + ">") else d
  }

  /** How many of `n` ASDUs the window lets out. */
  ghost function Fits(b: State, n: nat): (m: nat)
    requires Windowed(b)
    ensures m == Min(n, CanQueue(b.e)) == Min(n, b.d.acked + b.e.k - |b.sent|)
  {
    RoomExact(b);
    Min(n, CanQueue(b.e))
  }

  /** From `b`, taking the lines `ds` and perhaps an end mark leads to `r`. */
  ghost predicate Took(b: State, r: State, ds: seq<Asdu>, ended: bool)
    requires Windowed(b)
  {
    var n := Fits(b, |ds|);
    && Windowed(r) && r.e.k == b.e.k && r.e.stopdt == b.e.stopdt
    && r.sent == b.sent + ds[..n]
    && r.d == Marked(Filed(b.d, ds, n), ended)
  }

  lemma {:induction false} TookData(b: State, a: Asdu)
    requires Windowed(b)
    ensures Took(b, Take(b, Data(a)), [a], false)
  {
    RoomExact(b);
    var c := b.(d := Count(b.d, a));
    assert [a][..1] == [a] && [a][1..] == [] && [a][..0] == [] && [a][0..] == [a];
    if CanQueue(b.e) != 0 {
      SendExact(c, a);
      assert b.d.list + [] == b.d.list && b.d.lost + [] == b.d.lost;
    } else {
      assert b.sent + [] == b.sent;
    }
  }

  lemma SplitPrefix(a: Asdu, ds: seq<Asdu>, n: nat)
    requires n <= |ds|
    ensures ([a] + ds)[..n + 1] == [a] + ds[..n] && ([a] + ds)[n + 1..] == ds[n..]
    ensures ([a] + ds)[..0] == [] && ([a] + ds)[0..] == [a] + ds
  {
  }

  lemma {:induction false} FiledOpen(d: Desk, a: Asdu, ds: seq<Asdu>, n: nat)
    requires n <= |ds|
    ensures Filed(Filed(d, [a], 1), ds, n) == Filed(d, [a] + ds, n + 1)
  {
    SplitPrefix(a, ds, n);
    assert [a][1..] == [];
    Assoc(d.accepted, [a], ds);
    assert d.list + [] == d.list && d.lost + [] == d.lost;
  }

  lemma {:induction false} FiledShut(d: Desk, a: Asdu, ds: seq<Asdu>)
    ensures Filed(Filed(d, [a], 0), ds, 0) == Filed(d, [a] + ds, 0)
  {
    assert [a][0..] == [a] && ds[0..] == ds && ([a] + ds)[0..] == [a] + ds;
    Assoc(d.accepted, [a], ds);
    Assoc(d.list, [a], ds);
    Assoc(d.lost, [a], ds);
  }

  lemma {:induction false} TookMore(b: State, c: State, r: State, a: Asdu, ds: seq<Asdu>, ended: bool)
    requires Windowed(b) && Took(b, c, [a], false) && Took(c, r, ds, ended)
    ensures Took(b, r, [a] + ds, ended)
  {
    RoomExact(b);
    if CanQueue(b.e) != 0 {
      TookOpen(b, c, r, a, ds, ended);
    } else {
      TookShut(b, c, r, a, ds, ended);
    }
  }

  lemma {:induction false} TookOpen(b: State, c: State, r: State, a: Asdu, ds: seq<Asdu>, ended: bool)
    requires Windowed(b) && CanQueue(b.e) != 0 && Took(b, c, [a], false) && Took(c, r, ds, ended)
    ensures Took(b, r, [a] + ds, ended)
  {
    var n := Fits(c, |ds|);
    assert [a][..1] == [a] && Fits(b, 1) == 1 && c.d == Filed(b.d, [a], 1);
    assert |[a] + ds| == |ds| + 1 && Fits(b, |ds| + 1) == n + 1;
    FiledOpen(b.d, a, ds, n);
    SplitPrefix(a, ds, n);
    Assoc(b.sent, [a], ds[..n]);
  }

  lemma {:induction false} TookShut(b: State, c: State, r: State, a: Asdu, ds: seq<Asdu>, ended: bool)
    requires Windowed(b) && CanQueue(b.e) == 0 && Took(b, c, [a], false) && Took(c, r, ds, ended)
    ensures Took(b, r, [a] + ds, ended)
  {
    RoomExact(c);
    assert [a][..0] == [] && b.sent + [] == b.sent;
    FiledShut(b.d, a, ds);
    assert ds[..0] == ([a] + ds)[..0];
  }

  lemma {:induction false} TookNone(b: State)
    requires Windowed(b)
    ensures Took(b, b, [], false)
  {
    var none: seq<Asdu> := [];
    assert none[..0] == [] && none[0..] == [];
    assert b.sent + [] == b.sent && b.d.accepted + [] == b.d.accepted;
    assert b.d.list + [] == b.d.list && b.d.lost + [] == b.d.lost;
  }

  /** Lines, and perhaps an end mark after them. */
  function Lines(ds: seq<Asdu>, ended: bool): seq<Item> { Datas(ds) + if ended then [End] else [] }

  lemma {:induction false} TakeLines(b: State, ds: seq<Asdu>, ended: bool)
    requires Windowed(b)
    ensures Took(b, TakeAll(b, Lines(ds, ended)), ds, ended)
    decreases |ds|
  {
    var items := Lines(ds, ended);
    if ds == [] {
      TookNone(b);
      if ended {
        assert items == [End] && [End][1..] == [];
        assert TakeAll(b, [End]) == TakeAll(Take(b, End), []);
      }
    } else {
      var a := ds[0];
      assert ds == [a] + ds[1..];
      LinesCons(a, ds[1..], ended);
      assert items[1..] == Lines(ds[1..], ended);
      TookData(b, a);
      var c := Take(b, Data(a));
      TakeLines(c, ds[1..], ended);
      TookMore(b, c, TakeAll(b, items), a, ds[1..], ended);
      assert [a] + ds[1..] == ds;
    }
  }

  // ---------- the text behind it ----------

  lemma {:induction false} TakeAllConcat(b: State, xs: seq<Item>, ys: seq<Item>)
    ensures TakeAll(b, xs + ys) == TakeAll(TakeAll(b, xs), ys)
    decreases |xs|
  {
    if xs == [] {
      assert xs + ys == ys;
    } else {
      TakeAllConcat(Take(b, xs[0]), xs[1..], ys);
      assert (xs + ys)[1..] == xs[1..] + ys;
    }
  }

  function WithText(b: State, s: string): State { b.(d := b.d.(rbuf := s)) }

  lemma TakeText(b: State, item: Item, s: string)
    ensures Take(WithText(b, s), item) == WithText(Take(b, item), s)
  {
  }

  lemma {:induction false} TakeAllText(b: State, items: seq<Item>, s: string)
    ensures TakeAll(WithText(b, s), items) == WithText(TakeAll(b, items), s)
    decreases |items|
  {
    if items != [] {
      TakeText(b, items[0], s);
      TakeAllText(Take(b, items[0]), items[1..], s);
    }
  }

  /** The callback takes exactly the items of the text it read, stopping early only at an end
      mark or when the size counter stands at its limit after a read. */
  lemma {:induction false} ReadLoopText(b: State, chunks: seq<string>)
    ensures var t := ReadAll(b.d.rbuf, chunks[..Reads(b, chunks)]);
      && ReadLoop(b, chunks) == WithText(TakeAll(b, t.items), t.rest)
      && (Reads(b, chunks) < |chunks| ==> t.stopped || ReadLoop(b, chunks).d.size == LIST_LIMIT)
    decreases |chunks|
  {
    if chunks == [] {
      assert chunks[..0] == [];
      return;
    }
    var r := Read(b.d.rbuf, chunks[0]);
    var b1 := ReadOne(b, chunks[0]);
    TakeAllText(b, r.items, r.rest);
    if Goes(b, chunks[0]) {
      var m := Reads(b1, chunks[1..]);
      ReadLoopText(b1, chunks[1..]);
      var few := chunks[..m + 1];
      assert few[0] == chunks[0] && few[1..] == chunks[1..][..m];
      var t := ReadAll(r.rest, chunks[1..][..m]);
      TakeAllConcat(b, r.items, t.items);
      TakeAllText(TakeAll(b, r.items), t.items, r.rest);
    } else {
      var one := chunks[..1];
      assert one == [chunks[0]] && one[1..] == [];
      assert r.items + [] == r.items;
    }
  }

  /** The loop is at its end after so many reads: an end mark, or 12 counted to the backlog. */
  ghost predicate Halts(b: State, chunks: seq<string>, c: nat)
    requires c <= |chunks|
  {
    var t := ReadAll(b.d.rbuf, chunks[..c]);
    t.stopped || TakeAll(b, t.items).d.size == 12
  }

  /** The callback reads up to and including the first read after which it is at its end, and
      otherwise everything. */
  lemma {:induction false} ReadsExact(b: State, chunks: seq<string>)
    ensures var n := Reads(b, chunks);
      && (forall c :: 0 < c < n ==> !Halts(b, chunks, c))
      && (n < |chunks| ==> n > 0 && Halts(b, chunks, n))
    decreases |chunks|
  {
    if chunks != [] {
      var r, b1, rest := Read(b.d.rbuf, chunks[0]), ReadOne(b, chunks[0]), chunks[1..];
      ReadsExact(b1, rest);
      assert Goes(b, chunks[0]) <==> !Halts(b, chunks, 1) by {
        OneReadHalts(b, chunks);
      }
      if Goes(b, chunks[0]) {
        forall c | 0 < c <= |rest| ensures Halts(b, chunks, c + 1) <==> Halts(b1, rest, c) {
          MoreReadsHalt(b, chunks, c);
        }
        forall c | 1 < c <= |chunks| ensures Halts(b, chunks, c) <==> Halts(b1, rest, c - 1) {
          assert Halts(b, chunks, (c - 1) + 1) <==> Halts(b1, rest, c - 1);
        }
      }
    }
  }

  lemma {:induction false} OneReadHalts(b: State, chunks: seq<string>)
    requires chunks != []
    ensures Goes(b, chunks[0]) <==> !Halts(b, chunks, 1)
  {
    var r := Read(b.d.rbuf, chunks[0]);
    TakeAllText(b, r.items, r.rest);
    var one := chunks[..1];
    assert one == [chunks[0]] && one[1..] == [] && r.items + [] == r.items;
    assert ReadAll(r.rest, one[1..]) == Scanned([], r.rest, false);
    assert ReadAll(b.d.rbuf, one) == r;
  }

  lemma {:induction false} MoreReadsHalt(b: State, chunks: seq<string>, c: nat)
    requires chunks != [] && c + 1 <= |chunks| && !Read(b.d.rbuf, chunks[0]).stopped
    ensures Halts(b, chunks, c + 1) <==> Halts(ReadOne(b, chunks[0]), chunks[1..], c)
  {
    var r := Read(b.d.rbuf, chunks[0]);
    TakeAllText(b, r.items, r.rest);
    var few := chunks[..c + 1];
    assert few[0] == chunks[0] && few[1..] == chunks[1..][..c];
    var t := ReadAll(r.rest, chunks[1..][..c]);
    TakeAllConcat(b, r.items, t.items);
    TakeAllText(TakeAll(b, r.items), t.items, r.rest);
  }

  lemma {:induction false} LinesMore(xs: seq<Asdu>, ys: seq<Asdu>, ended: bool)
    ensures Lines(xs + ys, ended) == Lines(xs, false) + Lines(ys, ended)
  {
    if xs == [] {
      assert xs + ys == ys;
    } else {
      LinesMore(xs[1..], ys, ended);
      LinesCons(xs[0], xs[1..] + ys, ended);
      LinesCons(xs[0], xs[1..], false);
      assert xs + ys == [xs[0]] + (xs[1..] + ys) && xs == [xs[0]] + xs[1..];
      Assoc([Data(xs[0])], Lines(xs[1..], false), Lines(ys, ended));
    }
  }

  lemma {:induction false} LinesCons(a: Asdu, ds: seq<Asdu>, ended: bool)
    ensures Lines([a] + ds, ended) == [Data(a)] + Lines(ds, ended)
  {
    assert ([a] + ds)[1..] == ds;
    Assoc([Data(a)], Datas(ds), if ended then [End] else []);
  }

  /** Text is read as data lines with at most one end mark, and that last. */
  lemma {:induction false} ScanShape(s: string) returns (ds: seq<Asdu>)
    ensures Scan(s).items == Lines(ds, Scan(s).stopped)
    decreases |s|
  {
    ds := [];
    var k := Newline(s);
    if k < |s| && LineItem(s[..k]) != [End] {
      var more := ScanShape(s[k + 1..]);
      ds := ItemShape(s[..k], more, Scan(s).stopped);
    }
  }

  lemma {:induction false} ItemShape(line: string, more: seq<Asdu>, ended: bool) returns (ds: seq<Asdu>)
    requires LineItem(line) != [End]
    ensures LineItem(line) + Lines(more, ended) == Lines(ds, ended)
  {
    var item := LineItem(line);
    if item == [] {
      ds := more;
      assert item + Lines(more, ended) == Lines(more, ended);
    } else {
      var a: Asdu := item[0].a;
      ds := [a] + more;
      assert Datas([a]) == item by {
        assert [a][1..] == [];
      }
      LinesMore([a], more, ended);
    }
  }

  lemma {:induction false} ReadAllShape(left: string, chunks: seq<string>) returns (ds: seq<Asdu>)
    ensures ReadAll(left, chunks).items == Lines(ds, ReadAll(left, chunks).stopped)
    decreases |chunks|
  {
    if chunks == [] {
      ds := [];
    } else {
      ds := ScanShape(left + chunks[0]);
      var r := Read(left, chunks[0]);
      if !r.stopped {
        var more := ReadAllShape(r.rest, chunks[1..]);
        LinesMore(ds, more, ReadAll(left, chunks).stopped);
        ds := ds + more;
      }
    }
  }

  function DataLines(items: seq<Item>): nat {
    if items == [] then 0 else (if items[0].Data? then 1 else 0) + DataLines(items[1..])
  }

  lemma {:induction false} DataLinesOf(ds: seq<Asdu>, ended: bool)
    ensures DataLines(Lines(ds, ended)) == |ds|
  {
    if ds == [] {
      assert Lines(ds, ended) == if ended then [End] else [];
    } else {
      DataLinesOf(ds[1..], ended);
      assert ds == [ds[0]] + ds[1..];
      LinesCons(ds[0], ds[1..], ended);
    }
  }

  /** The text a callback reads. */
  function TextRead(b: State, chunks: seq<string>): Scanned {
    ReadAll(b.d.rbuf, chunks[..Reads(b.(d := b.d.(pending := false)), chunks)])
  }

  /** One callback of standard input, seen from the session and the backlog. */
  lemma {:induction false} StdinReadExact(b: State, chunks: seq<string>) returns (ds: seq<Asdu>, ended: bool)
    requires Windowed(b)
    ensures var r := StdinRead(b, chunks);
      Took(WithText(b.(d := b.d.(pending := false)), r.d.rbuf), r, ds, ended)
    ensures |ds| == DataLines(TextRead(b, chunks).items)
  {
    var b0 := b.(d := b.d.(pending := false));
    ReadLoopText(b0, chunks);
    var c := Reads(b0, chunks);
    var t := ReadAll(b.d.rbuf, chunks[..c]);
    ds := ReadAllShape(b.d.rbuf, chunks[..c]);
    ended := t.stopped;
    DataLinesOf(ds, ended);
    TakeAllText(b0, t.items, t.rest);
    TakeLines(WithText(b0, t.rest), ds, ended);
    assert StdinRead(b, chunks).d.rbuf == t.rest;
  }
}
