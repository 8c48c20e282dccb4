/** What holds along every run of the bridge over one connection: order of the ASDUs, when
    '<' is printed and what it means, and when an ASDU goes astray. */
module Handshake {
  import opened Basics
  import opened Octets
  import opened LinkLayer
  import opened LinkWindow
  import opened HexText
  import opened StdinLines
  import opened Backlog

  // ---------- the wakeup ----------

  /** From `b`, sending `xs` by way of outcome `o` leads to `r` with `rest` left over. */
  ghost predicate Kicked(b: State, r: State, o: Outcome, xs: seq<Asdu>, rest: seq<Asdu>) {
    && Windowed(r) && r.e == o.e && r.e.stopdt == b.e.stopdt && r.e.k == b.e.k
    && Payloads(o.wire) == xs && r.sent == b.sent + xs
    && r.d == b.d.(list := rest)
  }

  /** The wakeup loop hands the session a prefix of the backlog, as long as the window is
      wide, and all of it leaves at once. */
  lemma {:induction false} KickLoopExact(b: State)
    requires Windowed(b)
    ensures var n := Fits(b, |b.d.list|);
      Kicked(b, KickLoop(b), SubmitAll(b.e, b.d.list[..n]), b.d.list[..n], b.d.list[n..])
    decreases |b.d.list|
  {
    var n := Fits(b, |b.d.list|);
    if n == 0 {
      KickNone(b);
    } else {
      KickUnfold(b);
      KickLoopExact(SendFirst(b));
      Cut(b.d.list, n);
      KickMore(b, KickLoop(b), b.d.list[1..][..n - 1], b.d.list[n..]);
    }
  }

  lemma {:induction false} KickNone(b: State)
    requires Windowed(b) && (b.d.list == [] || CanQueue(b.e) == 0)
    ensures Kicked(b, KickLoop(b), SubmitAll(b.e, b.d.list[..0]), b.d.list[..0], b.d.list[0..])
  {
    var xs := b.d.list;
    assert xs[..0] == [] && xs[0..] == xs && b.sent + [] == b.sent;
  }

  lemma {:induction false} KickUnfold(b: State)
    requires Windowed(b) && CanQueue(b.e) != 0 && b.d.list != []
    ensures KickLoop(b) == KickLoop(SendFirst(b)) && Windowed(SendFirst(b))
    ensures SendFirst(b).d.list == b.d.list[1..]
    ensures Fits(SendFirst(b), |b.d.list| - 1) == Fits(b, |b.d.list|) - 1
  {
    SendExact(b, b.d.list[0]);
  }

  ghost function SendFirst(b: State): State
    requires b.d.list != []
  {
    var c := Send(b, b.d.list[0]);
    c.(d := c.d.(list := b.d.list[1..]))
  }

  lemma {:induction false} KickMore(b: State, r: State, xs: seq<Asdu>, rest: seq<Asdu>)
    requires Windowed(b) && CanQueue(b.e) != 0 && b.d.list != []
    requires Kicked(SendFirst(b), r, SubmitAll(SendFirst(b).e, xs), xs, rest)
    ensures Kicked(b, r, SubmitAll(b.e, [b.d.list[0]] + xs), [b.d.list[0]] + xs, rest)
  {
    var a, b1 := b.d.list[0], SendFirst(b);
    SendExact(b, a);
    Assoc(b.sent, [a], xs);
    PayloadsMore(I(b.e.vs, b.e.vr, a), SubmitAll(b1.e, xs).wire);
    assert ([a] + xs)[1..] == xs;
  }

  lemma Cut(xs: seq<Asdu>, n: nat)
    requires 1 <= n <= |xs|
    ensures xs[..n] == [xs[0]] + xs[1..][..n - 1] && xs[n..] == xs[1..][n - 1..]
    ensures xs[..n][1..] == xs[1..][..n - 1] && xs[..n][0] == xs[0]
  {
  }

  lemma {:induction false} PayloadsMore(f: Frame, fs: seq<Frame>)
    requires f.I?
    ensures Payloads([f] + fs) == [f.asdu] + Payloads(fs)
  {
    assert ([f] + fs)[1..] == fs;
  }

  /** Taking N(R) moves the count of acknowledged frames, and the wakeup is due exactly when
      everything sent is acknowledged. */
  lemma {:induction false} NrExact(b: State, nr: nat)
    requires Windowed(b) && nr < MODULUS && CheckNr(b.e, nr)
    ensures var n := b.d.acked + Distance(b.e.va, nr);
      && Counts(b.e.(va := nr), |b.sent|, n)
      && (b.e.vs == nr <==> n == |b.sent|)
  {
    CheckNrExact(b.e, |b.sent|, b.d.acked, nr);
    var n :| b.d.acked <= n <= |b.sent| && n % MODULUS == nr;
    DistanceExact(b.d.acked, n);
    if b.e.vs == nr {
      SameResidue(|b.sent|, n);
    }
  }

  /** The state in which the wakeup hook runs. */
  ghost function Woken(b: State, nr: nat): State {
    b.(e := b.e.(va := nr, t1 := false), d := b.d.(acked := b.d.acked + Distance(b.e.va, nr)))
  }

  /** Everything the receipt of a valid N(R) does. */
  lemma {:induction false} TakeNrExact(b: State, nr: nat)
    requires Windowed(b) && nr < MODULUS && CheckNr(b.e, nr)
    ensures var r, n := TakeNr(b, nr), Min(|b.d.list|, b.e.k);
      var o := Acknowledge(b.e, nr, b.d.list[..n]);
      && Windowed(r) && r.e == o.e && r.e.stopdt == b.e.stopdt && r.e.k == b.e.k
      && r.sent == b.sent + Payloads(o.wire)
      && if b.e.vs == nr then
           && r.sent == b.sent + b.d.list[..n]
           && r.d == Settle(Woken(b, nr).d.(list := b.d.list[n..]), b.d.list != [])
           && r.d.acked == |b.sent|
         else r.sent == b.sent && r.d == Woken(b, nr).d
  {
    NrExact(b, nr);
    if b.e.vs == nr {
      WakeExact(Woken(b, nr));
    } else {
      assert b.sent + [] == b.sent;
    }
  }

  /** The wakeup with everything acknowledged: the window is wide open. */
  lemma {:induction false} WakeExact(b: State)
    requires Windowed(b) && b.d.acked == |b.sent|
    ensures var r, n := Kick(b), Min(|b.d.list|, b.e.k);
      var o := SubmitAll(b.e, b.d.list[..n]);
      && Windowed(r) && r.e == o.e && r.e.stopdt == b.e.stopdt && r.e.k == b.e.k
      && Payloads(o.wire) == b.d.list[..n] && r.sent == b.sent + b.d.list[..n]
      && r.d == Settle(b.d.(list := b.d.list[n..]), b.d.list != []) && r.d.acked == |b.sent|
  {
    RoomExact(b);
    KickLoopExact(b);
  }

  lemma {:induction false} NoPayload(f: Frame)
    requires !f.I?
    ensures Payloads([f]) == []
  {
    assert [f][1..] == [];
  }

  /** The ASDUs the hook will hand over if it is woken now. */
  ghost function HookList(b: State): seq<Asdu> { b.d.list[..Min(|b.d.list|, b.e.k)] }

  lemma {:induction false} NsRefines(b: State, f: Frame)
    requires f.I?
    ensures var r, o := TakeNs(b, f), Accept(b.e, f);
      r.e == o.e && r.d.closed == !o.ok && r.sent == b.sent && Payloads(o.wire) == []
  {
    NoPayload(S(Next(b.e.vr)));
  }

  lemma {:induction false} IRefines(b: State, f: Frame)
    requires Windowed(b) && f.I? && f.nr < MODULUS && CheckNr(b.e, f.nr)
    ensures var r, o := TakeNs(TakeNr(b, f.nr), f), IFrameRecv(b.e, f, HookList(b));
      r.e == o.e && r.d.closed == !o.ok && r.sent == b.sent + Payloads(o.wire)
  {
    TakeNrExact(b, f.nr);
    var c, o := TakeNr(b, f.nr), Acknowledge(b.e, f.nr, HookList(b));
    NsRefines(c, f);
    PayloadsConcat(o.wire, Accept(c.e, f).wire);
    assert b.sent + (Payloads(o.wire) + []) == b.sent + Payloads(o.wire);
  }

  lemma {:induction false} SRefines(b: State, f: Frame)
    requires Windowed(b) && !b.d.closed && f.S? && f.nr < MODULUS && CheckNr(b.e, f.nr)
    ensures var r, o := Recv(b, f), FrameRecv(b.e, f, HookList(b));
      r.e == o.e && r.d.closed == !o.ok && r.sent == b.sent + Payloads(o.wire)
  {
    var b1 := b.(e := b.e.(t3 := true, ackwQ := Prune(b.e.ackwQ, f.nr)));
    TakeNrExact(b1, f.nr);
    NoUpAll(Woken(b1, f.nr).e, HookList(b));
  }

  lemma {:induction false} URefines(b: State, func: UFunc)
    requires Windowed(b)
    ensures var r, o := TakeU(b, func), UFrameRecv(b.e, func);
      && r.e == o.e && r.d.closed == !o.ok && r.sent == b.sent + Payloads(o.wire)
      && r.e == b.e.(stopdt := r.e.stopdt, t1 := r.e.t1, t3 := r.e.t3, testfr := r.e.testfr)
      && Payloads(o.wire) == []
  {
    NoPayload(U(TestCon));
    assert b.sent + [] == b.sent;
  }

  /** The bridge's receipt is the link layer's receipt with the hook's ASDUs filled in. */
  lemma {:induction false} RecvRefines(b: State, f: Frame)
    requires Windowed(b) && !b.d.closed && (!f.U? ==> f.nr < MODULUS)
    ensures var r, o := Recv(b, f), FrameRecv(b.e, f, HookList(b));
      r.e == o.e && r.d.closed == !o.ok && r.sent == b.sent + Payloads(o.wire)
  {
    var b0 := b.(e := b.e.(t3 := true));
    if !f.U? && !CheckNr(b.e, f.nr) {
      assert b.sent + [] == b.sent;
    } else {
      match f
      case S(nr) => SRefines(b, f);
      case I(_, nr, _) => IRefines(b0, f);
      case U(func) => URefines(b0, func);
    }
  }

  // ---------- the invariant ----------

  lemma {:induction false} MarkMore(marks: string, open: bool)
    requires Alternates(marks, open)
    ensures Alternates(marks + [if open then '<' else '>'], !open)
  {
    var m := marks + [if open then '<' else '>'];
    assert m[..|m| - 1] == marks;
  }

  lemma {:induction false} TakeNrLinked(b: State, nr: nat)
    requires Linked(b) && !b.e.stopdt && nr < MODULUS && CheckNr(b.e, nr)
    ensures Linked(TakeNr(b, nr)) && !TakeNr(b, nr).e.stopdt
  {
    TakeNrExact(b, nr);
    if b.e.vs == nr {
      var n := Min(|b.d.list|, b.e.k);
      Assoc(b.sent, b.d.list[..n], b.d.list[n..]);
      assert b.d.list[..n] + b.d.list[n..] == b.d.list;
      if b.d.endmsg {
        MarkMore(b.d.marks, true);
      }
    }
  }

  lemma {:induction false} TakeULinked(b: State, func: UFunc)
    requires Linked(b) && !func.StopCon? && (func.StartCon? ==> b.e.stopdt)
    ensures Linked(TakeU(b, func))
  {
    URefines(b, func);
  }

  lemma TakeNsLinked(b: State, f: Frame)
    requires Linked(b) && f.I?
    ensures Linked(TakeNs(b, f))
  {
  }

  lemma {:induction false} RecvLinked(b: State, f: Frame)
    requires Linked(b) && Enabled(b, Arrived(f))
    ensures Linked(Recv(b, f))
  {
    var b0 := b.(e := b.e.(t3 := true));
    if f.U? {
      TakeULinked(b0, f.func);
    } else if CheckNr(b.e, f.nr) {
      var b1 := if f.S? then b0.(e := b0.e.(ackwQ := Prune(b.e.ackwQ, f.nr))) else b0;
      TakeNrLinked(b1, f.nr);
      if f.I? {
        TakeNsLinked(TakeNr(b0, f.nr), f);
      }
    }
  }

  lemma {:induction false} StdinLinked(b: State, chunks: seq<string>)
    requires Linked(b) && Enabled(b, Stdin(chunks))
    ensures Linked(StdinRead(b, chunks))
  {
    var ds, ended := StdinReadExact(b, chunks);
    TookInOrder(b, ds, Fits(b, |ds|));
    MarkMore(b.d.marks, false);
  }

  lemma {:induction false} TookInOrder(b: State, ds: seq<Asdu>, n: nat)
    requires InOrder(b) && b.d.list == [] && n <= |ds|
    ensures var d := Filed(b.d, ds, n); Merges((b.sent + ds[..n]) + d.list, d.lost, d.accepted)
  {
    var kept, lost, all := b.sent + b.d.list, b.d.lost, b.d.accepted;
    assert kept == b.sent && [] + ds[n..] == ds[n..] && (b.sent + ds[..n]) + [] == b.sent + ds[..n];
    assert ds[..n] + ds[n..] == ds;
    MergesLeft(kept, lost, all, ds[..n]);
    Assoc(all, ds[..n], ds[n..]);
    if b.d.attached {
      MergesLeft(kept + ds[..n], lost, all + ds[..n], ds[n..]);
    } else {
      MergesRight(kept + ds[..n], lost, all + ds[..n], ds[n..]);
    }
  }

  lemma {:induction false} StepLinked(b: State, ev: Event)
    requires Linked(b) && Enabled(b, ev)
    ensures Linked(Step(b, ev))
  {
    match ev
    case Stdin(chunks) => StdinLinked(b, chunks);
    case Arrived(f) => RecvLinked(b, f);
    case T2 =>
    case T3 =>
  }

  // ---------- '<' ----------

  predicate Confirms(b: State, r: State) { r.d.marks == b.d.marks + "<" }

  /** When '<' is printed, and what it means: every ASDU line taken has been transmitted, but
      what was still in the backlog at the wakeup is not yet acknowledged. */
  lemma {:induction false} ConfirmExact(b: State, f: Frame)
    requires Linked(b) && Enabled(b, Arrived(f))
    ensures var r := Recv(b, f);
      && (Confirms(b, r) <==>
            !f.U? && CheckNr(b.e, f.nr) && f.nr == b.e.vs && b.d.endmsg && |b.d.list| <= b.e.k)
      && (Confirms(b, r) ==>
            && r.sent == b.sent + b.d.list && r.d.list == [] && r.d.acked == |b.sent|
            && (r.d.acked == |r.sent| <==> b.d.list == [])
            && (r.d.attached <==> b.d.attached && b.d.list == []))
  {
    var b0 := b.(e := b.e.(t3 := true));
    if !f.U? && CheckNr(b.e, f.nr) {
      var b1 := if f.S? then b0.(e := b0.e.(ackwQ := Prune(b.e.ackwQ, f.nr))) else b0;
      TakeNrExact(b1, f.nr);
      ConfirmSettles(b1, f.nr);
    }
  }

  lemma {:induction false} ConfirmSettles(b: State, nr: nat)
    requires Linked(b) && nr < MODULUS && CheckNr(b.e, nr)
    ensures var r := TakeNr(b, nr);
      && (Confirms(b, r) <==> nr == b.e.vs && b.d.endmsg && |b.d.list| <= b.e.k)
      && (Confirms(b, r) ==>
            && r.sent == b.sent + b.d.list && r.d.list == [] && r.d.acked == |b.sent|
            && (r.d.attached <==> b.d.attached && b.d.list == []))
  {
    TakeNrExact(b, nr);
    if |b.d.list| <= b.e.k {
      assert b.d.list[..|b.d.list|] == b.d.list;
    }
  }

  // ---------- the wakeup, flag by flag ----------

  /** With everything acknowledged the backlog leaves as far as the window reaches.  Only if that
      empties it is anything else done: input is asked for, and either the tail pointer is reset
      or, an end mark having been taken, '<' is printed, the next message begins, and the tail
      pointer is stale if there was a backlog. */
  lemma {:induction false} WakeupExact(b: State, nr: nat)
    requires Linked(b) && nr < MODULUS && CheckNr(b.e, nr) && nr == b.e.vs
    ensures var d, r := b.d, TakeNr(b, nr).d;
      var emptied := |d.list| <= b.e.k;
      && r.list == (if emptied then [] else d.list[b.e.k..])
      && (r.pending <==> d.pending || emptied)
      && (r.endmsg <==> d.endmsg && !emptied)
      && (r.attached <==> if emptied && d.endmsg then d.attached && d.list == [] else emptied || d.attached)
      && r.marks == d.marks + (if emptied && d.endmsg then "<" else "")
      && r.msg == (if emptied && d.endmsg then 0 else d.msg)
      && r.acked == |b.sent| && r.size == d.size && r.rbuf == d.rbuf
      && r.accepted == d.accepted && r.lost == d.lost && r.closed == d.closed
  {
    TakeNrExact(b, nr);
    assert b.d.marks + "" == b.d.marks;
    if |b.d.list| <= b.e.k {
      assert b.d.list[|b.d.list|..] == [];
    }
  }

  /** When input is asked for: exactly at the confirmation of the start, and whenever an accepted
      N(R) acknowledges everything and the backlog fits the window. */
  lemma {:induction false} AsksIff(b: State, f: Frame)
    requires Linked(b) && Enabled(b, Arrived(f))
    ensures Recv(b, f).d.pending <==>
      || b.d.pending || f == U(StartCon)
      || (!f.U? && CheckNr(b.e, f.nr) && f.nr == b.e.vs && |b.d.list| <= b.e.k)
  {
    var b0 := b.(e := b.e.(t3 := true));
    if !f.U? && CheckNr(b.e, f.nr) {
      var b1 := if f.S? then b0.(e := b0.e.(ackwQ := Prune(b.e.ackwQ, f.nr))) else b0;
      if f.nr == b.e.vs {
        WakeupExact(b1, f.nr);
      } else {
        TakeNrExact(b1, f.nr);
      }
    }
  }

  // ---------- ASDUs astray ----------

  /** A callback of standard input loses an ASDU exactly when the tail pointer is stale and the
      text it reads has more data lines than the window has room for. */
  lemma {:induction false} LossExact(b: State, chunks: seq<string>)
    requires Linked(b) && Enabled(b, Stdin(chunks))
    ensures var r := StdinRead(b, chunks);
      r.d.lost == b.d.lost <==> b.d.attached || DataLines(TextRead(b, chunks).items) <= CanQueue(b.e)
  {
    var ds, ended := StdinReadExact(b, chunks);
    var n := Fits(b, |ds|);
    RoomExact(b);
    assert |b.d.lost + ds[n..]| == |b.d.lost| + |ds| - n;
    if |ds| <= n {
      assert b.d.lost + ds[n..] == b.d.lost;
    }
  }

  // ---------- whole runs ----------

  function After(b: State, evs: seq<Event>): State
    decreases |evs|
  {
    if evs == [] then b else After(Step(b, evs[0]), evs[1..])
  }

  predicate Possible(b: State, evs: seq<Event>)
    decreases |evs|
  {
    evs != [] ==> Enabled(b, evs[0]) && Possible(Step(b, evs[0]), evs[1..])
  }

  lemma StartLinked(w: nat, k: nat)
    requires 1 <= k < MODULUS
    ensures Linked(Start(w, k))
  {
  }

  lemma {:induction false} RunLinked(b: State, evs: seq<Event>)
    requires Linked(b) && Possible(b, evs)
    ensures Linked(After(b, evs))
    decreases |evs|
  {
    if evs != [] {
      StepLinked(b, evs[0]);
      RunLinked(Step(b, evs[0]), evs[1..]);
    }
  }

  /** In every run from an empty backlog: nothing stays in the write queue between events; what
      was taken is what was transmitted followed by the backlog, in order, with only what went
      astray in between; '>' and '<' alternate; and standard input is read only with an empty
      backlog and no confirmation owed. */
  lemma {:induction false} BacklogInOrder(w: nat, k: nat, evs: seq<Event>)
    requires 1 <= k < MODULUS && Possible(Start(w, k), evs)
    ensures var b := After(Start(w, k), evs);
      && b.e.writeQ == []
      && Merges(b.sent + b.d.list, b.d.lost, b.d.accepted)
      && (b.d.lost == [] ==> b.d.accepted == b.sent + b.d.list)
      && Alternates(b.d.marks, b.d.endmsg)
      && (b.d.pending ==> b.d.list == [] && !b.d.endmsg)
  {
    StartLinked(w, k);
    RunLinked(Start(w, k), evs);
    var b := After(Start(w, k), evs);
    if b.d.lost == [] {
      MergesAll(b.sent + b.d.list, b.d.accepted);
    }
  }

  /** No message of the run has more ASDUs than the window. */
  predicate ShortMessages(k: nat, b: State, evs: seq<Event>)
    decreases |evs|
  {
    b.d.msg <= k && (evs != [] ==> ShortMessages(k, Step(b, evs[0]), evs[1..]))
  }

  /** No backlog, and what is unacknowledged belongs to the message being taken. */
  ghost predicate Quiet(b: State) {
    b.d.list == [] && b.d.attached && b.d.lost == [] && |b.sent| - b.d.acked <= b.d.msg
  }

  ghost predicate Calm(b: State) { Linked(b) && Quiet(b) }

  lemma {:induction false} StdinCalm(b: State, chunks: seq<string>)
    requires Calm(b) && Enabled(b, Stdin(chunks))
    requires StdinRead(b, chunks).d.msg <= b.e.k
    ensures Calm(StdinRead(b, chunks)) && StdinRead(b, chunks).e.k == b.e.k
  {
    StdinLinked(b, chunks);
    var ds, ended := StdinReadExact(b, chunks);
    assert Fits(b, |ds|) == |ds|;
    assert ds[..|ds|] == ds && [] + ds[|ds|..] == [];
  }

  lemma {:induction false} TakeNrQuiet(b: State, nr: nat)
    requires Windowed(b) && Quiet(b) && nr < MODULUS && CheckNr(b.e, nr)
    ensures Quiet(TakeNr(b, nr)) && TakeNr(b, nr).e.k == b.e.k
  {
    TakeNrExact(b, nr);
    var none := b.d.list;
    assert none[..0] == [] && none[0..] == [] && b.sent + [] == b.sent;
  }

  lemma {:induction false} RecvQuiet(b: State, f: Frame)
    requires Windowed(b) && Quiet(b) && (!f.U? ==> f.nr < MODULUS)
    ensures Quiet(Recv(b, f)) && Recv(b, f).e.k == b.e.k
  {
    var b0 := b.(e := b.e.(t3 := true));
    if f.U? {
      URefines(b0, f.func);
    } else if CheckNr(b.e, f.nr) {
      var b1 := if f.S? then b0.(e := b0.e.(ackwQ := Prune(b.e.ackwQ, f.nr))) else b0;
      TakeNrQuiet(b1, f.nr);
    }
  }

  lemma {:induction false} RecvCalm(b: State, f: Frame)
    requires Calm(b) && Enabled(b, Arrived(f))
    ensures Calm(Recv(b, f)) && Recv(b, f).e.k == b.e.k
  {
    RecvLinked(b, f);
    RecvQuiet(b, f);
  }

  lemma {:induction false} StepCalm(b: State, ev: Event)
    requires Calm(b) && Enabled(b, ev) && Step(b, ev).d.msg <= b.e.k
    ensures Calm(Step(b, ev)) && Step(b, ev).e.k == b.e.k
  {
    match ev
    case Stdin(chunks) => StdinCalm(b, chunks);
    case Arrived(f) => RecvCalm(b, f);
    case T2 =>
    case T3 =>
  }

  lemma {:induction false} RunCalm(b: State, evs: seq<Event>)
    requires Calm(b) && Possible(b, evs) && ShortMessages(b.e.k, b, evs)
    ensures Calm(After(b, evs))
    decreases |evs|
  {
    if evs != [] {
      StepCalm(b, evs[0]);
      RunCalm(Step(b, evs[0]), evs[1..]);
    }
  }

  /** While no message is longer than the window, no ASDU is ever put aside or lost, and every
      '<' confirms that all ASDUs taken so far are acknowledged. */
  lemma {:induction false} ShortMessagesConfirmed(w: nat, k: nat, evs: seq<Event>, f: Frame)
    requires 1 <= k < MODULUS && Possible(Start(w, k), evs) && ShortMessages(k, Start(w, k), evs)
    ensures var b := After(Start(w, k), evs);
      && b.d.lost == [] && b.d.accepted == b.sent
      && (Enabled(b, Arrived(f)) && Confirms(b, Recv(b, f)) ==>
            Recv(b, f).d.acked == |Recv(b, f).sent| == |b.d.accepted|)
  {
    StartLinked(w, k);
    RunCalm(Start(w, k), evs);
    var b := After(Start(w, k), evs);
    assert b.sent + [] == b.sent;
    MergesAll(b.sent, b.d.accepted);
    if Enabled(b, Arrived(f)) {
      ConfirmExact(b, f);
    }
  }

  // ---------- a message longer than the window ----------

  function Zeroes(n: nat): seq<Asdu> { if n == 0 then [] else [[0]] + Zeroes(n - 1) }

  lemma {:induction false} ZeroesAre(n: nat)
    ensures |Zeroes(n)| == n && forall i :: 0 <= i < n ==> Zeroes(n)[i] == [0]
  {
    if n > 0 {
      ZeroesAre(n - 1);
    }
  }

  /** A message of n ASDUs, one line a read. */
  function OneByOne(n: nat): seq<string> { if n == 0 then [">\n"] else ["00\n"] + OneByOne(n - 1) }

  lemma {:induction false} ReadZero()
    ensures Read("", "00\n") == Scanned([Data([0])], "", false)
  {
    var a: Asdu := [0];
    assert a[1..] == [] && Print(a) == "00" by {
      assert PrintOctet(0) == "00" && "00" + "" == "00";
    }
    LineRoundTrip(a);
    PrintIsClean(a);
    assert "" + "00\n" == "00" + ("\n" + "");
    ScanFirst("00", "");
    assert Newline("") == 0 && Scan("") == Scanned([], "", false);
    assert [Data(a)] + [] == [Data(a)];
  }

  lemma {:induction false} ReadMark()
    ensures Read("", ">\n") == Scanned([End], "", true)
  {
    assert "" + ">\n" == ">\n";
    ScanEnd();
  }

  lemma TakeOne(b: State, x: Item, items: seq<Item>)
    ensures TakeAll(b, [x]) == Take(b, x)
    ensures TakeAll(b, [x] + items) == TakeAll(Take(b, x), items)
  {
    assert ([x] + items)[1..] == items && [x][1..] == [];
  }

  /** Read line by line, the message is taken whole, unless the size counter comes to stand at
      its limit. */
  lemma {:induction false} TakenOneByOne(b: State, n: nat)
    requires Windowed(b) && b.d.rbuf == "" && b.d.size + n - Fits(b, n) < LIST_LIMIT
    ensures Readable(b, OneByOne(n))
    ensures ReadLoop(b, OneByOne(n)) == TakeAll(b, Lines(Zeroes(n), true))
    decreases n
  {
    if n == 0 {
      LastLine(b);
    } else {
      var b1 := Take(b, Data([0]));
      OneLine(b, n);
      TakenOneByOne(b1, n - 1);
      ManyLines(b, n);
    }
  }

  lemma {:induction false} LastLine(b: State)
    requires b.d.rbuf == ""
    ensures Readable(b, OneByOne(0)) && ReadLoop(b, OneByOne(0)) == TakeAll(b, Lines(Zeroes(0), true))
  {
    ReadMark();
    assert WithText(b, "") == b && Lines([], true) == [End];
  }

  lemma {:induction false} OneLine(b: State, n: nat)
    requires Windowed(b) && b.d.rbuf == "" && n > 0 && b.d.size + n - Fits(b, n) < LIST_LIMIT
    ensures var b1 := Take(b, Data([0]));
      && ReadOne(b, "00\n") == b1 && Goes(b, "00\n")
      && Windowed(b1) && b1.d.rbuf == "" && b1.d.size + (n - 1) - Fits(b1, n - 1) < LIST_LIMIT
  {
    ReadZero();
    TakeOne(b, Data([0]), []);
    TookData(b, [0]);
    assert WithText(b, "") == b;
  }

  lemma {:induction false} ManyLines(b: State, n: nat)
    requires n > 0 && b.d.rbuf == "" && ReadOne(b, "00\n") == Take(b, Data([0])) && Goes(b, "00\n")
    requires var b1 := Take(b, Data([0]));
      Readable(b1, OneByOne(n - 1)) && ReadLoop(b1, OneByOne(n - 1)) == TakeAll(b1, Lines(Zeroes(n - 1), true))
    ensures Readable(b, OneByOne(n)) && ReadLoop(b, OneByOne(n)) == TakeAll(b, Lines(Zeroes(n), true))
  {
    var chunks, x := OneByOne(n), Data([0]);
    assert chunks[0] == "00\n" && chunks[1..] == OneByOne(n - 1);
    assert Zeroes(n)[0] == [0] && Zeroes(n)[1..] == Zeroes(n - 1);
    Assoc([x], Datas(Zeroes(n - 1)), [End]);
    assert Lines(Zeroes(n), true) == [x] + Lines(Zeroes(n - 1), true);
    TakeOne(b, x, Lines(Zeroes(n - 1), true));
  }

  lemma {:induction false} MessageTaken(b: State, n: nat)
    requires Windowed(b) && b.d.rbuf == "" && b.d.size + n - Fits(b, n) < LIST_LIMIT
    ensures Readable(b, OneByOne(n))
    ensures Took(b.(d := b.d.(pending := false)), StdinRead(b, OneByOne(n)), Zeroes(n), true)
  {
    var b0 := b.(d := b.d.(pending := false));
    TakenOneByOne(b, n);
    TakenOneByOne(b0, n);
    TakeLines(b0, Zeroes(n), true);
  }

  ghost predicate Full(b: State, k: nat) {
    && Linked(b) && !b.e.stopdt && b.e.k == k == |b.sent| && b.d.acked == 0
    && |b.d.list| == 1 && b.d.endmsg && b.d.rbuf == "" && b.d.marks == ">" && !b.d.closed
    && b.d.lost == [] && b.d.size == 1
  }

  ghost predicate Early(b: State, k: nat) {
    && Windowed(b) && b.e.k == k == b.d.acked && |b.sent| == k + 1
    && b.d.rbuf == "" && !b.d.attached && b.d.lost == [] && b.d.marks == "><"
    && b.d.pending && !b.d.closed && b.d.size == 1
  }

  lemma {:induction false} FirstMessage(b: State, k: nat)
    requires Linked(b) && b.e.k == k && !b.e.stopdt && b.sent == [] && b.d.acked == 0
    requires b.d == Start(0, k).d.(pending := true)
    ensures Enabled(b, Stdin(OneByOne(k + 1))) && Full(StdinRead(b, OneByOne(k + 1)), k)
  {
    MessageTaken(b, k + 1);
    StdinLinked(b, OneByOne(k + 1));
    FirstTaken(b.(d := b.d.(pending := false)), StdinRead(b, OneByOne(k + 1)), k);
  }

  lemma {:induction false} FirstTaken(b: State, r: State, k: nat)
    requires Windowed(b) && b.e.k == k && !b.e.stopdt && b.sent == [] && b.d == Start(0, k).d
    requires Took(b, r, Zeroes(k + 1), true) && Linked(r)
    ensures Full(r, k)
  {
    ZeroesAre(k + 1);
    assert Fits(b, k + 1) == k && "" + ">" == ">";
  }

  /** Everything sent is acknowledged, with one ASDU in the backlog and an end mark taken. */
  lemma {:induction false} ConfirmedEarly(b: State, k: nat)
    requires 1 <= k < MODULUS && Full(b, k)
    ensures Early(Recv(b, S(k)), k)
  {
    var b1 := b.(e := b.e.(t3 := true, ackwQ := Prune(b.e.ackwQ, k)));
    assert b.e.vs == k && b.e.va == 0;
    TakeNrExact(b1, k);
    assert b.d.list[..1] == b.d.list && b.d.list[1..] == [];
  }

  lemma {:induction false} SecondMessage(b: State, k: nat)
    requires 1 <= k && Early(b, k)
    ensures Enabled(b, Stdin(OneByOne(k))) && StdinRead(b, OneByOne(k)).d.lost == [[0]]
  {
    MessageTaken(b, k);
    ZeroesAre(k);
    assert Zeroes(k)[k - 1..] == [[0]];
  }

  /** For every window: a message one ASDU longer than the window is confirmed with that ASDU
      unacknowledged, and the last ASDU of the next message, as long as the window, is lost. */
  lemma {:induction false} LongMessageLoses(w: nat, k: nat)
    requires 1 <= k < MODULUS
    ensures var evs := [Arrived(U(StartCon)), Stdin(OneByOne(k + 1)), Arrived(S(k))];
      var b := After(Start(w, k), evs);
      && Possible(Start(w, k), evs) && b.d.marks == "><" && b.d.acked == |b.sent| - 1
      && Enabled(b, Stdin(OneByOne(k))) && StdinRead(b, OneByOne(k)).d.lost == [[0]]
  {
    StartLinked(w, k);
    var b0 := Start(w, k);
    StepLinked(b0, Arrived(U(StartCon)));
    var b1 := Step(b0, Arrived(U(StartCon)));
    FirstMessage(b1, k);
    var b2 := StdinRead(b1, OneByOne(k + 1));
    ConfirmedEarly(b2, k);
    SecondMessage(Recv(b2, S(k)), k);
    ThreeSteps(b0, Arrived(U(StartCon)), Stdin(OneByOne(k + 1)), Arrived(S(k)));
  }

  lemma {:induction false} ThreeSteps(b: State, x: Event, y: Event, z: Event)
    ensures After(b, [x, y, z]) == Step(Step(Step(b, x), y), z)
    ensures Enabled(b, x) && Enabled(Step(b, x), y) && Enabled(Step(Step(b, x), y), z) ==>
      Possible(b, [x, y, z])
  {
    assert [x, y, z][1..] == [y, z] && [y, z][1..] == [z] && [z][1..] == [];
    var c := Step(b, x);
    var d := Step(c, y);
    assert After(c, [y, z]) == After(d, [z]) == After(Step(d, z), []);
    assert Enabled(c, y) && Enabled(d, z) ==> Possible(d, [z]) && Possible(c, [y, z]);
  }
}
