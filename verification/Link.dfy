/** Two sessions, one controlling (master) and one controlled (slave), joined by two FIFO
    channels.  Events interleave freely; a channel may also drop a frame or repeat one in
    place.  Unbounded counters beside the modular fields record what has really happened;
    no step of either session looks at them.
 */
module Link {
  import opened Octets
  import opened LinkLayer
  import opened LinkWindow

  /** A frame in flight.  `ns` is how many I-frames its sender had sent before it, `nr` how
      many it had received; the receiver reads only `frame`. */
  datatype Packet = Packet(frame: Frame, ns: nat, nr: nat)

  /** One session, the channel towards it, and its history: ASDUs transmitted and delivered,
      how many of its frames it knows to be acknowledged, how many it last acknowledged. */
  datatype Half = Half(
    e: Endpoint, open: bool, inbox: seq<Packet>,
    xmit: seq<Asdu>, acked: nat, delivered: seq<Asdu>, peerAcked: nat)

  datatype Event =
    | Send(a: Asdu)              // the user queues an ASDU
    | Receive(kick: seq<Asdu>)   // the head of the channel arrives; the wakeup hook queues `kick`
    | T2 | T3                    // timer expiry
    | Close                      // t1 expiry or a transport error: terminal
    | Drop(i: nat)               // the channel towards this side loses a frame
    | Repeat(i: nat)             // ... or repeats one in place

  // ---------- one step ----------

  /** A master's user starts only after STARTDT con (the activation hook). */
  predicate MayQueue(e: Endpoint) { e.role.Slave? || !e.stopdt }

  predicate Enabled(me: Half, ev: Event) {
    match ev
    case Send(_) => me.open && MayQueue(me.e)
    case Receive(kick) => me.open && me.inbox != [] && (kick != [] ==> MayQueue(me.e))
    case T2 => me.open && me.e.t2
    case T3 => me.open && me.e.t3
    case Close => me.open
    case Drop(i) => i < |me.inbox|
    case Repeat(i) => i < |me.inbox|
  }

  predicate Acks(fs: seq<Frame>) { exists i :: 0 <= i < |fs| && fs[i].S? }

  /** Label the frames written by one callback: I-frames carry V(R) as it was before the
      callback, the others follow after it. */
  function Stamp(fs: seq<Frame>, n: nat, before: nat, after: nat): seq<Packet>
    decreases |fs|
  {
    if fs == [] then []
    else [Packet(fs[0], n, if fs[0].I? then before else after)]
         + Stamp(fs[1..], if fs[0].I? then n + 1 else n, before, after)
  }

  function Settle(me: Half, o: Outcome, inbox: seq<Packet>, acked: nat): Half {
    Half(o.e, o.ok, inbox, me.xmit + Payloads(o.wire), acked, me.delivered + o.up,
         if Acks(o.wire) then |me.delivered + o.up| else me.peerAcked)
  }

  function Post(me: Half, peer: Half, o: Outcome): Half {
    peer.(inbox := peer.inbox + Stamp(o.wire, |me.xmit|, |me.delivered|, |me.delivered| + |o.up|))
  }

  /** Did this frame move V(A)? */
  predicate TakesNr(e: Endpoint, f: Frame) {
    match f
    case I(_, nr, _) => !(e.role.Slave? && e.stopdt) && CheckNr(e, nr)
    case S(nr) => CheckNr(e, nr)
    case U(_) => false
  }

  /** Events that run a callback of the session, as opposed to faults around it. */
  predicate Callback(ev: Event) { ev.Send? || ev.Receive? || ev.T2? || ev.T3? }

  function Run(me: Half, ev: Event): Outcome
    requires Enabled(me, ev) && Callback(ev)
  {
    match ev
    case Send(a) => Submit(me.e, a)
    case Receive(kick) => FrameRecv(me.e, me.inbox[0].frame, kick)
    case T2 => T2TimerRun(me.e)
    case T3 => T3TimerRun(me.e)
  }

  function Act(me: Half, peer: Half, ev: Event): (Half, Half)
    requires Enabled(me, ev)
  {
    match ev
    case Close => (me.(open := false), peer)
    case Drop(i) => (me.(inbox := me.inbox[..i] + me.inbox[i + 1..]), peer)
    case Repeat(i) => (me.(inbox := me.inbox[..i + 1] + me.inbox[i..]), peer)
    case Receive(kick) =>
      var p, o := me.inbox[0], Run(me, ev);
      (Settle(me, o, me.inbox[1..], if TakesNr(me.e, p.frame) then p.nr else me.acked), Post(me, peer, o))
    case _ =>
      var o := Run(me, ev);
      (Settle(me, o, me.inbox, me.acked), Post(me, peer, o))
  }

  // ---------- the invariant of every run ----------

  /** ackw_q is the tail of what was transmitted, consecutively numbered. */
  ghost predicate Retained(q: seq<Frame>, xs: seq<Asdu>) {
    && |q| <= |xs|
    && forall i :: 0 <= i < |q| ==>
         && q[i].I? && q[i].ns == (|xs| - |q| + i) % MODULUS && q[i].asdu == xs[|xs| - |q| + i]
  }

  ghost predicate Own(h: Half) {
    && Counts(h.e, |h.xmit|, h.acked)
    && h.e.w < MODULUS
    && h.peerAcked <= |h.delivered| < h.peerAcked + h.e.w
    && h.e.vr == |h.delivered| % MODULUS
    && h.e.vaPeer == h.peerAcked % MODULUS
    && (h.peerAcked < |h.delivered| ==> h.e.t2)
    && Retained(h.e.ackwQ, h.xmit)
    && |h.xmit| - h.acked <= |h.e.ackwQ|
  }

  ghost predicate Genuine(p: Packet, xs: seq<Asdu>) {
    match p.frame
    case I(ns, nr, a) => ns == p.ns % MODULUS && nr == p.nr % MODULUS && p.ns < |xs| && a == xs[p.ns]
    case S(nr) => nr == p.nr % MODULUS
    case U(_) => true
  }

  /** Packets genuine and in order, with counters between (n0, r0) and (n1, r1). */
  ghost predicate Ordered(ps: seq<Packet>, xs: seq<Asdu>, n0: int, r0: int, n1: int, r1: int) {
    && (forall i :: 0 <= i < |ps| ==>
          Genuine(ps[i], xs) && n0 <= ps[i].ns <= n1 && r0 <= ps[i].nr <= r1)
    && (forall i, j :: 0 <= i < j < |ps| ==> ps[i].ns <= ps[j].ns && ps[i].nr <= ps[j].nr)
  }

  /** The direction x to y: y has a prefix of what x transmitted, x's knowledge of it is
      not ahead of y, and what is in flight is in order. */
  ghost predicate Through(x: Half, y: Half) {
    && y.delivered <= x.xmit
    && x.acked <= |y.delivered|
    && (y.open ==> Ordered(y.inbox, x.xmit, |y.delivered| - 1, y.acked, |x.xmit|, |x.delivered|))
  }

  ghost predicate Pair(x: Half, y: Half) {
    Own(x) && Own(y) && Through(x, y) && Through(y, x)
  }

  // ---------- facts about labels ----------

  lemma {:induction false} StampConcat(fs: seq<Frame>, gs: seq<Frame>, n: nat, before: nat, after: nat)
    ensures Stamp(fs + gs, n, before, after)
         == Stamp(fs, n, before, after) + Stamp(gs, n + |Payloads(fs)|, before, after)
    decreases |fs|
  {
    if fs == [] {
      assert fs + gs == gs;
    } else {
      var m := if fs[0].I? then n + 1 else n;
      StampConcat(fs[1..], gs, m, before, after);
      assert (fs + gs)[1..] == fs[1..] + gs && (fs + gs)[0] == fs[0];
      assert n + |Payloads(fs)| == m + |Payloads(fs[1..])|;
    }
  }

  lemma {:induction false} PayloadsNumbered(n: nat, vr: nat, xs: seq<Asdu>)
    ensures Payloads(Numbered(n, vr, xs)) == xs
    ensures !Acks(Numbered(n, vr, xs))
    decreases |xs|
  {
    NumberedAt(n, vr, xs);
    if xs != [] {
      PayloadsNumbered(n + 1, vr, xs[1..]);
      var fs := Numbered(n, vr, xs);
      assert fs[1..] == Numbered(n + 1, vr, xs[1..]);
    }
  }

  lemma {:induction false} StampNumbered(n: nat, r: nat, xs: seq<Asdu>, after: nat)
    ensures var ps := Stamp(Numbered(n, r % MODULUS, xs), n, r, after);
      && |ps| == |xs|
      && forall i :: 0 <= i < |ps| ==> ps[i] == Packet(I((n + i) % MODULUS, r % MODULUS, xs[i]), n + i, r)
    decreases |xs|
  {
    if xs != [] {
      StampNumbered(n + 1, r, xs[1..], after);
      var fs := Numbered(n, r % MODULUS, xs);
      assert fs[1..] == Numbered(n + 1, r % MODULUS, xs[1..]);
    }
  }

  lemma {:induction false} OrderedConcat(ps: seq<Packet>, qs: seq<Packet>, xs: seq<Asdu>, ys: seq<Asdu>,
                      n0: int, r0: int, n1: int, r1: int, n2: int, r2: int)
    requires Ordered(ps, xs, n0, r0, n1, r1) && Ordered(qs, ys, n1, r1, n2, r2)
    requires xs <= ys && n0 <= n1 <= n2 && r0 <= r1 <= r2
    ensures Ordered(ps + qs, ys, n0, r0, n2, r2)
  {
    forall i | 0 <= i < |ps| ensures Genuine(ps[i], ys) {
      assert Genuine(ps[i], xs);
    }
  }

  /** Everything one callback writes: at most one U-frame, then numbered I-frames, then at
      most one S-frame acknowledging all that has been received. */
  ghost predicate Shaped(fs: seq<Frame>, us: seq<Frame>, n: nat, r: nat, xs: seq<Asdu>, ss: seq<Frame>, after: nat) {
    && fs == us + Numbered(n, r % MODULUS, xs) + ss
    && |us| <= 1 && (us != [] ==> us[0].U? && r == after)
    && |ss| <= 1 && (ss != [] ==> ss[0] == S(after % MODULUS))
  }

  lemma {:induction false} OrderedNumbered(sent: seq<Asdu>, r: nat, xs: seq<Asdu>, after: nat)
    ensures Ordered(Stamp(Numbered(|sent|, r % MODULUS, xs), |sent|, r, after),
                    sent + xs, |sent|, r, |sent| + |xs|, r)
  {
    StampNumbered(|sent|, r, xs, after);
  }

  /** An optional U-frame, then numbered I-frames. */
  lemma {:induction false} OrderedAfterU(us: seq<Frame>, sent: seq<Asdu>, r: nat, xs: seq<Asdu>, after: nat)
    requires |us| <= 1 && (us != [] ==> us[0].U? && r == after)
    ensures Ordered(Stamp(us + Numbered(|sent|, r % MODULUS, xs), |sent|, r, after),
                    sent + xs, |sent|, r, |sent| + |xs|, r)
    ensures Payloads(us + Numbered(|sent|, r % MODULUS, xs)) == xs
  {
    var ns := Numbered(|sent|, r % MODULUS, xs);
    PayloadsNumbered(|sent|, r % MODULUS, xs);
    OrderedNumbered(sent, r, xs, after);
    if us == [] {
      assert us + ns == ns;
    } else {
      StampConcat(us, ns, |sent|, r, after);
      PayloadsConcat(us, ns);
      assert Payloads(us) == [];
      var q := [Packet(us[0], |sent|, r)];
      assert Stamp(us, |sent|, r, after) == q;
      OrderedConcat(q, Stamp(ns, |sent|, r, after), sent, sent + xs,
                    |sent|, r, |sent|, r, |sent| + |xs|, r);
    }
  }

  lemma {:induction false} PayloadsShaped(fs: seq<Frame>, us: seq<Frame>, n: nat, r: nat, xs: seq<Asdu>, ss: seq<Frame>, after: nat)
    requires Shaped(fs, us, n, r, xs, ss, after)
    ensures Payloads(fs) == xs && (Acks(fs) <==> ss != [])
  {
    var ns := Numbered(n, r % MODULUS, xs);
    assert Payloads(fs) == xs by {
      PayloadsConcat(us, ns);
      PayloadsConcat(us + ns, ss);
      PayloadsNumbered(n, r % MODULUS, xs);
      assert Payloads(us) == [] && Payloads(ss) == [];
    }
    AcksLast(us + ns, ss, us, n, r % MODULUS, xs);
  }

  lemma {:induction false} AcksLast(fs0: seq<Frame>, ss: seq<Frame>, us: seq<Frame>, n: nat, vr: nat, xs: seq<Asdu>)
    requires fs0 == us + Numbered(n, vr, xs) && |us| <= 1 && (us != [] ==> us[0].U?)
    requires |ss| <= 1 && (ss != [] ==> ss[0].S?)
    ensures Acks(fs0 + ss) <==> ss != []
  {
    NumberedAt(n, vr, xs);
    var fs := fs0 + ss;
    if ss != [] {
      assert fs[|fs| - 1].S?;
    }
  }

  lemma {:induction false} StampSnoc(fs: seq<Frame>, f: Frame, n: nat, before: nat, after: nat)
    requires !f.I?
    ensures Stamp(fs + [f], n, before, after)
         == Stamp(fs, n, before, after) + [Packet(f, n + |Payloads(fs)|, after)]
  {
    StampConcat(fs, [f], n, before, after);
  }

  lemma OrderedSnoc(ps: seq<Packet>, p: Packet, xs: seq<Asdu>, n0: int, r0: int, n1: int, r1: int)
    requires Ordered(ps, xs, n0, r0, n1, r1) && Genuine(p, xs) && n0 <= n1 <= p.ns && r0 <= r1 <= p.nr
    ensures Ordered(ps + [p], xs, n0, r0, p.ns, p.nr)
  {
  }

  lemma {:induction false} StampShaped(fs: seq<Frame>, us: seq<Frame>, r: nat, sent: seq<Asdu>, xs: seq<Asdu>, ss: seq<Frame>, after: nat)
    requires Shaped(fs, us, |sent|, r, xs, ss, after) && r <= after
    ensures Ordered(Stamp(fs, |sent|, r, after), sent + xs, |sent|, r, |sent| + |xs|, after)
  {
    var fs0 := us + Numbered(|sent|, r % MODULUS, xs);
    OrderedAfterU(us, sent, r, xs, after);
    if ss == [] {
      assert fs == fs0;
    } else {
      StampSnoc(fs0, ss[0], |sent|, r, after);
      assert ss == [ss[0]];
      OrderedSnoc(Stamp(fs0, |sent|, r, after), Packet(ss[0], |sent| + |xs|, after), sent + xs,
                  |sent|, r, |sent| + |xs|, r);
    }
  }

  /** The U-frame a callback writes, if any. */
  function Reply(me: Half, ev: Event): seq<Frame>
    requires Enabled(me, ev)
  {
    match ev
    case T3 => [U(TestAct)]
    case Receive(_) =>
      (match me.inbox[0].frame
       case U(StartAct) => if me.e.role.Slave? then [U(StartCon)] else []
       case U(StopAct) => if me.e.role.Slave? then [U(StopCon)] else []
       case U(TestAct) => [U(TestCon)]
       case _ => [])
    case _ => []
  }

  /** A callback writes its reply, then I-frames carrying `xs`, then perhaps an S-frame. */
  ghost predicate Writes(me: Half, ev: Event, xs: seq<Asdu>, ss: seq<Frame>)
    requires Enabled(me, ev) && Callback(ev)
  {
    var o := Run(me, ev);
    Shaped(o.wire, Reply(me, ev), |me.xmit|, |me.delivered|, xs, ss, |me.delivered + o.up|)
  }

  // ---------- one step keeps the invariant ----------

  /** What a callback writes joins the peer's channel in order. */
  lemma {:induction false} Joined(inbox: seq<Packet>, fs: seq<Frame>, sent: seq<Asdu>, r: nat, after: nat, n0: int, r0: int,
               us: seq<Frame>, xs: seq<Asdu>, ss: seq<Frame>)
    requires Ordered(inbox, sent, n0, r0, |sent|, r) && n0 <= |sent| && r0 <= r <= after
    requires Shaped(fs, us, |sent|, r, xs, ss, after)
    ensures Ordered(inbox + Stamp(fs, |sent|, r, after), sent + xs, n0, r0, |sent| + |xs|, after)
  {
    StampShaped(fs, us, r, sent, xs, ss, after);
    OrderedConcat(inbox, Stamp(fs, |sent|, r, after), sent, sent + xs, n0, r0, |sent|, r, |sent| + |xs|, after);
  }

  /** Frame conditions of a callback: if the session's own books balance and what remains in
      its channel is in order, both directions stay sound. */
  lemma {:induction false} Posted(me: Half, peer: Half, o: Outcome, us: seq<Frame>, xs: seq<Asdu>, ss: seq<Frame>, inbox: seq<Packet>, acked: nat)
    requires Pair(me, peer)
    requires Shaped(o.wire, us, |me.xmit|, |me.delivered|, xs, ss, |me.delivered + o.up|)
    requires me.acked <= acked <= |peer.delivered|
    requires me.delivered + o.up <= peer.xmit
    requires Own(Settle(me, o, inbox, acked))
    requires o.ok ==> Ordered(inbox, peer.xmit, |me.delivered + o.up| - 1, acked, |peer.xmit|, |peer.delivered|)
    ensures Pair(Settle(me, o, inbox, acked), Post(me, peer, o))
  {
    PostedOut(me, peer, o, us, xs, ss, inbox, acked);
    PostedIn(me, peer, o, inbox, acked);
  }

  /** The direction the callback writes to ... */
  lemma {:induction false} PostedOut(me: Half, peer: Half, o: Outcome, us: seq<Frame>, xs: seq<Asdu>, ss: seq<Frame>, inbox: seq<Packet>, acked: nat)
    requires Through(me, peer) && acked <= |peer.delivered| && peer.acked <= |me.delivered|
    requires Shaped(o.wire, us, |me.xmit|, |me.delivered|, xs, ss, |me.delivered + o.up|)
    ensures Through(Settle(me, o, inbox, acked), Post(me, peer, o))
  {
    PayloadsShaped(o.wire, us, |me.xmit|, |me.delivered|, xs, ss, |me.delivered + o.up|);
    if peer.open {
      Joined(peer.inbox, o.wire, me.xmit, |me.delivered|, |me.delivered + o.up|,
             |peer.delivered| - 1, peer.acked, us, xs, ss);
    }
  }

  /** ... and the one it reads from. */
  lemma {:induction false} PostedIn(me: Half, peer: Half, o: Outcome, inbox: seq<Packet>, acked: nat)
    requires Through(peer, me) && Own(peer) && me.delivered + o.up <= peer.xmit
    requires o.ok ==> Ordered(inbox, peer.xmit, |me.delivered + o.up| - 1, acked, |peer.xmit|, |peer.delivered|)
    ensures Through(Post(me, peer, o), Settle(me, o, inbox, acked)) && Own(Post(me, peer, o))
  {
  }

  lemma {:induction false} RetainedMore(q: seq<Frame>, xs: seq<Asdu>, vr: nat, ys: seq<Asdu>)
    requires Retained(q, xs)
    ensures Retained(q + Numbered(|xs|, vr, ys), xs + ys)
    ensures |q + Numbered(|xs|, vr, ys)| == |q| + |ys|
  {
    NumberedAt(|xs|, vr, ys);
  }

  /** Queueing and sending keeps the session's books. */
  lemma {:induction false} OwnSending(h: Half, more: seq<Asdu>)
    requires Own(h)
    ensures var n := Room(h.e, |h.xmit|, h.acked, |more|);
      var xs := (h.e.writeQ + more)[..n];
      var o := SendWith(h.e, more, |h.xmit|, h.acked);
      && o.wire == Numbered(|h.xmit|, h.e.vr, xs)
      && Own(h.(e := o.e, xmit := h.xmit + xs)) && |o.e.ackwQ| == |h.e.ackwQ| + |xs|
  {
    var n := Room(h.e, |h.xmit|, h.acked, |more|);
    RetainedMore(h.e.ackwQ, h.xmit, h.e.vr, (h.e.writeQ + more)[..n]);
  }

  lemma {:induction false} StepSend(me: Half, peer: Half, a: Asdu) returns (xs: seq<Asdu>, ss: seq<Frame>)
    requires Pair(me, peer) && Enabled(me, Send(a))
    ensures Pair(Act(me, peer, Send(a)).0, Act(me, peer, Send(a)).1) && Writes(me, Send(a), xs, ss)
  {
    SubmitExact(me.e, a, |me.xmit|, me.acked);
    OwnSending(me, [a]);
    var o := Submit(me.e, a);
    xs, ss := (me.e.writeQ + [a])[..Room(me.e, |me.xmit|, me.acked, 1)], [];
    PayloadsNumbered(|me.xmit|, me.e.vr, xs);
    assert o.wire == [] + o.wire + [];
    assert me.delivered + [] == me.delivered;
    Posted(me, peer, o, [], xs, [], me.inbox, me.acked);
  }

  lemma {:induction false} StepT2(me: Half, peer: Half) returns (xs: seq<Asdu>, ss: seq<Frame>)
    requires Pair(me, peer) && Enabled(me, T2)
    ensures Pair(Act(me, peer, T2).0, Act(me, peer, T2).1) && Writes(me, T2, xs, ss)
  {
    var o := T2TimerRun(me.e);
    xs, ss := [], o.wire;
    assert me.delivered + [] == me.delivered;
    assert o.wire == [] + Numbered(|me.xmit|, me.e.vr, []) + o.wire;
    PayloadsShaped(o.wire, [], |me.xmit|, |me.delivered|, [], o.wire, |me.delivered + o.up|);
    assert me.xmit + [] == me.xmit;
    Posted(me, peer, o, [], [], o.wire, me.inbox, me.acked);
  }

  /** A callback that only writes U-frames and touches no counter. */
  lemma {:induction false} StepQuiet(me: Half, peer: Half, o: Outcome, inbox: seq<Packet>)
    requires Pair(me, peer)
    requires o.e == me.e.(stopdt := o.e.stopdt, testfr := o.e.testfr, t1 := o.e.t1, t3 := o.e.t3)
    requires |o.wire| <= 1 && (o.wire != [] ==> o.wire[0].U?) && o.up == []
    requires o.ok ==> Ordered(inbox, peer.xmit, |me.delivered| - 1, me.acked, |peer.xmit|, |peer.delivered|)
    ensures Pair(Settle(me, o, inbox, me.acked), Post(me, peer, o))
    ensures Shaped(o.wire, o.wire, |me.xmit|, |me.delivered|, [], [], |me.delivered + o.up|)
  {
    assert me.delivered + [] == me.delivered;
    assert o.wire == o.wire + Numbered(|me.xmit|, me.e.vr, []) + [];
    PayloadsShaped(o.wire, o.wire, |me.xmit|, |me.delivered|, [], [], |me.delivered + o.up|);
    assert me.xmit + [] == me.xmit;
    Posted(me, peer, o, o.wire, [], [], inbox, me.acked);
  }

  /** What is left of the channel after its head has arrived. */
  lemma OrderedTail(ps: seq<Packet>, xs: seq<Asdu>, n0: int, r0: int, n1: int, r1: int)
    requires ps != [] && Ordered(ps, xs, n0, r0, n1, r1)
    ensures Ordered(ps[1..], xs, ps[0].ns, ps[0].nr, n1, r1)
    ensures Ordered(ps[1..], xs, n0, r0, n1, r1)
  {
  }

  /** STARTDT act: confirm, and send what was queued before activation. */
  lemma {:induction false} StepActivate(me: Half, peer: Half, kick: seq<Asdu>) returns (xs: seq<Asdu>, ss: seq<Frame>)
    requires Pair(me, peer) && Enabled(me, Receive(kick))
    requires me.inbox[0].frame == U(StartAct) && me.e.role.Slave?
    ensures Pair(Act(me, peer, Receive(kick)).0, Act(me, peer, Receive(kick)).1) && Writes(me, Receive(kick), xs, ss)
  {
    OrderedTail(me.inbox, peer.xmit, |me.delivered| - 1, me.acked, |peer.xmit|, |peer.delivered|);
    var h := me.(e := me.e.(t3 := true, stopdt := false));
    xs := Activated(h);
    ss := [];
    var o := FrameRecv(me.e, U(StartAct), kick);
    assert o.wire == [U(StartCon)] + Numbered(|me.xmit|, me.e.vr, xs) + [];
    assert me.delivered + [] == me.delivered;
    PayloadsShaped(o.wire, [U(StartCon)], |me.xmit|, |me.delivered|, xs, [], |me.delivered|);
    Posted(me, peer, o, [U(StartCon)], xs, [], me.inbox[1..], me.acked);
  }

  lemma {:induction false} Activated(h: Half) returns (xs: seq<Asdu>)
    requires Own(h) && MaySend(h.e)
    ensures Drain(h.e).wire == Numbered(|h.xmit|, h.e.vr, xs) && Drain(h.e).up == [] && Drain(h.e).ok
    ensures Own(h.(e := Drain(h.e).e, xmit := h.xmit + xs))
  {
    DrainExact(h.e, |h.xmit|, h.acked);
    OwnSending(h, []);
    assert h.e.(writeQ := h.e.writeQ + []) == h.e;
    xs := h.e.writeQ[..Room(h.e, |h.xmit|, h.acked, 0)];
  }

  /** No other U-frame touches a counter or a queue. */
  lemma QuietU(e: Endpoint, func: UFunc)
    requires !(func == StartAct && e.role.Slave?)
    ensures var o := UFrameRecv(e, func);
      && o.e == e.(stopdt := o.e.stopdt, testfr := o.e.testfr, t1 := o.e.t1, t3 := o.e.t3)
      && o.up == []
      && o.wire == (if func == TestAct then [U(TestCon)]
                    else if func == StopAct && e.role.Slave? then [U(StopCon)] else [])
  {
  }

  lemma {:induction false} ActU(me: Half, peer: Half, kick: seq<Asdu>)
    requires Enabled(me, Receive(kick)) && me.inbox[0].frame.U?
    requires !(me.inbox[0].frame == U(StartAct) && me.e.role.Slave?)
    ensures var o := UFrameRecv(me.e.(t3 := true), me.inbox[0].frame.func);
      && Run(me, Receive(kick)) == o
      && Act(me, peer, Receive(kick)) == (Settle(me, o, me.inbox[1..], me.acked), Post(me, peer, o))
      && o.wire == Reply(me, Receive(kick))
  {
    QuietU(me.e.(t3 := true), me.inbox[0].frame.func);
  }

  lemma {:induction false} StepReceiveU(me: Half, peer: Half, kick: seq<Asdu>) returns (xs: seq<Asdu>, ss: seq<Frame>)
    requires Pair(me, peer) && Enabled(me, Receive(kick)) && me.inbox[0].frame.U?
    ensures Pair(Act(me, peer, Receive(kick)).0, Act(me, peer, Receive(kick)).1) && Writes(me, Receive(kick), xs, ss)
  {
    if me.inbox[0].frame == U(StartAct) && me.e.role.Slave? {
      xs, ss := StepActivate(me, peer, kick);
    } else {
      xs, ss := [], [];
      OrderedTail(me.inbox, peer.xmit, |me.delivered| - 1, me.acked, |peer.xmit|, |peer.delivered|);
      var o := UFrameRecv(me.e.(t3 := true), me.inbox[0].frame.func);
      QuietU(me.e.(t3 := true), me.inbox[0].frame.func);
      StepQuiet(me, peer, o, me.inbox[1..]);
      ActU(me, peer, kick);
    }
  }

  // ---------- acknowledgement ----------

  /** Pruning up to N(R) never drops an unacknowledged frame, and leaves exactly the
      unacknowledged ones if and only if fewer than 32767 acknowledged frames had piled up
      (I-frames acknowledge without pruning). */
  lemma {:induction false} PruneExact(q: seq<Frame>, xs: seq<Asdu>, n: nat)
    requires Retained(q, xs) && n <= |xs| && |xs| - n <= |q|
    ensures Retained(Prune(q, n % MODULUS), xs)
    ensures |xs| - n <= |Prune(q, n % MODULUS)| <= |q|
    ensures |Prune(q, n % MODULUS)| == |xs| - n <==> |q| < |xs| - n + MODULUS
    decreases |q|
  {
    if q != [] {
      var first := |xs| - |q|;
      assert q[0].ns == first % MODULUS;
      if first % MODULUS == n % MODULUS {
        if |q| < |xs| - n + MODULUS {
          SameResidue(first, n);
        }
      } else {
        RetainedTail(q, xs);
        NotAlias(first, n);
        PruneExact(q[1..], xs, n);
      }
    }
  }

  lemma {:induction false} RetainedTail(q: seq<Frame>, xs: seq<Asdu>)
    requires Retained(q, xs) && q != []
    ensures Retained(q[1..], xs)
  {
    forall i | 0 <= i < |q| - 1 ensures q[1..][i] == q[i + 1] {
    }
  }

  lemma NotAlias(a: nat, n: nat)
    requires a <= n && a % MODULUS != n % MODULUS
    ensures a < n && n - a != MODULUS
  {
  }

  lemma {:induction false} NrAccepted(h: Half, n: nat)
    requires Own(h) && h.acked <= n <= |h.xmit|
    ensures CheckNr(h.e, n % MODULUS)
    ensures h.e.vs == n % MODULUS <==> n == |h.xmit|
  {
    DistanceExact(h.acked, n);
    DistanceExact(h.acked, |h.xmit|);
    if h.e.vs == n % MODULUS {
      SameResidue(n, |h.xmit|);
    }
  }

  /** Moving V(A) to n, with ackw_q pruned or not, keeps the books. */
  lemma Moved(h: Half, n: nat, q: seq<Frame>)
    requires Own(h) && h.acked <= n <= |h.xmit|
    requires Retained(q, h.xmit) && |h.xmit| - n <= |q|
    ensures Own(h.(e := h.e.(va := n % MODULUS, t3 := true, ackwQ := q), acked := n))
  {
  }

  /** With V(A) moved, the rest of the acknowledgement sends what the wakeup hook queued. */
  lemma {:induction false} Acknowledged(h: Half, kick: seq<Asdu>) returns (xs: seq<Asdu>)
    requires Own(h)
    ensures var o := Acknowledge(h.e, h.e.va, kick);
      && o.wire == Numbered(|h.xmit|, h.e.vr, xs) && o.up == [] && o.ok
      && Own(h.(e := o.e, xmit := h.xmit + xs)) && |o.e.ackwQ| == |h.e.ackwQ| + |xs|
      && o.e == h.e.(vs := o.e.vs, t1 := o.e.t1, writeQ := o.e.writeQ, ackwQ := o.e.ackwQ)
  {
    xs := [];
    assert h.xmit + xs == h.xmit;
    if h.e.vs == h.e.va {
      var h1 := h.(e := h.e.(t1 := false));
      SubmitAllExact(h1.e, kick, |h1.xmit|, h.acked);
      if kick != [] {
        OwnSending(h1, kick);
        xs := (h.e.writeQ + kick)[..Room(h1.e, |h1.xmit|, h.acked, |kick|)];
      }
    }
  }

  /** Receipt of a genuine S-frame. */
  lemma {:induction false} ReceivedS(me: Half, n: nat, kick: seq<Asdu>) returns (xs: seq<Asdu>)
    requires Own(me) && me.acked <= n <= |me.xmit|
    ensures var o := SFrameRecv(me.e.(t3 := true), S(n % MODULUS), kick);
      && CheckNr(me.e, n % MODULUS) && o.ok && o.up == []
      && o.wire == Numbered(|me.xmit|, me.e.vr, xs)
      && Own(me.(e := o.e, acked := n, xmit := me.xmit + xs))
      && |o.e.ackwQ| == |Prune(me.e.ackwQ, n % MODULUS)| + |xs|
  {
    NrAccepted(me, n);
    PruneExact(me.e.ackwQ, me.xmit, n);
    var q := Prune(me.e.ackwQ, n % MODULUS);
    Moved(me, n, q);
    xs := Acknowledged(me.(e := me.e.(va := n % MODULUS, t3 := true, ackwQ := q), acked := n), kick);
  }

  lemma {:induction false} StepReceiveS(me: Half, peer: Half, kick: seq<Asdu>) returns (xs: seq<Asdu>, ss: seq<Frame>)
    requires Pair(me, peer) && Enabled(me, Receive(kick)) && me.inbox[0].frame.S?
    ensures Pair(Act(me, peer, Receive(kick)).0, Act(me, peer, Receive(kick)).1) && Writes(me, Receive(kick), xs, ss)
  {
    var p := me.inbox[0];
    assert Genuine(p, peer.xmit);
    OrderedTail(me.inbox, peer.xmit, |me.delivered| - 1, me.acked, |peer.xmit|, |peer.delivered|);
    xs := ReceivedS(me, p.nr, kick);
    ss := [];
    var o := FrameRecv(me.e, p.frame, kick);
    assert o.wire == [] + o.wire + [];
    assert me.delivered + [] == me.delivered;
    PayloadsShaped(o.wire, [], |me.xmit|, |me.delivered|, xs, [], |me.delivered|);
    Posted(me, peer, o, [], xs, [], me.inbox[1..], p.nr);
  }

  // ---------- delivery ----------

  /** The k-window keeps N(S) unambiguous: a frame that passes `check_ns` is the next one. */
  lemma {:induction false} NsUnambiguous(me: Half, peer: Half, p: Packet)
    requires Pair(me, peer) && p.ns < |peer.xmit| && |me.delivered| <= p.ns + 1
    requires p.ns % MODULUS == me.e.vr
    ensures p.ns == |me.delivered|
  {
    SameResidue(p.ns, |me.delivered|);
  }

  /** Accepting the next frame keeps the books, and acknowledges exactly at w. */
  lemma {:induction false} Accepted(h: Half, f: Frame)
    requires Own(h) && f.I?
    ensures var o := Accept(h.e, f);
      var d := h.delivered + o.up;
      && o.ok == (f.ns == h.e.vr)
      && o.up == (if o.ok then [f.asdu] else [])
      && o.wire == (if o.ok && |d| == h.peerAcked + h.e.w then [S(|d| % MODULUS)] else [])
      && Own(h.(e := o.e, delivered := d, peerAcked := if o.wire != [] then |d| else h.peerAcked))
  {
    if f.ns == h.e.vr {
      NextExact(|h.delivered|);
      DistanceExact(h.peerAcked, |h.delivered| + 1);
      assert Distance(h.e.vaPeer, Next(h.e.vr)) == |h.delivered| + 1 - h.peerAcked;
    } else {
      assert h.delivered + [] == h.delivered;
    }
  }

  /** Receipt of a genuine I-frame: N(R) is taken, then N(S) decides. */
  lemma {:induction false} ReceivedI(me: Half, p: Packet, kick: seq<Asdu>) returns (xs: seq<Asdu>, ss: seq<Frame>)
    requires Own(me) && p.frame.I? && p.frame.nr == p.nr % MODULUS && me.acked <= p.nr <= |me.xmit|
    ensures var o := IFrameRecv(me.e.(t3 := true), p.frame, kick);
      var d := me.delivered + o.up;
      && CheckNr(me.e, p.frame.nr)
      && o.ok == (p.frame.ns == me.e.vr)
      && o.up == (if o.ok then [p.frame.asdu] else [])
      && Shaped(o.wire, [], |me.xmit|, |me.delivered|, xs, ss, |d|)
      && Own(me.(e := o.e, acked := p.nr, xmit := me.xmit + xs, delivered := d,
                 peerAcked := if ss != [] then |d| else me.peerAcked))
  {
    NrAccepted(me, p.nr);
    Moved(me, p.nr, me.e.ackwQ);
    var h := me.(e := me.e.(va := p.frame.nr, t3 := true), acked := p.nr);
    xs := Acknowledged(h, kick);
    var o1 := Acknowledge(h.e, h.e.va, kick);
    Accepted(h.(e := o1.e, xmit := h.xmit + xs), p.frame);
    ss := Accept(o1.e, p.frame).wire;
    assert [] + o1.wire + ss == o1.wire + ss;
  }

  lemma ActI(me: Half, peer: Half, kick: seq<Asdu>)
    requires Enabled(me, Receive(kick)) && me.inbox[0].frame.I? && CheckNr(me.e, me.inbox[0].frame.nr)
    requires !(me.e.role.Slave? && me.e.stopdt)
    ensures var o := IFrameRecv(me.e.(t3 := true), me.inbox[0].frame, kick);
      && Run(me, Receive(kick)) == o
      && Act(me, peer, Receive(kick)) == (Settle(me, o, me.inbox[1..], me.inbox[0].nr), Post(me, peer, o))
      && Reply(me, Receive(kick)) == []
  {
  }

  /** What `check_ns` lets through extends the prefix; the rest of the channel stays in order. */
  lemma {:induction false} Delivered(me: Half, peer: Half, up: seq<Asdu>)
    requires Pair(me, peer) && me.open && me.inbox != [] && me.inbox[0].frame.I?
    requires up == if me.inbox[0].frame.ns == me.e.vr then [me.inbox[0].frame.asdu] else []
    ensures me.delivered + up <= peer.xmit
    ensures Ordered(me.inbox[1..], peer.xmit, |me.delivered + up| - 1, me.inbox[0].nr, |peer.xmit|, |peer.delivered|)
  {
    var p := me.inbox[0];
    assert Genuine(p, peer.xmit);
    OrderedTail(me.inbox, peer.xmit, |me.delivered| - 1, me.acked, |peer.xmit|, |peer.delivered|);
    if up == [] {
      assert me.delivered + up == me.delivered;
    } else {
      NsUnambiguous(me, peer, p);
    }
  }

  lemma {:induction false} StepReceiveI(me: Half, peer: Half, kick: seq<Asdu>) returns (xs: seq<Asdu>, ss: seq<Frame>)
    requires Pair(me, peer) && Enabled(me, Receive(kick)) && me.inbox[0].frame.I?
    requires !(me.e.role.Slave? && me.e.stopdt)
    ensures Pair(Act(me, peer, Receive(kick)).0, Act(me, peer, Receive(kick)).1) && Writes(me, Receive(kick), xs, ss)
  {
    var p := me.inbox[0];
    assert Genuine(p, peer.xmit);
    xs, ss := ReceivedI(me, p, kick);
    ActI(me, peer, kick);
    var o := Run(me, Receive(kick));
    Delivered(me, peer, o.up);
    PayloadsShaped(o.wire, [], |me.xmit|, |me.delivered|, xs, ss, |me.delivered + o.up|);
    Posted(me, peer, o, [], xs, ss, me.inbox[1..], p.nr);
  }

  lemma {:induction false} StepReceive(me: Half, peer: Half, kick: seq<Asdu>) returns (xs: seq<Asdu>, ss: seq<Frame>)
    requires Pair(me, peer) && Enabled(me, Receive(kick))
    ensures Pair(Act(me, peer, Receive(kick)).0, Act(me, peer, Receive(kick)).1) && Writes(me, Receive(kick), xs, ss)
  {
    match me.inbox[0].frame {
      case U(_) => xs, ss := StepReceiveU(me, peer, kick);
      case S(_) => xs, ss := StepReceiveS(me, peer, kick);
      case I(_, _, _) =>
        if me.e.role.Slave? && me.e.stopdt {
          OrderedTail(me.inbox, peer.xmit, |me.delivered| - 1, me.acked, |peer.xmit|, |peer.delivered|);
          xs, ss := [], [];
          StepQuiet(me, peer, FrameRecv(me.e, me.inbox[0].frame, kick), me.inbox[1..]);
        } else {
          xs, ss := StepReceiveI(me, peer, kick);
        }
    }
  }

  lemma {:induction false} StepChannel(me: Half, peer: Half, ev: Event)
    requires Pair(me, peer) && Enabled(me, ev) && (ev.Drop? || ev.Repeat?)
    ensures Pair(Act(me, peer, ev).0, Act(me, peer, ev).1)
  {
    if me.open {
      OrderedFault(me.inbox, peer.xmit, |me.delivered| - 1, me.acked, |peer.xmit|, |peer.delivered|, ev.i);
    }
  }

  lemma OrderedFault(ps: seq<Packet>, xs: seq<Asdu>, n0: int, r0: int, n1: int, r1: int, i: nat)
    requires Ordered(ps, xs, n0, r0, n1, r1) && i < |ps|
    ensures Ordered(ps[..i] + ps[i + 1..], xs, n0, r0, n1, r1)
    ensures Ordered(ps[..i + 1] + ps[i..], xs, n0, r0, n1, r1)
  {
  }

  lemma {:induction false} StepCallback(me: Half, peer: Half, ev: Event) returns (xs: seq<Asdu>, ss: seq<Frame>)
    requires Pair(me, peer) && Enabled(me, ev) && Callback(ev)
    ensures Pair(Act(me, peer, ev).0, Act(me, peer, ev).1) && Writes(me, ev, xs, ss)
  {
    match ev {
      case Send(a) => xs, ss := StepSend(me, peer, a);
      case Receive(kick) => xs, ss := StepReceive(me, peer, kick);
      case T2 => xs, ss := StepT2(me, peer);
      case T3 =>
        xs, ss := [], [];
        StepQuiet(me, peer, T3TimerRun(me.e), me.inbox);
    }
  }

  /** Every event keeps the invariant, whatever the channel loses or repeats. */
  lemma {:induction false} StepKeepsPair(me: Half, peer: Half, ev: Event)
    requires Pair(me, peer) && Enabled(me, ev)
    ensures Pair(Act(me, peer, ev).0, Act(me, peer, ev).1)
  {
    if Callback(ev) {
      var _, _ := StepCallback(me, peer, ev);
    } else if !ev.Close? {
      StepChannel(me, peer, ev);
    }
  }
}
