/** The timers of a session, the retransmission queue and refusal: exactly what every callback
    does to them in every run, and what the timers then mean. */
module LinkTimers {
  import opened Octets
  import opened LinkLayer
  import opened LinkWindow
  import opened Link
  import opened LinkRuns

  // ---------- transmission ----------

  /** What a transmission does to timers and retransmission queue: t1 is pending if anything went
      out, every frame sent is kept, and something is then unacknowledged. */
  ghost predicate Transmits(e: Endpoint, o: Outcome) {
    && o.e.t1 == (e.t1 || o.wire != []) && o.e.t2 == e.t2 && o.e.t3 == e.t3
    && o.e.ackwQ == e.ackwQ + o.wire && |Payloads(o.wire)| == |o.wire|
    && (o.wire != [] ==> o.e.vs != o.e.va) && (o.wire == [] ==> o.e.vs == e.vs) && o.e.va == e.va
  }

  lemma {:induction false} SendingTransmits(e: Endpoint, sent: nat, acked: nat, n: nat)
    requires Counts(e, sent, acked) && n <= |e.writeQ| && sent + n <= acked + e.k
    ensures Transmits(e, Sending(e, sent, n))
  {
    NumberedAt(sent, e.vr, e.writeQ[..n]);
    PayloadsNumbered(sent, e.vr, e.writeQ[..n]);
    if n > 0 {
      if (sent + n) % MODULUS == acked % MODULUS {
        SameResidue(sent + n, acked);
      }
    } else {
      assert e.ackwQ + [] == e.ackwQ;
    }
  }

  lemma {:induction false} SubmitAllTransmits(e: Endpoint, kick: seq<Asdu>, sent: nat, acked: nat)
    requires Counts(e, sent, acked)
    ensures Transmits(e, SubmitAll(e, kick))
  {
    SubmitAllExact(e, kick, sent, acked);
    if kick == [] {
      assert e.ackwQ + [] == e.ackwQ;
    } else {
      SendingTransmits(e.(writeQ := e.writeQ + kick), sent, acked, Room(e, sent, acked, |kick|));
    }
  }

  lemma {:induction false} SubmitTransmits(e: Endpoint, a: Asdu, sent: nat, acked: nat)
    requires Counts(e, sent, acked)
    ensures Transmits(e, Submit(e, a))
  {
    SubmitExact(e, a, sent, acked);
    SendingTransmits(e.(writeQ := e.writeQ + [a]), sent, acked, Room(e, sent, acked, 1));
  }

  lemma {:induction false} DrainTransmits(e: Endpoint, sent: nat, acked: nat)
    requires Counts(e, sent, acked)
    ensures Transmits(e, Drain(e))
  {
    DrainExact(e, sent, acked);
    SendingTransmits(e, sent, acked, Min(|e.writeQ|, acked + e.k - sent));
  }

  // ---------- acknowledgement ----------

  /** A full acknowledgement stops t1, and only what the wakeup sends starts it again; a partial one
      leaves it. */
  lemma {:induction false} AcknowledgeTimers(e: Endpoint, nr: nat, kick: seq<Asdu>, sent: nat, acked: nat)
    requires Counts(e.(va := nr), sent, acked)
    ensures var o := Acknowledge(e, nr, kick);
      && (o.e.t1 <==> if e.vs == nr then o.wire != [] else e.t1)
      && o.e.t2 == e.t2 && o.e.t3 == e.t3
      && o.e.ackwQ == e.ackwQ + o.wire && |Payloads(o.wire)| == |o.wire|
      && (o.e.vs != o.e.va <==> e.vs != nr || o.wire != [])
  {
    if e.vs == nr {
      SubmitAllTransmits(e.(va := nr, t1 := false), kick, sent, acked);
    } else {
      assert e.ackwQ + [] == e.ackwQ;
    }
  }

  // ---------- one callback ----------

  /** The callback takes an N(R) that leaves nothing unacknowledged. */
  predicate FullAck(me: Half, ev: Event) {
    ev.Receive? && me.inbox != [] && TakesNr(me.e, me.inbox[0].frame) && me.inbox[0].frame.nr == me.e.vs
  }

  /** t1: started by whatever is sent and by a test; stopped by a full acknowledgement and by an
      accepted STARTCON or TESTCON. */
  predicate T1After(me: Half, ev: Event, sends: bool) {
    if ev.T3? then true
    else if FullAck(me, ev) then sends
    else if (Gets(me, ev, StartCon) && me.e.role.Master?) || (Gets(me, ev, TestCon) && me.e.testfr) then false
    else me.e.t1 || sends
  }

  /** t2: started by every I-frame that is not ignored or refused for its N(R); stopped by expiry. */
  predicate T2After(me: Half, ev: Event) {
    if ev.T2? then false
    else me.e.t2 || (ev.Receive? && me.inbox != [] && me.inbox[0].frame.I? && TakesNr(me.e, me.inbox[0].frame))
  }

  /** t3: started by every frame, except that a slave not testing itself leaves testing to the
      master that tests it; stopped by expiry. */
  predicate T3After(me: Half, ev: Event) {
    if ev.Receive? then !(Gets(me, ev, TestAct) && me.e.role.Slave? && !me.e.testfr)
    else me.e.t3 && !ev.T3?
  }

  /** The retransmission queue: pruned by S-frames only; every frame sent is added. */
  ghost predicate QueueAfter(me: Half, ev: Event, o: Outcome) {
    var s := ev.Receive? && me.inbox != [] && me.inbox[0].frame.S? && TakesNr(me.e, me.inbox[0].frame);
    var base := if s then Prune(me.e.ackwQ, me.inbox[0].frame.nr) else me.e.ackwQ;
    base <= o.e.ackwQ && |o.e.ackwQ| == |base| + |Payloads(o.wire)|
  }

  ghost predicate Law(me: Half, ev: Event, o: Outcome) {
    && o.e.t1 == T1After(me, ev, Payloads(o.wire) != [])
    && o.e.t2 == T2After(me, ev) && o.e.t3 == T3After(me, ev)
    && QueueAfter(me, ev, o)
    && (o.e.vs != o.e.va <==> Payloads(o.wire) != [] || (me.e.vs != me.e.va && !FullAck(me, ev)))
  }

  lemma AcceptTimers(e: Endpoint, f: Frame)
    requires f.I?
    ensures var o := Accept(e, f);
      && o.e == e.(t2 := true, vr := o.e.vr, vaPeer := o.e.vaPeer)
      && |o.wire| <= 1 && (o.wire != [] ==> o.wire[0].S?)
  {
  }

  /** Behind the acknowledgement an I-frame starts t2 and sends no other I-frame. */
  lemma {:induction false} IFrameTimers(e: Endpoint, f: Frame, kick: seq<Asdu>)
    requires f.I? && CheckNr(e, f.nr)
    ensures var o, a := IFrameRecv(e, f, kick), Acknowledge(e, f.nr, kick);
      && o.e == a.e.(t2 := true, vr := o.e.vr, vaPeer := o.e.vaPeer) && Payloads(o.wire) == Payloads(a.wire)
  {
    var a := Acknowledge(e, f.nr, kick);
    var s := Accept(a.e, f).wire;
    AcceptTimers(a.e, f);
    NoPayloads(s);
    PayloadsConcat(a.wire, s);
    assert Payloads(a.wire) + [] == Payloads(a.wire);
  }

  /** With an accepted N(R) other than V(S), something was and stays unacknowledged. */
  lemma {:induction false} PartialAck(me: Half, n: nat)
    requires Own(me) && me.acked <= n <= |me.xmit| && n % MODULUS != me.e.vs
    ensures me.e.vs != me.e.va
  {
    NrAccepted(me, n);
    if me.e.vs == me.e.va {
      SameResidue(me.acked, |me.xmit|);
    }
  }

  lemma {:induction false} ILaw(me: Half, kick: seq<Asdu>, n: nat)
    requires Own(me) && Enabled(me, Receive(kick)) && me.inbox[0].frame.I? && me.acked <= n <= |me.xmit|
    requires me.inbox[0].frame.nr == n % MODULUS && !(me.e.role.Slave? && me.e.stopdt)
    ensures Law(me, Receive(kick), Run(me, Receive(kick)))
  {
    var f, e0 := me.inbox[0].frame, me.e.(t3 := true);
    NrAccepted(me, n);
    AcknowledgeTimers(e0, f.nr, kick, |me.xmit|, n);
    IFrameTimers(e0, f, kick);
    if f.nr != me.e.vs {
      PartialAck(me, n);
    }
  }

  lemma NoPayloads(s: seq<Frame>)
    requires |s| <= 1 && (s != [] ==> !s[0].I?)
    ensures Payloads(s) == []
  {
  }

  lemma {:induction false} SLaw(me: Half, kick: seq<Asdu>, n: nat)
    requires Own(me) && Enabled(me, Receive(kick)) && me.inbox[0].frame.S? && me.acked <= n <= |me.xmit|
    requires me.inbox[0].frame.nr == n % MODULUS
    ensures Law(me, Receive(kick), Run(me, Receive(kick)))
  {
    var f := me.inbox[0].frame;
    NrAccepted(me, n);
    AcknowledgeTimers(me.e.(t3 := true, ackwQ := Prune(me.e.ackwQ, f.nr)), f.nr, kick, |me.xmit|, n);
    if f.nr != me.e.vs {
      PartialAck(me, n);
    }
  }

  lemma {:induction false} ActivateLaw(me: Half, kick: seq<Asdu>)
    requires Own(me) && Enabled(me, Receive(kick)) && me.inbox[0].frame == U(StartAct) && me.e.role.Slave?
    ensures Law(me, Receive(kick), Run(me, Receive(kick)))
  {
    var e1 := me.e.(t3 := true, stopdt := false);
    DrainTransmits(e1, |me.xmit|, me.acked);
    PayloadsConcat([U(StartCon)], Drain(e1).wire);
    NoPayloads([U(StartCon)]);
    assert [] + Payloads(Drain(e1).wire) == Payloads(Drain(e1).wire);
  }

  lemma {:induction false} ULaw(me: Half, kick: seq<Asdu>)
    requires Own(me) && Enabled(me, Receive(kick)) && me.inbox[0].frame.U?
    requires !(me.inbox[0].frame == U(StartAct) && me.e.role.Slave?)
    ensures Law(me, Receive(kick), Run(me, Receive(kick)))
  {
    QuietU(me.e.(t3 := true), me.inbox[0].frame.func);
    NoPayloads(Run(me, Receive(kick)).wire);
  }

  /** In every run, each callback does exactly this to the timers and the retransmission queue. */
  lemma {:induction false} StepLaw(me: Half, peer: Half, ev: Event)
    requires Pair(me, peer) && Enabled(me, ev) && Callback(ev)
    ensures Law(me, ev, Run(me, ev))
  {
    match ev {
      case Send(a) => SubmitTransmits(me.e, a, |me.xmit|, me.acked);
      case Receive(kick) =>
        var p := me.inbox[0];
        assert Genuine(p, peer.xmit);
        if p.frame.I? && !(me.e.role.Slave? && me.e.stopdt) {
          ILaw(me, kick, p.nr);
        } else if p.frame.S? {
          SLaw(me, kick, p.nr);
        } else if p.frame == U(StartAct) && me.e.role.Slave? {
          ActivateLaw(me, kick);
        } else if p.frame.U? {
          ULaw(me, kick);
        }
      case T2 => NoPayloads(Run(me, ev).wire);
      case T3 => NoPayloads(Run(me, ev).wire);
    }
  }

  // ---------- refusal ----------

  /** The frames a session refuses: the wrong N(S), a start or stop request to a master or
      confirmation to a slave, an answer to no test.  (Over these channels no N(R) is refused.) */
  predicate Unwelcome(e: Endpoint, f: Frame) {
    match f
    case I(ns, _, _) => !(e.role.Slave? && e.stopdt) && ns != e.vr
    case S(_) => false
    case U(g) =>
      || (e.role.Master? && g in {StartAct, StopAct})
      || (e.role.Slave? && g in {StartCon, StopCon})
      || (g == TestCon && !e.testfr)
  }

  lemma {:induction false} URefusedIff(e: Endpoint, g: UFunc)
    ensures UFrameRecv(e, g).ok <==> !Unwelcome(e, U(g))
  {
    NoUpDrain(e.(stopdt := false));
  }

  /** In every run a session refuses a frame, and so closes, exactly for these reasons. */
  lemma {:induction false} RefusedIff(me: Half, peer: Half, kick: seq<Asdu>)
    requires Pair(me, peer) && Enabled(me, Receive(kick))
    ensures Act(me, peer, Receive(kick)).0.open <==> !Unwelcome(me.e, me.inbox[0].frame)
  {
    var p := me.inbox[0];
    assert Genuine(p, peer.xmit);
    ActParts(me, peer, Receive(kick));
    if p.frame.I? {
      IRefusedIff(me, p, kick);
    } else if p.frame.S? {
      var _ := ReceivedS(me, p.nr, kick);
    } else {
      URefusedIff(me.e.(t3 := true), p.frame.func);
    }
  }

  lemma {:induction false} IRefusedIff(me: Half, p: Packet, kick: seq<Asdu>)
    requires Own(me) && p.frame.I? && p.frame.nr == p.nr % MODULUS && me.acked <= p.nr <= |me.xmit|
    ensures FrameRecv(me.e, p.frame, kick).ok <==> !Unwelcome(me.e, p.frame)
  {
    if !(me.e.role.Slave? && me.e.stopdt) {
      var _, _ := ReceivedI(me, p, kick);
    }
  }

  /** A stopped slave ignores I-frames: nothing is taken, answered or delivered. */
  lemma {:induction false} StoppedSlaveIgnores(e: Endpoint, f: Frame, kick: seq<Asdu>)
    requires e.role.Slave? && e.stopdt && f.I?
    ensures var o := FrameRecv(e, f, kick);
      o.ok && o.wire == [] && o.up == [] && o.e.(t3 := e.t3) == e && o.e.t3
  {
  }

  // ---------- every run ----------

  /** t1 watches over something: unacknowledged frames, a test, or the start of data transfer. */
  predicate T1Needed(e: Endpoint) {
    e.t1 ==> e.vs != e.va || e.testfr || (e.role.Master? && e.stopdt)
  }

  /** A started master has t3 pending or a test outstanding. */
  predicate Watches(x: Half) { x.e.role.Master? && x.open && !x.e.stopdt ==> x.e.t3 || x.e.testfr }

  ghost predicate Timed(n: Net) {
    && Pair(n.m, n.s) && n.m.e.role.Master? && n.s.e.role.Slave?
    && T1Needed(n.m.e) && T1Needed(n.s.e) && Watches(n.m)
  }

  lemma {:induction false} CallbackTimed(me: Half, peer: Half, ev: Event)
    requires Pair(me, peer) && Enabled(me, ev) && Callback(ev) && T1Needed(me.e) && Watches(me)
    ensures var x := Act(me, peer, ev).0;
      T1Needed(x.e) && Watches(x) && x.e.role == me.e.role && Act(me, peer, ev).1.e == peer.e
      && Act(me, peer, ev).1.open == peer.open
  {
    StepLaw(me, peer, ev);
    Flags(me, ev);
    ActParts(me, peer, ev);
    if ev.Receive? {
      RefusedIff(me, peer, ev.kick);
    }
  }

  lemma {:induction false} StepTimed(n: Net, side: Side, ev: Event)
    requires Timed(n) && Enabled(Me(n, side), ev)
    ensures Timed(Step(n, side, ev))
  {
    StepKeepsPair(Me(n, side), Peer(n, side), ev);
    if Callback(ev) {
      CallbackTimed(Me(n, side), Peer(n, side), ev);
    }
  }

  lemma {:induction false} TimedAlong(n: Net, t: Trace, end: Net)
    requires Timed(n) && Reaches(n, t, end)
    ensures Timed(end)
    decreases |t|
  {
    if t != [] {
      StepTimed(n, t[0].0, t[0].1);
      TimedAlong(Step(n, t[0].0, t[0].1), t[1..], end);
    }
  }

  /** In every run, faulty or not: a pending t1 has something to watch over, so it never closes a
      session with nothing outstanding; and a started master always has t3 pending or a test
      outstanding. */
  lemma {:induction false} TimersInRun(c: Config, t: Trace, n: Net)
    requires GoodConfig(c) && Reaches(Init(c), t, n)
    ensures T1Needed(n.m.e) && T1Needed(n.s.e) && Watches(n.m)
  {
    PairInRun(c, [], Init(c));
    TimedAlong(Init(c), t, n);
  }
}
