/** The write queue of a session: what every callback takes from it and leaves in it, so that in
    every run all that a user queued was transmitted in order or is still queued; and when
    queued ASDUs are left waiting behind an open window. */
module WriteQueue {
  import opened Basics
  import opened Octets
  import opened LinkLayer
  import opened LinkWindow
  import opened Link
  import opened LinkRuns
  import opened LinkTimers

  /** What the user hands over during a callback; the wakeup runs only when nothing is
      unacknowledged. */
  function Offered(me: Half, ev: Event): seq<Asdu> {
    match ev
    case Send(a) => [a]
    case Receive(kick) => if FullAck(me, ev) then kick else []
    case _ => []
  }

  /** Callbacks that run the write queue: whatever queues an ASDU, and activation. */
  predicate RunsQueue(me: Half, ev: Event) {
    Offered(me, ev) != [] || (Gets(me, ev, StartAct) && me.e.role.Slave?)
  }

  /** What is known acknowledged after a callback. */
  function AckedAfter(me: Half, ev: Event): nat {
    if ev.Receive? && me.inbox != [] && TakesNr(me.e, me.inbox[0].frame) then me.inbox[0].nr else me.acked
  }

  /** A callback appends what is offered and sends from the head: nothing unless it runs the
      queue of a session that may send, and then as much as the window admits. */
  ghost predicate QueueLaw(me: Half, ev: Event, o: Outcome) {
    var q, sent := me.e.writeQ + Offered(me, ev), Payloads(o.wire);
    && sent + o.e.writeQ == q
    && |sent| == if RunsQueue(me, ev) && MaySend(o.e) then Min(|q|, AckedAfter(me, ev) + me.e.k - |me.xmit|) else 0
  }

  // ---------- one callback ----------

  lemma {:induction false} SendWithQueue(e: Endpoint, more: seq<Asdu>, sent: nat, acked: nat)
    requires Counts(e, sent, acked)
    ensures var o := SendWith(e, more, sent, acked);
      && Payloads(o.wire) + o.e.writeQ == e.writeQ + more
      && |Payloads(o.wire)| == Room(e, sent, acked, |more|) && MaySend(o.e) == MaySend(e)
  {
    var n, q := Room(e, sent, acked, |more|), e.writeQ + more;
    PayloadsNumbered(sent, e.vr, q[..n]);
    assert q[..n] + q[n..] == q;
  }

  lemma {:induction false} AcknowledgeQueue(e: Endpoint, nr: nat, kick: seq<Asdu>, sent: nat, acked: nat)
    requires Counts(e.(va := nr), sent, acked)
    ensures var o := Acknowledge(e, nr, kick);
      var more := if e.vs == nr then kick else [];
      && Payloads(o.wire) + o.e.writeQ == e.writeQ + more
      && |Payloads(o.wire)| == (if more == [] then 0 else Room(e.(va := nr), sent, acked, |more|))
      && MaySend(o.e) == MaySend(e)
  {
    if e.vs == nr && kick != [] {
      SubmitAllExact(e.(va := nr, t1 := false), kick, sent, acked);
      SendWithQueue(e.(va := nr, t1 := false), kick, sent, acked);
    } else {
      assert [] + e.writeQ == e.writeQ + [];
    }
  }

  lemma {:induction false} IQueue(me: Half, kick: seq<Asdu>, n: nat)
    requires Own(me) && Enabled(me, Receive(kick)) && me.inbox[0].frame.I? && me.acked <= n <= |me.xmit|
    requires me.inbox[0].nr == n && me.inbox[0].frame.nr == n % MODULUS && !(me.e.role.Slave? && me.e.stopdt)
    ensures QueueLaw(me, Receive(kick), Run(me, Receive(kick)))
  {
    var f, e0 := me.inbox[0].frame, me.e.(t3 := true);
    NrAccepted(me, n);
    AcknowledgeQueue(e0, f.nr, kick, |me.xmit|, n);
    IFrameTimers(e0, f, kick);
  }

  lemma {:induction false} SQueue(me: Half, kick: seq<Asdu>, n: nat)
    requires Own(me) && Enabled(me, Receive(kick)) && me.inbox[0].frame.S? && me.acked <= n <= |me.xmit|
    requires me.inbox[0].nr == n && me.inbox[0].frame.nr == n % MODULUS
    ensures QueueLaw(me, Receive(kick), Run(me, Receive(kick)))
  {
    var f := me.inbox[0].frame;
    NrAccepted(me, n);
    AcknowledgeQueue(me.e.(t3 := true, ackwQ := Prune(me.e.ackwQ, f.nr)), f.nr, kick, |me.xmit|, n);
  }

  lemma {:induction false} ActivationQueue(me: Half, kick: seq<Asdu>)
    requires Own(me) && Enabled(me, Receive(kick)) && me.inbox[0].frame == U(StartAct) && me.e.role.Slave?
    ensures QueueLaw(me, Receive(kick), Run(me, Receive(kick)))
  {
    var e1 := me.e.(t3 := true, stopdt := false);
    DrainExact(e1, |me.xmit|, me.acked);
    SendWithQueue(e1, [], |me.xmit|, me.acked);
    assert e1.(writeQ := e1.writeQ + []) == e1;
    PayloadsConcat([U(StartCon)], Drain(e1).wire);
    NoPayloads([U(StartCon)]);
    assert [] + Payloads(Drain(e1).wire) == Payloads(Drain(e1).wire);
  }

  lemma {:induction false} UQueue(me: Half, kick: seq<Asdu>)
    requires Own(me) && Enabled(me, Receive(kick)) && me.inbox[0].frame.U?
    requires !(me.inbox[0].frame == U(StartAct) && me.e.role.Slave?)
    ensures QueueLaw(me, Receive(kick), Run(me, Receive(kick)))
  {
    QuietU(me.e.(t3 := true), me.inbox[0].frame.func);
    NoPayloads(Run(me, Receive(kick)).wire);
    assert [] + me.e.writeQ == me.e.writeQ + [];
  }

  /** In every run, each callback does exactly this to the write queue. */
  lemma {:induction false} StepQueue(me: Half, peer: Half, ev: Event)
    requires Pair(me, peer) && Enabled(me, ev) && Callback(ev)
    ensures QueueLaw(me, ev, Run(me, ev))
  {
    match ev {
      case Send(a) =>
        SubmitExact(me.e, a, |me.xmit|, me.acked);
        SendWithQueue(me.e, [a], |me.xmit|, me.acked);
      case Receive(kick) =>
        var p := me.inbox[0];
        assert Genuine(p, peer.xmit);
        if p.frame.I? && !(me.e.role.Slave? && me.e.stopdt) {
          IQueue(me, kick, p.nr);
        } else if p.frame.S? {
          SQueue(me, kick, p.nr);
        } else if p.frame == U(StartAct) && me.e.role.Slave? {
          ActivationQueue(me, kick);
        } else if p.frame.U? {
          UQueue(me, kick);
        } else {
          assert [] + me.e.writeQ == me.e.writeQ + [];
        }
      case T2 =>
        NoPayloads(Run(me, ev).wire);
        assert [] + me.e.writeQ == me.e.writeQ + [];
      case T3 =>
        NoPayloads(Run(me, ev).wire);
        assert [] + me.e.writeQ == me.e.writeQ + [];
    }
  }

  // ---------- every run ----------

  /** Everything the user of one side handed over along a run, in order. */
  ghost function AllOffered(n: Net, t: Trace, side: Side): seq<Asdu>
    decreases |t|
  {
    if t == [] || !Enabled(Me(n, t[0].0), t[0].1) then []
    else (if t[0].0 == side then Offered(Me(n, side), t[0].1) else [])
         + AllOffered(Step(n, t[0].0, t[0].1), t[1..], side)
  }

  /** Transmitted, then queued. */
  function Entrusted(x: Half): seq<Asdu> { x.xmit + x.e.writeQ }

  lemma {:induction false} StepEntrusted(me: Half, peer: Half, ev: Event)
    requires Pair(me, peer) && Enabled(me, ev)
    ensures Entrusted(Act(me, peer, ev).0) == Entrusted(me) + Offered(me, ev)
    ensures Entrusted(Act(me, peer, ev).1) == Entrusted(peer)
  {
    if Callback(ev) {
      StepQueue(me, peer, ev);
      ActParts(me, peer, ev);
      var o := Run(me, ev);
      assert me.xmit + Payloads(o.wire) + o.e.writeQ == me.xmit + (Payloads(o.wire) + o.e.writeQ);
      assert me.xmit + (me.e.writeQ + Offered(me, ev)) == me.xmit + me.e.writeQ + Offered(me, ev);
    } else {
      assert Entrusted(me) + [] == Entrusted(me);
    }
  }

  lemma {:induction false} StepEntrusts(n: Net, who: Side, ev: Event, side: Side)
    requires Pair(n.m, n.s) && Enabled(Me(n, who), ev)
    ensures Pair(Step(n, who, ev).m, Step(n, who, ev).s)
    ensures Entrusted(Me(Step(n, who, ev), side))
         == Entrusted(Me(n, side)) + if who == side then Offered(Me(n, side), ev) else []
  {
    StepKeepsPair(Me(n, who), Peer(n, who), ev);
    StepEntrusted(Me(n, who), Peer(n, who), ev);
  }

  lemma {:induction false} EntrustedAlong(n: Net, t: Trace, end: Net, side: Side)
    requires Pair(n.m, n.s) && Reaches(n, t, end)
    ensures Entrusted(Me(end, side)) == Entrusted(Me(n, side)) + AllOffered(n, t, side)
    decreases |t|
  {
    if t != [] {
      StepEntrusts(n, t[0].0, t[0].1, side);
      EntrustedAlong(Step(n, t[0].0, t[0].1), t[1..], end, side);
      Assoc(Entrusted(Me(n, side)), if t[0].0 == side then Offered(Me(n, side), t[0].1) else [],
            AllOffered(Step(n, t[0].0, t[0].1), t[1..], side));
    }
  }

  /** In every run, faulty or not: what a user handed over is what was transmitted followed by
      what is still queued, nothing lost, repeated or reordered; and what the other user was
      given is a prefix of it. */
  lemma {:induction false} NothingForgotten(c: Config, t: Trace, n: Net, side: Side)
    requires GoodConfig(c) && Reaches(Init(c), t, n)
    ensures AllOffered(Init(c), t, side) == Me(n, side).xmit + Me(n, side).e.writeQ
    ensures Peer(n, side).delivered <= AllOffered(Init(c), t, side)
  {
    PairInRun(c, [], Init(c));
    EntrustedAlong(Init(c), t, n, side);
    PairInRun(c, t, n);
    assert [] + AllOffered(Init(c), t, side) == AllOffered(Init(c), t, side);
  }

  // ---------- queued behind an open window ----------

  /** ASDUs wait although the session may send and the window is open. */
  predicate Stalled(e: Endpoint) { MaySend(e) && e.writeQ != [] && WindowOpen(e) }

  /** A session stalls exactly by an acknowledgement that opens the window while ASDUs are queued
      and whose wakeup, if it runs at all, queues none: acknowledging does not run the queue. */
  lemma {:induction false} StallsIff(me: Half, peer: Half, ev: Event)
    requires Pair(me, peer) && Enabled(me, ev) && Callback(ev) && !Stalled(me.e)
    ensures Stalled(Run(me, ev).e) <==>
      MaySend(me.e) && me.e.writeQ != [] && AckedAfter(me, ev) > me.acked && Offered(me, ev) == []
  {
    StepQueue(me, peer, ev);
    StepKeepsPair(me, peer, ev);
    ActParts(me, peer, ev);
    Flags(me, ev);
    var x := Act(me, peer, ev).0;
    WindowExact(me.e, |me.xmit|, me.acked);
    WindowExact(x.e, |x.xmit|, x.acked);
  }

  /** The user queues only what `can_queue` admits, on a session that may send. */
  predicate Admitted(me: Half, ev: Event) {
    Offered(me, ev) != [] ==>
      MaySend(me.e) && |Offered(me, ev)| <= me.e.k - (|me.xmit| - AckedAfter(me, ev))
  }

  /** From an empty write queue exactly such a step leaves it empty, so nothing can stall. */
  lemma {:induction false} EmptyIff(me: Half, peer: Half, ev: Event)
    requires Pair(me, peer) && Enabled(me, ev) && Callback(ev) && me.e.writeQ == []
    ensures Run(me, ev).e.writeQ == [] <==> Admitted(me, ev)
  {
    StepQueue(me, peer, ev);
    Flags(me, ev);
    assert [] + Offered(me, ev) == Offered(me, ev);
  }

  /** The write queue of one side is empty in every state of a run ... */
  ghost predicate EmptyThroughout(n: Net, t: Trace, side: Side)
    decreases |t|
  {
    Me(n, side).e.writeQ == []
    && (t != [] && Enabled(Me(n, t[0].0), t[0].1) ==> EmptyThroughout(Step(n, t[0].0, t[0].1), t[1..], side))
  }

  /** ... its user queues only what is admitted in every step of it. */
  ghost predicate AlwaysAdmitted(n: Net, t: Trace, side: Side)
    decreases |t|
  {
    t != [] && Enabled(Me(n, t[0].0), t[0].1) ==>
      && (t[0].0 == side ==> Admitted(Me(n, side), t[0].1))
      && AlwaysAdmitted(Step(n, t[0].0, t[0].1), t[1..], side)
  }

  lemma {:induction false} StepEmptyIff(n: Net, who: Side, ev: Event, side: Side)
    requires Pair(n.m, n.s) && Enabled(Me(n, who), ev) && Me(n, side).e.writeQ == []
    ensures Me(Step(n, who, ev), side).e.writeQ == [] <==> (who == side ==> Admitted(Me(n, side), ev))
  {
    if Callback(ev) {
      ActParts(Me(n, who), Peer(n, who), ev);
      EmptyWhen(Me(n, who), Peer(n, who), ev, who == side);
    }
  }

  lemma {:induction false} EmptyWhen(me: Half, peer: Half, ev: Event, mine: bool)
    requires Pair(me, peer) && Enabled(me, ev) && Callback(ev) && (mine ==> me.e.writeQ == [])
    ensures mine ==> (Run(me, ev).e.writeQ == [] <==> Admitted(me, ev))
  {
    if mine {
      EmptyIff(me, peer, ev);
    }
  }

  lemma {:induction false} EmptyAlong(n: Net, t: Trace, end: Net, side: Side)
    requires Pair(n.m, n.s) && Reaches(n, t, end) && Me(n, side).e.writeQ == []
    ensures EmptyThroughout(n, t, side) <==> AlwaysAdmitted(n, t, side)
    ensures AlwaysAdmitted(n, t, side) ==> Me(end, side).e.writeQ == []
    decreases |t|
  {
    if t != [] {
      var n' := Step(n, t[0].0, t[0].1);
      StepKeepsPair(Me(n, t[0].0), Peer(n, t[0].0), t[0].1);
      StepEmptyIff(n, t[0].0, t[0].1, side);
      if Me(n', side).e.writeQ == [] {
        EmptyAlong(n', t[1..], end, side);
      }
    }
  }

  /** In every run, faulty or not: the write queue of a side stays empty throughout if and only if
      its user always queued within `can_queue`; everything handed over has then been sent. */
  lemma {:induction false} EmptyThroughoutIff(c: Config, t: Trace, n: Net, side: Side)
    requires GoodConfig(c) && Reaches(Init(c), t, n)
    ensures EmptyThroughout(Init(c), t, side) <==> AlwaysAdmitted(Init(c), t, side)
    ensures AlwaysAdmitted(Init(c), t, side) ==> Me(n, side).xmit == AllOffered(Init(c), t, side)
  {
    PairInRun(c, [], Init(c));
    EmptyAlong(Init(c), t, n, side);
    NothingForgotten(c, t, n, side);
    assert Me(n, side).xmit + [] == Me(n, side).xmit;
  }

  /** The user of this side hands nothing over. */
  ghost predicate Silent(t: Trace, side: Side) {
    forall k :: 0 <= k < |t| && t[k].0 == side ==> !t[k].1.Send? && (t[k].1.Receive? ==> t[k].1.kick == [])
  }

  lemma {:induction false} SilentRun(me: Half, peer: Half, ev: Event)
    requires Pair(me, peer) && Enabled(me, ev) && Callback(ev) && me.e.role.Master? && Offered(me, ev) == []
    ensures var o := Run(me, ev);
      o.e.role.Master? && o.e.writeQ == me.e.writeQ && Payloads(o.wire) == []
  {
    StepQueue(me, peer, ev);
    Flags(me, ev);
    var o := Run(me, ev);
    assert Payloads(o.wire) == [];
    assert o.e.writeQ == [] + o.e.writeQ == me.e.writeQ + [] == me.e.writeQ;
  }

  lemma {:induction false} SilentCallback(me: Half, peer: Half, ev: Event)
    requires Pair(me, peer) && Enabled(me, ev) && me.e.role.Master? && Offered(me, ev) == []
    ensures var x := Act(me, peer, ev).0;
      x.e.role.Master? && x.e.writeQ == me.e.writeQ && x.xmit == me.xmit
  {
    if Callback(ev) {
      SilentRun(me, peer, ev);
      ActParts(me, peer, ev);
      assert me.xmit + [] == me.xmit;
    }
  }

  lemma {:induction false} SilentStep(n: Net, who: Side, ev: Event)
    requires Pair(n.m, n.s) && n.m.e.role.Master? && Enabled(Me(n, who), ev)
    requires who == MasterSide ==> !ev.Send? && (ev.Receive? ==> ev.kick == [])
    ensures var n' := Step(n, who, ev);
      Pair(n'.m, n'.s) && n'.m.e.role.Master? && n'.m.e.writeQ == n.m.e.writeQ && n'.m.xmit == n.m.xmit
  {
    StepKeepsPair(Me(n, who), Peer(n, who), ev);
    if who == MasterSide {
      SilentCallback(n.m, n.s, ev);
    } else if Callback(ev) {
      ActParts(n.s, n.m, ev);
    }
  }

  /** A master's queued ASDUs stay queued, however open its window, until its user queues
      another. */
  lemma {:induction false} StalledUntilNext(n: Net, t: Trace, end: Net)
    requires Pair(n.m, n.s) && n.m.e.role.Master? && Reaches(n, t, end) && Silent(t, MasterSide)
    ensures end.m.e.writeQ == n.m.e.writeQ && end.m.xmit == n.m.xmit
    decreases |t|
  {
    if t != [] {
      assert t[0].0 == MasterSide ==> !t[0].1.Send? && (t[0].1.Receive? ==> t[0].1.kick == []);
      SilentStep(n, t[0].0, t[0].1);
      StalledUntilNext(Step(n, t[0].0, t[0].1), t[1..], end);
    }
  }
}
