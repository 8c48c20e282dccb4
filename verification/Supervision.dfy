/** Timer t1 supervises acknowledgement: it should be pending whenever something sent is
    unacknowledged.  Every callback keeps this except a test answer, which stops t1 whatever
    is outstanding.
 */
module Supervision {
  import opened Octets
  import opened LinkLayer
  import opened LinkWindow
  import opened Link
  import opened LinkRuns

  predicate Supervised(e: Endpoint) { e.vs != e.va ==> e.t1 }

  lemma {:induction false} DrainSupervised(e: Endpoint)
    requires Supervised(e)
    ensures Supervised(Drain(e).e)
    decreases |e.writeQ|
  {
    if e.writeQ != [] && WindowOpen(e) {
      DrainSupervised(SendHead(e));
    }
  }

  lemma {:induction false} SubmitAllSupervised(e: Endpoint, kick: seq<Asdu>)
    requires Supervised(e)
    ensures Supervised(SubmitAll(e, kick).e)
    decreases |kick|
  {
    if kick != [] {
      DrainSupervised(e.(writeQ := e.writeQ + [kick[0]]));
      SubmitAllSupervised(Submit(e, kick[0]).e, kick[1..]);
    }
  }

  /** Numbers are residues, so an accepted N(R) cannot reopen a fully acknowledged window. */
  predicate Residues(e: Endpoint, nr: nat) { e.vs < MODULUS && e.va < MODULUS && nr < MODULUS }

  lemma {:induction false} AcknowledgeSupervised(e: Endpoint, nr: nat, kick: seq<Asdu>)
    requires Supervised(e) && Residues(e, nr) && CheckNr(e, nr)
    ensures Supervised(Acknowledge(e, nr, kick).e)
  {
    if e.vs == nr {
      SubmitAllSupervised(e.(va := nr, t1 := false), kick);
    } else {
      assert e.va != e.vs;
    }
  }

  lemma {:induction false} ReceiveSupervised(e: Endpoint, f: Frame, kick: seq<Asdu>)
    requires Supervised(e) && !f.U? && Residues(e, f.nr)
    ensures Supervised(FrameRecv(e, f, kick).e)
  {
    var e0 := e.(t3 := true);
    if CheckNr(e0, f.nr) {
      if f.I? {
        AcknowledgeSupervised(e0, f.nr, kick);
      } else {
        AcknowledgeSupervised(e0.(ackwQ := Prune(e0.ackwQ, f.nr)), f.nr, kick);
      }
    }
  }

  /** U-frames: supervision ends exactly when an accepted test answer, or a confirmation of
      activation, arrives while something is outstanding. */
  lemma {:induction false} USupervised(e: Endpoint, g: UFunc)
    requires Supervised(e)
    ensures Supervised(UFrameRecv(e, g).e) <==>
            !(e.vs != e.va && ((g == TestCon && e.testfr) || (g == StartCon && e.role.Master?)))
  {
    if g == StartAct {
      DrainSupervised(e.(stopdt := false));
    }
  }

  /** A confirmation of activation finds nothing outstanding. */
  lemma {:induction false} NothingBeforeConfirmation(n: Net, side: Side)
    requires Healthy(n) && Me(n, side).inbox != [] && Me(n, side).inbox[0].frame == U(StartCon)
    ensures side.MasterSide? && Me(n, side).e.vs == Me(n, side).e.va
  {
    assert UCount(Me(n, side).inbox, StartCon) >= 1;
  }

  lemma {:induction false} ReceiveUSupervised(n: Net, side: Side, kick: seq<Asdu>)
    requires Healthy(n) && Enabled(Me(n, side), Receive(kick)) && Supervised(Me(n, side).e)
    requires Me(n, side).inbox[0].frame.U?
    ensures Supervised(Run(Me(n, side), Receive(kick)).e) <==>
            !(Gets(Me(n, side), Receive(kick), TestCon) && Me(n, side).e.vs != Me(n, side).e.va)
  {
    var me := Me(n, side);
    HealthyWelcome(n, side);
    USupervised(me.e.(t3 := true), me.inbox[0].frame.func);
    if me.inbox[0].frame == U(StartCon) {
      NothingBeforeConfirmation(n, side);
    }
  }

  /** In a reliable run a step ends supervision if and only if it accepts a test answer
      while frames are outstanding. */
  lemma {:induction false} StepSupervised(n: Net, side: Side, ev: Event)
    requires Healthy(n) && Enabled(Me(n, side), ev) && Calm(Me(n, side), ev)
    requires Supervised(Me(n, side).e)
    ensures Supervised(Me(Step(n, side, ev), side).e) <==>
            !(Gets(Me(n, side), ev, TestCon) && Me(n, side).e.vs != Me(n, side).e.va)
  {
    var me, peer := Me(n, side), Peer(n, side);
    ActParts(me, peer, ev);
    match ev {
      case Send(a) => DrainSupervised(me.e.(writeQ := me.e.writeQ + [a]));
      case Receive(kick) =>
        if me.inbox[0].frame.U? {
          ReceiveUSupervised(n, side, kick);
        } else {
          assert Genuine(me.inbox[0], peer.xmit);
          ReceiveSupervised(me.e, me.inbox[0].frame, kick);
        }
      case _ =>
    }
  }

  predicate WithoutTests(t: Trace) { t != [] ==> !t[0].1.T3? && WithoutTests(t[1..]) }

  lemma {:induction false} SupervisedAlong(n: Net, t: Trace, end: Net)
    requires Healthy(n) && !n.m.e.testfr && !n.s.e.testfr && Supervised(n.m.e) && Supervised(n.s.e)
    requires CalmlyReaches(n, t, end) && WithoutTests(t)
    ensures Supervised(end.m.e) && Supervised(end.s.e)
    decreases |t|
  {
    if t != [] {
      var (side, ev) := t[0];
      StepHealthy(n, side, ev);
      NoAnswerUnasked(n, side, ev);
      StepSupervised(n, side, ev);
      Flags(Me(n, side), ev);
      ActParts(Me(n, side), Peer(n, side), ev);
      SupervisedAlong(Step(n, side, ev), t[1..], end);
    }
  }

  lemma {:induction false} NoAnswerUnasked(n: Net, side: Side, ev: Event)
    requires Healthy(n) && !Me(n, side).e.testfr
    ensures !Gets(Me(n, side), ev, TestCon)
  {
    assert Gets(Me(n, side), ev, TestCon) ==> UCount(Me(n, side).inbox, TestCon) >= 1;
  }

  /** Without the test procedure, t1 is pending whenever something is unacknowledged. */
  lemma {:induction false} SupervisedWithoutTests(c: Config, t: Trace, n: Net)
    requires GoodConfig(c) && CalmlyReaches(Init(c), t, n) && WithoutTests(t)
    ensures Supervised(n.m.e) && Supervised(n.s.e)
  {
    SupervisedAlong(Init(c), t, n);
  }
}
