/** Three runs of the link over channels that lose nothing: one that nevertheless closes the
    connection, one that leaves frames unacknowledged with no timer running, and one that leaves
    an ASDU queued behind an open window. */
module LinkCases {
  import opened Octets
  import opened LinkLayer
  import opened LinkWindow
  import opened Link
  import opened LinkRuns
  import opened Supervision
  import opened WriteQueue

  const DEFAULTS := Config(8, 12, 8, 12)

  function Frames(ps: seq<Packet>): seq<Frame> { seq(|ps|, i requires 0 <= i < |ps| => ps[i].frame) }

  lemma {:induction false} CalmlySnoc(n: Net, t: Trace, mid: Net, side: Side, ev: Event)
    requires CalmlyReaches(n, t, mid) && Enabled(Me(mid, side), ev) && Calm(Me(mid, side), ev)
    ensures CalmlyReaches(n, t + [(side, ev)], Step(mid, side, ev))
    decreases |t|
  {
    if t == [] {
      assert t + [(side, ev)] == [(side, ev)];
      assert CalmlyReaches(Step(mid, side, ev), [(side, ev)][1..], Step(mid, side, ev));
    } else {
      CalmlySnoc(Step(n, t[0].0, t[0].1), t[1..], mid, side, ev);
      assert (t + [(side, ev)])[1..] == t[1..] + [(side, ev)];
    }
  }

  /** Reached without faults around the sessions. */
  ghost predicate Undisturbedly(n: Net, t: Trace, end: Net) { Reaches(n, t, end) && Undisturbed(t) }

  lemma {:induction false} CalmIsUndisturbed(n: Net, t: Trace, end: Net)
    requires CalmlyReaches(n, t, end)
    ensures Undisturbedly(n, t, end)
    decreases |t|
  {
    if t != [] {
      CalmIsUndisturbed(Step(n, t[0].0, t[0].1), t[1..], end);
    }
  }

  lemma {:induction false} UndisturbedSnoc(n: Net, t: Trace, mid: Net, side: Side, ev: Event)
    requires Undisturbedly(n, t, mid) && Enabled(Me(mid, side), ev) && Callback(ev)
    ensures Undisturbedly(n, t + [(side, ev)], Step(mid, side, ev))
    decreases |t|
  {
    if t == [] {
      assert t + [(side, ev)] == [(side, ev)] && [(side, ev)][1..] == [];
      assert Reaches(Step(mid, side, ev), [], Step(mid, side, ev)) && Undisturbed([]);
    } else {
      UndisturbedSnoc(Step(n, t[0].0, t[0].1), t[1..], mid, side, ev);
      assert (t + [(side, ev)])[1..] == t[1..] + [(side, ev)];
    }
  }

  // ---------- single steps ----------

  lemma {:induction false} Activation(c: Config) returns (t: Trace, n: Net)
    ensures CalmlyReaches(Init(c), t, n)
    ensures n.m.open && n.m.e == Init(c).m.e.(stopdt := false, t1 := false, t3 := true)
    ensures n.s.open && n.s.e == Init(c).s.e.(stopdt := false, t3 := true)
    ensures n.m.inbox == [] && n.s.inbox == []
  {
    var n0 := Init(c);
    CalmlySnoc(n0, [], n0, SlaveSide, Receive([]));
    var n1 := Step(n0, SlaveSide, Receive([]));
    assert n1.m.inbox[0].frame == U(StartCon);
    t := [] + [(SlaveSide, Receive([]))];
    CalmlySnoc(n0, t, n1, MasterSide, Receive([]));
    t := t + [(MasterSide, Receive([]))];
    n := Step(n1, MasterSide, Receive([]));
  }

  /** One frame written is one frame more in the channel. */
  lemma {:induction false} PostOne(me: Half, peer: Half, o: Outcome, f: Frame)
    requires o.wire == [f]
    ensures Frames(Post(me, peer, o).inbox) == Frames(peer.inbox) + [f]
  {
    var after := |me.delivered| + |o.up|;
    var ps := Stamp(o.wire, |me.xmit|, |me.delivered|, after);
    assert o.wire[1..] == [];
    assert Stamp(o.wire[1..], if f.I? then |me.xmit| + 1 else |me.xmit|, |me.delivered|, after) == [];
    assert ps == [Packet(f, |me.xmit|, if f.I? then |me.delivered| else after)];
  }

  lemma PostNone(me: Half, peer: Half, o: Outcome)
    requires o.wire == []
    ensures Post(me, peer, o) == peer
  {
    assert peer.inbox + [] == peer.inbox;
  }

  /** t3 expires: a test goes out. */
  lemma {:induction false} TestSent(n: Net)
    requires Enabled(n.m, T3)
    ensures var n' := Step(n, MasterSide, T3);
      && n'.m.open && n'.m.inbox == n.m.inbox && n'.m.e == n.m.e.(t1 := true, t3 := false, testfr := true)
      && n'.s == n.s.(inbox := n'.s.inbox) && Frames(n'.s.inbox) == Frames(n.s.inbox) + [U(TestAct)]
  {
    ActParts(n.m, n.s, T3);
    PostOne(n.m, n.s, Run(n.m, T3), U(TestAct));
  }

  /** The slave answers a test. */
  lemma {:induction false} TestAnswered(n: Net)
    requires n.s.open && n.s.inbox != [] && n.s.inbox[0].frame == U(TestAct)
    ensures var n' := Step(n, SlaveSide, Receive([]));
      && n'.s.open && n'.s.inbox == n.s.inbox[1..]
      && n'.m == n.m.(inbox := n'.m.inbox) && Frames(n'.m.inbox) == Frames(n.m.inbox) + [U(TestCon)]
  {
    ActParts(n.s, n.m, Receive([]));
    PostOne(n.s, n.m, Run(n.s, Receive([])), U(TestCon));
  }

  /** The master reads an answer: refused if no test is outstanding. */
  lemma {:induction false} AnswerRead(n: Net)
    requires n.m.open && n.m.inbox != [] && n.m.inbox[0].frame == U(TestCon)
    ensures var n' := Step(n, MasterSide, Receive([]));
      && n'.m.open == n.m.e.testfr && n'.m.inbox == n.m.inbox[1..] && n'.s == n.s
      && n'.m.e == n.m.e.(t3 := true, t1 := if n.m.e.testfr then false else n.m.e.t1, testfr := false)
  {
    ActParts(n.m, n.s, Receive([]));
    PostNone(n.m, n.s, Run(n.m, Receive([])));
  }

  /** With an open window and nothing queued, an ASDU leaves at once. */
  lemma {:induction false} SendsAtOnce(e: Endpoint, a: Asdu)
    requires e.writeQ == [] && WindowOpen(e) && MaySend(e)
    ensures Submit(e, a).wire == [I(e.vs, e.vr, a)]
    ensures Submit(e, a).e == e.(vs := Next(e.vs), t1 := true, ackwQ := e.ackwQ + [I(e.vs, e.vr, a)])
  {
    var q := e.(writeQ := e.writeQ + [a]);
    assert SendHead(q).writeQ == [];
    assert Drain(SendHead(q)).wire == [];
  }

  // ---------- a healthy connection torn down ----------

  /** The slave's I-frame crosses the master's first test. */
  lemma {:induction false} CrossingFrame() returns (t: Trace, n: Net)
    ensures CalmlyReaches(Init(DEFAULTS), t, n)
    ensures n.m.open && n.m.e == Init(DEFAULTS).m.e.(stopdt := false, t1 := true, testfr := true)
    ensures Frames(n.m.inbox) == [I(0, 0, [])] && Frames(n.s.inbox) == [U(TestAct)]
  {
    t, n := Activation(DEFAULTS);
    CalmlySnoc(Init(DEFAULTS), t, n, MasterSide, T3);
    TestSent(n);
    t, n := t + [(MasterSide, T3)], Step(n, MasterSide, T3);
    SendsAtOnce(n.s.e, []);
    CalmlySnoc(Init(DEFAULTS), t, n, SlaveSide, Send([]));
    ActParts(n.s, n.m, Send([]));
    PostOne(n.s, n.m, Run(n.s, Send([])), I(0, 0, []));
    t, n := t + [(SlaveSide, Send([]))], Step(n, SlaveSide, Send([]));
  }

  lemma {:induction false} CrossingRead(e: Endpoint)
    requires e == Init(DEFAULTS).m.e.(stopdt := false, t1 := true, testfr := true)
    ensures var o := FrameRecv(e, I(0, 0, []), []);
      o.ok && o.wire == [] && o.e.t3 && o.e.testfr
  {
    var e0 := e.(t3 := true);
    assert CheckNr(e0, 0) && Acknowledge(e0, 0, []).e == e0.(va := 0, t1 := false);
  }

  /** Any frame re-arms t3, so after the crossing frame the test may be restarted. */
  lemma {:induction false} OverlapReached() returns (t: Trace, n: Net)
    ensures CalmlyReaches(Init(DEFAULTS), t, n)
    ensures Enabled(n.m, T3) && n.m.e.testfr && n.m.inbox == [] && n.s.open && Frames(n.s.inbox) == [U(TestAct)]
  {
    var t0, n0 := CrossingFrame();
    assert n0.m.inbox[0].frame == Frames(n0.m.inbox)[0];
    CrossingRead(n0.m.e);
    ActParts(n0.m, n0.s, Receive([]));
    PostNone(n0.m, n0.s, Run(n0.m, Receive([])));
    CalmlySnoc(Init(DEFAULTS), t0, n0, MasterSide, Receive([]));
    t, n := t0 + [(MasterSide, Receive([]))], Step(n0, MasterSide, Receive([]));
    NeverRefused(DEFAULTS, t, n);
    assert |n0.m.inbox| == |Frames(n0.m.inbox)| == 1;
  }

  lemma FramesTail(ps: seq<Packet>)
    requires ps != []
    ensures Frames(ps)[0] == ps[0].frame && Frames(ps[1..]) == Frames(ps)[1..]
  {
  }

  lemma FramesNone(ps: seq<Packet>)
    requires Frames(ps) == []
    ensures ps == []
  {
    assert |Frames(ps)| == |ps|;
  }

  /** A run from start-up in which nothing is lost, repeated or cut, that ends with the channels
      read and the master's session closed. */
  lemma {:induction false} OverlapHappens() returns (t: Trace, n: Net)
    ensures Undisturbedly(Init(DEFAULTS), t, n) && n.m.inbox == [] && n.s.inbox == []
    ensures !n.m.open && n.s.open
  {
    var start := Init(DEFAULTS);
    t, n := OverlapReached();
    CalmIsUndisturbed(start, t, n);
    UndisturbedSnoc(start, t, n, MasterSide, T3);
    TestSent(n);
    t, n := t + [(MasterSide, T3)], Step(n, MasterSide, T3);
    t, n := BothAnswered(start, t, n);
    t, n := BothRead(start, t, n);
  }

  lemma {:induction false} BothAnswered(start: Net, t0: Trace, n0: Net) returns (t: Trace, n: Net)
    requires Undisturbedly(start, t0, n0) && n0.s.open && Frames(n0.s.inbox) == [U(TestAct), U(TestAct)]
    requires n0.m.open && n0.m.e.testfr && n0.m.inbox == []
    ensures Undisturbedly(start, t, n) && n.s.open && n.s.inbox == []
    ensures n.m.open && n.m.e.testfr && Frames(n.m.inbox) == [U(TestCon), U(TestCon)]
  {
    FramesTail(n0.s.inbox);
    TestAnswered(n0);
    UndisturbedSnoc(start, t0, n0, SlaveSide, Receive([]));
    t, n := t0 + [(SlaveSide, Receive([]))], Step(n0, SlaveSide, Receive([]));
    FramesTail(n.s.inbox);
    TestAnswered(n);
    UndisturbedSnoc(start, t, n, SlaveSide, Receive([]));
    FramesNone(n.s.inbox[1..]);
    t, n := t + [(SlaveSide, Receive([]))], Step(n, SlaveSide, Receive([]));
  }

  lemma {:induction false} BothRead(start: Net, t0: Trace, n0: Net) returns (t: Trace, n: Net)
    requires Undisturbedly(start, t0, n0) && n0.s.open && n0.s.inbox == []
    requires n0.m.open && n0.m.e.testfr && Frames(n0.m.inbox) == [U(TestCon), U(TestCon)]
    ensures Undisturbedly(start, t, n) && n.m.inbox == [] && n.s.inbox == [] && !n.m.open && n.s.open
  {
    FramesTail(n0.m.inbox);
    AnswerRead(n0);
    UndisturbedSnoc(start, t0, n0, MasterSide, Receive([]));
    t, n := t0 + [(MasterSide, Receive([]))], Step(n0, MasterSide, Receive([]));
    FramesTail(n.m.inbox);
    AnswerRead(n);
    UndisturbedSnoc(start, t, n, MasterSide, Receive([]));
    FramesNone(n.m.inbox[1..]);
    t, n := t + [(MasterSide, Receive([]))], Step(n, MasterSide, Receive([]));
  }

  // ---------- unacknowledged frames without a timer ----------

  /** A reliable run from start-up that ends with a frame unacknowledged and t1 not pending: the
      answer to a test stops the timer that watches over the frame. */
  lemma {:induction false} UnsupervisedHappens() returns (t: Trace, n: Net)
    ensures CalmlyReaches(Init(DEFAULTS), t, n)
    ensures n.m.open && n.m.e.vs != n.m.e.va && !n.m.e.t1 && !Supervised(n.m.e)
  {
    var start := Init(DEFAULTS);
    t, n := MasterSends();
    CalmlySnoc(start, t, n, MasterSide, T3);
    TestSent(n);
    t, n := t + [(MasterSide, T3)], Step(n, MasterSide, T3);
    t, n := SlaveReadsBoth(t, n);
    FramesTail(n.m.inbox);
    AnswerRead(n);
    CalmlySnoc(start, t, n, MasterSide, Receive([]));
    t, n := t + [(MasterSide, Receive([]))], Step(n, MasterSide, Receive([]));
  }

  lemma {:induction false} MasterSends() returns (t: Trace, n: Net)
    ensures CalmlyReaches(Init(DEFAULTS), t, n)
    ensures n.m.open && n.m.inbox == [] && n.m.e.t3 && !n.m.e.testfr && n.m.e.vs == 1 && n.m.e.va == 0
    ensures n.s.open && n.s.e == Init(DEFAULTS).s.e.(stopdt := false, t3 := true)
    ensures Frames(n.s.inbox) == [I(0, 0, [])]
  {
    t, n := Activation(DEFAULTS);
    SendsAtOnce(n.m.e, []);
    NoUp(n.m.e, []);
    CalmlySnoc(Init(DEFAULTS), t, n, MasterSide, Send([]));
    ActParts(n.m, n.s, Send([]));
    PostOne(n.m, n.s, Run(n.m, Send([])), I(0, 0, []));
    t, n := t + [(MasterSide, Send([]))], Step(n, MasterSide, Send([]));
  }

  /** The slave takes the frame, too few for an acknowledgement, and answers the test. */
  lemma {:induction false} SlaveReadsBoth(t0: Trace, n0: Net) returns (t: Trace, n: Net)
    requires CalmlyReaches(Init(DEFAULTS), t0, n0)
    requires n0.s.open && n0.s.e == Init(DEFAULTS).s.e.(stopdt := false, t3 := true)
    requires Frames(n0.s.inbox) == [I(0, 0, []), U(TestAct)] && n0.m.inbox == []
    ensures CalmlyReaches(Init(DEFAULTS), t, n)
    ensures n.m == n0.m.(inbox := n.m.inbox) && Frames(n.m.inbox) == [U(TestCon)]
  {
    FramesTail(n0.s.inbox);
    var o := FrameRecv(n0.s.e, I(0, 0, []), []);
    assert CheckNr(n0.s.e, 0) && o.ok && o.wire == [];
    ActParts(n0.s, n0.m, Receive([]));
    PostNone(n0.s, n0.m, o);
    CalmlySnoc(Init(DEFAULTS), t0, n0, SlaveSide, Receive([]));
    t, n := t0 + [(SlaveSide, Receive([]))], Step(n0, SlaveSide, Receive([]));
    NeverRefused(DEFAULTS, t, n);
    FramesTail(n.s.inbox);
    TestAnswered(n);
    CalmlySnoc(Init(DEFAULTS), t, n, SlaveSide, Receive([]));
    t, n := t + [(SlaveSide, Receive([]))], Step(n, SlaveSide, Receive([]));
  }

  // ---------- queued behind an open window ----------

  /** The smallest windows. */
  const TIGHT := Config(1, 1, 1, 1)

  lemma {:induction false} WaitsWhenFull(e: Endpoint, b: Asdu)
    requires e.writeQ == [] && !WindowOpen(e) && MaySend(e)
    ensures Submit(e, b) == Outcome(e.(writeQ := [b]), [], [], true)
  {
    assert [] + [b] == [b];
  }

  lemma {:induction false} FirstAcknowledges(e: Endpoint, a: Asdu)
    requires e == Init(TIGHT).s.e.(stopdt := false, t3 := true)
    ensures FrameRecv(e, I(0, 0, a), []).wire == [S(1)] && FrameRecv(e, I(0, 0, a), []).ok
  {
    var e0 := e.(t3 := true);
    assert CheckNr(e0, 0);
    var o := Acknowledge(e0, 0, []);
    assert o.wire == [] && o.e == e0.(va := 0, t1 := false);
    assert Next(o.e.vr) == 1 && Distance(o.e.vaPeer, 1) == 1;
    assert Accept(o.e, I(0, 0, a)).wire == [S(1)];
  }

  lemma {:induction false} FirstAcknowledged(e: Endpoint)
    requires e.vs == 1 && e.va == 0
    ensures var o := FrameRecv(e, S(1), []);
      o.ok && o.wire == [] && o.up == []
      && o.e == e.(t3 := true, va := 1, t1 := false, ackwQ := Prune(e.ackwQ, 1))
  {
    assert CheckNr(e.(t3 := true), 1);
  }

  /** The master sends one ASDU, which fills the window, and queues another. */
  lemma {:induction false} OneSentOneQueued(a: Asdu, b: Asdu) returns (t: Trace, n: Net)
    ensures CalmlyReaches(Init(TIGHT), t, n)
    ensures n.m.open && n.m.inbox == [] && n.m.e.role.Master? && n.m.e.vs == 1 && n.m.e.k == 1
    ensures n.m.e.va == 0 && n.m.e.writeQ == [b]
    ensures n.s.open && n.s.e == Init(TIGHT).s.e.(stopdt := false, t3 := true)
    ensures Frames(n.s.inbox) == [I(0, 0, a)]
  {
    t, n := Activation(TIGHT);
    SendsAtOnce(n.m.e, a);
    NoUp(n.m.e, a);
    CalmlySnoc(Init(TIGHT), t, n, MasterSide, Send(a));
    ActParts(n.m, n.s, Send(a));
    PostOne(n.m, n.s, Run(n.m, Send(a)), I(0, 0, a));
    t, n := t + [(MasterSide, Send(a))], Step(n, MasterSide, Send(a));
    WaitsWhenFull(n.m.e, b);
    CalmlySnoc(Init(TIGHT), t, n, MasterSide, Send(b));
    ActParts(n.m, n.s, Send(b));
    PostNone(n.m, n.s, Run(n.m, Send(b)));
    t, n := t + [(MasterSide, Send(b))], Step(n, MasterSide, Send(b));
  }

  /** The slave acknowledges the one ... */
  lemma {:induction false} OneAcknowledged(a: Asdu, b: Asdu) returns (t: Trace, n: Net)
    ensures CalmlyReaches(Init(TIGHT), t, n)
    ensures n.m.open && n.m.e.role.Master? && n.m.e.vs == 1 && n.m.e.va == 0 && n.m.e.k == 1 && n.m.e.writeQ == [b]
    ensures Frames(n.m.inbox) == [S(1)] && n.s.inbox == []
  {
    t, n := OneSentOneQueued(a, b);
    FramesTail(n.s.inbox);
    FramesNone(n.s.inbox[1..]);
    FirstAcknowledges(n.s.e, a);
    ActParts(n.s, n.m, Receive([]));
    PostOne(n.s, n.m, Run(n.s, Receive([])), S(1));
    CalmlySnoc(Init(TIGHT), t, n, SlaveSide, Receive([]));
    t, n := t + [(SlaveSide, Receive([]))], Step(n, SlaveSide, Receive([]));
  }

  /** ... and the master reads the acknowledgement, whose wakeup queues nothing. */
  lemma {:induction false} AcknowledgementRead(a: Asdu, b: Asdu) returns (t: Trace, n: Net)
    ensures CalmlyReaches(Init(TIGHT), t, n) && n.m.open && n.m.inbox == [] && n.s.inbox == []
    ensures n.m.e.role.Master? && n.m.e.vs == n.m.e.va && n.m.e.writeQ == [b] && Stalled(n.m.e)
  {
    t, n := OneAcknowledged(a, b);
    FramesTail(n.m.inbox);
    FramesNone(n.m.inbox[1..]);
    FirstAcknowledged(n.m.e);
    ActParts(n.m, n.s, Receive([]));
    PostNone(n.m, n.s, Run(n.m, Receive([])));
    CalmlySnoc(Init(TIGHT), t, n, MasterSide, Receive([]));
    t, n := t + [(MasterSide, Receive([]))], Step(n, MasterSide, Receive([]));
  }

  /** A reliable run from start-up that ends with the channels read, every frame acknowledged, the
      window open and an ASDU still queued; no run without a new ASDU sends it. */
  lemma {:induction false} StallHappens(a: Asdu, b: Asdu) returns (t: Trace, n: Net)
    ensures CalmlyReaches(Init(TIGHT), t, n) && n.m.open && n.m.inbox == [] && n.s.inbox == []
    ensures n.m.e.vs == n.m.e.va && n.m.e.writeQ == [b] && Stalled(n.m.e)
    ensures forall more, end :: Reaches(n, more, end) && Silent(more, MasterSide) ==> end.m.e.writeQ == [b]
  {
    t, n := AcknowledgementRead(a, b);
    CalmIsUndisturbed(Init(TIGHT), t, n);
    PairInRun(TIGHT, t, n);
    forall more, end | Reaches(n, more, end) && Silent(more, MasterSide) ensures end.m.e.writeQ == [b] {
      StalledUntilNext(n, more, end);
    }
  }
}
