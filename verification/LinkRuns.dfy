/** Whole runs of the two-party link: what holds in every run, what holds in runs over
    reliable channels, and one way a healthy connection is nevertheless torn down.
 */
module LinkRuns {
  import opened Octets
  import opened LinkLayer
  import opened LinkWindow
  import opened Link

  datatype Side = MasterSide | SlaveSide

  datatype Net = Net(m: Half, s: Half)

  datatype Config = Config(wm: nat, km: nat, ws: nat, ks: nat)

  predicate GoodConfig(c: Config) {
    && 1 <= c.km < MODULUS && 1 <= c.wm < MODULUS
    && 1 <= c.ks < MODULUS && 1 <= c.ws < MODULUS
  }

  /** Both sessions new; the master has just written STARTDT act and armed t1. */
  function Init(c: Config): Net {
    Net(Half(Endpoint(Master, true, false, c.wm, c.km, 0, 0, 0, 0, true, false, false, [], []),
             true, [], [], 0, [], 0),
        Half(Endpoint(Slave, true, false, c.ws, c.ks, 0, 0, 0, 0, false, false, false, [], []),
             true, [Packet(U(StartAct), 0, 0)], [], 0, [], 0))
  }

  function Me(n: Net, side: Side): Half { if side.MasterSide? then n.m else n.s }

  function Peer(n: Net, side: Side): Half { if side.MasterSide? then n.s else n.m }

  function Step(n: Net, side: Side, ev: Event): Net
    requires Enabled(Me(n, side), ev)
  {
    var r := Act(Me(n, side), Peer(n, side), ev);
    if side.MasterSide? then Net(r.0, r.1) else Net(r.1, r.0)
  }

  type Trace = seq<(Side, Event)>

  ghost predicate Reaches(n: Net, t: Trace, end: Net)
    decreases |t|
  {
    if t == [] then n == end
    else Enabled(Me(n, t[0].0), t[0].1) && Reaches(Step(n, t[0].0, t[0].1), t[1..], end)
  }

  // ---------- every run ----------

  lemma {:induction false} PairAlong(n: Net, t: Trace, end: Net)
    requires Pair(n.m, n.s) && Reaches(n, t, end)
    ensures Pair(end.m, end.s)
    decreases |t|
  {
    if t != [] {
      StepKeepsPair(Me(n, t[0].0), Peer(n, t[0].0), t[0].1);
      PairAlong(Step(n, t[0].0, t[0].1), t[1..], end);
    }
  }

  lemma {:induction false} PairInRun(c: Config, t: Trace, n: Net)
    requires GoodConfig(c) && Reaches(Init(c), t, n)
    ensures Pair(n.m, n.s)
  {
    PairAlong(Init(c), t, n);
  }

  /** Loss and duplication: in every run, with frames lost or repeated anywhere, each side has
      been given a prefix of what the other transmitted, in order and without repeats. */
  lemma {:induction false} DeliveredIsPrefix(c: Config, t: Trace, n: Net)
    requires GoodConfig(c) && Reaches(Init(c), t, n)
    ensures n.s.delivered <= n.m.xmit && n.m.delivered <= n.s.xmit
  {
    PairInRun(c, t, n);
  }

  /** Window: in every run acked <= received <= sent <= acked + k, and every N(R) in flight to
      an open side lies between what that side knows acknowledged and what was received. */
  lemma {:induction false} CountersOrdered(c: Config, t: Trace, n: Net, side: Side)
    requires GoodConfig(c) && Reaches(Init(c), t, n)
    ensures var x, y := Me(n, side), Peer(n, side);
      && x.acked <= |y.delivered| <= |x.xmit| <= x.acked + x.e.k
      && (x.open ==> forall p :: p in x.inbox && !p.frame.U? ==>
            x.acked <= p.nr <= |y.delivered| && p.frame.nr == p.nr % MODULUS)
  {
    PairInRun(c, t, n);
    var x, y := Me(n, side), Peer(n, side);
    if x.open {
      forall p | p in x.inbox && !p.frame.U?
        ensures x.acked <= p.nr <= |y.delivered| && p.frame.nr == p.nr % MODULUS
      {
        var i :| 0 <= i < |x.inbox| && x.inbox[i] == p;
        assert Genuine(x.inbox[i], y.xmit);
      }
    }
  }

  /** Sequence numbers, in every run: V(S), V(A) and V(R) count the I-frames sent, acknowledged and
      received, modulo 32767, so the 15-bit number 32767 is never used. */
  lemma {:induction false} SequenceNumbers(c: Config, t: Trace, n: Net, side: Side)
    requires GoodConfig(c) && Reaches(Init(c), t, n)
    ensures var x := Me(n, side);
      && x.e.vs == |x.xmit| % 32767 && x.e.va == x.acked % 32767 && x.e.vr == |x.delivered| % 32767
      && (x.open ==> forall k :: 0 <= k < |x.inbox| ==>
            && (x.inbox[k].frame.I? ==> x.inbox[k].frame.ns < 32767 && x.inbox[k].frame.nr < 32767)
            && (x.inbox[k].frame.S? ==> x.inbox[k].frame.nr < 32767))
  {
    PairInRun(c, t, n);
    var x, y := Me(n, side), Peer(n, side);
    if x.open {
      forall k | 0 <= k < |x.inbox| ensures Genuine(x.inbox[k], y.xmit) {
      }
    }
  }

  /** Even over a faulty channel `check_nr` never refuses a frame of this peer. */
  lemma {:induction false} NrNeverRefused(c: Config, t: Trace, n: Net, side: Side)
    requires GoodConfig(c) && Reaches(Init(c), t, n)
    requires Me(n, side).open && Me(n, side).inbox != [] && !Me(n, side).inbox[0].frame.U?
    ensures CheckNr(Me(n, side).e, Me(n, side).inbox[0].frame.nr)
  {
    PairInRun(c, t, n);
    var x, y := Me(n, side), Peer(n, side);
    assert Genuine(x.inbox[0], y.xmit);
    NrAccepted(x, x.inbox[0].nr);
  }

  /** ackw_q is a run of consecutive numbers ending at V(S) - 1, and its last
      (V(S) - V(A)) mod 32767 frames are exactly the unacknowledged ones. */
  ghost predicate KeepsUnacknowledged(x: Half) {
    var q, out := x.e.ackwQ, Distance(x.e.va, x.e.vs);
    && (forall i :: 0 <= i < |q| ==> q[i].I?)
    && (forall i :: 0 <= i < |q| - 1 ==> q[i + 1].ns == Next(q[i].ns))
    && (q != [] ==> Next(q[|q| - 1].ns) == x.e.vs)
    && out == |x.xmit| - x.acked <= |q| <= |x.xmit|
    && (forall i :: |q| - out <= i < |q| ==> q[i].asdu == x.xmit[|x.xmit| - |q| + i])
  }

  lemma {:induction false} OwnKeepsUnacknowledged(x: Half)
    requires Own(x)
    ensures KeepsUnacknowledged(x)
  {
    var q := x.e.ackwQ;
    DistanceExact(x.acked, |x.xmit|);
    forall i | 0 <= i < |q| ensures q[i].I? && Next(q[i].ns) == (|x.xmit| - |q| + i + 1) % MODULUS {
      NextExact(|x.xmit| - |q| + i);
    }
  }

  /** Retransmission queue, in every run. */
  lemma {:induction false} AckwQueueInRun(c: Config, t: Trace, n: Net, side: Side)
    requires GoodConfig(c) && Reaches(Init(c), t, n)
    ensures KeepsUnacknowledged(Me(n, side))
  {
    PairInRun(c, t, n);
    OwnKeepsUnacknowledged(Me(n, side));
  }

  /** After an S-frame, in every run: the retransmission queue holds exactly the unacknowledged
      frames if and only if fewer than 32767 acknowledged ones had piled up in it (I-frames
      acknowledge without pruning). */
  lemma {:induction false} AckwQueueAfterS(c: Config, t: Trace, n: Net, side: Side, kick: seq<Asdu>)
    requires GoodConfig(c) && Reaches(Init(c), t, n)
    requires Enabled(Me(n, side), Receive(kick)) && Me(n, side).inbox[0].frame.S?
    ensures var x, x' := Me(n, side), Me(Step(n, side, Receive(kick)), side);
      |x'.e.ackwQ| == |x'.xmit| - x'.acked <==> |x.e.ackwQ| < |x.xmit| - x.inbox[0].nr + MODULUS
  {
    PairInRun(c, t, n);
    var x, y := Me(n, side), Peer(n, side);
    var p := x.inbox[0];
    assert Genuine(p, y.xmit);
    PruneExact(x.e.ackwQ, x.xmit, p.nr);
    var xs := ReceivedS(x, p.nr, kick);
    PayloadsNumbered(|x.xmit|, x.e.vr, xs);
    ActParts(x, y, Receive(kick));
  }

  // ---------- reliable runs ----------

  /** No fault, and the test procedure is not restarted while an answer is outstanding. */
  predicate Calm(me: Half, ev: Event) {
    Callback(ev) && (ev.T3? ==> !me.e.testfr)
  }

  ghost predicate CalmlyReaches(n: Net, t: Trace, end: Net)
    decreases |t|
  {
    if t == [] then n == end
    else
      var (side, ev) := t[0];
      Enabled(Me(n, side), ev) && Calm(Me(n, side), ev) && CalmlyReaches(Step(n, side, ev), t[1..], end)
  }

  /** I-frames in the channel are numbered from n without gap up to m. */
  ghost predicate Contiguous(ps: seq<Packet>, n: nat, m: nat) {
    if ps == [] then n == m
    else ps[0].ns == n && Contiguous(ps[1..], if ps[0].frame.I? then n + 1 else n, m)
  }

  /** What the receiver will know acknowledged once the channel has been read. */
  ghost function FinalAck(ps: seq<Packet>, acked: nat): nat {
    if ps == [] then acked else FinalAck(ps[1..], if ps[0].frame.U? then acked else ps[0].nr)
  }

  /** How many U-frames with function g a list of frames, or a channel, holds. */
  ghost function UWire(fs: seq<Frame>, g: UFunc): nat {
    if fs == [] then 0 else (if fs[0] == U(g) then 1 else 0) + UWire(fs[1..], g)
  }

  ghost function UCount(ps: seq<Packet>, g: UFunc): nat {
    if ps == [] then 0 else (if ps[0].frame == U(g) then 1 else 0) + UCount(ps[1..], g)
  }

  ghost predicate Lossless(x: Half, y: Half) {
    && y.open
    && Contiguous(y.inbox, |y.delivered|, |x.xmit|)
    && y.peerAcked <= FinalAck(x.inbox, x.acked)
  }

  function Bit(b: bool): nat { if b then 1 else 0 }

  /** One test answer outstanding exactly while testfr is set. */
  ghost predicate Testing(x: Half, y: Half) {
    UCount(y.inbox, TestAct) + UCount(x.inbox, TestCon) == Bit(x.e.testfr)
  }

  /** Start-up: one STARTDT exchange; the slave is active before the master is. */
  ghost predicate Starting(m: Half, s: Half) {
    && m.e.role.Master? && s.e.role.Slave?
    && UCount(s.inbox, StartAct) + UCount(m.inbox, StartCon) == Bit(m.e.stopdt)
    && (s.e.stopdt ==> UCount(s.inbox, StartAct) == 1)
    && UCount(s.inbox, StartCon) == UCount(s.inbox, StopAct) == UCount(s.inbox, StopCon) == 0
    && UCount(m.inbox, StartAct) == UCount(m.inbox, StopAct) == UCount(m.inbox, StopCon) == 0
    && (m.e.stopdt ==> m.xmit == [])
  }

  ghost predicate Healthy(n: Net) {
    && Pair(n.m, n.s)
    && Lossless(n.m, n.s) && Lossless(n.s, n.m)
    && Testing(n.m, n.s) && Testing(n.s, n.m)
    && Starting(n.m, n.s)
  }

  // ---------- appending to a channel ----------

  lemma {:induction false} ContiguousConcat(ps: seq<Packet>, qs: seq<Packet>, n: nat, m: nat, l: nat)
    requires Contiguous(ps, n, m) && Contiguous(qs, m, l)
    ensures Contiguous(ps + qs, n, l)
    decreases |ps|
  {
    if ps == [] {
      assert ps + qs == qs;
    } else {
      ContiguousConcat(ps[1..], qs, if ps[0].frame.I? then n + 1 else n, m, l);
      assert (ps + qs)[1..] == ps[1..] + qs;
    }
  }

  lemma {:induction false} ContiguousStamp(fs: seq<Frame>, n: nat, before: nat, after: nat)
    ensures Contiguous(Stamp(fs, n, before, after), n, n + |Payloads(fs)|)
    decreases |fs|
  {
    if fs != [] {
      var m := if fs[0].I? then n + 1 else n;
      ContiguousStamp(fs[1..], m, before, after);
      assert Stamp(fs, n, before, after)[1..] == Stamp(fs[1..], m, before, after);
    }
  }

  lemma {:induction false} FinalAckConcat(ps: seq<Packet>, qs: seq<Packet>, acked: nat)
    ensures FinalAck(ps + qs, acked) == FinalAck(qs, FinalAck(ps, acked))
    decreases |ps|
  {
    if ps == [] {
      assert ps + qs == qs;
    } else {
      FinalAckConcat(ps[1..], qs, if ps[0].frame.U? then acked else ps[0].nr);
      assert (ps + qs)[1..] == ps[1..] + qs;
    }
  }

  lemma {:induction false} FinalAckStamp(fs: seq<Frame>, n: nat, before: nat, after: nat, acked: nat, low: nat)
    requires low <= acked && low <= before <= after
    ensures low <= FinalAck(Stamp(fs, n, before, after), acked)
    decreases |fs|
  {
    if fs != [] {
      var m := if fs[0].I? then n + 1 else n;
      var ps := Stamp(fs, n, before, after);
      assert ps[1..] == Stamp(fs[1..], m, before, after);
      FinalAckStamp(fs[1..], m, before, after, if fs[0].U? then acked else ps[0].nr, low);
    }
  }

  lemma {:induction false} FinalAckWritten(fs0: seq<Frame>, ss: seq<Frame>, n: nat, before: nat, after: nat, acked: nat, low: nat)
    requires |ss| <= 1 && (ss != [] ==> ss[0].S?)
    requires low <= acked && low <= before <= after
    ensures FinalAck(Stamp(fs0 + ss, n, before, after), acked) >= if ss != [] then after else low
  {
    if ss == [] {
      assert fs0 + ss == fs0;
      FinalAckStamp(fs0, n, before, after, acked, low);
    } else {
      assert ss == [ss[0]];
      StampSnoc(fs0, ss[0], n, before, after);
      var p := Packet(ss[0], n + |Payloads(fs0)|, after);
      FinalAckConcat(Stamp(fs0, n, before, after), [p], acked);
      assert FinalAck([p], FinalAck(Stamp(fs0, n, before, after), acked)) == p.nr;
    }
  }

  lemma {:induction false} UCountConcat(ps: seq<Packet>, qs: seq<Packet>, g: UFunc)
    ensures UCount(ps + qs, g) == UCount(ps, g) + UCount(qs, g)
    decreases |ps|
  {
    if ps == [] {
      assert ps + qs == qs;
    } else {
      UCountConcat(ps[1..], qs, g);
      assert (ps + qs)[1..] == ps[1..] + qs;
    }
  }

  lemma {:induction false} UStamp(fs: seq<Frame>, n: nat, before: nat, after: nat, g: UFunc)
    ensures UCount(Stamp(fs, n, before, after), g) == UWire(fs, g)
    decreases |fs|
  {
    if fs != [] {
      var m := if fs[0].I? then n + 1 else n;
      UStamp(fs[1..], m, before, after, g);
      assert Stamp(fs, n, before, after)[1..] == Stamp(fs[1..], m, before, after);
    }
  }

  lemma {:induction false} UWireConcat(fs: seq<Frame>, gs: seq<Frame>, g: UFunc)
    ensures UWire(fs + gs, g) == UWire(fs, g) + UWire(gs, g)
    decreases |fs|
  {
    if fs == [] {
      assert fs + gs == gs;
    } else {
      UWireConcat(fs[1..], gs, g);
      assert (fs + gs)[1..] == fs[1..] + gs;
    }
  }

  lemma {:induction false} UWireNumbered(n: nat, vr: nat, xs: seq<Asdu>, g: UFunc)
    ensures UWire(Numbered(n, vr, xs), g) == 0
    decreases |xs|
  {
    if xs != [] {
      UWireNumbered(n + 1, vr, xs[1..], g);
      assert Numbered(n, vr, xs)[1..] == Numbered(n + 1, vr, xs[1..]);
    }
  }

  lemma {:induction false} UWireShaped(fs: seq<Frame>, us: seq<Frame>, n: nat, r: nat, xs: seq<Asdu>, ss: seq<Frame>, after: nat, g: UFunc)
    requires Shaped(fs, us, n, r, xs, ss, after)
    ensures UWire(fs, g) == UWire(us, g)
  {
    var ns := Numbered(n, r % MODULUS, xs);
    UWireConcat(us, ns, g);
    UWireConcat(us + ns, ss, g);
    UWireNumbered(n, r % MODULUS, xs, g);
    assert UWire(ss, g) == 0;
  }

  /** The channel after the frames of one callback have joined it. */
  lemma {:induction false} Joined(q: seq<Packet>, fs: seq<Frame>, us: seq<Frame>, sent: nat, got: nat, acked: nat, low: nat,
               before: nat, after: nat, xs: seq<Asdu>, ss: seq<Frame>)
    requires Shaped(fs, us, sent, before, xs, ss, after)
    requires Contiguous(q, got, sent)
    requires low <= FinalAck(q, acked) && low <= before <= after
    ensures var q' := q + Stamp(fs, sent, before, after);
      && Contiguous(q', got, sent + |xs|)
      && FinalAck(q', acked) >= (if ss != [] then after else low)
      && forall g :: UCount(q', g) == UCount(q, g) + UWire(us, g)
  {
    var ps := Stamp(fs, sent, before, after);
    assert Contiguous(q + ps, got, sent + |xs|) by {
      PayloadsShaped(fs, us, sent, before, xs, ss, after);
      ContiguousStamp(fs, sent, before, after);
      ContiguousConcat(q, ps, got, sent, sent + |xs|);
    }
    assert FinalAck(q + ps, acked) >= (if ss != [] then after else low) by {
      FinalAckConcat(q, ps, acked);
      FinalAckWritten(us + Numbered(sent, before % MODULUS, xs), ss, sent, before, after, FinalAck(q, acked), low);
    }
    forall g ensures UCount(q + ps, g) == UCount(q, g) + UWire(us, g) {
      UCountConcat(q, ps, g);
      UStamp(fs, sent, before, after, g);
      UWireShaped(fs, us, sent, before, xs, ss, after, g);
    }
  }

  lemma ActParts(me: Half, peer: Half, ev: Event)
    requires Enabled(me, ev) && Callback(ev)
    ensures var (me', peer') := Act(me, peer, ev);
      var o := Run(me, ev);
      && me'.e == o.e && me'.open == o.ok
      && me'.inbox == (if ev.Receive? then me.inbox[1..] else me.inbox)
      && me'.xmit == me.xmit + Payloads(o.wire)
      && me'.delivered == me.delivered + o.up
      && me'.acked == (if ev.Receive? && TakesNr(me.e, me.inbox[0].frame) then me.inbox[0].nr else me.acked)
      && me'.peerAcked == (if Acks(o.wire) then |me.delivered + o.up| else me.peerAcked)
      && peer' == Post(me, peer, o)
  {
  }

  /** A callback leaves the direction it writes to without gap and acknowledged far enough,
      with its reply as the only new U-frame. */
  lemma {:induction false} Wrote(me: Half, peer: Half, o: Outcome, us: seq<Frame>, xs: seq<Asdu>, ss: seq<Frame>)
    requires Shaped(o.wire, us, |me.xmit|, |me.delivered|, xs, ss, |me.delivered + o.up|)
    requires Lossless(me, peer) && Lossless(peer, me) && me.peerAcked <= |me.delivered|
    ensures var q := Post(me, peer, o).inbox;
      && Payloads(o.wire) == xs
      && Contiguous(q, |peer.delivered|, |me.xmit + xs|)
      && (if Acks(o.wire) then |me.delivered + o.up| else me.peerAcked) <= FinalAck(q, peer.acked)
      && (forall g :: UCount(q, g) == UCount(peer.inbox, g) + UWire(us, g))
  {
    PayloadsShaped(o.wire, us, |me.xmit|, |me.delivered|, xs, ss, |me.delivered + o.up|);
    Joined(peer.inbox, o.wire, us, |me.xmit|, |peer.delivered|, peer.acked, me.peerAcked,
           |me.delivered|, |me.delivered + o.up|, xs, ss);
  }

  // ---------- flags ----------

  lemma {:induction false} DrainFlags(e: Endpoint)
    ensures SameFlags(e, Drain(e).e)
    decreases |e.writeQ|
  {
    if e.writeQ != [] && WindowOpen(e) {
      DrainFlags(SendHead(e));
    }
  }

  predicate SameFlags(a: Endpoint, b: Endpoint) {
    a.role == b.role && a.w == b.w && a.k == b.k && a.stopdt == b.stopdt && a.testfr == b.testfr
  }

  lemma {:induction false} SubmitAllFlags(e: Endpoint, kick: seq<Asdu>)
    ensures SameFlags(e, SubmitAll(e, kick).e)
    decreases |kick|
  {
    if kick != [] {
      DrainFlags(e.(writeQ := e.writeQ + [kick[0]]));
      SubmitAllFlags(Submit(e, kick[0]).e, kick[1..]);
    }
  }

  predicate Gets(me: Half, ev: Event, g: UFunc) {
    ev.Receive? && me.inbox != [] && me.inbox[0].frame == U(g)
  }

  lemma {:induction false} AcknowledgeFlags(e: Endpoint, nr: nat, kick: seq<Asdu>)
    ensures SameFlags(e, Acknowledge(e, nr, kick).e)
  {
    SubmitAllFlags(e.(va := nr, t1 := false), kick);
  }

  /** Receiving an I- or S-frame moves no flag. */
  lemma {:induction false} ReceiveFlags(e: Endpoint, f: Frame, kick: seq<Asdu>)
    requires !f.U?
    ensures SameFlags(e, FrameRecv(e, f, kick).e)
  {
    var e0 := e.(t3 := true);
    if f.I? {
      AcknowledgeFlags(e0, f.nr, kick);
    } else {
      AcknowledgeFlags(e0.(ackwQ := Prune(e0.ackwQ, f.nr)), f.nr, kick);
    }
  }

  lemma {:induction false} UFlags(e: Endpoint, g: UFunc)
    ensures var stopdt :=
        if (g == StartAct && e.role.Slave?) || (g == StartCon && e.role.Master?) then false
        else if (g == StopAct && e.role.Slave?) || (g == StopCon && e.role.Master?) then true
        else e.stopdt;
      SameFlags(UFrameRecv(e, g).e, e.(stopdt := stopdt, testfr := e.testfr && g != TestCon))
  {
    if g == StartAct {
      DrainFlags(e.(stopdt := false));
    }
  }

  function StopdtAfter(me: Half, ev: Event): bool {
    if (Gets(me, ev, StartAct) && me.e.role.Slave?) || (Gets(me, ev, StartCon) && me.e.role.Master?) then false
    else if (Gets(me, ev, StopAct) && me.e.role.Slave?) || (Gets(me, ev, StopCon) && me.e.role.Master?) then true
    else me.e.stopdt
  }

  function TestfrAfter(me: Half, ev: Event): bool {
    if ev.T3? then true else if Gets(me, ev, TestCon) then false else me.e.testfr
  }

  /** Only U-frames and the test timer move the start/stop and test flags. */
  lemma {:induction false} Flags(me: Half, ev: Event)
    requires Enabled(me, ev) && Callback(ev)
    ensures SameFlags(Run(me, ev).e, me.e.(stopdt := StopdtAfter(me, ev), testfr := TestfrAfter(me, ev)))
  {
    match ev {
      case Send(a) => DrainFlags(me.e.(writeQ := me.e.writeQ + [a]));
      case Receive(kick) =>
        if me.inbox[0].frame.U? {
          UFlags(me.e.(t3 := true), me.inbox[0].frame.func);
        } else {
          ReceiveFlags(me.e, me.inbox[0].frame, kick);
        }
      case _ =>
    }
  }

  // ---------- one step of a reliable run ----------

  /** The head of the channel is one the session will not refuse. */
  ghost predicate Welcome(me: Half) {
    me.inbox != [] ==>
      match me.inbox[0].frame
      case I(_, _, _) => !(me.e.role.Slave? && me.e.stopdt)
      case S(_) => true
      case U(g) => UFrameRecv(me.e.(t3 := true), g).ok
  }

  /** Reading the head of a gapless channel: accepted, and the rest is gapless. */
  lemma {:induction false} ReadHead(me: Half, peer: Half, kick: seq<Asdu>)
    requires Pair(me, peer) && Enabled(me, Receive(kick)) && Welcome(me)
    requires Contiguous(me.inbox, |me.delivered|, |peer.xmit|)
    ensures var o := Run(me, Receive(kick));
      var f := me.inbox[0].frame;
      && o.ok
      && o.up == (if f.I? then [f.asdu] else [])
      && (!f.U? ==> TakesNr(me.e, f))
  {
    var p := me.inbox[0];
    assert Genuine(p, peer.xmit);
    match p.frame {
      case I(_, _, _) =>
        assert p.ns == |me.delivered|;
        var _, _ := ReceivedI(me, p, kick);
      case S(_) =>
        var _ := ReceivedS(me, p.nr, kick);
      case U(g) =>
        if g == StartAct && me.e.role.Slave? {
          NoUpDrain(me.e.(t3 := true, stopdt := false));
        }
    }
  }

  lemma {:induction false} ReadLossless(me: Half, peer: Half, ev: Event)
    requires Pair(me, peer) && Enabled(me, ev) && Callback(ev)
    requires Lossless(me, peer) && Lossless(peer, me) && (ev.Receive? ==> Welcome(me))
    ensures var me' := Act(me, peer, ev).0;
      && me'.open
      && Contiguous(me'.inbox, |me'.delivered|, |peer.xmit|)
      && peer.peerAcked <= FinalAck(me'.inbox, me'.acked)
      && forall g :: UCount(me'.inbox, g) == UCount(me.inbox, g) - (if Gets(me, ev, g) then 1 else 0)
  {
    ActParts(me, peer, ev);
    if ev.Receive? {
      ReadHead(me, peer, ev.kick);
    } else {
      if ev.Send? {
        NoUp(me.e, ev.a);
      }
      assert Run(me, ev).up == [] && me.delivered + [] == me.delivered;
    }
  }

  /** In a healthy net no frame is unwelcome. */
  lemma {:induction false} HealthyWelcome(n: Net, side: Side)
    requires Healthy(n)
    ensures Welcome(Me(n, side))
  {
    var me, peer := Me(n, side), Peer(n, side);
    if me.inbox != [] {
      assert Genuine(me.inbox[0], peer.xmit);
      if me.inbox[0].frame.U? {
        assert UCount(me.inbox, me.inbox[0].frame.func) >= 1;
        NoUpDrain(me.e.(t3 := true, stopdt := false));
      }
    }
  }

  /** All that start-up and test supervision need to know about a step. */
  ghost predicate FlagStep(me: Half, peer: Half, me': Half, peer': Half, ev: Event)
    requires Enabled(me, ev)
  {
    && SameFlags(me'.e, me.e.(stopdt := StopdtAfter(me, ev), testfr := TestfrAfter(me, ev)))
    && peer'.e == peer.e && peer'.xmit == peer.xmit
    && (forall g :: UCount(me'.inbox, g) == UCount(me.inbox, g) - (if Gets(me, ev, g) then 1 else 0))
    && (forall g :: UCount(peer'.inbox, g) == UCount(peer.inbox, g) + UWire(Reply(me, ev), g))
  }

  lemma {:induction false} StepTesting(me: Half, peer: Half, me': Half, peer': Half, ev: Event)
    requires Enabled(me, ev) && Calm(me, ev)
    requires Testing(me, peer) && Testing(peer, me)
    requires FlagStep(me, peer, me', peer', ev)
    ensures Testing(me', peer') && Testing(peer', me')
  {
    ReplyCount(me, ev);
    assert Gets(me, ev, TestCon) ==> UCount(me.inbox, TestCon) >= 1;
  }

  lemma ReplyCount(me: Half, ev: Event)
    requires Enabled(me, ev)
    ensures UWire(Reply(me, ev), TestAct) == (if ev.T3? then 1 else 0)
    ensures UWire(Reply(me, ev), TestCon) == (if Gets(me, ev, TestAct) then 1 else 0)
    ensures UWire(Reply(me, ev), StartAct) == 0
    ensures UWire(Reply(me, ev), StartCon) == (if Gets(me, ev, StartAct) && me.e.role.Slave? then 1 else 0)
    ensures UWire(Reply(me, ev), StopAct) == 0
    ensures UWire(Reply(me, ev), StopCon) == (if Gets(me, ev, StopAct) && me.e.role.Slave? then 1 else 0)
  {
  }

  lemma {:induction false} MasterStarting(m: Half, s: Half, m': Half, s': Half, ev: Event)
    requires Enabled(m, ev) && Starting(m, s) && FlagStep(m, s, m', s', ev)
    requires m.e.stopdt ==> m'.xmit == []
    ensures Starting(m', s')
  {
    ReplyCount(m, ev);
    forall g | Gets(m, ev, g) ensures UCount(m.inbox, g) >= 1 {
    }
  }

  lemma {:induction false} SlaveStarting(m: Half, s: Half, m': Half, s': Half, ev: Event)
    requires Enabled(s, ev) && Starting(m, s) && FlagStep(s, m, s', m', ev)
    ensures Starting(m', s')
  {
    ReplyCount(s, ev);
    forall g | Gets(s, ev, g) ensures UCount(s.inbox, g) >= 1 {
    }
  }

  /** A master that has not been confirmed sends nothing. */
  lemma {:induction false} StoppedMasterSilent(m: Half, ev: Event)
    requires Enabled(m, ev) && Callback(ev) && m.e.role.Master? && m.e.stopdt
    ensures Payloads(Run(m, ev).wire) == []
  {
    match ev {
      case Receive(kick) =>
        assert kick == [];
        if !m.inbox[0].frame.U? {
          SilentReceive(m.e, m.inbox[0].frame);
        }
      case _ =>
    }
  }

  lemma {:induction false} SilentReceive(e: Endpoint, f: Frame)
    requires !f.U?
    ensures Payloads(FrameRecv(e, f, []).wire) == []
  {
    var e0 := e.(t3 := true);
    if f.I? && CheckNr(e0, f.nr) {
      assert Acknowledge(e0, f.nr, []).wire == [];
      var ss := Accept(Acknowledge(e0, f.nr, []).e, f).wire;
      assert [] + ss == ss;
    }
  }

  /** The invariant of every run, and channels without gap in either direction. */
  ghost predicate Sound(me: Half, peer: Half) {
    Pair(me, peer) && Lossless(me, peer) && Lossless(peer, me)
  }

  lemma {:induction false} StepSound(me: Half, peer: Half, ev: Event)
    requires Sound(me, peer) && Enabled(me, ev) && Callback(ev) && (ev.Receive? ==> Welcome(me))
    ensures Sound(Act(me, peer, ev).0, Act(me, peer, ev).1)
    ensures FlagStep(me, peer, Act(me, peer, ev).0, Act(me, peer, ev).1, ev)
  {
    var xs, ss := StepCallback(me, peer, ev);
    Wrote(me, peer, Run(me, ev), Reply(me, ev), xs, ss);
    ActParts(me, peer, ev);
    ReadLossless(me, peer, ev);
    Flags(me, ev);
  }

  lemma {:induction false} StepStarting(n: Net, side: Side, ev: Event)
    requires Starting(n.m, n.s) && Enabled(Me(n, side), ev) && Callback(ev)
    requires FlagStep(Me(n, side), Peer(n, side), Me(Step(n, side, ev), side), Peer(Step(n, side, ev), side), ev)
    ensures Starting(Step(n, side, ev).m, Step(n, side, ev).s)
  {
    var me, peer, n' := Me(n, side), Peer(n, side), Step(n, side, ev);
    if side.MasterSide? {
      if me.e.stopdt {
        StoppedMasterSilent(me, ev);
        ActParts(me, peer, ev);
      }
      MasterStarting(me, peer, n'.m, n'.s, ev);
    } else {
      SlaveStarting(peer, me, n'.m, n'.s, ev);
    }
  }

  /** Every step of a reliable run leaves the net healthy. */
  lemma {:induction false} StepHealthy(n: Net, side: Side, ev: Event)
    requires Healthy(n) && Enabled(Me(n, side), ev) && Calm(Me(n, side), ev)
    ensures Healthy(Step(n, side, ev))
  {
    var me, peer := Me(n, side), Peer(n, side);
    HealthyWelcome(n, side);
    StepSound(me, peer, ev);
    StepTesting(me, peer, Act(me, peer, ev).0, Act(me, peer, ev).1, ev);
    StepStarting(n, side, ev);
  }

  ghost predicate Configured(n: Net, c: Config) {
    n.m.e.w == c.wm && n.m.e.k == c.km && n.s.e.w == c.ws && n.s.e.k == c.ks
  }

  lemma {:induction false} HealthyAlong(n: Net, t: Trace, end: Net, c: Config)
    requires Healthy(n) && Configured(n, c) && CalmlyReaches(n, t, end)
    ensures Healthy(end) && Configured(end, c)
    decreases |t|
  {
    if t != [] {
      var (side, ev) := t[0];
      StepHealthy(n, side, ev);
      Flags(Me(n, side), ev);
      ActParts(Me(n, side), Peer(n, side), ev);
      HealthyAlong(Step(n, side, ev), t[1..], end, c);
    }
  }

  lemma {:induction false} HealthyInRun(c: Config, t: Trace, n: Net)
    requires GoodConfig(c) && CalmlyReaches(Init(c), t, n)
    ensures Healthy(n) && Configured(n, c)
  {
    InitHealthy(c);
    HealthyAlong(Init(c), t, n, c);
  }

  lemma {:induction false} InitHealthy(c: Config)
    requires GoodConfig(c)
    ensures Healthy(Init(c)) && Configured(Init(c), c)
  {
  }

  /** Over reliable channels, with any interleaving of sends, receipts, wakeups and timer
      expiries, no frame is ever refused: neither side closes the connection. */
  lemma {:induction false} NeverRefused(c: Config, t: Trace, n: Net)
    requires GoodConfig(c) && CalmlyReaches(Init(c), t, n)
    ensures n.m.open && n.s.open
  {
    HealthyInRun(c, t, n);
  }

  /** What a reliable channel holds is all that separates transmitted from delivered. */
  lemma {:induction false} NothingLost(c: Config, t: Trace, n: Net, side: Side)
    requires GoodConfig(c) && CalmlyReaches(Init(c), t, n)
    requires Me(n, side).inbox == []
    ensures Me(n, side).delivered == Peer(n, side).xmit
  {
    HealthyInRun(c, t, n);
  }

  /** Quiescence means fully acknowledged: with both channels empty and no t2 pending,
      V(A) = V(S) on both sides. */
  lemma {:induction false} QuiescentIsAcknowledged(c: Config, t: Trace, n: Net)
    requires GoodConfig(c) && CalmlyReaches(Init(c), t, n)
    requires n.m.inbox == [] && n.s.inbox == [] && !n.m.e.t2 && !n.s.e.t2
    ensures n.m.e.va == n.m.e.vs && n.s.e.va == n.s.e.vs
    ensures n.s.delivered == n.m.xmit && n.m.delivered == n.s.xmit
  {
    HealthyInRun(c, t, n);
    NothingLost(c, t, n, MasterSide);
    NothingLost(c, t, n, SlaveSide);
    Quiescent(n, MasterSide);
    Quiescent(n, SlaveSide);
  }

  lemma {:induction false} Quiescent(n: Net, side: Side)
    requires Healthy(n) && n.m.inbox == [] && n.s.inbox == [] && !Peer(n, side).e.t2
    ensures Me(n, side).e.va == Me(n, side).e.vs
  {
  }

  /** No window deadlock: with empty channels fewer than w frames are unacknowledged, so
      w <= k leaves the send window open, whether or not t2 has expired. */
  lemma {:induction false} NoWindowDeadlock(c: Config, t: Trace, n: Net, side: Side)
    requires GoodConfig(c) && c.ws <= c.km && c.wm <= c.ks && CalmlyReaches(Init(c), t, n)
    requires n.m.inbox == [] && n.s.inbox == []
    ensures Distance(Me(n, side).e.va, Me(n, side).e.vs) < Peer(n, side).e.w
    ensures CanQueue(Me(n, side).e) > 0 && WindowOpen(Me(n, side).e)
  {
    HealthyInRun(c, t, n);
    NothingLost(c, t, n, MasterSide);
    NothingLost(c, t, n, SlaveSide);
    var x := Me(n, side);
    DistanceExact(x.acked, |x.xmit|);
    WindowExact(x.e, |x.xmit|, x.acked);
  }

  // ---------- overlapping tests ----------

  /** Test answers this side still has coming. */
  ghost function Outstanding(me: Half, peer: Half): nat {
    UCount(peer.inbox, TestAct) + UCount(me.inbox, TestCon)
  }

  ghost predicate Doomed(n: Net, side: Side) {
    var me, peer := Me(n, side), Peer(n, side);
    !me.open || Outstanding(me, peer) > Bit(me.e.testfr)
  }

  lemma {:induction false} CountsStep(me: Half, peer: Half, ev: Event)
    requires Pair(me, peer) && Enabled(me, ev) && Callback(ev)
    ensures var (me', peer') := Act(me, peer, ev);
      && UCount(me'.inbox, TestAct) == UCount(me.inbox, TestAct) - (if Gets(me, ev, TestAct) then 1 else 0)
      && UCount(me'.inbox, TestCon) == UCount(me.inbox, TestCon) - (if Gets(me, ev, TestCon) then 1 else 0)
      && UCount(peer'.inbox, TestAct) == UCount(peer.inbox, TestAct) + (if ev.T3? then 1 else 0)
      && UCount(peer'.inbox, TestCon) == UCount(peer.inbox, TestCon) + (if Gets(me, ev, TestAct) then 1 else 0)
  {
    var xs, ss := StepCallback(me, peer, ev);
    ActParts(me, peer, ev);
    ReplyCount(me, ev);
    var wire, after := Run(me, ev).wire, |me.delivered + Run(me, ev).up|;
    forall g ensures UCount(Act(me, peer, ev).1.inbox, g) == UCount(peer.inbox, g) + UWire(Reply(me, ev), g) {
      UCountConcat(peer.inbox, Stamp(wire, |me.xmit|, |me.delivered|, after), g);
      UStamp(wire, |me.xmit|, |me.delivered|, after, g);
      UWireShaped(wire, Reply(me, ev), |me.xmit|, |me.delivered|, xs, ss, after, g);
    }
  }

  lemma {:induction false} StepDoomed(n: Net, side: Side, at: Side, ev: Event)
    requires Pair(n.m, n.s) && Doomed(n, side)
    requires Enabled(Me(n, at), ev) && Callback(ev)
    ensures Doomed(Step(n, at, ev), side)
  {
    var me, peer := Me(n, at), Peer(n, at);
    CountsStep(me, peer, ev);
    ActParts(me, peer, ev);
    Flags(me, ev);
    if Gets(me, ev, TestCon) {
      assert Run(me, ev).ok == me.e.testfr;
    }
  }

  /** Nothing lost, repeated or cut. */
  predicate Undisturbed(t: Trace) { t != [] ==> Callback(t[0].1) && Undisturbed(t[1..]) }

  /** A doomed session closes: with the channels read to the end it has refused a frame,
      although nothing was lost, repeated or out of order. */
  lemma {:induction false} OverlapCloses(n: Net, t: Trace, end: Net, side: Side)
    requires Pair(n.m, n.s) && Doomed(n, side)
    requires Reaches(n, t, end) && Undisturbed(t)
    requires end.m.inbox == [] && end.s.inbox == []
    ensures !Me(end, side).open
    decreases |t|
  {
    if t != [] {
      StepKeepsPair(Me(n, t[0].0), Peer(n, t[0].0), t[0].1);
      StepDoomed(n, side, t[0].0, t[0].1);
      OverlapCloses(Step(n, t[0].0, t[0].1), t[1..], end, side);
    }
  }

  /** Restarting the test with an answer outstanding dooms a healthy session ... */
  lemma {:induction false} OverlapDooms(n: Net, side: Side)
    requires Healthy(n) && Enabled(Me(n, side), T3) && Me(n, side).e.testfr
    ensures Doomed(Step(n, side, T3), side)
  {
    CountsStep(Me(n, side), Peer(n, side), T3);
  }

  /** Exactly when undisturbed sessions survive: with the channels read to the end both are open
      if and only if t3 never expired on either side with a test answer outstanding. */
  lemma {:induction false} OpenIffCalm(n: Net, t: Trace, end: Net)
    requires Healthy(n) && Reaches(n, t, end) && Undisturbed(t)
    requires end.m.inbox == [] && end.s.inbox == []
    ensures end.m.open && end.s.open <==> CalmlyReaches(n, t, end)
    decreases |t|
  {
    if t != [] {
      var (side, ev) := t[0];
      if Calm(Me(n, side), ev) {
        StepHealthy(n, side, ev);
        OpenIffCalm(Step(n, side, ev), t[1..], end);
      } else {
        StepKeepsPair(Me(n, side), Peer(n, side), ev);
        OverlapDooms(n, side);
        OverlapCloses(Step(n, side, ev), t[1..], end, side);
      }
    }
  }

  /** The same from start-up. */
  lemma {:induction false} OpenIffCalmInRun(c: Config, t: Trace, n: Net)
    requires GoodConfig(c) && Reaches(Init(c), t, n) && Undisturbed(t)
    requires n.m.inbox == [] && n.s.inbox == []
    ensures n.m.open && n.s.open <==> CalmlyReaches(Init(c), t, n)
  {
    InitHealthy(c);
    OpenIffCalm(Init(c), t, n);
  }
}
