/** The session record of the link layer: callbacks update sequence numbers, timers and
    two queues in place.
 */
module IecSock {
  import opened Octets
  import opened LinkLayer

  /** An outcome with frames written before it. */
  ghost function After(wire: seq<Frame>, o: Outcome): Outcome { o.(wire := wire + o.wire) }

  lemma AfterNone(o: Outcome)
    ensures After([], o) == o
  {
    assert [] + o.wire == o.wire;
  }

  lemma AfterMore(a: seq<Frame>, b: seq<Frame>, o: Outcome)
    ensures After(a + b, o) == After(a, After(b, o))
  {
    assert (a + b) + o.wire == a + (b + o.wire);
  }

  class Session {
    const role: Role
    const w: nat
    const k: nat
    var stopdt: bool
    var testfr: bool
    var vs: nat
    var va: nat
    var vr: nat
    var vaPeer: nat
    var t1: bool
    var t2: bool
    var t3: bool
    var writeQ: seq<Asdu>
    var ackwQ: seq<Frame>
    var wire: seq<Frame>   // everything written to the peer
    var up: seq<Asdu>      // everything passed to data_indication

    constructor (role: Role, w: nat, k: nat)
      ensures View() == Endpoint(role, true, false, w, k, 0, 0, 0, 0, role.Master?, false, false, [], [])
      ensures wire == (if role.Master? then [U(StartAct)] else []) && up == []
    {
      this.role, this.w, this.k := role, w, k;
      stopdt, testfr := true, false;
      vs, va, vr, vaPeer := 0, 0, 0, 0;
      t1, t2, t3 := role.Master?, false, false;
      writeQ, ackwQ := [], [];
      wire, up := if role.Master? then [U(StartAct)] else [], [];
    }

    ghost function View(): Endpoint
      reads this
    {
      Endpoint(role, stopdt, testfr, w, k, vs, va, vr, vaPeer, t1, t2, t3, writeQ, ackwQ)
    }

    /** The session is where `o` says, and has written and delivered what `o` says. */
    twostate predicate Did(o: Outcome)
      reads this
    {
      View() == o.e && wire == old(wire) + o.wire && up == old(up) + o.up
    }

    /** One turn of the write loop: number the frame, arm t1, write, remember. */
    method SendOne()
      requires writeQ != []
      modifies this
      ensures View() == SendHead(old(View())) && up == old(up)
      ensures wire == old(wire) + [I(old(vs), old(vr), old(writeQ)[0])]
    {
      var b := I(vs, vr, writeQ[0]);
      writeQ := writeQ[1..];
      t1 := true;
      wire := wire + [b];
      ackwQ := ackwQ + [b];
      vs := (vs + 1) % MODULUS;
    }

    method RunWriteQueue()
      modifies this
      ensures Did(LinkLayer.RunWriteQueue(old(View())))
    {
      if role.Slave? && stopdt {
        return;
      }
      NoUpDrain(View());
      ghost var goal := Drain(View());
      ghost var sent: seq<Frame> := [];
      AfterNone(goal);
      while writeQ != [] && vs != (va + k) % MODULUS
        invariant wire == old(wire) + sent && up == old(up)
        invariant After(sent, Drain(View())) == goal
        decreases |writeQ|
      {
        ghost var b := I(vs, vr, writeQ[0]);
        AfterMore(sent, [b], Drain(SendHead(View())));
        SendOne();
        sent := sent + [b];
      }
    }

    method Submit(a: Asdu)
      modifies this
      ensures Did(LinkLayer.Submit(old(View()), a))
    {
      writeQ := writeQ + [a];
      RunWriteQueue();
    }

    method TransmitWakeup(kick: seq<Asdu>)
      modifies this
      ensures Did(SubmitAll(old(View()), kick))
    {
      NoUpAll(View(), kick);
      ghost var goal := SubmitAll(View(), kick);
      ghost var sent: seq<Frame> := [];
      var rest := kick;
      AfterNone(goal);
      while rest != []
        invariant wire == old(wire) + sent && up == old(up)
        invariant After(sent, SubmitAll(View(), rest)) == goal
        decreases |rest|
      {
        ghost var o := LinkLayer.Submit(View(), rest[0]);
        NoUp(View(), rest[0]);
        AfterMore(sent, o.wire, SubmitAll(o.e, rest[1..]));
        Submit(rest[0]);
        sent := sent + o.wire;
        rest := rest[1..];
      }
    }

    method RunAckwQueue(nr: nat)
      modifies `ackwQ
      ensures ackwQ == Prune(old(ackwQ), nr)
    {
      while ackwQ != []
        invariant Prune(ackwQ, nr) == Prune(old(ackwQ), nr)
        decreases |ackwQ|
      {
        var b := ackwQ[0];
        if b.I? && b.ns == nr {
          break;
        }
        ackwQ := ackwQ[1..];
      }
    }

    /** Common tail of I- and S-frame receipt: take N(R), perhaps wake the user. */
    method TakeNr(nr: nat, kick: seq<Asdu>)
      modifies this
      ensures Did(Acknowledge(old(View()), nr, kick))
    {
      va := nr;
      if va == vs {
        t1 := false;
        TransmitWakeup(kick);
      }
    }

    /** Second half of I-frame receipt: restart t2, check N(S), deliver. */
    method TakeNs(f: Frame) returns (ok: bool)
      requires f.I?
      modifies this
      ensures Did(Accept(old(View()), f))
      ensures ok == Accept(old(View()), f).ok
    {
      t2 := true;
      if f.ns != vr {
        return false;
      }
      vr := (vr + 1) % MODULUS;
      if Distance(vaPeer, vr) == w {
        wire := wire + [S(vr)];
        vaPeer := vr;
      }
      up := up + [f.asdu];
      return true;
    }

    method IFrameRecv(f: Frame, kick: seq<Asdu>) returns (ok: bool)
      requires f.I?
      modifies this
      ensures Did(LinkLayer.IFrameRecv(old(View()), f, kick))
      ensures ok == LinkLayer.IFrameRecv(old(View()), f, kick).ok
    {
      if Distance(va, f.nr) > Distance(va, vs) {
        return false;
      }
      NoUpAll(View().(va := f.nr, t1 := false), kick);
      TakeNr(f.nr, kick);
      ok := TakeNs(f);
    }

    method SFrameRecv(f: Frame, kick: seq<Asdu>) returns (ok: bool)
      requires f.S?
      modifies this
      ensures Did(LinkLayer.SFrameRecv(old(View()), f, kick))
      ensures ok == LinkLayer.SFrameRecv(old(View()), f, kick).ok
    {
      if Distance(va, f.nr) > Distance(va, vs) {
        return false;
      }
      RunAckwQueue(f.nr);
      NoUpAll(View().(va := f.nr, t1 := false), kick);
      TakeNr(f.nr, kick);
      return true;
    }

    method Activate()
      requires role.Slave?
      modifies this
      ensures Did(LinkLayer.UFrameRecv(old(View()), StartAct))
    {
      stopdt := false;
      wire := wire + [U(StartCon)];
      NoUpDrain(View());
      RunWriteQueue();
    }

    method UFrameRecv(func: UFunc) returns (ok: bool)
      modifies this
      ensures Did(LinkLayer.UFrameRecv(old(View()), func))
      ensures ok == LinkLayer.UFrameRecv(old(View()), func).ok
    {
      match func {
        case StartAct =>
          if !role.Slave? { return false; }
          NoUpDrain(View().(stopdt := false));
          Activate();
        case StartCon =>
          if !role.Master? { return false; }
          t1 := false;
          stopdt := false;
        case StopAct =>
          if !role.Slave? { return false; }
          stopdt := true;
          wire := wire + [U(StopCon)];
        case StopCon =>
          if !role.Master? { return false; }
          stopdt := true;
        case TestAct =>
          wire := wire + [U(TestCon)];
          if role.Slave? && !testfr {
            t3 := false;
          }
        case TestCon =>
          if !testfr { return false; }
          t1 := false;
          testfr := false;
      }
      return true;
    }

    method FrameRecv(f: Frame, kick: seq<Asdu>) returns (ok: bool)
      modifies this
      ensures Did(LinkLayer.FrameRecv(old(View()), f, kick))
      ensures ok == LinkLayer.FrameRecv(old(View()), f, kick).ok
    {
      t3 := true;
      match f {
        case I(_, _, _) =>
          if role.Slave? && stopdt {
            return true;
          }
          ok := IFrameRecv(f, kick);
        case S(_) =>
          ok := SFrameRecv(f, kick);
        case U(func) =>
          ok := UFrameRecv(func);
      }
    }

    method T2TimerRun()
      modifies this
      ensures Did(LinkLayer.T2TimerRun(old(View())))
    {
      t2 := false;
      wire := wire + [S(vr)];
      vaPeer := vr;
    }

    method T3TimerRun()
      modifies this
      ensures Did(LinkLayer.T3TimerRun(old(View())))
    {
      t3 := false;
      t1 := true;
      testfr := true;
      wire := wire + [U(TestAct)];
    }

    method CanQueue() returns (n: int)
      ensures n == LinkLayer.CanQueue(View())
    {
      n := k - Distance(va, vs);
    }
  }
}
