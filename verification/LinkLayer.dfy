/** One endpoint of the IEC 60870-5-104 link layer, with every callback of the session
    given as a function on `Endpoint`.  Class `IecSock.Session` is the record that the
    callbacks update in place, proved to do what these functions say.
 */
module LinkLayer {
  import opened Octets

  // The modulus the code counts with.  (The standard's 15-bit numbers count modulo 32768.)
  const MODULUS: nat := 32767

  datatype Role = Slave | Master

  datatype UFunc = StartAct | StartCon | StopAct | StopCon | TestAct | TestCon

  datatype Frame =
    | I(ns: nat, nr: nat, asdu: Asdu)
    | S(nr: nat)
    | U(func: UFunc)

  /** What a session knows; `t1`, `t2`, `t3` say whether the timer is pending. */
  datatype Endpoint = Endpoint(
    role: Role, stopdt: bool, testfr: bool,
    w: nat, k: nat,
    vs: nat, va: nat, vr: nat, vaPeer: nat,
    t1: bool, t2: bool, t3: bool,
    writeQ: seq<Asdu>, ackwQ: seq<Frame>)

  /** Result of one callback: new state, frames written, ASDUs handed to the user,
      and whether the frame was accepted (a rejected frame closes the session). */
  datatype Outcome = Outcome(e: Endpoint, wire: seq<Frame>, up: seq<Asdu>, ok: bool)

  /** The ASDUs in the I-frames of a list of frames. */
  function Payloads(fs: seq<Frame>): seq<Asdu> {
    if fs == [] then [] else (if fs[0].I? then [fs[0].asdu] else []) + Payloads(fs[1..])
  }

  lemma {:induction false} PayloadsConcat(fs: seq<Frame>, gs: seq<Frame>)
    ensures Payloads(fs + gs) == Payloads(fs) + Payloads(gs)
    decreases |fs|
  {
    if fs == [] {
      assert fs + gs == gs;
    } else {
      PayloadsConcat(fs[1..], gs);
      assert (fs + gs)[1..] == fs[1..] + gs;
    }
  }

  // ---------- sequence numbers ----------

  function Next(v: nat): nat { (v + 1) % MODULUS }

  /** Forward distance between two sequence numbers.  Fields are 15 bits wide, so the
      dividend is never negative and the truncating C operator agrees with this one. */
  function Distance(from: nat, to: nat): nat { (to - from + MODULUS) % MODULUS }

  predicate CheckNr(e: Endpoint, nr: nat) { Distance(e.va, nr) <= Distance(e.va, e.vs) }

  predicate CheckNs(e: Endpoint, ns: nat) { ns == e.vr }

  predicate WindowOpen(e: Endpoint) { e.vs != (e.va + e.k) % MODULUS }

  function CanQueue(e: Endpoint): int { e.k - Distance(e.va, e.vs) }

  // ---------- transmission ----------

  function SendHead(e: Endpoint): Endpoint
    requires e.writeQ != []
  {
    e.(writeQ := e.writeQ[1..], vs := Next(e.vs), t1 := true,
       ackwQ := e.ackwQ + [I(e.vs, e.vr, e.writeQ[0])])
  }

  /** The loop of the write queue: send while the queue and the window allow. */
  function Drain(e: Endpoint): Outcome
    decreases |e.writeQ|
  {
    if e.writeQ == [] || !WindowOpen(e) then Outcome(e, [], [], true)
    else
      var o := Drain(SendHead(e));
      o.(wire := [I(e.vs, e.vr, e.writeQ[0])] + o.wire)
  }

  function RunWriteQueue(e: Endpoint): Outcome {
    if e.role.Slave? && e.stopdt then Outcome(e, [], [], true) else Drain(e)
  }

  /** The user queues one ASDU. */
  function Submit(e: Endpoint, a: Asdu): Outcome {
    RunWriteQueue(e.(writeQ := e.writeQ + [a]))
  }

  /** The transmit_wakeup hook queues a list of ASDUs, one after another. */
  function SubmitAll(e: Endpoint, kick: seq<Asdu>): Outcome
    decreases |kick|
  {
    if kick == [] then Outcome(e, [], [], true)
    else
      var o := Submit(e, kick[0]);
      var p := SubmitAll(o.e, kick[1..]);
      p.(wire := o.wire + p.wire)
  }

  // ---------- acknowledgement ----------

  /** Drop acknowledged frames from the head until the one numbered `nr`. */
  function Prune(q: seq<Frame>, nr: nat): seq<Frame> {
    if q == [] || (q[0].I? && q[0].ns == nr) then q else Prune(q[1..], nr)
  }

  /** Take N(R): advance V(A); when nothing is outstanding, stop t1 and wake the user. */
  function Acknowledge(e: Endpoint, nr: nat, kick: seq<Asdu>): Outcome {
    if e.vs == nr then SubmitAll(e.(va := nr, t1 := false), kick)
    else Outcome(e.(va := nr), [], [], true)
  }

  function Accept(e: Endpoint, f: Frame): Outcome
    requires f.I?
  {
    var e1 := e.(t2 := true);
    if !CheckNs(e1, f.ns) then Outcome(e1, [], [], false)
    else
      var e2 := e1.(vr := Next(e1.vr));
      if Distance(e2.vaPeer, e2.vr) == e2.w
      then Outcome(e2.(vaPeer := e2.vr), [S(e2.vr)], [f.asdu], true)
      else Outcome(e2, [], [f.asdu], true)
  }

  // ---------- receipt ----------

  function IFrameRecv(e: Endpoint, f: Frame, kick: seq<Asdu>): Outcome
    requires f.I?
  {
    if !CheckNr(e, f.nr) then Outcome(e, [], [], false)
    else
      var o := Acknowledge(e, f.nr, kick);   // ackw_q is not pruned here
      var p := Accept(o.e, f);
      p.(wire := o.wire + p.wire)
  }

  function SFrameRecv(e: Endpoint, f: Frame, kick: seq<Asdu>): Outcome
    requires f.S?
  {
    if !CheckNr(e, f.nr) then Outcome(e, [], [], false)
    else Acknowledge(e.(ackwQ := Prune(e.ackwQ, f.nr)), f.nr, kick)
  }

  function UFrameRecv(e: Endpoint, func: UFunc): Outcome {
    match func
    case StartAct =>
      if !e.role.Slave? then Outcome(e, [], [], false)
      else
        var o := RunWriteQueue(e.(stopdt := false));
        o.(wire := [U(StartCon)] + o.wire)
    case StartCon =>
      if !e.role.Master? then Outcome(e, [], [], false)
      else Outcome(e.(t1 := false, stopdt := false), [], [], true)
    case StopAct =>
      if !e.role.Slave? then Outcome(e, [], [], false)
      else Outcome(e.(stopdt := true), [U(StopCon)], [], true)
    case StopCon =>
      if !e.role.Master? then Outcome(e, [], [], false)
      else Outcome(e.(stopdt := true), [], [], true)
    case TestAct =>
      Outcome(if e.role.Slave? && !e.testfr then e.(t3 := false) else e, [U(TestCon)], [], true)
    case TestCon =>
      if !e.testfr then Outcome(e, [], [], false)
      else Outcome(e.(t1 := false, testfr := false), [], [], true)
  }

  function FrameRecv(e: Endpoint, f: Frame, kick: seq<Asdu>): Outcome {
    var e0 := e.(t3 := true);
    match f
    case I(_, _, _) =>
      if e0.role.Slave? && e0.stopdt then Outcome(e0, [], [], true) else IFrameRecv(e0, f, kick)
    case S(_) => SFrameRecv(e0, f, kick)
    case U(func) => UFrameRecv(e0, func)
  }

  function T2TimerRun(e: Endpoint): Outcome {
    Outcome(e.(t2 := false, vaPeer := e.vr), [S(e.vr)], [], true)
  }

  function T3TimerRun(e: Endpoint): Outcome {
    Outcome(e.(t3 := false, t1 := true, testfr := true), [U(TestAct)], [], true)
  }

  // Transmission hands nothing to the user and is never refused.

  lemma {:induction false} NoUpDrain(e: Endpoint)
    ensures Drain(e).up == [] && Drain(e).ok
    decreases |e.writeQ|
  {
    if e.writeQ != [] && WindowOpen(e) {
      NoUpDrain(SendHead(e));
    }
  }

  lemma {:induction false} NoUp(e: Endpoint, a: Asdu)
    ensures Submit(e, a).up == [] && Submit(e, a).ok
  {
    NoUpDrain(e.(writeQ := e.writeQ + [a]));
  }

  lemma {:induction false} NoUpAll(e: Endpoint, kick: seq<Asdu>)
    ensures SubmitAll(e, kick).up == [] && SubmitAll(e, kick).ok
    decreases |kick|
  {
    if kick != [] {
      NoUp(e, kick[0]);
      NoUpAll(Submit(e, kick[0]).e, kick[1..]);
    }
  }
}
