/** Modular sequence numbers against unbounded counters: what `CheckNr`, the window test
    and the write loop decide when V(S), V(A) are residues of `sent` and `acked`.
 */
module LinkWindow {
  import opened Octets
  import opened LinkLayer

  lemma {:induction false} DistanceExact(a: nat, s: nat)
    requires a <= s < a + MODULUS
    ensures Distance(a % MODULUS, s % MODULUS) == s - a
  {
    var d := s - a;
    assert s == a + d;
  }

  lemma SameResidue(a: nat, b: nat)
    requires a % MODULUS == b % MODULUS
    requires a < b + MODULUS && b < a + MODULUS
    ensures a == b
  {
  }

  lemma NextExact(n: nat)
    ensures Next(n % MODULUS) == (n + 1) % MODULUS
  {
  }

  lemma DistanceReaches(a: nat, nr: nat)
    requires nr < MODULUS
    ensures (a + Distance(a % MODULUS, nr)) % MODULUS == nr
  {
  }

  /** V(S) and V(A) stand for the counters `sent` and `acked`, at most k apart. */
  ghost predicate Counts(e: Endpoint, sent: nat, acked: nat) {
    && 1 <= e.k < MODULUS
    && acked <= sent <= acked + e.k
    && e.vs == sent % MODULUS
    && e.va == acked % MODULUS
  }

  /** `check_nr` accepts exactly the residues of numbers between acked and sent. */
  lemma {:induction false} CheckNrExact(e: Endpoint, sent: nat, acked: nat, nr: nat)
    requires Counts(e, sent, acked) && nr < MODULUS
    ensures CheckNr(e, nr) <==> exists n :: acked <= n <= sent && n % MODULUS == nr
  {
    DistanceExact(acked, sent);
    var n := acked + Distance(e.va, nr);
    DistanceReaches(acked, nr);
    if CheckNr(e, nr) {
      assert acked <= n <= sent && n % MODULUS == nr;
    }
    if m :| acked <= m <= sent && m % MODULUS == nr {
      DistanceExact(acked, m);
    }
  }

  /** The number accepted is unique, so V(A) keeps standing for one counter. */
  lemma CheckNrUnique(e: Endpoint, sent: nat, acked: nat, n: nat, m: nat)
    requires Counts(e, sent, acked)
    requires acked <= n <= sent && acked <= m <= sent
    requires n % MODULUS == m % MODULUS
    ensures n == m
  {
  }

  /** The 15-bit value 32767 is accepted as an alias of 0. */
  lemma CheckNrAlias(e: Endpoint)
    requires e.va < MODULUS
    ensures CheckNr(e, MODULUS) == CheckNr(e, 0)
  {
  }

  /** The send loop is open, and `can_queue` positive, exactly while sent < acked + k. */
  lemma {:induction false} WindowExact(e: Endpoint, sent: nat, acked: nat)
    requires Counts(e, sent, acked)
    ensures CanQueue(e) == acked + e.k - sent
    ensures WindowOpen(e) <==> sent < acked + e.k
    ensures WindowOpen(e) <==> CanQueue(e) > 0
  {
    DistanceExact(acked, sent);
    var d := sent - acked;
    assert (acked % MODULUS + e.k) % MODULUS == (acked + e.k) % MODULUS;
    if WindowOpen(e) {
    } else {
      SameResidue(acked + e.k, sent);
    }
  }

  function Min(a: int, b: int): int { if a < b then a else b }

  /** Consecutively numbered I-frames carrying `xs` from number `n` on. */
  function Numbered(n: nat, vr: nat, xs: seq<Asdu>): seq<Frame>
    decreases |xs|
  {
    if xs == [] then [] else [I(n % MODULUS, vr, xs[0])] + Numbered(n + 1, vr, xs[1..])
  }

  /** State after sending the first `n` queued ASDUs. */
  ghost function AfterSending(e: Endpoint, sent: nat, n: nat): Endpoint
    requires n <= |e.writeQ|
  {
    e.(writeQ := e.writeQ[n..], vs := (sent + n) % MODULUS, t1 := e.t1 || n > 0,
       ackwQ := e.ackwQ + Numbered(sent, e.vr, e.writeQ[..n]))
  }

  ghost function Sending(e: Endpoint, sent: nat, n: nat): Outcome
    requires n <= |e.writeQ|
  {
    Outcome(AfterSending(e, sent, n), Numbered(sent, e.vr, e.writeQ[..n]), [], true)
  }

  lemma {:induction false} NumberedAt(n: nat, vr: nat, xs: seq<Asdu>)
    ensures |Numbered(n, vr, xs)| == |xs|
    ensures forall i :: 0 <= i < |xs| ==> Numbered(n, vr, xs)[i] == I((n + i) % MODULUS, vr, xs[i])
    decreases |xs|
  {
    if xs != [] {
      NumberedAt(n + 1, vr, xs[1..]);
    }
  }

  lemma {:induction false} NumberedConcat(n: nat, vr: nat, xs: seq<Asdu>, ys: seq<Asdu>)
    ensures Numbered(n, vr, xs + ys) == Numbered(n, vr, xs) + Numbered(n + |xs|, vr, ys)
    decreases |xs|
  {
    if xs == [] {
      assert xs + ys == ys;
    } else {
      NumberedConcat(n + 1, vr, xs[1..], ys);
      assert (xs + ys)[1..] == xs[1..] + ys;
    }
  }

  /** Sending m and then n more is sending m + n. */
  lemma {:induction false} SendingComposes(e: Endpoint, sent: nat, m: nat, n: nat)
    requires m + n <= |e.writeQ|
    ensures var o := Sending(e, sent, m);
      var p := Sending(o.e, sent + m, n);
      Sending(e, sent, m + n) == p.(wire := o.wire + p.wire)
  {
    var xs, ys := e.writeQ[..m], e.writeQ[m..][..n];
    NumberedConcat(sent, e.vr, xs, ys);
    assert xs + ys == e.writeQ[..m + n];
    assert e.writeQ[m..][n..] == e.writeQ[m + n..];
    assert (e.ackwQ + Numbered(sent, e.vr, xs)) + Numbered(sent + m, e.vr, ys)
        == e.ackwQ + (Numbered(sent, e.vr, xs) + Numbered(sent + m, e.vr, ys));
  }

  lemma {:induction false} SendingNone(e: Endpoint, sent: nat)
    requires e.vs == sent % MODULUS
    ensures Sending(e, sent, 0) == Outcome(e, [], [], true)
  {
    assert e.writeQ[0..] == e.writeQ;
    assert e.ackwQ + [] == e.ackwQ;
  }

  lemma {:induction false} SendingOne(e: Endpoint, sent: nat)
    requires e.writeQ != [] && e.vs == sent % MODULUS
    ensures Sending(e, sent, 1) == Outcome(SendHead(e), [I(e.vs, e.vr, e.writeQ[0])], [], true)
  {
    NextExact(sent);
    NumberedAt(sent, e.vr, e.writeQ[..1]);
  }

  /** Queueing behind what is being sent changes nothing that is sent. */
  lemma {:induction false} SendingThenQueueing(e: Endpoint, sent: nat, m: nat, more: seq<Asdu>)
    requires m <= |e.writeQ|
    ensures var o := Sending(e, sent, m);
      Sending(e.(writeQ := e.writeQ + more), sent, m) == o.(e := o.e.(writeQ := o.e.writeQ + more))
  {
    assert (e.writeQ + more)[..m] == e.writeQ[..m];
    assert e.writeQ[m..] + more == (e.writeQ + more)[m..];
  }

  /** Closed form of the write loop: as many queued ASDUs as the window admits, in order,
      numbered consecutively, each remembered in ackw_q. */
  lemma {:induction false} DrainExact(e: Endpoint, sent: nat, acked: nat)
    requires Counts(e, sent, acked)
    ensures var n := Min(|e.writeQ|, acked + e.k - sent);
      && Drain(e) == Sending(e, sent, n)
      && Counts(Drain(e).e, sent + n, acked)
    decreases |e.writeQ|
  {
    WindowExact(e, sent, acked);
    var n := Min(|e.writeQ|, acked + e.k - sent);
    if n == 0 {
      SendingNone(e, sent);
    } else {
      SendingOne(e, sent);
      DrainExact(SendHead(e), sent + 1, acked);
      SendingComposes(e, sent, 1, n - 1);
    }
  }

  predicate MaySend(e: Endpoint) { !(e.role.Slave? && e.stopdt) }

  /** How many ASDUs leave if `extra` more are queued behind those waiting. */
  ghost function Room(e: Endpoint, sent: nat, acked: nat, extra: nat): nat
    requires Counts(e, sent, acked)
  {
    if MaySend(e) then Min(|e.writeQ| + extra, acked + e.k - sent) else 0
  }

  /** What queueing `more` and running the write loop amounts to. */
  ghost function SendWith(e: Endpoint, more: seq<Asdu>, sent: nat, acked: nat): Outcome
    requires Counts(e, sent, acked)
  {
    Sending(e.(writeQ := e.writeQ + more), sent, Room(e, sent, acked, |more|))
  }

  lemma {:induction false} SubmitExact(e: Endpoint, a: Asdu, sent: nat, acked: nat)
    requires Counts(e, sent, acked)
    ensures Submit(e, a) == SendWith(e, [a], sent, acked)
  {
    var q := e.(writeQ := e.writeQ + [a]);
    if MaySend(e) {
      DrainExact(q, sent, acked);
    } else {
      SendingNone(q, sent);
    }
  }

  lemma RoomComposes(e: Endpoint, xs: seq<Asdu>, more: nat, sent: nat, acked: nat)
    requires Counts(e, sent, acked)
    ensures var m := Room(e, sent, acked, |xs|);
      var o := SendWith(e, xs, sent, acked).e;
      && Counts(o, sent + m, acked)
      && Room(e, sent, acked, |xs| + more) == m + Room(o, sent + m, acked, more)
  {
  }

  lemma {:induction false} SendWithComposes(e: Endpoint, xs: seq<Asdu>, ys: seq<Asdu>, sent: nat, acked: nat)
    requires Counts(e, sent, acked)
    ensures var m := Room(e, sent, acked, |xs|);
      var o := SendWith(e, xs, sent, acked);
      && Counts(o.e, sent + m, acked)
      && var p := SendWith(o.e, ys, sent + m, acked);
         SendWith(e, xs + ys, sent, acked) == p.(wire := o.wire + p.wire)
  {
    var m := Room(e, sent, acked, |xs|);
    RoomComposes(e, xs, |ys|, sent, acked);
    var o := SendWith(e, xs, sent, acked);
    var n := Room(o.e, sent + m, acked, |ys|);
    SendingSplits(e, xs, ys, sent, m, n);
  }

  lemma {:induction false} SendingSplits(e: Endpoint, xs: seq<Asdu>, ys: seq<Asdu>, sent: nat, m: nat, n: nat)
    requires m <= |e.writeQ| + |xs| && m + n <= |e.writeQ| + |xs| + |ys|
    ensures var o := Sending(e.(writeQ := e.writeQ + xs), sent, m);
      var p := Sending(o.e.(writeQ := o.e.writeQ + ys), sent + m, n);
      Sending(e.(writeQ := e.writeQ + (xs + ys)), sent, m + n) == p.(wire := o.wire + p.wire)
  {
    var q := e.(writeQ := e.writeQ + (xs + ys));
    assert e.writeQ + xs + ys == q.writeQ;
    SendingThenQueueing(e.(writeQ := e.writeQ + xs), sent, m, ys);
    SendingComposes(q, sent, m, n);
  }

  /** Queueing ASDUs one by one, each time running the write loop, sends exactly what
      queueing them all and running it once would send. */
  lemma {:induction false} SubmitAllExact(e: Endpoint, kick: seq<Asdu>, sent: nat, acked: nat)
    requires Counts(e, sent, acked)
    ensures SubmitAll(e, kick) ==
            if kick == [] then Outcome(e, [], [], true) else SendWith(e, kick, sent, acked)
    decreases |kick|
  {
    if kick != [] {
      SubmitExact(e, kick[0], sent, acked);
      if |kick| > 1 {
        SubmitAllMore(e, kick, sent, acked);
      } else {
        assert kick == [kick[0]];
      }
    }
  }

  lemma {:induction false} SubmitAllMore(e: Endpoint, kick: seq<Asdu>, sent: nat, acked: nat)
    requires Counts(e, sent, acked) && |kick| > 1
    ensures SubmitAll(e, kick) == SendWith(e, kick, sent, acked)
    decreases |kick|, 0
  {
    SubmitExact(e, kick[0], sent, acked);
    RoomComposes(e, [kick[0]], |kick| - 1, sent, acked);
    SubmitAllExact(Submit(e, kick[0]).e, kick[1..], sent + Room(e, sent, acked, 1), acked);
    SendWithComposes(e, [kick[0]], kick[1..], sent, acked);
    assert kick == [kick[0]] + kick[1..];
  }
}
