/** Steps of the queue manager outside flush_queue: every deferred message is with the sender or
    under a timer, never both, and nothing is dispatched twice. */
module SchedulerRuns {
  import opened TimerHeap
  import opened MsgList
  import opened Scheduler

  // ---------- outside flush_queue ----------

  /** No message that the sender holds still has a timer in its queue. */
  ghost predicate NoActTimer(m: Mgr) {
    forall a :: a in m.act && a.state >= 2 ==> !HasTimer(m.timers, a.state, a.inode)
  }

  /** Every deferred message is with the sender or will be picked up by a timer. */
  ghost predicate NoStranded(m: Mgr)
    requires Shape(m)
  {
    forall q, i :: 2 <= q < |m.queues| && i in m.dirs[q] ==> i in m.actDir || HasTimer(m.timers, q, i)
  }

  ghost predicate Steady(m: Mgr) { Base(m) && NoActTimer(m) && NoStranded(m) }

  lemma {:induction false} FeedInSteady(m: Mgr)
    requires Steady(m)
    ensures Steady(Feed(m, IN))
  {
    FeedBase(m, IN);
    var f := Feed(m, IN);
    forall a | a in f.act && a.state >= 2 ensures !HasTimer(f.timers, a.state, a.inode) {
      assert a in m.act;
    }
    forall q, i | 2 <= q < |f.queues| && i in f.dirs[q] ensures i in f.actDir || HasTimer(f.timers, q, i) {
      assert i in m.actDir || HasTimer(m.timers, q, i);
    }
  }

  /** The timer branch never links a file that is already in ACT. */
  lemma {:induction false} TimerNotInAct(m: Mgr, t: Node)
    requires Base(m) && NoActTimer(m) && t in m.timers && t.inode in m.dirs[t.indque]
    ensures t.inode !in m.actDir
  {
    assert HasTimer(m.timers, t.indque, t.inode);
    forall a | a in m.act ensures a.inode != t.inode {
      if a.inode == t.inode {
        OneHome(m, a.state, t.indque, t.inode);
      }
    }
  }

  /** Exactly what that saves the manager from: a timer whose message is with the sender ends the
      process as soon as the window would allow another dispatch. */
  lemma {:induction false} TimerFatalIff(m: Mgr, t: Node)
    requires Books(m) && 1 <= t.indque < |m.queues| && t.inode in m.dirs[t.indque]
    ensures !TimerExpired(m, t).alive <==> t.inode in m.actDir && CanDispatch(m, t.indque, WINDEFSIZE)
  {
    assert Home(m, t.indque);
    FindExact(m.queues[t.indque].msgs, t.inode);
    OneHome(m, t.indque, t.indque, t.inode);
  }

  /** The sender has been given message i of queue q, and nothing else has changed. */
  ghost predicate Gave(m: Mgr, c: Mgr, q: nat, i: Inode)
    requires q < |m.queues|
  {
    c == m.(act := m.act + [Msg(i, NO_TIME, q)], actDir := m.actDir + {i},
            queues := m.queues[q := m.queues[q].(send := m.queues[q].send + 1)],
            tries := m.tries[i := Tries(m, i) + [q]])
  }

  /** A queue is fed one message at a time: its first one, and only with none in flight. */
  lemma {:induction false} FeedExact(m: Mgr, q: nat)
    requires Base(m) && 1 <= q < |m.queues|
    ensures var u := m.queues[q];
      if u.send == 0 && u.msgs != [] then Gave(m, Feed(m, q), q, u.msgs[0].inode) else Feed(m, q) == m
  {
    CountersInRange(m, q);
    assert Home(m, q);
    if m.queues[q].send == 0 && m.queues[q].msgs != [] {
      assert m.queues[q].msgs[0] in m.queues[q].msgs;
      IdleQueueNotInAct(m, q, m.queues[q].msgs[0].inode);
      OneHome(m, q, q, m.queues[q].msgs[0].inode);
    }
  }

  lemma {:induction false} DispatchGives(m: Mgr, q: nat, i: Inode)
    requires Base(m) && 1 <= q < |m.queues| && i in m.dirs[q] && i !in m.actDir
    ensures Gave(m, Dispatch(m, q, i), q, i)
  {
    OneHome(m, q, q, i);
  }

  /** What a timer does when it expires: it goes if its message has gone; else, with fewer than ten
      of the queue in flight and all of them confirmed, the message is given to the sender and
      the timer goes; else both stay. */
  lemma {:induction false} TimerExact(m: Mgr, t: Node)
    requires Base(m) && NoActTimer(m) && t in m.timers
    ensures var q, i, c := t.indque, t.inode, TimerExpired(m, t);
      var u, rest := m.queues[q], m.timers - multiset{t};
      if i !in m.dirs[q] then c == m.(timers := rest)
      else if u.send < 10 && u.send < |u.msgs| && u.send == u.conf then Gave(m.(timers := rest), c, q, i)
      else c == m
  {
    assert Home(m, t.indque);
    FindExact(m.queues[t.indque].msgs, t.inode);
    if t.inode in m.dirs[t.indque] {
      TimerNotInAct(m, t);
      DispatchGives(m, t.indque, t.inode);
    }
  }

  lemma {:induction false} AddTimer(ts: multiset<Node>, n: Node)
    ensures forall q: nat, i: Inode ::
      HasTimer(ts + multiset{n}, q, i) <==> HasTimer(ts, q, i) || (q == n.indque && i == n.inode)
  {
    var us := ts + multiset{n};
    assert n in us;
    forall q: nat, i: Inode | HasTimer(ts, q, i) ensures HasTimer(us, q, i) {
      var t :| t in ts && t.indque == q && t.inode == i;
      assert t in us;
    }
  }

  lemma {:induction false} RemoveTimer(m: Mgr, t: Node)
    requires Shape(m) && Clocks(m) && t in m.timers
    ensures forall q: nat, i: Inode ::
      HasTimer(m.timers - multiset{t}, q, i) <==> HasTimer(m.timers, q, i) && !(q == t.indque && i == t.inode)
  {
    var us := m.timers - multiset{t};
    forall q: nat, i: Inode | HasTimer(m.timers, q, i) && !(q == t.indque && i == t.inode) ensures HasTimer(us, q, i) {
      var u :| u in m.timers && u.indque == q && u.inode == i;
      assert u in us;
    }
  }

  lemma {:induction false} DropTimer(m: Mgr, t: Node)
    requires Base(m) && t in m.timers
    ensures Base(m.(timers := m.timers - multiset{t}))
  {
    var c := m.(timers := m.timers - multiset{t});
    SameBooks(m, c);
    assert forall j :: Waiting(c, j) <==> Waiting(m, j);
    LedgerFrom(m, c);
    FewerClocks(m, c);
  }

  lemma {:induction false} StaleSteady(m: Mgr, t: Node)
    requires Steady(m) && t in m.timers && t.inode !in m.dirs[t.indque]
    ensures Steady(m.(timers := m.timers - multiset{t}))
  {
    DropTimer(m, t);
    RemoveTimer(m, t);
    var c := m.(timers := m.timers - multiset{t});
    forall a | a in c.act && a.state >= 2 ensures !HasTimer(c.timers, a.state, a.inode) {
      assert !HasTimer(m.timers, a.state, a.inode);
    }
    forall p, j | 2 <= p < |c.queues| && j in c.dirs[p] ensures j in c.actDir || HasTimer(c.timers, p, j) {
      assert j in m.actDir || HasTimer(m.timers, p, j);
    }
  }

  lemma {:induction false} TimerSteady(m: Mgr, t: Node)
    requires Steady(m) && t in m.timers
    ensures Steady(TimerExpired(m, t))
  {
    var q, i := t.indque, t.inode;
    FindExact(m.queues[q].msgs, i);
    assert Home(m, q);
    if i !in m.dirs[q] {
      StaleSteady(m, t);
    } else if CanDispatch(m, q, WINDEFSIZE) {
      TimerNotInAct(m, t);
      DispatchBase(m, q, i);
      TimerDispatched(m, t);
    }
  }

  lemma {:induction false} TimerDispatched(m: Mgr, t: Node)
    requires Steady(m) && t in m.timers && t.inode in m.dirs[t.indque] && t.inode !in m.actDir
    requires Base(Dispatch(m, t.indque, t.inode))
    ensures var d := Dispatch(m, t.indque, t.inode);
      Steady(d.(timers := d.timers - multiset{t}))
  {
    var d := Dispatch(m, t.indque, t.inode);
    DropTimer(d, t);
    RemoveTimer(m, t);
    DispatchedNoActTimer(m, t);
    var c := d.(timers := d.timers - multiset{t});
    forall p, j | 2 <= p < |c.queues| && j in c.dirs[p] ensures j in c.actDir || HasTimer(c.timers, p, j) {
      assert j in m.actDir || HasTimer(m.timers, p, j);
    }
  }

  lemma {:induction false} DispatchedNoActTimer(m: Mgr, t: Node)
    requires Base(m) && NoActTimer(m) && t in m.timers && t.inode in m.dirs[t.indque] && t.inode !in m.actDir
    ensures var d := Dispatch(m, t.indque, t.inode);
      NoActTimer(d.(timers := d.timers - multiset{t}))
  {
    RemoveTimer(m, t);
    var d := Dispatch(m, t.indque, t.inode);
    forall a | a in d.act && a.state >= 2 ensures !HasTimer(m.timers - multiset{t}, a.state, a.inode) {
      if a in m.act {
        assert !HasTimer(m.timers, a.state, a.inode);
      } else {
        assert a == Msg(t.inode, NO_TIME, t.indque);
      }
    }
  }

  // ---------- answers ----------

  /** What an answer does to ACT, the directories and the timers: entries leave ACT, no timer
      is lost, and a message appears in a queue only from the queue below, with its timer. */
  ghost predicate Effect(m: Mgr, c: Mgr) {
    && Shape(c) && |c.queues| == |m.queues| == |m.dirs|
    && c.actDir <= m.actDir
    && (forall a :: a in c.act ==> a in m.act)
    && (forall a :: a in c.act ==> (HasTimer(c.timers, a.state, a.inode) <==> HasTimer(m.timers, a.state, a.inode)))
    && (forall q: nat, i: Inode :: HasTimer(m.timers, q, i) ==> HasTimer(c.timers, q, i))
    && (forall q, i :: 1 <= q < |m.queues| && i in c.dirs[q] ==>
          || (i in m.dirs[q] && (i in c.actDir <==> i in m.actDir))
          || (HasTimer(c.timers, q, i) && exists a :: a in m.act && q == a.state + 1))
  }

  lemma {:induction false} FinishEffect(m: Mgr, a: Msg, c: Mgr)
    requires Base(m) && a in m.act && c == Leave(m, a.state, a.inode).(failDir := c.failDir, delivered := c.delivered)
    ensures Effect(m, c)
  {
    DelExact(m.act, a.inode);
    LeftAll(m, a);
    forall q, i | 1 <= q < |m.queues| && i in c.dirs[q] ensures i in m.dirs[q] && i != a.inode {
    }
  }

  lemma {:induction false} MovedEffect(m: Mgr, c: Mgr, a: Msg, n: Node)
    requires Base(m) && a in m.act && n.indque == a.state + 1 && n.inode == a.inode
    requires MovedUp(m, c, a.inode, n.indque) && c.timers == m.timers + multiset{n}
    requires c.act == Del(m.act, a.inode) && c.actDir == m.actDir - {a.inode}
    ensures Effect(m, c)
  {
    DelExact(m.act, a.inode);
    AddTimer(m.timers, n);
  }

  lemma {:induction false} EscalateEffect(m: Mgr, a: Msg, now: TimeVal)
    requires Base(m) && a in m.act && a.state < Last(m)
    ensures Effect(m, Defer(Leave(m, a.state, a.inode), a.state + 1, a.inode, now))
  {
    EscalateParts(m, a, now);
    MovedEffect(m, Defer(Leave(m, a.state, a.inode), a.state + 1, a.inode, now), a,
                Node(Deadline(now, m.queues[a.state + 1].timeout), a.state + 1, a.inode));
  }

  lemma ConfirmEffect(m: Mgr, a: Msg, now: TimeVal)
    requires Base(m) && a in m.act
    ensures Effect(m, Answer(m, a.state, a.inode, 1, now))
  {
  }

  lemma {:induction false} AnswerEffect(m: Mgr, a: Msg, code: int, now: TimeVal)
    requires Base(m) && a in m.act
    ensures Effect(m, Answer(m, a.state, a.inode, code, now))
  {
    if code == 1 {
      ConfirmEffect(m, a, now);
    } else {
      AnswerParts(m, a, code, now);
      if code == 0 || a.state == Last(m) {
        FinishEffect(m, a, Answer(m, a.state, a.inode, code, now));
      } else {
        EscalateEffect(m, a, now);
      }
    }
  }

  lemma {:induction false} ResponseEffect(m: Mgr, r: Response)
    requires Base(m) && Promised(m, r)
    ensures Effect(m, CheckResponse(m, r))
  {
    var a := ActEntry(m, r.inode);
    assert CheckResponse(m, Response(r.inode, r.code, r.now)) == Answer(m, a.state, a.inode, r.code, r.now);
    AnswerEffect(m, a, r.code, r.now);
  }

  lemma {:induction false} EffectSteady(m: Mgr, c: Mgr)
    requires Steady(m) && Base(c) && Effect(m, c)
    ensures Steady(c)
  {
    forall q, i | 2 <= q < |c.queues| && i in c.dirs[q] ensures i in c.actDir || HasTimer(c.timers, q, i) {
      if i in m.dirs[q] {
        assert i in m.actDir || HasTimer(m.timers, q, i);
      }
    }
  }

  lemma {:induction false} ResponseSteady(m: Mgr, r: Response)
    requires Steady(m) && Promised(m, r)
    ensures Steady(CheckResponse(m, r))
  {
    ResponseBase(m, r);
    ResponseEffect(m, r);
    EffectSteady(m, CheckResponse(m, r));
  }

  // ---------- arrivals ----------

  /** Files found in `drop`: distinct inodes, and none that another file of the manager or a
      timer still has.  An inode number whose message was delivered may come again. */
  ghost predicate Fresh(m: Mgr, found: seq<Msg>)
    requires Shape(m)
  {
    && Distinct(found)
    && forall i :: i in Inodes(found) ==>
         !Waiting(m, i) && i !in m.failDir && i !in m.stale && forall t :: t in m.timers ==> t.inode != i
  }

  lemma {:induction false} DistinctConcat(xs: seq<Msg>, ys: seq<Msg>)
    requires Distinct(xs) && Distinct(ys) && Inodes(xs) !! Inodes(ys)
    ensures Distinct(xs + ys) && Inodes(xs + ys) == Inodes(xs) + Inodes(ys)
  {
    forall i, j | 0 <= i < |xs| && 0 <= j < |ys| ensures xs[i].inode != ys[j].inode {
      assert xs[i] in xs && ys[j] in ys;
      assert xs[i].inode in Inodes(xs) && ys[j].inode in Inodes(ys);
    }
    assert forall m :: m in xs + ys <==> m in xs || m in ys;
  }

  lemma {:induction false} ScanBooks(m: Mgr, found: seq<Msg>, line: seq<Msg>)
    requires Base(m) && Fresh(m, found) && Sorts(m, found, line) && found != []
    ensures var c := ScanDrop(m, found, line); Books(c) && c.dirs[IN] == m.dirs[IN] + Inodes(found)
  {
    var c := ScanDrop(m, found, line);
    var ms := m.queues[IN].msgs;
    assert (set f | f in found :: f.inode) == Inodes(found);
    assert Home(m, IN);
    assert Inodes(ms) !! Inodes(found) by {
      forall i | i in Inodes(ms) ensures i !in Inodes(found) {
        assert Waiting(m, i);
      }
    }
    DistinctConcat(ms, found);
    PermutationKeeps(ms + found, line);
    forall p | 1 <= p < |m.queues| ensures Home(c, p) {
      assert Home(m, p);
    }
    forall q, i | 1 <= q < |m.queues| && i in m.dirs[q] ensures i !in Inodes(found) {
      assert Waiting(m, i);
    }
    MoreHomes(m, c, IN, Inodes(found));
  }

  lemma {:induction false} ScanBase(m: Mgr, found: seq<Msg>, line: seq<Msg>)
    requires Base(m) && Fresh(m, found) && Sorts(m, found, line)
    ensures Base(ScanDrop(m, found, line))
  {
    if found != [] {
      ScanBooks(m, found, line);
      var c := ScanDrop(m, found, line);
      forall j ensures Waiting(c, j) <==> Waiting(m, j) || j in Inodes(found) {
        ScanWaiting(m, c, Inodes(found), j);
      }
      assert (set f | f in found :: f.inode) == Inodes(found);
      ScanLedger(m, c, Inodes(found));
      ScanClocks(m, c, Inodes(found));
    }
  }

  lemma {:induction false} ScanWaiting(m: Mgr, c: Mgr, added: set<Inode>, j: Inode)
    requires Shape(m) && Shape(c) && |c.queues| == |m.queues|
    requires c.dirs == m.dirs[IN := m.dirs[IN] + added]
    ensures Waiting(c, j) <==> Waiting(m, j) || j in added
  {
    if Waiting(m, j) {
      var q :| 1 <= q < |m.queues| && j in m.dirs[q];
      assert j in c.dirs[q];
    }
    if j in added {
      assert j in c.dirs[IN];
    }
    if Waiting(c, j) && j !in added {
      var q :| 1 <= q < |c.queues| && j in c.dirs[q];
      assert j in m.dirs[q];
    }
  }

  /** Each new file is one acceptance more of its inode number and one message waiting. */
  lemma {:induction false} ScanLedger(m: Mgr, c: Mgr, added: set<Inode>)
    requires Shape(m) && Ledger(m) && Shape(c) && |c.queues| == |m.queues|
    requires forall i :: i in added ==> !Waiting(m, i) && i !in m.failDir
    requires c.delivered == m.delivered && c.failDir == m.failDir && c.accepted == m.accepted + multiset(added)
    requires forall j :: Waiting(c, j) <==> Waiting(m, j) || j in added
    ensures Ledger(c)
  {
    forall q | 1 <= q < |c.queues| ensures c.dirs[q] !! c.failDir {
      forall j | j in c.dirs[q] ensures j !in c.failDir {
        assert Waiting(c, j);
        if j !in added {
          var p :| 1 <= p < |m.queues| && j in m.dirs[p];
          assert m.dirs[p] !! m.failDir;
        }
      }
    }
  }

  lemma {:induction false} ScanClocks(m: Mgr, c: Mgr, added: set<Inode>)
    requires Shape(m) && Clocks(m) && Shape(c) && |c.queues| == |m.queues|
    requires forall t :: t in m.timers ==> t.inode !in added
    requires c.timers == m.timers
    requires forall q :: 1 <= q < |m.queues| ==> c.dirs[q] <= m.dirs[q] + added
    ensures Clocks(c)
  {
    forall t, q | t in c.timers && 1 <= q < |c.queues| && t.inode in c.dirs[q] ensures t.indque <= q {
      assert t.inode in m.dirs[q];
    }
  }

  lemma {:induction false} ScanSteady(m: Mgr, found: seq<Msg>, line: seq<Msg>)
    requires Steady(m) && Fresh(m, found) && Sorts(m, found, line)
    ensures Steady(ScanDrop(m, found, line))
  {
    ScanBase(m, found, line);
    var c := ScanDrop(m, found, line);
    forall a | a in c.act && a.state >= 2 ensures !HasTimer(c.timers, a.state, a.inode) {
      assert !HasTimer(m.timers, a.state, a.inode);
    }
    forall q, i | 2 <= q < |c.queues| && i in c.dirs[q] ensures i in c.actDir || HasTimer(c.timers, q, i) {
      assert i in m.actDir || HasTimer(m.timers, q, i);
    }
  }
}
