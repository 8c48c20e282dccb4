/** flush_queue: what it leaves behind, and why it ends. */
module Flushing {
  import opened TimerHeap
  import opened MsgList
  import opened Scheduler
  import opened SchedulerRuns

  // ---------- what a flush keeps ----------

  /** With queue q being flushed: nothing of a higher queue is with the sender, and all
      that has appeared in higher deferred queues has a timer. */
  ghost predicate MidFlush(m: Mgr, q: nat) {
    && Base(m) && q < |m.queues|
    && (forall a :: a in m.act ==> a.state <= q)
    && (forall p, i :: q < p < |m.queues| && 2 <= p && i in m.dirs[p] ==> HasTimer(m.timers, p, i))
    && (q == 0 ==> m.dirs[IN] == {})
  }

  predicate AllPromised(m: Mgr, rs: seq<Response>)
    requires Sound(m)
    decreases |rs|
  {
    rs != [] ==> Promised(m, rs[0]) && AllPromised(CheckResponse(m, rs[0]), rs[1..])
  }

  /** The sender keeps its promise throughout a flush. */
  predicate FlushPromised(m: Mgr, q: nat, batches: seq<seq<Response>>)
    requires Sound(m) && q < |m.queues|
    decreases |batches|, q
  {
    if q == 0 then true
    else if Total(m, q) == 0 then FlushPromised(m, q - 1, batches)
    else batches != [] ==>
      AllPromised(Feed(m, q), batches[0]) && FlushPromised(ReadAll(Feed(m, q), batches[0]), q, batches[1..])
  }

  lemma {:induction false} FeedFlushing(m: Mgr, q: nat)
    requires MidFlush(m, q) && 1 <= q
    ensures MidFlush(Feed(m, q), q)
  {
    FeedBase(m, q);
  }

  lemma {:induction false} ResponseFlushing(m: Mgr, q: nat, r: Response)
    requires MidFlush(m, q) && 1 <= q && Promised(m, r)
    ensures MidFlush(CheckResponse(m, r), q)
  {
    ResponseBase(m, r);
    ResponseEffect(m, r);
    var c := CheckResponse(m, r);
    forall p, i | q < p < |c.queues| && 2 <= p && i in c.dirs[p] ensures HasTimer(c.timers, p, i) {
      if i in m.dirs[p] {
        assert HasTimer(m.timers, p, i);
      }
    }
  }

  lemma {:induction false} ReadAllFlushing(m: Mgr, q: nat, rs: seq<Response>)
    requires MidFlush(m, q) && 1 <= q && AllPromised(m, rs)
    ensures MidFlush(ReadAll(m, rs), q)
    decreases |rs|
  {
    if rs != [] {
      ResponseFlushing(m, q, rs[0]);
      ReadAllFlushing(CheckResponse(m, rs[0]), q, rs[1..]);
    }
  }

  /** A queue that has run empty has nothing with the sender either. */
  lemma {:induction false} EmptyQueueFlushed(m: Mgr, q: nat)
    requires MidFlush(m, q) && 1 <= q && Total(m, q) == 0
    ensures MidFlush(m, q - 1)
  {
    assert m.dirs[q] == {} by {
      assert Home(m, q);
      assert m.queues[q].msgs == [];
    }
    forall a | a in m.act ensures a.state <= q - 1 {
      assert a.inode in m.dirs[a.state];
    }
  }

  /** Dispatches and answers of a flush. */
  function FlushWork(m: Mgr, q: nat, batches: seq<seq<Response>>): nat
    requires Sound(m) && q < |m.queues|
    decreases |batches|, q
  {
    if q == 0 then 0
    else if Total(m, q) == 0 then FlushWork(m, q - 1, batches)
    else if batches == [] then 0
    else TurnWork(m, q, batches[0]) + FlushWork(ReadAll(Feed(m, q), batches[0]), q, batches[1..])
  }

  function TurnWork(m: Mgr, q: nat, batch: seq<Response>): nat
    requires q < |m.queues|
  {
    (if CanDispatch(m, q, WINSIZE) then 1 else 0) + |batch|
  }

  /** One turn of the inner loop: feed, then read the pipe. */
  function Turn(m: Mgr, q: nat, batch: seq<Response>): (m': Mgr)
    requires Sound(m) && 1 <= q < |m.queues|
    ensures Sound(m') && |m'.queues| == |m.queues|
  {
    ReadAll(Feed(m, q), batch)
  }

  lemma {:induction false} TurnFlushing(m: Mgr, q: nat, batch: seq<Response>)
    requires MidFlush(m, q) && 1 <= q && AllPromised(Feed(m, q), batch)
    ensures MidFlush(Turn(m, q, batch), q)
  {
    FeedFlushing(m, q);
    ReadAllFlushing(Feed(m, q), q, batch);
  }

  lemma FlushUnfolds(m: Mgr, q: nat, batches: seq<seq<Response>>)
    requires Sound(m) && 1 <= q < |m.queues| && Total(m, q) > 0 && batches != []
    ensures Flush(m, q, batches) == Flush(Turn(m, q, batches[0]), q, batches[1..])
    ensures FlushPromised(m, q, batches) ==
            (AllPromised(Feed(m, q), batches[0]) && FlushPromised(Turn(m, q, batches[0]), q, batches[1..]))
    ensures FlushWork(m, q, batches) ==
            TurnWork(m, q, batches[0]) + FlushWork(Turn(m, q, batches[0]), q, batches[1..])
  {
  }

  // ---------- why it ends ----------

  /** Attempts a queue's messages have left, less the progress of those in flight. */
  function Term(n: nat, q: nat, u: Queue): int
    requires q <= n
  {
    3 * (n - q) * |u.msgs| - u.send - u.conf
  }

  function Rank(qs: seq<Queue>, q: nat): int
    requires q <= |qs|
    decreases |qs| - q
  {
    if q == |qs| then 0 else Term(|qs|, q, qs[q]) + Rank(qs, q + 1)
  }

  lemma {:induction false} RankChange(qs: seq<Queue>, p: nat, u: Queue, q: nat)
    requires p < |qs| && q <= |qs|
    ensures Rank(qs[p := u], q) == Rank(qs, q) + (if q <= p then Term(|qs|, p, u) - Term(|qs|, p, qs[p]) else 0)
    decreases |qs| - q
  {
    if q < |qs| {
      RankChange(qs, p, u, q + 1);
    }
  }

  lemma {:induction false} TermLess(n: nat, q: nat, u: Queue, v: Queue)
    requires q <= n && |v.msgs| + 1 == |u.msgs|
    ensures 3 * (n - q) * |v.msgs| == 3 * (n - q) * |u.msgs| - 3 * (n - q)
  {
    var k, t := 3 * (n - q), |v.msgs|;
    assert k * (t + 1) == k * t + k;
  }

  lemma {:induction false} DispatchRank(m: Mgr, q: nat, i: Inode)
    requires Shape(m) && 1 <= q < |m.queues| && i in m.dirs[q] && i !in m.actDir + m.stale
    ensures Rank(Dispatch(m, q, i).queues, 1) == Rank(m.queues, 1) - 1
  {
    RankChange(m.queues, q, m.queues[q].(send := m.queues[q].send + 1), 1);
  }

  lemma {:induction false} LeaveRank(m: Mgr, a: Msg)
    requires Books(m) && a in m.act
    ensures Rank(Leave(m, a.state, a.inode).queues, 1) == Rank(m.queues, 1) - 3 * (|m.queues| - a.state) + 2
  {
    var q := a.state;
    var u, v := m.queues[q], Leave(m, q, a.inode).queues[q];
    assert Home(m, q);
    DelExact(u.msgs, a.inode);
    TermLess(|m.queues|, q, u, v);
    RankChange(m.queues, q, v, 1);
  }

  lemma {:induction false} DeferRank(m: Mgr, q: nat, i: Inode, now: TimeVal)
    requires Shape(m) && 1 <= q < |m.queues|
    ensures Rank(Defer(m, q, i, now).queues, 1) == Rank(m.queues, 1) + 3 * (|m.queues| - q)
  {
    var u, v := m.queues[q], Defer(m, q, i, now).queues[q];
    TermLess(|m.queues|, q, v, u);
    RankChange(m.queues, q, v, 1);
  }

  lemma {:induction false} AnswerRank(m: Mgr, a: Msg, code: int, now: TimeVal)
    requires Books(m) && a in m.act && code != 1
    ensures Rank(Answer(m, a.state, a.inode, code, now).queues, 1) <= Rank(m.queues, 1) - 1
  {
    AnswerParts(m, a, code, now);
    LeaveRank(m, a);
    if code != 0 && a.state < Last(m) {
      DeferRank(Leave(m, a.state, a.inode), a.state + 1, a.inode, now);
    }
  }

  lemma {:induction false} ConfirmRank(m: Mgr, a: Msg, now: TimeVal)
    requires Shape(m) && 1 <= a.state < |m.queues|
    ensures Rank(Answer(m, a.state, a.inode, 1, now).queues, 1) == Rank(m.queues, 1) - 1
  {
    RankChange(m.queues, a.state, m.queues[a.state].(conf := m.queues[a.state].conf + 1), 1);
  }

  /** Every promised answer uses up rank: a confirmation one, a failure one, a delivery more. */
  lemma {:induction false} ResponseRank(m: Mgr, r: Response)
    requires Base(m) && Promised(m, r)
    ensures Rank(CheckResponse(m, r).queues, 1) <= Rank(m.queues, 1) - 1
  {
    var a := ActEntry(m, r.inode);
    assert CheckResponse(m, Response(r.inode, r.code, r.now)) == Answer(m, a.state, a.inode, r.code, r.now);
    if r.code == 1 {
      ConfirmRank(m, a, r.now);
    } else {
      AnswerRank(m, a, r.code, r.now);
    }
  }

  lemma {:induction false} RankNonnegative(m: Mgr, q: nat)
    requires Books(m) && 1 <= q <= |m.queues|
    ensures Rank(m.queues, q) >= 0
    decreases |m.queues| - q
  {
    if q < |m.queues| {
      CountersInRange(m, q);
      RankNonnegative(m, q + 1);
      var k, t := |m.queues| - q, Total(m, q);
      assert 3 * k * t >= 3 * t;
    }
  }

  lemma {:induction false} ReadAllRank(m: Mgr, q: nat, rs: seq<Response>)
    requires MidFlush(m, q) && 1 <= q && AllPromised(m, rs)
    ensures Rank(ReadAll(m, rs).queues, 1) <= Rank(m.queues, 1) - |rs|
    decreases |rs|
  {
    if rs != [] {
      ResponseRank(m, rs[0]);
      ResponseFlushing(m, q, rs[0]);
      ReadAllRank(CheckResponse(m, rs[0]), q, rs[1..]);
    }
  }

  lemma {:induction false} FeedRank(m: Mgr, q: nat)
    requires Base(m) && 1 <= q < |m.queues|
    ensures Rank(Feed(m, q).queues, 1) == Rank(m.queues, 1) - (if CanDispatch(m, q, WINSIZE) then 1 else 0)
  {
    if CanDispatch(m, q, WINSIZE) {
      CountersInRange(m, q);
      assert Home(m, q);
      var i := HeadInode(m, q);
      assert m.queues[q].msgs[0] in m.queues[q].msgs && i == m.queues[q].msgs[0].inode;
      IdleQueueNotInAct(m, q, i);
      OneHome(m, q, q, i);
      DispatchRank(m, q, i);
    }
  }

  lemma {:induction false} TurnRank(m: Mgr, q: nat, batch: seq<Response>)
    requires MidFlush(m, q) && 1 <= q && AllPromised(Feed(m, q), batch)
    ensures Rank(Turn(m, q, batch).queues, 1) <= Rank(m.queues, 1) - TurnWork(m, q, batch)
  {
    FeedFlushing(m, q);
    FeedRank(m, q);
    ReadAllRank(Feed(m, q), q, batch);
  }

  /** One turn of a promised flush: what remains is a promised flush of lower rank. */
  lemma {:induction false} TurnMade(m: Mgr, q: nat, batches: seq<seq<Response>>)
    requires MidFlush(m, q) && 1 <= q && Total(m, q) > 0 && batches != [] && FlushPromised(m, q, batches)
    ensures var m' := Turn(m, q, batches[0]);
      && MidFlush(m', q) && FlushPromised(m', q, batches[1..])
      && Rank(m'.queues, 1) <= Rank(m.queues, 1) - TurnWork(m, q, batches[0])
  {
    FlushUnfolds(m, q, batches);
    TurnFlushing(m, q, batches[0]);
    TurnRank(m, q, batches[0]);
  }

  // ---------- a principle of induction ----------

  type Flushes = (Mgr, nat, seq<seq<Response>>) -> bool

  /** What a turn keeps, and a measure it lowers by the work it does. */
  ghost predicate TurnKeeps(P: Flushes, R: Mgr -> int) {
    forall m: Mgr, q: nat, bs: seq<seq<Response>> {:trigger P(m, q, bs)} :: P(m, q, bs) ==>
      && Sound(m) && q < |m.queues| && R(m) >= 0
      && (1 <= q && Total(m, q) == 0 ==> P(m, q - 1, bs))
      && (1 <= q && Total(m, q) > 0 && bs != [] ==>
            P(Turn(m, q, bs[0]), q, bs[1..]) && R(Turn(m, q, bs[0])) <= R(m) - TurnWork(m, q, bs[0]))
  }

  /** A flush stops at an empty queue 0, or still waits with the answers used up; either way
      with what its turns keep, having done no more work than the measure fell. */
  lemma {:induction false} FlushInduction(m: Mgr, q: nat, bs: seq<seq<Response>>, P: Flushes, R: Mgr -> int)
    returns (q': nat, bs': seq<seq<Response>>)
    requires TurnKeeps(P, R) && P(m, q, bs)
    ensures Sound(m) && q < |m.queues|
    ensures var f := Flush(m, q, bs);
      && P(f.m, q', bs') && (f.done ==> q' == 0) && (!f.done ==> bs' == [])
      && FlushWork(m, q, bs) <= R(m) - R(f.m)
    decreases |bs|, q
  {
    if q == 0 {
      q', bs' := q, bs;
    } else if Total(m, q) == 0 {
      q', bs' := FlushInduction(m, q - 1, bs, P, R);
    } else if bs == [] {
      q', bs' := q, bs;
    } else {
      FlushUnfolds(m, q, bs);
      q', bs' := FlushInduction(Turn(m, q, bs[0]), q, bs[1..], P, R);
    }
  }

  ghost function RankOf(m: Mgr): int { if |m.queues| >= 1 then Rank(m.queues, 1) else 0 }

  ghost predicate Promising(m: Mgr, q: nat, bs: seq<seq<Response>>) {
    MidFlush(m, q) && FlushPromised(m, q, bs)
  }

  lemma {:induction false} PromisingKept()
    ensures TurnKeeps((m: Mgr, q: nat, bs: seq<seq<Response>>) => Promising(m, q, bs), (m: Mgr) => RankOf(m))
  {
    forall m: Mgr, q: nat, bs: seq<seq<Response>> | Promising(m, q, bs)
      ensures Sound(m) && q < |m.queues| && RankOf(m) >= 0
      ensures 1 <= q && Total(m, q) == 0 ==> Promising(m, q - 1, bs)
      ensures 1 <= q && Total(m, q) > 0 && bs != [] ==>
        Promising(Turn(m, q, bs[0]), q, bs[1..]) && RankOf(Turn(m, q, bs[0])) <= RankOf(m) - TurnWork(m, q, bs[0])
    {
      RankNonnegative(m, 1);
      if 1 <= q && Total(m, q) == 0 {
        EmptyQueueFlushed(m, q);
      } else if 1 <= q && bs != [] {
        TurnMade(m, q, bs);
      }
    }
  }

  // ---------- what a flush does ----------

  /** Whatever the sender answers and in whatever order, a flush keeps the books; and when it
      returns, ACT and IN are empty and every deferred message has a timer. */
  lemma {:induction false} FlushKeeps(m: Mgr, q: nat, batches: seq<seq<Response>>)
    requires MidFlush(m, q) && FlushPromised(m, q, batches)
    ensures var f := Flush(m, q, batches);
      && Base(f.m)
      && (f.done ==> MidFlush(f.m, 0))
  {
    PromisingKept();
    assert Promising(m, q, batches);
    var q', bs' := FlushInduction(m, q, batches, (m: Mgr, q: nat, bs: seq<seq<Response>>) => Promising(m, q, bs), (m: Mgr) => RankOf(m));
  }

  lemma {:induction false} FlushReturns(m: Mgr, batches: seq<seq<Response>>)
    requires Base(m) && FlushPromised(m, Last(m), batches) && Flush(m, Last(m), batches).done
    ensures var f := Flush(m, Last(m), batches).m;
      Steady(f) && f.act == [] && f.actDir == {} && f.dirs[IN] == {}
  {
    FlushKeeps(m, Last(m), batches);
    AllFlushed(Flush(m, Last(m), batches).m);
  }

  lemma {:induction false} AllFlushed(m: Mgr)
    requires MidFlush(m, 0)
    ensures Steady(m) && m.act == [] && m.actDir == {} && m.dirs[IN] == {}
  {
    SomeElement(m.act);
  }

  lemma {:induction false} SomeElement(ms: seq<Msg>)
    ensures ms != [] ==> exists a :: a in ms
  {
    if ms != [] {
      assert ms[0] in ms;
    }
  }

  /** Escalation is bounded: however the sender answers, even when failures feed the queue
      being flushed, dispatches and answers together never exceed the initial rank. */
  lemma {:induction false} FlushBounded(m: Mgr, q: nat, batches: seq<seq<Response>>)
    requires MidFlush(m, q) && FlushPromised(m, q, batches)
    ensures FlushWork(m, q, batches) <= Rank(m.queues, 1)
  {
    PromisingKept();
    assert Promising(m, q, batches);
    var q', bs' := FlushInduction(m, q, batches, (m: Mgr, q: nat, bs: seq<seq<Response>>) => Promising(m, q, bs), (m: Mgr) => RankOf(m));
  }

  /** A flush still waiting has read every batch. */
  lemma {:induction false} WaitingReadsAll(m: Mgr, q: nat, batches: seq<seq<Response>>)
    requires Sound(m) && q < |m.queues| && !Flush(m, q, batches).done
    requires forall k :: 0 <= k < |batches| ==> batches[k] != []
    ensures FlushWork(m, q, batches) >= |batches|
    decreases |batches|, q
  {
    if Total(m, q) == 0 {
      WaitingReadsAll(m, q - 1, batches);
    } else if batches != [] {
      FlushUnfolds(m, q, batches);
      WaitingReadsAll(Turn(m, q, batches[0]), q, batches[1..]);
    }
  }

  /** flush_queue ends: as long as every drain of the pipe brings an answer, it has returned
      before there are more drains than the initial rank. */
  lemma {:induction false} FlushEnds(m: Mgr, q: nat, batches: seq<seq<Response>>)
    requires MidFlush(m, q) && FlushPromised(m, q, batches)
    requires forall k :: 0 <= k < |batches| ==> batches[k] != []
    requires |batches| > Rank(m.queues, 1)
    ensures Flush(m, q, batches).done
  {
    FlushBounded(m, q, batches);
    if !Flush(m, q, batches).done {
      WaitingReadsAll(m, q, batches);
    }
  }

  /** A waiting flush always has an answer to come: after feeding, the sender holds something. */
  lemma {:induction false} FlushNeverIdle(m: Mgr, q: nat)
    requires Base(m) && 1 <= q < |m.queues| && Total(m, q) > 0
    ensures Feed(m, q).act != []
  {
    CountersInRange(m, q);
    if m.queues[q].send > 0 {
      assert Home(m, q);
      CountZero(m.act, q);
    } else {
      FeedBase(m, q);
    }
  }

  // ---------- what an answer does ----------

  /** A failure raises the message by exactly one queue, with a new timer there, due after that
      queue's timeout; in the last queue it goes to `fail`.  Nothing else is delivered, fails or
      gets a timer. */
  lemma {:induction false} FailureRaises(m: Mgr, r: Response, q: nat)
    requires Base(m) && Promised(m, r) && r.code != 0 && r.code != 1
    requires 1 <= q < |m.queues| && r.inode in m.dirs[q]
    ensures var c, i := CheckResponse(m, r), r.inode;
      && |c.queues| == |m.queues| && i !in c.actDir && c.delivered == m.delivered
      && (q < Last(m) ==>
            && i in c.dirs[q + 1] && c.failDir == m.failDir
            && c.timers == m.timers + multiset{Node(TimeVal(r.now.sec + m.queues[q + 1].timeout, r.now.usec), q + 1, i)})
      && (q == Last(m) ==> c.failDir == m.failDir + {i} && !Waiting(c, i) && c.timers == m.timers)
      && (forall p :: 1 <= p < |c.queues| && p != q + 1 ==> i !in c.dirs[p])
  {
    var a := ActEntry(m, r.inode);
    assert CheckResponse(m, Response(r.inode, r.code, r.now)) == Answer(m, a.state, a.inode, r.code, r.now);
    OneHome(m, a.state, q, r.inode);
    AnswerParts(m, a, r.code, r.now);
    LeftAll(m, a);
  }

  /** It goes to the end of that queue, and into no other list. */
  lemma {:induction false} FailureAppends(m: Mgr, r: Response, q: nat)
    requires Base(m) && Promised(m, r) && r.code != 0 && r.code != 1
    requires 1 <= q < Last(m) && r.inode in m.dirs[q]
    ensures var c := CheckResponse(m, r);
      && |c.queues| == |m.queues|
      && c.queues[q + 1].msgs == m.queues[q + 1].msgs + [Msg(r.inode, TimeVal(0, 0), q + 1)]
      && forall p :: 1 <= p < |m.queues| && p != q && p != q + 1 ==> c.queues[p] == m.queues[p]
  {
    var a := ActEntry(m, r.inode);
    assert CheckResponse(m, Response(r.inode, r.code, r.now)) == Answer(m, a.state, a.inode, r.code, r.now);
    OneHome(m, a.state, q, r.inode);
  }

  /** A delivery takes the message, and only it, out of its queue and out of ACT for good. */
  lemma {:induction false} DeliveryLeaves(m: Mgr, r: Response, q: nat)
    requires Base(m) && Promised(m, r) && r.code == 0 && 1 <= q < |m.queues| && r.inode in m.dirs[q]
    ensures var c, i := CheckResponse(m, r), r.inode;
      && c.delivered == m.delivered + multiset{i} && c.failDir == m.failDir && c.timers == m.timers
      && c.actDir == m.actDir - {i} && |c.queues| == |m.queues| == |c.dirs|
      && c.dirs == m.dirs[q := m.dirs[q] - {i}] && !Waiting(c, i)
  {
    var a := ActEntry(m, r.inode);
    assert CheckResponse(m, Response(r.inode, 0, r.now)) == Answer(m, a.state, a.inode, 0, r.now);
    OneHome(m, a.state, q, r.inode);
    AnswerParts(m, a, 0, r.now);
    LeftAll(m, a);
  }

  /** A confirmation is counted and moves nothing; an answer for an inode not in ACT is ignored. */
  lemma {:induction false} ConfirmationCounts(m: Mgr, r: Response, q: nat)
    requires Base(m) && 1 <= q < |m.queues| && r.inode in m.dirs[q]
    ensures r.inode in m.actDir && r.code == 1 ==>
      var u := m.queues[q];
      CheckResponse(m, r) == m.(queues := m.queues[q := u.(conf := u.conf + 1)], confirmed := m.confirmed + {r.inode})
    ensures r.inode !in m.actDir ==> CheckResponse(m, r) == m
  {
    FindExact(m.act, r.inode);
    if r.inode in m.actDir {
      var a := ActEntry(m, r.inode);
      assert CheckResponse(m, Response(r.inode, r.code, r.now)) == Answer(m, a.state, a.inode, r.code, r.now);
      OneHome(m, a.state, q, r.inode);
    }
  }
}
