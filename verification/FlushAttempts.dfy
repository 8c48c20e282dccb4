/** A flush gives every waiting message one attempt, from the queue it waits in: a message that
    fails moves to a queue the flush has already passed. */
module FlushAttempts {
  import opened TimerHeap
  import opened MsgList
  import opened Scheduler
  import opened SchedulerRuns
  import opened Flushing
  import opened Attempts

  /** Message i waited in queue p, tried from `before`, when the flush began; the flush is at
      queue q.  Either it still waits there, or it has been tried once and cannot be again. */
  ghost predicate Spent(m: Mgr, q: nat, i: Inode, p: nat, before: seq<nat>)
    requires Shape(m) && q < |m.queues|
  {
    if Tries(m, i) == before then 1 <= p <= q && i in m.dirs[p] && i !in m.actDir
    else
      && Tries(m, i) == before + [p]
      && (forall k :: 1 <= k < q ==> i !in m.dirs[k])
      && (1 <= q && i in m.dirs[q] ==> i in m.actDir)
  }

  lemma {:induction false} FeedSpent(m: Mgr, q: nat, i: Inode, p: nat, before: seq<nat>)
    requires Base(m) && 1 <= q < |m.queues| && Spent(m, q, i, p, before)
    ensures Spent(Feed(m, q), q, i, p, before)
  {
    if CanDispatch(m, q, WINSIZE) {
      var h := HeadReady(m, q);
      DispatchGives(m, q, h);
      if h == i {
        OneHome(m, p, q, i);
        forall k | 1 <= k < q ensures i !in m.dirs[k] {
          if i in m.dirs[k] {
            OneHome(m, k, q, i);
          }
        }
      }
    }
  }

  lemma {:induction false} AnswerSpent(m: Mgr, a: Msg, code: int, now: TimeVal, q: nat, i: Inode, p: nat, before: seq<nat>)
    requires Base(m) && a in m.act && 1 <= q < |m.queues| && Spent(m, q, i, p, before)
    ensures var c := Answer(m, a.state, a.inode, code, now);
      Shape(c) && |c.queues| == |m.queues| && Spent(c, q, i, p, before)
  {
    if code != 1 {
      AnswerReplaces(m, a, code, now, i);
      if i == a.inode {
        assert i in Inodes(m.act) && i in m.dirs[a.state];
      }
    }
  }

  lemma {:induction false} ReadAllSpent(m: Mgr, rs: seq<Response>, q: nat, i: Inode, p: nat, before: seq<nat>)
    requires MidFlush(m, q) && AllPromised(m, rs) && 1 <= q < |m.queues| && Spent(m, q, i, p, before)
    ensures Spent(ReadAll(m, rs), q, i, p, before)
    decreases |rs|
  {
    if rs != [] {
      var r := rs[0];
      var a := ActEntry(m, r.inode);
      assert CheckResponse(m, Response(r.inode, r.code, r.now)) == Answer(m, a.state, a.inode, r.code, r.now);
      AnswerSpent(m, a, r.code, r.now, q, i, p, before);
      ResponseFlushing(m, q, r);
      ReadAllSpent(CheckResponse(m, r), rs[1..], q, i, p, before);
    }
  }

  lemma {:induction false} PassedSpent(m: Mgr, q: nat, i: Inode, p: nat, before: seq<nat>)
    requires MidFlush(m, q) && 1 <= q && Total(m, q) == 0 && Spent(m, q, i, p, before)
    ensures Spent(m, q - 1, i, p, before)
  {
    assert Home(m, q);
    assert m.dirs[q] == {} by {
      assert m.queues[q].msgs == [];
    }
  }

  lemma {:induction false} TurnSpent(m: Mgr, q: nat, batch: seq<Response>, i: Inode, p: nat, before: seq<nat>)
    requires MidFlush(m, q) && 1 <= q && AllPromised(Feed(m, q), batch) && Spent(m, q, i, p, before)
    ensures MidFlush(Turn(m, q, batch), q) && Spent(Turn(m, q, batch), q, i, p, before)
  {
    FeedFlushing(m, q);
    FeedSpent(m, q, i, p, before);
    ReadAllSpent(Feed(m, q), batch, q, i, p, before);
    TurnFlushing(m, q, batch);
  }

  lemma {:induction false} TurnMadeSpent(m: Mgr, q: nat, batches: seq<seq<Response>>, i: Inode, p: nat, before: seq<nat>)
    returns (m': Mgr)
    requires MidFlush(m, q) && FlushPromised(m, q, batches) && Spent(m, q, i, p, before)
    requires 1 <= q && Total(m, q) > 0 && batches != []
    ensures MidFlush(m', q) && Spent(m', q, i, p, before) && FlushPromised(m', q, batches[1..])
    ensures Flush(m, q, batches) == Flush(m', q, batches[1..])
  {
    FlushUnfolds(m, q, batches);
    m' := Turn(m, q, batches[0]);
    TurnSpent(m, q, batches[0], i, p, before);
  }

  lemma {:induction false} FlushSpent(m: Mgr, q: nat, batches: seq<seq<Response>>, i: Inode, p: nat, before: seq<nat>)
    requires MidFlush(m, q) && FlushPromised(m, q, batches) && Flush(m, q, batches).done && Spent(m, q, i, p, before)
    ensures Tries(Flush(m, q, batches).m, i) == before + [p]
    decreases |batches|, q
  {
    if q == 0 {
    } else if Total(m, q) == 0 {
      EmptyQueueFlushed(m, q);
      PassedSpent(m, q, i, p, before);
      FlushSpent(m, q - 1, batches, i, p, before);
    } else if batches != [] {
      var m' := TurnMadeSpent(m, q, batches, i, p, before);
      FlushSpent(m', q, batches[1..], i, p, before);
    }
  }

  /** Every message that waits in a queue when a flush begins, and is not with the sender, has been
      given to the sender exactly once when the flush returns, from that queue. */
  lemma {:induction false} FlushTriesOnce(m: Mgr, batches: seq<seq<Response>>, p: nat, i: Inode)
    requires Base(m) && FlushPromised(m, Last(m), batches) && Flush(m, Last(m), batches).done
    requires 1 <= p < |m.queues| && i in m.dirs[p] && i !in m.actDir
    ensures Tries(Flush(m, Last(m), batches).m, i) == Tries(m, i) + [p]
  {
    FlushSpent(m, Last(m), batches, i, p, Tries(m, i));
  }

  // ---------- all that the pipe holds ----------

  /** The messages a list of answers says were delivered. */
  function Reported(rs: seq<Response>): multiset<Inode> {
    if rs == [] then multiset{}
    else (if rs[0].code == 0 then multiset{rs[0].inode} else multiset{}) + Reported(rs[1..])
  }

  /** The messages a list of answers disposes of, one way or the other. */
  function Final(rs: seq<Response>): set<Inode> {
    if rs == [] then {} else (if rs[0].code != 1 then {rs[0].inode} else {}) + Final(rs[1..])
  }

  lemma Regroup(a: multiset<Inode>, b: multiset<Inode>, c: multiset<Inode>, x: set<Inode>, y: set<Inode>, z: set<Inode>)
    ensures a + b + c == a + (b + c) && x - y - z == x - (y + z)
  {
  }

  lemma {:induction false} AnswerCounts(m: Mgr, r: Response)
    requires Base(m) && Promised(m, r)
    ensures CheckResponse(m, r).delivered == m.delivered + (if r.code == 0 then multiset{r.inode} else multiset{})
    ensures CheckResponse(m, r).actDir == m.actDir - (if r.code != 1 then {r.inode} else {})
  {
    var a := ActEntry(m, r.inode);
    assert CheckResponse(m, Response(r.inode, r.code, r.now)) == Answer(m, a.state, a.inode, r.code, r.now);
    if r.code != 1 {
      AnswerParts(m, a, r.code, r.now);
    }
  }

  /** Reading the pipe uses every answer in it: what they report is delivered, and what they
      dispose of is no longer with the sender. */
  lemma {:induction false} AnswersCount(m: Mgr, rs: seq<Response>)
    requires Base(m) && AllPromised(m, rs)
    ensures ReadAll(m, rs).delivered == m.delivered + Reported(rs)
    ensures ReadAll(m, rs).actDir == m.actDir - Final(rs)
    decreases |rs|
  {
    if rs != [] {
      AnswerCounts(m, rs[0]);
      ResponseBase(m, rs[0]);
      AnswersCount(CheckResponse(m, rs[0]), rs[1..]);
      Regroup(m.delivered, if rs[0].code == 0 then multiset{rs[0].inode} else multiset{}, Reported(rs[1..]),
              m.actDir, if rs[0].code != 1 then {rs[0].inode} else {}, Final(rs[1..]));
    }
  }
}
