/** How often a message is tried: the queues from which it is given to the sender strictly rise,
    so there are at most countq attempts, and `fail` only after one in the last queue. */
module Attempts {
  import opened TimerHeap
  import opened MsgList
  import opened Scheduler
  import opened SchedulerRuns
  import opened Flushing

  /** Queue numbers from 1 to `top`, strictly rising. */
  ghost predicate Rising(s: seq<nat>, top: nat) {
    && (forall k :: 0 <= k < |s| ==> 1 <= s[k] <= top)
    && (forall j, k :: 0 <= j < k < |s| ==> s[j] < s[k])
  }

  lemma {:induction false} RisingBounded(s: seq<nat>, top: nat)
    requires Rising(s, top)
    ensures |s| <= top
    decreases |s|
  {
    if s != [] {
      var n := |s| - 1;
      RisingBounded(s[..n], s[n] - 1);
    }
  }

  ghost predicate EndsAt(s: seq<nat>, q: nat) { s != [] && s[|s| - 1] == q }

  ghost predicate EndsBelow(s: seq<nat>, q: nat) { s == [] || s[|s| - 1] < q }

  /** What the attempts at an inode's message have to do with where the message is. */
  ghost predicate Tried(m: Mgr, i: Inode)
    requires Shape(m)
  {
    var s := Tries(m, i);
    && Rising(s, Last(m))
    && (forall q :: 1 <= q < |m.queues| && i in m.dirs[q] ==>
          if i in m.actDir then EndsAt(s, q) else EndsBelow(s, q))
    && (i in m.failDir ==> EndsAt(s, Last(m)))
  }

  ghost predicate AllTried(m: Mgr)
    requires Shape(m)
  {
    forall i :: Tried(m, i)
  }

  lemma {:induction false} DispatchTried(m: Mgr, q: nat, i: Inode)
    requires Base(m) && AllTried(m) && 1 <= q < |m.queues| && i in m.dirs[q] && i !in m.actDir
    ensures AllTried(Dispatch(m, q, i))
  {
    var d := Dispatch(m, q, i);
    forall j ensures Tried(d, j) {
      assert Tried(m, j);
      if j == i {
        NextTried(m, q, i);
      }
    }
  }

  lemma {:induction false} NextTried(m: Mgr, q: nat, i: Inode)
    requires Base(m) && Tried(m, i) && 1 <= q < |m.queues| && i in m.dirs[q] && i !in m.actDir
    ensures Tried(Dispatch(m, q, i), i)
  {
    forall p | 1 <= p < |m.queues| && i in m.dirs[p] ensures p == q {
      OneHome(m, p, q, i);
    }
    OneHome(m, q, q, i);
    assert i !in m.failDir;
    RisingMore(Tries(m, i), q, Last(m));
    assert Tries(Dispatch(m, q, i), i) == Tries(m, i) + [q];
  }

  lemma RisingMore(s: seq<nat>, q: nat, top: nat)
    requires Rising(s, top) && EndsBelow(s, q) && 1 <= q <= top
    ensures Rising(s + [q], top) && EndsAt(s + [q], q)
  {
  }

  lemma {:induction false} FeedTried(m: Mgr, q: nat)
    requires Base(m) && AllTried(m) && 1 <= q < |m.queues|
    ensures AllTried(Feed(m, q))
  {
    if CanDispatch(m, q, WINSIZE) {
      var i := HeadReady(m, q);
      DispatchTried(m, q, i);
    }
  }

  /** The head of a queue with nothing in flight is there and not in ACT. */
  lemma {:induction false} HeadReady(m: Mgr, q: nat) returns (i: Inode)
    requires Base(m) && 1 <= q < |m.queues| && CanDispatch(m, q, WINSIZE)
    ensures i == HeadInode(m, q) && i in m.dirs[q] && i !in m.actDir
  {
    CountersInRange(m, q);
    assert Home(m, q);
    i := HeadInode(m, q);
    assert m.queues[q].msgs[0] in m.queues[q].msgs && i == m.queues[q].msgs[0].inode;
    IdleQueueNotInAct(m, q, i);
  }

  lemma {:induction false} TimerTried(m: Mgr, t: Node)
    requires Steady(m) && AllTried(m) && t in m.timers
    ensures AllTried(TimerExpired(m, t))
  {
    var q, i := t.indque, t.inode;
    FindExact(m.queues[q].msgs, i);
    assert Home(m, q);
    if Present(m, t) && CanDispatch(m, q, WINDEFSIZE) {
      TimerNotInAct(m, t);
      DispatchTried(m, q, i);
      SameTried(Dispatch(m, q, i), TimerExpired(m, t));
    } else {
      SameTried(m, TimerExpired(m, t));
    }
  }

  /** Timers have no part in it. */
  lemma {:induction false} SameTried(m: Mgr, c: Mgr)
    requires Shape(m) && AllTried(m) && c == m.(timers := c.timers)
    ensures AllTried(c)
  {
    forall j ensures Tried(c, j) {
      assert Tried(m, j);
    }
  }

  /** Where inode j is after a final answer for `a`: others stay, it is one queue higher, in
      `fail` from the last one, or delivered. */
  ghost predicate Replaced(m: Mgr, a: Msg, c: Mgr, j: Inode) {
    && Shape(m) && Shape(c) && |c.queues| == |m.queues|
    && if j != a.inode then
         && (j in c.actDir <==> j in m.actDir) && (j in c.failDir <==> j in m.failDir)
         && forall p :: 1 <= p < |m.queues| ==> (j in c.dirs[p] <==> j in m.dirs[p])
       else
         && j !in c.actDir && (j in c.failDir ==> a.state == Last(m))
         && forall p :: 1 <= p < |m.queues| && j in c.dirs[p] ==> p == a.state + 1
  }

  lemma {:induction false} LeaveReplaces(m: Mgr, a: Msg, c: Mgr, j: Inode)
    requires Base(m) && a in m.act && c.dirs == Leave(m, a.state, a.inode).dirs && |c.queues| == |m.queues|
    requires c.actDir == m.actDir - {a.inode} && m.failDir <= c.failDir
    requires c.failDir <= m.failDir + if a.state == Last(m) then {a.inode} else {}
    ensures Replaced(m, a, c, j)
  {
    LeftAll(m, a);
    assert a.inode in m.dirs[a.state];
  }

  lemma {:induction false} AnswerReplaces(m: Mgr, a: Msg, code: int, now: TimeVal, j: Inode)
    requires Base(m) && a in m.act && code != 1
    ensures Replaced(m, a, Answer(m, a.state, a.inode, code, now), j) && Answer(m, a.state, a.inode, code, now).tries == m.tries
  {
    AnswerParts(m, a, code, now);
    var g := Leave(m, a.state, a.inode);
    LeaveReplaces(m, a, if code == 0 || a.state < Last(m) then g else g.(failDir := g.failDir + {a.inode}), j);
  }

  lemma {:induction false} ReplacedTried(m: Mgr, a: Msg, c: Mgr, j: Inode)
    requires Base(m) && a in m.act && Tried(m, j) && Replaced(m, a, c, j) && c.tries == m.tries
    ensures Tried(c, j)
  {
    if j == a.inode {
      assert j in Inodes(m.act) && j in m.dirs[a.state];
    }
  }

  lemma {:induction false} AnswerTried(m: Mgr, a: Msg, code: int, now: TimeVal)
    requires Base(m) && AllTried(m) && a in m.act
    ensures AllTried(Answer(m, a.state, a.inode, code, now))
  {
    var c := Answer(m, a.state, a.inode, code, now);
    forall j ensures Tried(c, j) {
      assert Tried(m, j);
      if code != 1 {
        AnswerReplaces(m, a, code, now, j);
        ReplacedTried(m, a, c, j);
      }
    }
  }

  lemma {:induction false} ResponseTried(m: Mgr, r: Response)
    requires Base(m) && AllTried(m) && Promised(m, r)
    ensures AllTried(CheckResponse(m, r))
  {
    var a := ActEntry(m, r.inode);
    assert CheckResponse(m, Response(r.inode, r.code, r.now)) == Answer(m, a.state, a.inode, r.code, r.now);
    AnswerTried(m, a, r.code, r.now);
  }

  lemma {:induction false} ReadAllTried(m: Mgr, rs: seq<Response>)
    requires Base(m) && AllTried(m) && AllPromised(m, rs)
    ensures Base(ReadAll(m, rs)) && AllTried(ReadAll(m, rs))
    decreases |rs|
  {
    if rs != [] {
      ResponseBase(m, rs[0]);
      ResponseTried(m, rs[0]);
      ReadAllTried(CheckResponse(m, rs[0]), rs[1..]);
    }
  }

  lemma {:induction false} ScanTried(m: Mgr, found: seq<Msg>, line: seq<Msg>)
    requires Base(m) && AllTried(m) && Fresh(m, found)
    ensures AllTried(ScanDrop(m, found, line))
  {
    var c := ScanDrop(m, found, line);
    assert (set f | f in found :: f.inode) == Inodes(found);
    forall j ensures Tried(c, j) {
      assert Tried(m, j);
      if j in Inodes(found) {
        NewTried(m, c, j);
      }
    }
  }

  lemma {:induction false} NewTried(m: Mgr, c: Mgr, j: Inode)
    requires Shape(m) && Shape(c) && |c.queues| == |m.queues| && Tries(c, j) == []
    requires j !in c.actDir && j !in c.failDir
    ensures Tried(c, j)
  {
  }

  ghost predicate Trying(m: Mgr, q: nat, bs: seq<seq<Response>>) { Promising(m, q, bs) && AllTried(m) }

  lemma {:induction false} TurnTried(m: Mgr, q: nat, bs: seq<seq<Response>>)
    requires Trying(m, q, bs) && 1 <= q && Total(m, q) > 0 && bs != []
    ensures AllTried(Turn(m, q, bs[0]))
  {
    FlushUnfolds(m, q, bs);
    FeedTried(m, q);
    FeedBase(m, q);
    ReadAllTried(Feed(m, q), bs[0]);
  }

  lemma {:induction false} TryingKept()
    ensures TurnKeeps((m: Mgr, q: nat, bs: seq<seq<Response>>) => Trying(m, q, bs), (m: Mgr) => RankOf(m))
  {
    forall m: Mgr, q: nat, bs: seq<seq<Response>> | Trying(m, q, bs)
      ensures Sound(m) && q < |m.queues| && RankOf(m) >= 0
      ensures 1 <= q && Total(m, q) == 0 ==> Trying(m, q - 1, bs)
      ensures 1 <= q && Total(m, q) > 0 && bs != [] ==>
        Trying(Turn(m, q, bs[0]), q, bs[1..]) && RankOf(Turn(m, q, bs[0])) <= RankOf(m) - TurnWork(m, q, bs[0])
    {
      RankNonnegative(m, 1);
      if 1 <= q && Total(m, q) == 0 {
        EmptyQueueFlushed(m, q);
      } else if 1 <= q && bs != [] {
        TurnMade(m, q, bs);
        TurnTried(m, q, bs);
      }
    }
  }

  lemma {:induction false} FlushTried(m: Mgr, q: nat, batches: seq<seq<Response>>)
    requires MidFlush(m, q) && AllTried(m) && FlushPromised(m, q, batches)
    ensures Shape(Flush(m, q, batches).m) && AllTried(Flush(m, q, batches).m)
  {
    TryingKept();
    assert Trying(m, q, batches);
    var q', bs' := FlushInduction(m, q, batches, (m: Mgr, q: nat, bs: seq<seq<Response>>) => Trying(m, q, bs), (m: Mgr) => RankOf(m));
  }
}
