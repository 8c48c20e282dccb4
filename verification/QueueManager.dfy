/** The queue manager's globals, updated in place by check_response, flush_queue and the
    branches of the main loop; each method does what the function of the same name in
    `Scheduler` says.
 */
module QueueManager {
  import opened Basics
  import opened TimerHeap
  import opened MsgList
  import opened Scheduler
  import opened PollWait

  class Manager {
    var m: Mgr                  // the globals; `timers` is what the heap holds
    const heap: Heap
    var wait: int               // timeout of the poll
    var minnode: Option<Node>   // what heap_min last returned

    ghost predicate Valid()
      reads this, heap, heap.nodes
    {
      var all := Sound(m) && Clocked();
      all
    }

    /** Still valid, and the heap's array is the one it was or a new one. */
    twostate predicate Kept()
      reads this, heap, heap.nodes
    {
      var all := Valid() && (heap.nodes == old(heap.nodes) || fresh(heap.nodes));
      all
    }

    /** The heap is a heap of the timers. */
    ghost predicate Clocked()
      reads this, heap, heap.nodes
    {
      var same := heap.Valid() && heap.contents == m.timers;
      same
    }

    /** Start-up: queues and directories as restored, an empty heap of 16. */
    constructor (queues: seq<Queue>, dirs: seq<set<Inode>>, stale: set<Inode>)
      requires |queues| >= 2 && |dirs| == |queues|
      ensures Valid() && fresh(heap) && fresh(heap.nodes) && wait == FOREVER && minnode == None
      ensures var all := set q, i | 1 <= q < |dirs| && i in dirs[q] :: i;
        m == Mgr(true, [], {}, stale, queues, dirs, multiset{}, {}, multiset(all), multiset{}, {}, map[])
    {
      var all := set q, i | 1 <= q < |dirs| && i in dirs[q] :: i;
      m := Mgr(true, [], {}, stale, queues, dirs, multiset{}, {}, multiset(all), multiset{}, {}, map[]);
      heap := new Heap(16);
      wait, minnode := FOREVER, None;
    }

    method Dispatch(q: nat, i: Inode)
      requires Sound(m) && 1 <= q < |m.queues|
      modifies `m
      ensures Sound(m) && m == Scheduler.Dispatch(old(m), q, i)
    {
      if i !in m.dirs[q] || i in m.actDir || i in m.stale {
        m := m.(alive := false);
        return;
      }
      m := m.(tries := m.tries[i := Tries(m, i) + [q]]);
      m := m.(actDir := m.actDir + {i});
      m := m.(act := m.act + [Msg(i, NO_TIME, q)]);
      m := m.(queues := m.queues[q := m.queues[q].(send := m.queues[q].send + 1)]);
    }

    method Leave(q: nat, i: Inode)
      requires Sound(m) && 1 <= q < |m.queues|
      modifies `m
      ensures Sound(m) && m == Scheduler.Leave(old(m), q, i)
    {
      DelSubset(m.act, i);
      m := m.(actDir := m.actDir - {i});
      m := m.(dirs := m.dirs[q := m.dirs[q] - {i}]);
      var act := ElemDel(m.act, i);
      var msgs := ElemDel(m.queues[q].msgs, i);
      var u := m.queues[q];
      m := m.(act := act, queues := m.queues[q := u.(msgs := msgs, send := u.send - 1, conf := u.conf - 1)]);
      m := m.(confirmed := m.confirmed - {i});
    }

    method Defer(q: nat, i: Inode, now: TimeVal)
      requires Valid() && 1 <= q < |m.queues|
      modifies this, heap, heap.nodes
      ensures Kept()
      ensures m == Scheduler.Defer(old(m), q, i, now)
    {
      AddTimer(Deadline(now, m.queues[q].timeout), q, i);
      File(q, i);
    }

    method AddTimer(key: TimeVal, q: nat, i: Inode)
      requires Clocked()
      modifies `m, heap, heap.nodes
      ensures Clocked() && (heap.nodes == old(heap.nodes) || fresh(heap.nodes))
      ensures m == old(m).(timers := old(m).timers + multiset{Node(key, q, i)})
    {
      heap.Insert(key, q, i);
      m := m.(timers := m.timers + multiset{Node(key, q, i)});
    }

    /** The file goes to queue q's directory and the message to its list. */
    method File(q: nat, i: Inode)
      requires Sound(m) && 1 <= q < |m.queues|
      modifies `m
      ensures var u := old(m).queues[q];
        m == old(m).(dirs := old(m).dirs[q := old(m).dirs[q] + {i}],
                     queues := old(m).queues[q := u.(msgs := u.msgs + [Msg(i, NO_TIME, q)])])
    {
      var u := m.queues[q];
      m := m.(dirs := m.dirs[q := m.dirs[q] + {i}]);
      m := m.(queues := m.queues[q := u.(msgs := u.msgs + [Msg(i, NO_TIME, q)])]);
    }

    /** A final answer: the message leaves, and is delivered, failed for good or deferred. */
    method Finish(q: nat, i: Inode, code: int, now: TimeVal)
      requires Valid() && 1 <= q < |m.queues| && code != 1
      modifies this, heap, heap.nodes
      ensures Kept()
      ensures m == Answer(old(m), q, i, code, now)
    {
      if i !in m.actDir || i !in m.dirs[q] {
        m := m.(alive := false);
        return;
      }
      Leave(q, i);
      if code == 0 {
        m := m.(delivered := m.delivered + multiset{i});
      } else {
        Escalate(q, i, now);
      }
    }

    /** A failure: on to the next queue, or to `fail` from the last. */
    method Escalate(q: nat, i: Inode, now: TimeVal)
      requires Valid() && 1 <= q < |m.queues|
      modifies this, heap, heap.nodes
      ensures Kept()
      ensures m == if q == Last(old(m)) then old(m).(failDir := old(m).failDir + {i})
                   else Scheduler.Defer(old(m), q + 1, i, now)
    {
      if q == |m.queues| - 1 {
        m := m.(failDir := m.failDir + {i});
      } else {
        Defer(q + 1, i, now);
      }
    }

    /** -1 for an unknown inode, 1 for a delivery, 0 otherwise. */
    method CheckResponse(r: Response) returns (ret: int)
      requires Valid()
      modifies this, heap, heap.nodes
      ensures Kept()
      ensures m == Scheduler.CheckResponse(old(m), r)
      ensures ret == (if r.inode !in Inodes(old(m).act) then -1 else if r.code == 0 then 1 else 0)
    {
      var k := ElemFind(m.act, r.inode);
      if k < 0 {
        return -1;
      }
      Respond(m.act[k].state, r.inode, r.code, r.now);
      ret := if r.code == 0 then 1 else 0;
    }

    method Respond(q: nat, i: Inode, code: int, now: TimeVal)
      requires Valid() && 1 <= q < |m.queues|
      modifies this, heap, heap.nodes
      ensures Kept()
      ensures m == Answer(old(m), q, i, code, now)
    {
      if code == 1 {
        Confirm(q, i);
      } else {
        Finish(q, i, code, now);
      }
    }

    method Confirm(q: nat, i: Inode)
      requires Sound(m) && 1 <= q < |m.queues|
      modifies `m
      ensures Sound(m) && m.timers == old(m).timers && m == Answer(old(m), q, i, 1, NO_TIME)
    {
      m := m.(queues := m.queues[q := m.queues[q].(conf := m.queues[q].conf + 1)]);
      m := m.(confirmed := m.confirmed + {i});
    }

    /** Read the sender's pipe until it would block. */
    method ReadPipe(rs: seq<Response>)
      requires Valid()
      modifies this, heap, heap.nodes
      ensures Kept()
      ensures m == ReadAll(old(m), rs)
    {
      var j := 0;
      assert rs[0..] == rs;
      while j < |rs|
        invariant 0 <= j <= |rs| && Valid()
        invariant heap.nodes == old(heap.nodes) || fresh(heap.nodes)
        invariant ReadAll(m, rs[j..]) == ReadAll(old(m), rs)
      {
        assert rs[j..][1..] == rs[j + 1..];
        var _ := CheckResponse(rs[j]);
        j := j + 1;
      }
    }

    method Feed(q: nat)
      requires Sound(m) && 1 <= q < |m.queues|
      modifies `m
      ensures Sound(m) && m == Scheduler.Feed(old(m), q)
    {
      var u := m.queues[q];
      if u.send < WINSIZE && u.send < |u.msgs| && u.send == u.conf {
        Dispatch(q, HeadInode(m, q));
      }
    }

    /** One turn of the inner loop of flush_queue. */
    method Turn(q: nat, batch: seq<Response>)
      requires Valid() && 1 <= q < |m.queues|
      modifies this, heap, heap.nodes
      ensures Kept()
      ensures Sound(Scheduler.Feed(old(m), q)) && m == ReadAll(Scheduler.Feed(old(m), q), batch)
      ensures |m.queues| == |old(m).queues|
    {
      Feed(q);
      ReadPipe(batch);
    }

    /** The inner loop of flush_queue: one queue until it is empty.  `batches` are the successive
        drains of the pipe, `rest` those not yet read; false means still waiting. */
    method FlushOne(q: nat, batches: seq<seq<Response>>) returns (rest: seq<seq<Response>>, done: bool)
      requires Valid() && 1 <= q < |m.queues|
      modifies this, heap, heap.nodes
      ensures Kept()
      ensures Drained(m, rest, done) == Scheduler.FlushOne(old(m), q, batches)
    {
      rest, done := batches, true;
      ghost var goal := Scheduler.FlushOne(m, q, batches);
      while |m.queues[q].msgs| > 0
        invariant q < |m.queues| && Kept()
        invariant Scheduler.FlushOne(m, q, rest) == goal
        decreases |rest|
      {
        if rest == [] {
          return rest, false;
        }
        Turn(q, rest[0]);
        rest := rest[1..];
      }
    }

    /** The same, seen from the outer loop: what remains is the flush of the queues below. */
    method FlushNext(q: nat, batches: seq<seq<Response>>) returns (rest: seq<seq<Response>>, done: bool)
      requires Valid() && 1 <= q < |m.queues|
      modifies this, heap, heap.nodes
      ensures Kept() && q < |m.queues|
      ensures Flush(old(m), q, batches) == if done then Flush(m, q - 1, rest) else Flushed(m, false)
    {
      FlushByQueue(m, q, batches);
      rest, done := FlushOne(q, batches);
    }

    /** flush_queue: from the last queue down to IN, one message in flight at a time. */
    method FlushQueue(batches: seq<seq<Response>>) returns (done: bool)
      requires Valid()
      modifies this, heap, heap.nodes
      ensures Kept()
      ensures Flushed(m, done) == Flush(old(m), Last(old(m)), batches)
    {
      ghost var goal := Flush(m, Last(m), batches);
      var indque, rest := |m.queues| - 1, batches;
      done := true;
      while indque > 0
        invariant 0 <= indque < |m.queues| && Kept()
        invariant Flush(m, indque, rest) == goal
      {
        rest, done := FlushNext(indque, rest);
        if !done {
          return;
        }
        indque := indque - 1;
      }
    }

    /** New files enter IN, which is then sorted; `line` is the list the sort leaves. */
    method ScanDrop(found: seq<Msg>) returns (count: nat, ghost line: seq<Msg>)
      requires Sound(m)
      modifies `m
      ensures Sorts(old(m), found, line)
      ensures Sound(m) && m == Scheduler.ScanDrop(old(m), found, line)
      ensures count == |found|
    {
      count := |found|;
      var u := m.queues[IN];
      var sorted := SortByTime(u.msgs + found);
      SortByTimeExact(u.msgs + found);
      line := sorted;
      if count > 0 {
        var inodes := set f | f in found :: f.inode;
        m := m.(dirs := m.dirs[IN := m.dirs[IN] + inodes]);
        m := m.(queues := m.queues[IN := u.(msgs := sorted)]);
        m := m.(accepted := m.accepted + multiset(inodes), tries := m.tries - inodes);
      }
    }

    /** Take the earliest timer off the heap. */
    method DropMin(t: Node)
      requires Clocked() && heap.nodecount > 0 && t == heap.nodes[1]
      modifies `m, heap, heap.nodes
      ensures Clocked() && m == old(m).(timers := old(m).timers - multiset{t})
    {
      var _ := heap.ExtractMin();
      m := m.(timers := m.timers - multiset{t});
    }

    /** The timer's message goes out if it is there and the window allows; says whether the
        timer has served. */
    method SendDue(t: Node) returns (served: bool)
      requires Sound(m) && 1 <= t.indque < |m.queues|
      modifies `m
      ensures var ready := CanDispatch(old(m), t.indque, WINDEFSIZE);
        && Sound(m) && m.timers == old(m).timers && served == (!Present(old(m), t) || ready)
        && m == if Present(old(m), t) && ready then Scheduler.Dispatch(old(m), t.indque, t.inode) else old(m)
    {
      var u := m.queues[t.indque];
      var k := ElemFind(u.msgs, t.inode);
      if k < 0 {
        return true;
      }
      served := u.send < WINDEFSIZE && u.send < |u.msgs| && u.send == u.conf;
      if served {
        Dispatch(t.indque, t.inode);
      }
    }

    /** The head of a connected turn: feed IN, and set the timeout by the root of the heap. */
    method BeginTurn(now: TimeVal)
      requires Valid() && (wait > 0 ==> m.timers != multiset{})
      modifies `m, `wait, `minnode
      ensures Valid() && m == Scheduler.Feed(old(m), IN) && m.timers == old(m).timers
      ensures m.timers == multiset{} ==> wait == FOREVER && minnode == old(minnode)
      ensures m.timers != multiset{} ==>
        && minnode.Some? && IsRoot(minnode, m.timers) && heap.nodecount > 0 && minnode.value == heap.nodes[1]
        && wait == NextWait(old(wait), minnode, now)
    {
      Feed(IN);
      var root := heap.Min();
      if wait > 0 || root.Some? {
        minnode := root;
      }
      wait := NextWait(wait, root, now);
    }

    /** The poll timed out: act on the node that `minnode` points to, the root of the heap. */
    method TimerExpired()
      requires Valid() && heap.nodecount > 0 && minnode.Some? && minnode.value == heap.nodes[1]
      requires 1 <= minnode.value.indque < |m.queues|
      modifies this, heap, heap.nodes
      ensures Valid() && m == Scheduler.TimerExpired(old(m), old(minnode).value)
      ensures wait == FOREVER && minnode == old(minnode)
    {
      var t := minnode.value;
      wait := FOREVER;
      var served := SendDue(t);
      if served {
        DropMin(t);
      }
    }

    /** A turn in which nothing becomes readable: if poll was given a timeout it expires, and
        then there is a root to act on. */
    method QuietTurn(now: TimeVal)
      requires Valid() && Clocks(m) && (wait > 0 ==> m.timers != multiset{})
      modifies this, heap, heap.nodes
      ensures Valid()
      ensures old(m).timers == multiset{} ==> m == Scheduler.Feed(old(m), IN)
      ensures old(m).timers != multiset{} ==>
        && minnode.Some? && IsRoot(minnode, old(m).timers)
        && var fed := Scheduler.Feed(old(m), IN);
           1 <= minnode.value.indque < |fed.queues| && m == Scheduler.TimerExpired(fed, minnode.value)
    {
      BeginTurn(now);
      if wait >= 0 {
        TimerExpired();
      }
    }
  }
}
