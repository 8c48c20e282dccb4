/** The store-and-forward queue manager as values: queue 1 (IN) takes what arrives, queues
    2 .. countq hold deferred messages under a timer each, ACT holds what the sender process
    has been given.  Directories are sets of inodes; a file operation that fails ends the
    process.
 */
module Scheduler {
  import opened TimerHeap
  import opened MsgList

  const IN: nat := 1
  const WINSIZE: nat := 1
  const WINDEFSIZE: nat := 10

  datatype Queue = Queue(msgs: seq<Msg>, send: int, conf: int, timeout: nat)

  /** `queues[q]` and `dirs[q]` belong to queue q >= 1; slot 0 is ACT's, kept in `act` and
      `actDir`.  `stale` are files that an earlier process left in the directory of ACT.
      The last four record history and steer nothing: how often an inode number was accepted
      and delivered, which messages in ACT are confirmed, and from which queues the present
      message of an inode has been given to the sender. */
  datatype Mgr = Mgr(
    alive: bool,
    act: seq<Msg>, actDir: set<Inode>, stale: set<Inode>,
    queues: seq<Queue>, dirs: seq<set<Inode>>,
    timers: multiset<Node>,
    failDir: set<Inode>,
    accepted: multiset<Inode>, delivered: multiset<Inode>, confirmed: set<Inode>,
    tries: map<Inode, seq<nat>>)

  function Tries(m: Mgr, i: Inode): seq<nat> { if i in m.tries then m.tries[i] else [] }

  /** An answer of the sender process: code 1 says taken, 0 delivered, anything else failed. */
  datatype Response = Response(inode: Inode, code: int, now: TimeVal)

  const NO_TIME := TimeVal(0, 0)

  function Last(m: Mgr): int { |m.queues| - 1 }

  predicate Shape(m: Mgr) { |m.queues| >= 2 && |m.dirs| == |m.queues| }

  predicate Sound(m: Mgr) {
    && Shape(m)
    && forall a :: a in m.act ==> 1 <= a.state < |m.queues|
  }

  function Total(m: Mgr, q: nat): nat
    requires q < |m.queues|
  {
    |m.queues[q].msgs|
  }

  // ---------- operations ----------

  predicate CanDispatch(m: Mgr, q: nat, window: nat)
    requires q < |m.queues|
  {
    m.queues[q].send < window && m.queues[q].send < Total(m, q) && m.queues[q].send == m.queues[q].conf
  }

  /** Link the file into ACT and hand the inode to the sender. */
  function Dispatch(m: Mgr, q: nat, i: Inode): Mgr
    requires Shape(m) && 1 <= q < |m.queues|
  {
    if i !in m.dirs[q] || i in m.actDir + m.stale then m.(alive := false)
    else m.(
      act := m.act + [Msg(i, NO_TIME, q)], actDir := m.actDir + {i}, tries := m.tries[i := Tries(m, i) + [q]],
      queues := m.queues[q := m.queues[q].(send := m.queues[q].send + 1)])
  }

  /** A message leaves ACT and its queue. */
  function Leave(m: Mgr, q: nat, i: Inode): Mgr
    requires Shape(m) && 1 <= q < |m.queues|
  {
    var u := m.queues[q];
    m.(act := Del(m.act, i), actDir := m.actDir - {i},
       queues := m.queues[q := u.(msgs := Del(u.msgs, i), send := u.send - 1, conf := u.conf - 1)],
       dirs := m.dirs[q := m.dirs[q] - {i}],
       confirmed := m.confirmed - {i})
  }

  function Deadline(now: TimeVal, timeout: nat): TimeVal { TimeVal(now.sec + timeout, now.usec) }

  /** A message enters a deferred queue under a timer. */
  function Defer(m: Mgr, q: nat, i: Inode, now: TimeVal): Mgr
    requires Shape(m) && 1 <= q < |m.queues|
  {
    var u := m.queues[q];
    m.(queues := m.queues[q := u.(msgs := u.msgs + [Msg(i, NO_TIME, q)])],
       dirs := m.dirs[q := m.dirs[q] + {i}],
       timers := m.timers + multiset{Node(Deadline(now, u.timeout), q, i)})
  }

  /** The answer for the message i of queue q, in ACT. */
  function Answer(m: Mgr, q: nat, i: Inode, code: int, now: TimeVal): Mgr
    requires Shape(m) && 1 <= q < |m.queues|
  {
    if code == 1 then
      m.(queues := m.queues[q := m.queues[q].(conf := m.queues[q].conf + 1)], confirmed := m.confirmed + {i})
    else if i !in m.actDir || i !in m.dirs[q] then m.(alive := false)
    else
      var gone := Leave(m, q, i);
      if code == 0 then gone.(delivered := gone.delivered + multiset{i})
      else if q == Last(m) then gone.(failDir := gone.failDir + {i})
      else Defer(gone, q + 1, i, now)
  }

  lemma {:induction false} DelSubset(ms: seq<Msg>, i: Inode)
    ensures forall a :: a in Del(ms, i) ==> a in ms
  {
    if ms != [] {
      DelSubset(ms[1..], i);
    }
  }

  function CheckResponse(m: Mgr, r: Response): (m': Mgr)
    requires Sound(m)
    ensures Sound(m') && |m'.queues| == |m.queues|
  {
    var k := Find(m.act, r.inode);
    DelSubset(m.act, r.inode);
    if k < 0 then m else Answer(m, m.act[k].state, r.inode, r.code, r.now)
  }

  /** All answers waiting in the pipe. */
  function ReadAll(m: Mgr, rs: seq<Response>): (m': Mgr)
    requires Sound(m)
    ensures Sound(m') && |m'.queues| == |m.queues|
    decreases |rs|
  {
    if rs == [] then m else ReadAll(CheckResponse(m, rs[0]), rs[1..])
  }

  /** New files move from `drop` to IN; `line` is IN's list as the library sort leaves it. */
  function ScanDrop(m: Mgr, found: seq<Msg>, line: seq<Msg>): Mgr
    requires Sound(m)
  {
    if found == [] then m
    else
      var inodes := set f | f in found :: f.inode;
      m.(queues := m.queues[IN := m.queues[IN].(msgs := line)],
         dirs := m.dirs[IN := m.dirs[IN] + inodes],
         accepted := m.accepted + multiset(inodes),
         tries := m.tries - inodes)
  }

  /** A sort may leave messages of equal time in any order. */
  ghost predicate Sorts(m: Mgr, found: seq<Msg>, line: seq<Msg>)
    requires Sound(m)
  {
    ByTime(line) && multiset(line) == multiset(m.queues[IN].msgs + found)
  }

  /** A timer's message is still in its queue. */
  predicate Present(m: Mgr, t: Node)
    requires t.indque < |m.queues|
  {
    Find(m.queues[t.indque].msgs, t.inode) >= 0
  }

  /** Timeout of the poll with timer `t` at the root of the heap: send the message if the
      window allows, and drop the timer if it was sent or has gone. */
  function TimerExpired(m: Mgr, t: Node): Mgr
    requires Shape(m) && 1 <= t.indque < |m.queues|
  {
    var ready := CanDispatch(m, t.indque, WINDEFSIZE);
    var d := if Present(m, t) && ready then Dispatch(m, t.indque, t.inode) else m;
    if !Present(m, t) || ready then d.(timers := d.timers - multiset{t}) else d
  }

  /** The first message of a queue not yet given to the sender. */
  function HeadInode(m: Mgr, q: nat): Inode
    requires q < |m.queues|
  {
    var u := m.queues[q];
    if 0 <= u.send < |u.msgs| then u.msgs[u.send].inode else 0
  }

  /** One message in flight: the main loop does this to IN, flush_queue to each queue. */
  function Feed(m: Mgr, q: nat): Mgr
    requires Shape(m) && 1 <= q < |m.queues|
  {
    if CanDispatch(m, q, WINSIZE) then Dispatch(m, q, HeadInode(m, q)) else m
  }

  datatype Flushed = Flushed(m: Mgr, done: bool)

  /** flush_queue from queue q downwards.  Each element of `batches` is what one drain of the
      pipe reads; when they run out, the loop is still waiting. */
  function Flush(m: Mgr, q: nat, batches: seq<seq<Response>>): Flushed
    requires Sound(m) && q < |m.queues|
    decreases |batches|, q
  {
    if q == 0 then Flushed(m, true)
    else if Total(m, q) == 0 then Flush(m, q - 1, batches)
    else if batches == [] then Flushed(m, false)
    else Flush(ReadAll(Feed(m, q), batches[0]), q, batches[1..])
  }

  datatype Drained = Drained(m: Mgr, rest: seq<seq<Response>>, done: bool)

  /** The inner loop: one queue until it is empty or the answers run out. */
  function FlushOne(m: Mgr, q: nat, batches: seq<seq<Response>>): (d: Drained)
    requires Sound(m) && 1 <= q < |m.queues|
    ensures Sound(d.m) && |d.m.queues| == |m.queues|
    decreases |batches|
  {
    if Total(m, q) == 0 then Drained(m, batches, true)
    else if batches == [] then Drained(m, [], false)
    else FlushOne(ReadAll(Feed(m, q), batches[0]), q, batches[1..])
  }

  lemma {:induction false} FlushByQueue(m: Mgr, q: nat, batches: seq<seq<Response>>)
    requires Sound(m) && 1 <= q < |m.queues|
    ensures var d := FlushOne(m, q, batches);
      Flush(m, q, batches) == if d.done then Flush(d.m, q - 1, d.rest) else Flushed(d.m, false)
    decreases |batches|
  {
    if Total(m, q) != 0 && batches != [] {
      FlushByQueue(ReadAll(Feed(m, q), batches[0]), q, batches[1..]);
    }
  }

  // ---------- the invariant ----------

  function Window(q: nat): nat { if q == IN then WINSIZE else WINDEFSIZE }

  /** Queue q's list, directory and counters agree with each other and with ACT. */
  ghost predicate Home(m: Mgr, q: nat)
    requires |m.dirs| == |m.queues| && q < |m.queues|
  {
    && Distinct(m.queues[q].msgs) && Inodes(m.queues[q].msgs) == m.dirs[q]
    && m.queues[q].send == Count(m.act, q, m.actDir) <= Window(q)
    && m.queues[q].conf == Count(m.act, q, m.confirmed)
  }

  ghost predicate Books(m: Mgr) {
    && m.alive && Sound(m)
    && Distinct(m.act) && Inodes(m.act) == m.actDir && m.confirmed <= m.actDir
    && (forall a :: a in m.act ==> a.inode in m.dirs[a.state])
    && (forall q :: 1 <= q < |m.queues| ==> Home(m, q))
    && Homes(m)
  }

  ghost predicate Apart(m: Mgr, p: nat, q: nat)
    requires p < |m.dirs| && q < |m.dirs|
  {
    m.dirs[p] !! m.dirs[q]
  }

  ghost predicate Unstale(m: Mgr, q: nat)
    requires q < |m.dirs|
  {
    m.dirs[q] !! m.stale
  }

  /** Every message has one home, and no file of the same name lies in ACT's directory from
      before. */
  ghost predicate Homes(m: Mgr)
    requires |m.dirs| == |m.queues|
  {
    && (forall p, q :: 1 <= p < q < |m.queues| ==> Apart(m, p, q))
    && (forall q :: 1 <= q < |m.queues| ==> Unstale(m, q))
  }

  lemma OneHome(m: Mgr, p: nat, q: nat, i: Inode)
    requires Shape(m) && Homes(m) && 1 <= p < |m.queues| && 1 <= q < |m.queues| && i in m.dirs[p] && i in m.dirs[q]
    ensures p == q && i !in m.stale
  {
    assert Unstale(m, p);
    assert p < q ==> Apart(m, p, q);
    assert q < p ==> Apart(m, q, p);
  }

  /** Messages that only leave keep their homes. */
  lemma FewerHomes(m: Mgr, c: Mgr)
    requires Shape(m) && Homes(m) && Shape(c) && |c.queues| == |m.queues| && c.stale == m.stale
    requires forall q :: 1 <= q < |m.queues| ==> c.dirs[q] <= m.dirs[q]
    ensures Homes(c)
  {
    forall p, q | 1 <= p < q < |c.queues| ensures Apart(c, p, q) {
      assert Apart(m, p, q);
    }
    forall q | 1 <= q < |c.queues| ensures Unstale(c, q) {
      assert Unstale(m, q);
    }
  }

  /** Messages new to the manager get a home. */
  lemma MoreHomes(m: Mgr, c: Mgr, q: nat, more: set<Inode>)
    requires Shape(m) && Homes(m) && Shape(c) && |c.queues| == |m.queues| && c.stale == m.stale
    requires 1 <= q < |m.queues| && c.dirs == m.dirs[q := m.dirs[q] + more]
    requires more !! m.stale && forall p, i :: 1 <= p < |m.queues| && i in m.dirs[p] ==> i !in more
    ensures Homes(c)
  {
    forall p, r | 1 <= p < r < |c.queues| ensures Apart(c, p, r) {
      assert Apart(m, p, r);
    }
    forall p | 1 <= p < |c.queues| ensures Unstale(c, p) {
      assert Unstale(m, p);
    }
  }

  ghost predicate Waiting(m: Mgr, i: Inode)
    requires |m.dirs| == |m.queues|
  {
    exists q :: 1 <= q < |m.queues| && i in m.dirs[q]
  }

  function Bit(b: bool): nat { if b then 1 else 0 }

  /** Each time an inode number was accepted, the message has been delivered since, is in a
      queue, or is in `fail`; and in only one of these. */
  ghost predicate Ledger(m: Mgr)
    requires |m.dirs| == |m.queues|
  {
    && (forall i :: m.accepted[i] == m.delivered[i] + Bit(Waiting(m, i)) + Bit(i in m.failDir))
    && (forall q :: 1 <= q < |m.queues| ==> m.dirs[q] !! m.failDir)
  }

  ghost predicate HasTimer(ts: multiset<Node>, q: nat, i: Inode) {
    exists t :: t in ts && t.indque == q && t.inode == i
  }

  /** Timers name deferred queues, at most one each per message, never one ahead of it. */
  ghost predicate Clocks(m: Mgr)
    requires |m.dirs| == |m.queues|
  {
    && (forall t :: t in m.timers ==> 2 <= t.indque < |m.queues| && m.timers[t] == 1)
    && (forall t, u :: t in m.timers && u in m.timers && t.indque == u.indque && t.inode == u.inode ==> t == u)
    && (forall t, q :: t in m.timers && 1 <= q < |m.queues| && t.inode in m.dirs[q] ==> t.indque <= q)
  }

  ghost predicate Base(m: Mgr) { Books(m) && Ledger(m) && Clocks(m) }

  /** Counters of every queue: 0 <= conf <= send <= total, send within its window. */
  lemma {:induction false} CountersInRange(m: Mgr, q: nat)
    requires Books(m) && 1 <= q < |m.queues|
    ensures 0 <= m.queues[q].conf <= m.queues[q].send <= Total(m, q)
    ensures m.queues[q].send <= if q == 1 then 1 else 10
  {
    assert Home(m, q);
    CountMonotone(m.act, q, m.confirmed, m.actDir);
    CountBound(m.act, q, m.actDir, m.dirs[q]);
    DistinctSize(m.queues[q].msgs);
  }

  /** With nothing of a queue in flight, none of its messages is in ACT. */
  lemma {:induction false} IdleQueueNotInAct(m: Mgr, q: nat, i: Inode)
    requires Books(m) && 1 <= q < |m.queues| && m.queues[q].send == 0 && i in m.dirs[q]
    ensures i !in m.actDir
  {
    assert Home(m, q);
    CountZero(m.act, q);
    forall a | a in m.act ensures a.inode != i {
      if a.inode == i {
        OneHome(m, a.state, q, i);
      }
    }
  }

  // ---------- dispatch ----------

  lemma {:induction false} DispatchBooks(m: Mgr, q: nat, i: Inode)
    requires Books(m) && 1 <= q < |m.queues| && i in m.dirs[q] && i !in m.actDir
    requires m.queues[q].send < Window(q)
    ensures Books(Dispatch(m, q, i))
  {
    var d, a := Dispatch(m, q, i), Msg(i, NO_TIME, q);
    OneHome(m, q, q, i);
    FewerHomes(m, d);
    DistinctSnoc(m.act, a);
    forall p | 1 <= p < |m.queues| ensures Home(d, p) {
      assert Home(m, p);
      CountSnoc(m.act, a, p, d.actDir);
      CountOther(m.act, p, m.actDir, d.actDir);
      CountSnoc(m.act, a, p, m.confirmed);
    }
  }

  lemma {:induction false} DispatchBase(m: Mgr, q: nat, i: Inode)
    requires Base(m) && 1 <= q < |m.queues| && i in m.dirs[q] && i !in m.actDir
    requires m.queues[q].send < Window(q)
    ensures Base(Dispatch(m, q, i))
  {
    DispatchBooks(m, q, i);
    assert forall j :: Waiting(Dispatch(m, q, i), j) <==> Waiting(m, j);
  }

  /** Feeding a queue with nothing in flight never links a file twice. */
  lemma {:induction false} FeedBase(m: Mgr, q: nat)
    requires Base(m) && 1 <= q < |m.queues|
    ensures Base(Feed(m, q))
  {
    if CanDispatch(m, q, WINSIZE) {
      CountersInRange(m, q);
      assert Home(m, q);
      var i := HeadInode(m, q);
      assert m.queues[q].msgs[0] in m.queues[q].msgs && i == m.queues[q].msgs[0].inode;
      IdleQueueNotInAct(m, q, i);
      DispatchBase(m, q, i);
    }
  }

  // ---------- answers ----------

  /** What the sender promises: each inode it was given gets code 1 once, then one other code. */
  predicate Promised(m: Mgr, r: Response) {
    r.inode in m.actDir && (r.code == 1 <==> r.inode !in m.confirmed)
  }

  lemma {:induction false} ActEntry(m: Mgr, i: Inode) returns (a: Msg)
    requires Books(m) && i in m.actDir
    ensures a in m.act && a.inode == i
    ensures forall code, now :: CheckResponse(m, Response(i, code, now)) == Answer(m, a.state, a.inode, code, now)
  {
    FindExact(m.act, i);
    a := m.act[Find(m.act, i)];
  }

  lemma {:induction false} ConfirmBase(m: Mgr, a: Msg, now: TimeVal)
    requires Base(m) && a in m.act && a.inode !in m.confirmed
    ensures Base(Answer(m, a.state, a.inode, 1, now))
  {
    var c := Answer(m, a.state, a.inode, 1, now);
    forall p | 1 <= p < |m.queues| ensures Home(c, p) {
      assert Home(m, p);
      CountAdd(m.act, a, p, m.confirmed);
    }
    FewerHomes(m, c);
    assert a.inode in Inodes(m.act);
    assert forall j :: Waiting(c, j) <==> Waiting(m, j);
  }

  lemma {:induction false} LeaveBooks(m: Mgr, a: Msg)
    requires Books(m) && a in m.act && a.inode in m.confirmed
    ensures Books(Leave(m, a.state, a.inode))
  {
    var i := a.inode;
    var g := Leave(m, a.state, i);
    FewerHomes(m, g);
    DelExact(m.act, i);
    forall p | 1 <= p < |m.queues| ensures Home(g, p) {
      assert Home(m, p);
      CountDel(m.act, a, p, m.actDir);
      CountOther(g.act, p, m.actDir, g.actDir);
      CountDel(m.act, a, p, m.confirmed);
      CountOther(g.act, p, m.confirmed, g.confirmed);
      if p == a.state {
        DelExact(m.queues[p].msgs, i);
      }
    }
    forall b | b in g.act ensures b.inode in g.dirs[b.state] {
      assert b in m.act && b.inode != i;
    }
  }

  lemma {:induction false} DeferBooks(m: Mgr, q: nat, i: Inode, now: TimeVal)
    requires Books(m) && 1 <= q < |m.queues|
    requires i !in m.stale && forall p :: 1 <= p < |m.queues| ==> i !in m.dirs[p]
    ensures Books(Defer(m, q, i, now))
  {
    var d := Defer(m, q, i, now);
    MoreHomes(m, d, q, {i});
    forall p | 1 <= p < |m.queues| ensures Home(d, p) {
      assert Home(m, p);
      if p == q {
        DistinctSnoc(m.queues[q].msgs, Msg(i, NO_TIME, q));
      }
    }
    forall b | b in d.act ensures b.inode in d.dirs[b.state] {
      assert b.inode in m.dirs[b.state];
    }
  }

  /** Once out of its queue, a message is in no queue. */
  lemma {:induction false} LeftAll(m: Mgr, a: Msg)
    requires Books(m) && a in m.act
    ensures var g := Leave(m, a.state, a.inode);
      && |g.dirs| == |g.queues|
      && (forall p :: 1 <= p < |g.queues| ==> a.inode !in g.dirs[p])
      && forall j :: j != a.inode ==> (Waiting(g, j) <==> Waiting(m, j))
  {
    var i := a.inode;
    var g := Leave(m, a.state, i);
    forall p | 1 <= p < |g.queues| ensures i !in g.dirs[p] {
      if p != a.state && i in m.dirs[p] {
        OneHome(m, p, a.state, i);
      }
    }
    forall j | j != i ensures Waiting(g, j) <==> Waiting(m, j) {
      if Waiting(m, j) {
        var q :| 1 <= q < |m.queues| && j in m.dirs[q];
        assert j in g.dirs[q];
      }
      if Waiting(g, j) {
        var q :| 1 <= q < |g.queues| && j in g.dirs[q];
        assert j in m.dirs[q];
      }
    }
  }

  lemma {:induction false} AnswerParts(m: Mgr, a: Msg, code: int, now: TimeVal)
    requires Books(m) && a in m.act && code != 1
    ensures var g := Leave(m, a.state, a.inode);
      Answer(m, a.state, a.inode, code, now) ==
        if code == 0 then g.(delivered := g.delivered + multiset{a.inode})
        else if a.state == Last(m) then g.(failDir := g.failDir + {a.inode})
        else Defer(g, a.state + 1, a.inode, now)
  {
    assert a.inode in Inodes(m.act);
  }

  lemma {:induction false} FinishLedger(m: Mgr, a: Msg, c: Mgr)
    requires Base(m) && a in m.act && c.dirs == Leave(m, a.state, a.inode).dirs && |c.queues| == |m.queues|
    requires c.accepted == m.accepted
    requires (c.delivered == m.delivered + multiset{a.inode} && c.failDir == m.failDir)
          || (c.failDir == m.failDir + {a.inode} && c.delivered == m.delivered)
    ensures Ledger(c)
  {
    LeftAll(m, a);
    var g, i := Leave(m, a.state, a.inode), a.inode;
    assert i in m.dirs[a.state] && Waiting(m, i) && i !in m.failDir && !Waiting(g, i);
    forall j ensures Waiting(c, j) <==> Waiting(g, j) {
    }
    forall q | 1 <= q < |c.queues| ensures c.dirs[q] !! c.failDir {
      assert c.dirs[q] <= m.dirs[q];
    }
  }

  /** Delivered, or failed in the last queue: the message leaves for good. */
  lemma {:induction false} FinishBase(m: Mgr, a: Msg, code: int, now: TimeVal)
    requires Base(m) && a in m.act && a.inode in m.confirmed
    requires code == 0 || (code != 1 && a.state == Last(m))
    ensures Base(Answer(m, a.state, a.inode, code, now))
  {
    LeaveBooks(m, a);
    AnswerParts(m, a, code, now);
    var c := Answer(m, a.state, a.inode, code, now);
    FinishLedger(m, a, c);
    FewerClocks(m, c);
    SameBooks(Leave(m, a.state, a.inode), c);
  }

  /** Dropping timers or messages leaves the remaining timers in order. */
  lemma {:induction false} FewerClocks(m: Mgr, c: Mgr)
    requires Shape(m) && Clocks(m) && Shape(c) && |c.queues| == |m.queues|
    requires c.timers <= m.timers
    requires forall q :: 1 <= q < |m.queues| ==> c.dirs[q] <= m.dirs[q]
    ensures Clocks(c)
  {
    forall t | t in c.timers ensures t in m.timers && c.timers[t] == 1 {
    }
  }

  lemma {:induction false} SameBooks(g: Mgr, c: Mgr)
    requires Books(g) && c == g.(timers := c.timers, failDir := c.failDir, accepted := c.accepted, delivered := c.delivered)
    ensures Books(c)
  {
    FewerHomes(g, c);
    forall q | 1 <= q < |c.queues| ensures Home(c, q) {
      assert Home(g, q);
    }
  }

  lemma {:induction false} DeferWaiting(g: Mgr, q: nat, i: Inode, now: TimeVal, j: Inode)
    requires Shape(g) && 1 <= q < |g.queues|
    ensures Waiting(Defer(g, q, i, now), j) <==> j == i || Waiting(g, j)
  {
    var c := Defer(g, q, i, now);
    if j == i {
      assert j in c.dirs[q];
    } else {
      if Waiting(g, j) {
        var p :| 1 <= p < |g.queues| && j in g.dirs[p];
        assert j in c.dirs[p];
      }
      if Waiting(c, j) {
        var p :| 1 <= p < |c.queues| && j in c.dirs[p];
        assert j in g.dirs[p];
      }
    }
  }

  lemma {:induction false} EscalateWaiting(m: Mgr, a: Msg, now: TimeVal, j: Inode)
    requires Books(m) && a in m.act && a.state < Last(m)
    ensures Waiting(Defer(Leave(m, a.state, a.inode), a.state + 1, a.inode, now), j) <==> Waiting(m, j)
  {
    LeftAll(m, a);
    DeferWaiting(Leave(m, a.state, a.inode), a.state + 1, a.inode, now, j);
    assert a.inode in m.dirs[a.state];
  }

  /** Moving messages between queues leaves the ledger as it was. */
  lemma {:induction false} LedgerFrom(m: Mgr, c: Mgr)
    requires Shape(m) && Ledger(m) && Shape(c)
    requires c.accepted == m.accepted && c.delivered == m.delivered && c.failDir == m.failDir
    requires forall j :: Waiting(c, j) <==> Waiting(m, j)
    ensures Ledger(c)
  {
    forall q | 1 <= q < |c.queues| ensures c.dirs[q] !! c.failDir {
      forall j | j in c.dirs[q] ensures j !in c.failDir {
        assert Waiting(c, j);
        var p :| 1 <= p < |m.queues| && j in m.dirs[p];
        assert m.dirs[p] !! m.failDir;
      }
    }
  }

  lemma {:induction false} EscalateLedger(m: Mgr, a: Msg, now: TimeVal)
    requires Base(m) && a in m.act && a.state < Last(m)
    ensures Ledger(Defer(Leave(m, a.state, a.inode), a.state + 1, a.inode, now))
  {
    var c := Defer(Leave(m, a.state, a.inode), a.state + 1, a.inode, now);
    forall j ensures Waiting(c, j) <==> Waiting(m, j) {
      EscalateWaiting(m, a, now, j);
    }
    LedgerFrom(m, c);
  }

  /** A timer for the next queue is one the heap does not hold yet. */
  lemma NewTimer(m: Mgr, n: Node, at: nat)
    requires Shape(m) && Clocks(m) && 1 <= at < |m.queues| && n.inode in m.dirs[at] && n.indque > at
    ensures forall t :: t in m.timers && t.inode == n.inode ==> t.indque <= at
    ensures n !in m.timers
  {
  }

  /** Where messages are after one has moved up: the others stay, it is in the next queue. */
  ghost predicate MovedUp(m: Mgr, c: Mgr, i: Inode, q: nat) {
    && Shape(m) && Shape(c) && |c.queues| == |m.queues|
    && forall p, j :: 1 <= p < |m.queues| && j in c.dirs[p] ==> (j in m.dirs[p] && j != i) || (p == q && j == i)
  }

  lemma {:induction false} EscalateParts(m: Mgr, a: Msg, now: TimeVal)
    requires Books(m) && a in m.act && a.state < Last(m)
    ensures var c := Defer(Leave(m, a.state, a.inode), a.state + 1, a.inode, now);
      && MovedUp(m, c, a.inode, a.state + 1)
      && c.timers == m.timers + multiset{Node(Deadline(now, m.queues[a.state + 1].timeout), a.state + 1, a.inode)}
      && c.act == Del(m.act, a.inode) && c.actDir == m.actDir - {a.inode}
  {
    LeftAll(m, a);
    var g := Leave(m, a.state, a.inode);
    var c := Defer(g, a.state + 1, a.inode, now);
    forall p, j | 1 <= p < |m.queues| && j in c.dirs[p]
      ensures (j in m.dirs[p] && j != a.inode) || (p == a.state + 1 && j == a.inode)
    {
      assert (p == a.state + 1 && j == a.inode) || j in g.dirs[p];
    }
  }

  lemma {:induction false} ClocksMoved(m: Mgr, c: Mgr, n: Node, at: nat)
    requires Shape(m) && Clocks(m) && 1 <= at && n.indque == at + 1 < |m.queues|
    requires n.inode in m.dirs[at]
    requires MovedUp(m, c, n.inode, n.indque) && c.timers == m.timers + multiset{n}
    ensures Clocks(c)
  {
    NewTimer(m, n, at);
    forall t, p | t in c.timers && 1 <= p < |c.queues| && t.inode in c.dirs[p] ensures t.indque <= p {
      assert t == n || t in m.timers;
    }
  }

  lemma {:induction false} EscalateClocks(m: Mgr, a: Msg, now: TimeVal)
    requires Base(m) && a in m.act && a.state < Last(m)
    ensures Clocks(Defer(Leave(m, a.state, a.inode), a.state + 1, a.inode, now))
  {
    EscalateParts(m, a, now);
    ClocksMoved(m, Defer(Leave(m, a.state, a.inode), a.state + 1, a.inode, now),
                Node(Deadline(now, m.queues[a.state + 1].timeout), a.state + 1, a.inode), a.state);
  }

  /** Failed with a queue to go: the message moves up one queue and gets its timer there. */
  lemma {:induction false} EscalateBase(m: Mgr, a: Msg, code: int, now: TimeVal)
    requires Base(m) && a in m.act && a.inode in m.confirmed
    requires code != 0 && code != 1 && a.state < Last(m)
    ensures Base(Answer(m, a.state, a.inode, code, now))
  {
    AnswerParts(m, a, code, now);
    EscalateBooks(m, a, now);
    EscalateLedger(m, a, now);
    EscalateClocks(m, a, now);
  }

  lemma {:induction false} EscalateBooks(m: Mgr, a: Msg, now: TimeVal)
    requires Books(m) && a in m.act && a.inode in m.confirmed && a.state < Last(m)
    ensures Books(Defer(Leave(m, a.state, a.inode), a.state + 1, a.inode, now))
  {
    LeaveBooks(m, a);
    LeftAll(m, a);
    OneHome(m, a.state, a.state, a.inode);
    DeferBooks(Leave(m, a.state, a.inode), a.state + 1, a.inode, now);
  }

  /** Every promised answer keeps the invariant. */
  lemma {:induction false} ResponseBase(m: Mgr, r: Response)
    requires Base(m) && Promised(m, r)
    ensures Base(CheckResponse(m, r))
  {
    var a := ActEntry(m, r.inode);
    assert CheckResponse(m, Response(r.inode, r.code, r.now)) == Answer(m, a.state, a.inode, r.code, r.now);
    if r.code == 1 {
      ConfirmBase(m, a, r.now);
    } else if r.code == 0 || a.state == Last(m) {
      FinishBase(m, a, r.code, r.now);
    } else {
      EscalateBase(m, a, r.code, r.now);
    }
  }
}
