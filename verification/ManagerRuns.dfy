/** Runs of the queue manager's main loop: turns, poll timeouts, the sender's answers, arrivals
    and the link going down and up. */
module ManagerRuns {
  import opened Basics
  import opened TimerHeap
  import opened MsgList
  import opened Scheduler
  import opened SchedulerRuns
  import opened Flushing
  import opened Attempts
  import opened FlushAttempts
  import opened PollWait

  /** State of the main loop: the manager; whether the link is up; whether a first flush has
      completed since start-up; whether poll has been called and not returned; its timeout, the
      root of the heap it was computed from, and the clock then. */
  datatype Loop = Loop(
    m: Mgr, connected: bool, synced: bool,
    polling: bool, wait: int, minnode: Option<Node>, seen: TimeVal)

  datatype Event =
    | Turn(now: TimeVal, root: Option<Node>)                            // a turn starts, up to poll
    | Expire                                                            // poll returns 0
    | Answers(rs: seq<Response>)                                        // the sender's pipe is readable
    | Trigger(found: seq<Msg>, line: seq<Msg>)                          // the FIFO trigger fires
    | Hangup                                                            // SIGHUP: link down
    | Up(found: seq<Msg>, line: seq<Msg>, batches: seq<seq<Response>>)  // SIGUSR1: link up, scan and flush

  /** What the surroundings do: the clock does not go back; heap_min returns the root; poll times
      out only if it was given a timeout; the sender keeps its promise; new files are new.  After
      poll has returned, any of the events it reports may come before the next turn. */
  ghost predicate MayHappen(s: Loop, ev: Event)
    requires Sound(s.m)
  {
    && s.m.alive
    && match ev
       case Turn(now, root) => !s.polling && NotAfter(s.seen, now) && IsRoot(root, s.m.timers)
       case Expire => s.polling && s.wait >= 0
       case Answers(rs) => s.connected && AllPromised(s.m, rs)
       case Trigger(found, line) => s.connected && Fresh(s.m, found) && Sorts(s.m, found, line)
       case Hangup => true
       case Up(found, line, batches) =>
         && Fresh(s.m, found) && Sorts(s.m, found, line)
         && var m := ScanDrop(s.m, found, line);
            FlushPromised(m, Last(m), batches)
            && (Flush(m, Last(m), batches).done || !Flush(m, Last(m), batches).m.alive)
  }

  /** A turn up to poll: feed IN and compute the timeout, if the link is up.  With a timeout
      carried over and an empty heap the code would follow a null pointer. */
  ghost function BeginTurn(s: Loop, now: TimeVal, root: Option<Node>): Loop
    requires Sound(s.m)
  {
    if !s.connected then s.(polling := true)
    else if s.wait > 0 && root.None? then s.(m := s.m.(alive := false))
    else s.(m := Feed(s.m, IN), polling := true, wait := NextWait(s.wait, root, now),
            minnode := if root.Some? then root else s.minnode, seen := now)
  }

  /** The branch for a timeout: act on what `minnode` points to. */
  ghost function TimedOut(s: Loop): Loop
    requires Sound(s.m)
  {
    if s.minnode.None? || !(1 <= s.minnode.value.indque < |s.m.queues|) then s.(m := s.m.(alive := false))
    else s.(m := TimerExpired(s.m, s.minnode.value), polling := false, wait := FOREVER)
  }

  ghost function Step(s: Loop, ev: Event): Loop
    requires Sound(s.m) && MayHappen(s, ev)
  {
    match ev
    case Turn(now, root) => BeginTurn(s, now, root)
    case Expire => TimedOut(s)
    case Answers(rs) => s.(m := ReadAll(s.m, rs), polling := false)
    case Trigger(found, line) => s.(m := ScanDrop(s.m, found, line), polling := false)
    case Hangup => s.(connected := false, polling := false, wait := FOREVER)
    case Up(found, line, batches) =>
      var m := ScanDrop(s.m, found, line);
      s.(m := Flush(m, Last(m), batches).m, connected := true, synced := true, polling := false)
  }

  // ---------- the invariant ----------

  /** The timeout is finite only with the link up and a timer due not after it; while poll
      sleeps on one, `minnode` is the root of the heap. */
  ghost predicate Timely(s: Loop) {
    && (s.wait >= 0 ==> s.connected)
    && NotTooShort(s.wait, s.m.timers, s.seen)
    && (s.polling && s.wait >= 0 ==> s.minnode.Some? && IsRoot(s.minnode, s.m.timers))
  }

  /** Books always; once synced, nothing stranded and no message both with the sender and under a
      timer; before that, the sender has been given nothing. */
  ghost predicate Healthy(s: Loop) {
    && Base(s.m) && AllTried(s.m)
    && (s.synced ==> Steady(s.m))
    && (s.connected ==> s.synced)
    && (!s.synced ==> s.m.act == [])
    && Timely(s)
  }

  /** Timers only ever leave the heap in the timeout branch. */
  lemma {:induction false} ReadAllTimers(m: Mgr, rs: seq<Response>)
    requires Sound(m)
    ensures m.timers <= ReadAll(m, rs).timers
    decreases |rs|
  {
    if rs != [] {
      ReadAllTimers(CheckResponse(m, rs[0]), rs[1..]);
    }
  }

  lemma {:induction false} FlushTimers(m: Mgr, q: nat, batches: seq<seq<Response>>)
    requires Sound(m) && q < |m.queues|
    ensures m.timers <= Flush(m, q, batches).m.timers
    decreases |batches|, q
  {
    if q == 0 {
    } else if Total(m, q) == 0 {
      FlushTimers(m, q - 1, batches);
    } else if batches != [] {
      ReadAllTimers(Feed(m, q), batches[0]);
      FlushTimers(Flushing.Turn(m, q, batches[0]), q, batches[1..]);
    }
  }

  lemma MoreTimers(wait: int, before: multiset<Node>, after: multiset<Node>, seen: TimeVal)
    requires NotTooShort(wait, before, seen) && before <= after
    ensures NotTooShort(wait, after, seen)
  {
    if wait >= 0 {
      var t :| t in before && wait >= MsLeft(t.key, seen);
      assert t in after;
    }
  }

  lemma {:induction false} ReadAllSteady(m: Mgr, rs: seq<Response>)
    requires Steady(m) && AllPromised(m, rs)
    ensures Steady(ReadAll(m, rs))
    decreases |rs|
  {
    if rs != [] {
      ResponseSteady(m, rs[0]);
      ReadAllSteady(CheckResponse(m, rs[0]), rs[1..]);
    }
  }

  lemma {:induction false} TurnHealthy(s: Loop, now: TimeVal, root: Option<Node>)
    requires Healthy(s) && MayHappen(s, Turn(now, root))
    ensures Healthy(BeginTurn(s, now, root))
  {
    if s.connected {
      TurnWait(s.wait, s.m.timers, root, s.seen, now);
      FeedInSteady(s.m);
      FeedTried(s.m, IN);
      assert Feed(s.m, IN).timers == s.m.timers;
    }
  }

  lemma {:induction false} ExpireHealthy(s: Loop)
    requires Healthy(s) && MayHappen(s, Expire)
    ensures Healthy(TimedOut(s)) && TimedOut(s).m == TimerExpired(s.m, s.minnode.value)
  {
    TimerSteady(s.m, s.minnode.value);
    TimerTried(s.m, s.minnode.value);
  }

  lemma {:induction false} AnswersHealthy(s: Loop, rs: seq<Response>)
    requires Healthy(s) && MayHappen(s, Answers(rs))
    ensures Healthy(Step(s, Answers(rs)))
  {
    ReadAllSteady(s.m, rs);
    ReadAllTried(s.m, rs);
    ReadAllTimers(s.m, rs);
    MoreTimers(s.wait, s.m.timers, ReadAll(s.m, rs).timers, s.seen);
  }

  lemma {:induction false} UpHealthy(s: Loop, found: seq<Msg>, line: seq<Msg>, batches: seq<seq<Response>>)
    requires Healthy(s) && MayHappen(s, Up(found, line, batches))
    ensures Healthy(Step(s, Up(found, line, batches)))
  {
    var m := ScanDrop(s.m, found, line);
    ScanBase(s.m, found, line);
    ScanTried(s.m, found, line);
    FlushKeeps(m, Last(m), batches);
    FlushReturns(m, batches);
    FlushTried(m, Last(m), batches);
    FlushTimers(m, Last(m), batches);
    MoreTimers(s.wait, s.m.timers, Flush(m, Last(m), batches).m.timers, s.seen);
  }

  lemma {:induction false} StepHealthy(s: Loop, ev: Event)
    requires Healthy(s) && MayHappen(s, ev)
    ensures Healthy(Step(s, ev))
  {
    match ev {
      case Turn(now, root) => TurnHealthy(s, now, root);
      case Expire => ExpireHealthy(s);
      case Answers(rs) => AnswersHealthy(s, rs);
      case Trigger(found, line) =>
        ScanSteady(s.m, found, line);
        ScanTried(s.m, found, line);
      case Hangup =>
      case Up(found, line, batches) => UpHealthy(s, found, line, batches);
    }
  }

  ghost predicate Reaches(s: Loop, evs: seq<Event>, end: Loop)
    decreases |evs|
  {
    if evs == [] then s == end
    else Sound(s.m) && MayHappen(s, evs[0]) && Reaches(Step(s, evs[0]), evs[1..], end)
  }

  lemma {:induction false} HealthyAlong(s: Loop, evs: seq<Event>, end: Loop)
    requires Healthy(s) && Reaches(s, evs, end)
    ensures Healthy(end)
    decreases |evs|
  {
    if evs != [] {
      StepHealthy(s, evs[0]);
      HealthyAlong(Step(s, evs[0]), evs[1..], end);
    }
  }

  // ---------- start-up ----------

  /** What start-up restores: every list holds exactly the files of its directory, nothing is
      sent, and no file is in two directories. */
  ghost predicate Restored(queues: seq<Queue>, dirs: seq<set<Inode>>) {
    && 2 <= |queues| == |dirs|
    && (forall q :: 1 <= q < |queues| ==>
          && Distinct(queues[q].msgs) && Inodes(queues[q].msgs) == dirs[q]
          && queues[q].send == queues[q].conf == 0)
    && (forall p, q :: 1 <= p < q < |dirs| ==> dirs[p] !! dirs[q])
  }

  /** The loop at start-up; `stale` are the files an earlier process left in ACT's directory,
      which nothing removes. */
  ghost function StartUp(queues: seq<Queue>, dirs: seq<set<Inode>>, stale: set<Inode>, now: TimeVal): Loop {
    var all := set q, i | 1 <= q < |dirs| && i in dirs[q] :: i;
    Loop(Mgr(true, [], {}, stale, queues, dirs, multiset{}, {}, multiset(all), multiset{}, {}, map[]),
         false, false, false, FOREVER, None, now)
  }

  /** No restored message has a file of its name in ACT's directory. */
  ghost predicate Swept(dirs: seq<set<Inode>>, stale: set<Inode>) {
    forall q :: 1 <= q < |dirs| ==> dirs[q] !! stale
  }

  lemma {:induction false} RestoredStarts(queues: seq<Queue>, dirs: seq<set<Inode>>, stale: set<Inode>, now: TimeVal)
    requires Restored(queues, dirs) && Swept(dirs, stale)
    ensures Healthy(StartUp(queues, dirs, stale, now))
  {
    var m := StartUp(queues, dirs, stale, now).m;
    forall q | 1 <= q < |queues| ensures Home(m, q) && Unstale(m, q) {
      assert Count(m.act, q, {}) == 0;
    }
    forall p, q | 1 <= p < q < |dirs| ensures Apart(m, p, q) {
    }
    assert Books(m) && Ledger(m) && Clocks(m);
    forall i ensures Tried(m, i) {
    }
  }

  /** Nothing in flight; lists, directories and counters in order. */
  ghost predicate Idle(m: Mgr) {
    && m.alive && Shape(m) && m.act == [] && m.actDir == {} && m.confirmed == {}
    && forall q :: 1 <= q < |m.queues| ==> Resting(m, q)
  }

  ghost predicate Resting(m: Mgr, q: nat)
    requires q < |m.queues| == |m.dirs|
  {
    && m.queues[q].send == m.queues[q].conf == 0
    && Distinct(m.queues[q].msgs) && Inodes(m.queues[q].msgs) == m.dirs[q]
  }

  /** The head of an idle queue. */
  lemma {:induction false} IdleHead(m: Mgr, q: nat)
    requires Idle(m) && 1 <= q < |m.queues| && Total(m, q) > 0
    ensures CanDispatch(m, q, WINSIZE) && HeadInode(m, q) == m.queues[q].msgs[0].inode
    ensures HeadInode(m, q) in m.dirs[q]
  {
    assert Resting(m, q) && m.queues[q].msgs[0] in m.queues[q].msgs;
  }

  function Delivery(i: Inode): seq<Response> { [Response(i, 1, NO_TIME), Response(i, 0, NO_TIME)] }

  /** A sender that takes and delivers the head leaves the manager idle again. */
  lemma {:induction false} DeliverHead(m: Mgr, q: nat)
    requires Idle(m) && 1 <= q < |m.queues| && Total(m, q) > 0 && HeadInode(m, q) !in m.stale
    ensures var i := HeadInode(m, q);
      var m' := Flushing.Turn(m, q, Delivery(i));
      && AllPromised(Feed(m, q), Delivery(i))
      && Idle(m') && m'.stale == m.stale && |m'.queues| == |m.queues|
      && Total(m', q) == Total(m, q) - 1 && m'.dirs == m.dirs[q := m.dirs[q] - {i}]
  {
    var i, rs := HeadInode(m, q), Delivery(HeadInode(m, q));
    var m0 := Feed(m, q);
    Fed(m, q);
    OnlyAnswer(m0, q, i, 1);
    var m1 := Answer(m0, q, i, 1, NO_TIME);
    OnlyAnswer(m1, q, i, 0);
    var m2 := Answer(m1, q, i, 0, NO_TIME);
    assert rs[1..] == [rs[1]] && [rs[1]][1..] == [];
    assert ReadAll(m0, rs) == ReadAll(m1, [rs[1]]) == ReadAll(m2, []) == m2;
    IdleHead(m, q);
    IdleAgain(m, m2, q, i);
  }

  /** The head given to the sender. */
  lemma {:induction false} Fed(m: Mgr, q: nat)
    requires Idle(m) && 1 <= q < |m.queues| && Total(m, q) > 0 && HeadInode(m, q) !in m.stale
    ensures var i, u := HeadInode(m, q), m.queues[q];
      Feed(m, q) == m.(act := [Msg(i, NO_TIME, q)], actDir := {i}, tries := m.tries[i := Tries(m, i) + [q]],
                       queues := m.queues[q := u.(send := 1)])
  {
    IdleHead(m, q);
    assert Resting(m, q);
  }

  /** The answer for the only message in ACT. */
  lemma {:induction false} OnlyAnswer(m: Mgr, q: nat, i: Inode, code: int)
    requires Sound(m) && 1 <= q < |m.queues| && m.act == [Msg(i, NO_TIME, q)]
    ensures CheckResponse(m, Response(i, code, NO_TIME)) == Answer(m, q, i, code, NO_TIME)
  {
  }

  lemma {:induction false} IdleAgain(m: Mgr, c: Mgr, q: nat, i: Inode)
    requires Idle(m) && 1 <= q < |m.queues| && i in m.dirs[q]
    requires var u := m.queues[q];
      && c.alive && c.act == [] && c.actDir == {} && c.confirmed == {}
      && c.queues == m.queues[q := u.(msgs := Del(u.msgs, i))] && c.dirs == m.dirs[q := m.dirs[q] - {i}]
    ensures Idle(c) && Total(c, q) == Total(m, q) - 1
  {
    assert Resting(m, q);
    DelExact(m.queues[q].msgs, i);
    forall p | 1 <= p < |c.queues| ensures Resting(c, p) {
      assert Resting(m, p);
    }
  }

  /** From a start with a left-over file of a restored message, a flush with a sender that
      delivers everything ends the process. */
  lemma {:induction false} DiesInFlush(m: Mgr, q: nat, p: nat) returns (bs: seq<seq<Response>>)
    requires Idle(m) && 1 <= p <= q < |m.queues| && !(m.dirs[p] !! m.stale)
    ensures Sound(m) && FlushPromised(m, q, bs) && !Flush(m, q, bs).m.alive
    decreases q, Total(m, q)
  {
    assert Resting(m, q) && Resting(m, p);
    if Total(m, q) == 0 {
      assert m.dirs[q] == {};
      bs := DiesInFlush(m, q - 1, p);
    } else {
      IdleHead(m, q);
      var i := HeadInode(m, q);
      if i in m.stale {
        bs := [[]];
        var dead := Feed(m, q);
        assert ReadAll(dead, []) == dead && !dead.alive && Total(dead, q) > 0 && bs[1..] == [];
      } else {
        DeliverHead(m, q);
        var m' := Flushing.Turn(m, q, Delivery(i));
        StillStale(m, m', q, p, i);
        var more := DiesInFlush(m', q, p);
        bs := [Delivery(i)] + more;
        assert bs[1..] == more;
        FlushUnfolds(m, q, bs);
      }
    }
  }

  lemma StillStale(m: Mgr, m': Mgr, q: nat, p: nat, i: Inode)
    requires 1 <= p < |m.dirs| && 1 <= q < |m.dirs| && i !in m.stale && m'.stale == m.stale
    requires m'.dirs == m.dirs[q := m.dirs[q] - {i}] && !(m.dirs[p] !! m.stale)
    ensures !(m'.dirs[p] !! m'.stale)
  {
    var j :| j in m.dirs[p] && j in m.stale;
    assert j in m'.dirs[p];
  }

  lemma {:induction false} OneStep(s: Loop, ev: Event)
    requires Sound(s.m) && MayHappen(s, ev)
    ensures Reaches(s, [ev], Step(s, ev))
  {
    assert [ev][1..] == [] && Reaches(Step(s, ev), [], Step(s, ev));
  }

  /** No file operation ever fails, in any run, if and only if ACT's directory holds no restored
      inode at start-up. */
  lemma {:induction false} StartSafeIff(queues: seq<Queue>, dirs: seq<set<Inode>>, stale: set<Inode>, now: TimeVal)
    requires Restored(queues, dirs)
    ensures (forall evs, end :: Reaches(StartUp(queues, dirs, stale, now), evs, end) ==> end.m.alive)
        <==> Swept(dirs, stale)
  {
    var s := StartUp(queues, dirs, stale, now);
    if Swept(dirs, stale) {
      RestoredStarts(queues, dirs, stale, now);
      forall evs, end | Reaches(s, evs, end) ensures end.m.alive {
        HealthyAlong(s, evs, end);
      }
    } else {
      var p :| 1 <= p < |dirs| && !(dirs[p] !! stale);
      var end := FailingStart(queues, dirs, stale, now, p);
    }
  }

  lemma {:induction false} FailingStart(queues: seq<Queue>, dirs: seq<set<Inode>>, stale: set<Inode>, now: TimeVal, p: nat)
    returns (end: Loop)
    requires Restored(queues, dirs) && 1 <= p < |dirs| && !(dirs[p] !! stale)
    ensures exists evs :: Reaches(StartUp(queues, dirs, stale, now), evs, end)
    ensures !end.m.alive
  {
    var s := StartUp(queues, dirs, stale, now);
    forall q | 1 <= q < |queues| ensures Resting(s.m, q) {
    }
    var line := SortByTime(queues[IN].msgs);
    SortByTimeExact(queues[IN].msgs);
    assert queues[IN].msgs + [] == queues[IN].msgs;
    var bs := DiesInFlush(s.m, Last(s.m), p);
    assert Fresh(s.m, []) && ScanDrop(s.m, [], line) == s.m;
    OneStep(s, Up([], line, bs));
    end := Step(s, Up([], line, bs));
  }

  // ---------- every run ----------

  /** Runs of a manager that starts up with ACT's directory swept. */
  ghost predicate Runs(s: Loop, evs: seq<Event>, end: Loop) {
    && Reaches(s, evs, end)
    && exists queues, dirs, stale, now ::
         Restored(queues, dirs) && Swept(dirs, stale) && s == StartUp(queues, dirs, stale, now)
  }

  lemma {:induction false} RunsHealthy(s: Loop, evs: seq<Event>, end: Loop)
    requires Runs(s, evs, end)
    ensures Healthy(s)
  {
    var queues, dirs, stale, now :|
      Restored(queues, dirs) && Swept(dirs, stale) && s == StartUp(queues, dirs, stale, now);
    RestoredStarts(queues, dirs, stale, now);
  }

  lemma {:induction false} HealthyInRun(s: Loop, evs: seq<Event>, end: Loop)
    requires Runs(s, evs, end)
    ensures Healthy(end)
  {
    RunsHealthy(s, evs, end);
    HealthyAlong(s, evs, end);
  }

  /** Conservation over every run: each time an inode number was accepted its message has been
      delivered since, is in one queue or in `fail`, and only one of these; the process never
      dies on a file operation; lists and directories agree; `send` counts a queue's entries in
      ACT and `conf` the confirmed ones, within range; every entry of ACT is in the queue it
      names. */
  lemma {:induction false} Conservation(s: Loop, evs: seq<Event>, end: Loop)
    requires Runs(s, evs, end)
    ensures var m := end.m;
      && m.alive && Shape(m)
      && (forall i :: m.accepted[i] == m.delivered[i] + Bit(Waiting(m, i)) + Bit(i in m.failDir))
      && (forall i, p, q :: 1 <= p < |m.queues| && 1 <= q < |m.queues| && i in m.dirs[p] && i in m.dirs[q] ==> p == q)
      && (forall i :: Waiting(m, i) ==> i !in m.failDir)
      && (forall a :: a in m.act ==> 1 <= a.state < |m.queues| && a.inode in m.dirs[a.state])
    ensures forall q :: 1 <= q < |end.m.queues| ==> Balanced(end.m, q)
  {
    HealthyInRun(s, evs, end);
    var m := end.m;
    forall i, p, q | 1 <= p < |m.queues| && 1 <= q < |m.queues| && i in m.dirs[p] && i in m.dirs[q] ensures p == q {
      OneHome(m, p, q, i);
    }
    forall q | 1 <= q < |m.queues| ensures Balanced(m, q) {
      CountersInRange(m, q);
      assert Home(m, q);
    }
  }

  /** A queue's list, directory and counters against ACT. */
  ghost predicate Balanced(m: Mgr, q: nat)
    requires q < |m.queues| == |m.dirs|
  {
    var u := m.queues[q];
    && Inodes(u.msgs) == m.dirs[q]
    && u.send == Count(m.act, q, m.actDir) && Inodes(m.act) == m.actDir
    && u.conf == Count(m.act, q, m.confirmed)
    && 0 <= u.conf <= u.send <= |u.msgs| && u.send <= if q == 1 then 1 else 10
  }

  /** No stranded message: after the first flush, every message of a deferred queue is with the
      sender or under a timer, and never both. */
  lemma {:induction false} NothingStranded(s: Loop, evs: seq<Event>, end: Loop, q: nat, i: Inode)
    requires Runs(s, evs, end) && end.synced
    requires 2 <= q < |end.m.queues| == |end.m.dirs| && i in end.m.dirs[q]
    ensures i in end.m.actDir <==> !HasTimer(end.m.timers, q, i)
  {
    HealthyInRun(s, evs, end);
    forall a | a in end.m.act && a.inode == i ensures a.state == q {
      OneHome(end.m, a.state, q, i);
    }
  }

  /** Bounded escalation over every run: the queues a message is tried from strictly rise, so it
      gets at most one attempt in each, countq in all; and it is in `fail` only after one from
      the last queue. */
  lemma {:induction false} AttemptsBounded(s: Loop, evs: seq<Event>, end: Loop, i: Inode)
    requires Runs(s, evs, end)
    ensures Shape(end.m)
    ensures var tries := Tries(end.m, i);
      && Rising(tries, Last(end.m)) && |tries| <= Last(end.m)
      && (i in end.m.failDir ==> EndsAt(tries, Last(end.m)))
  {
    HealthyInRun(s, evs, end);
    assert Tried(end.m, i);
    RisingBounded(Tries(end.m, i), Last(end.m));
  }

  // ---------- oldest first ----------

  lemma {:induction false} DelByTime(ms: seq<Msg>, i: Inode)
    requires ByTime(ms)
    ensures ByTime(Del(ms, i)) && forall x :: x in Del(ms, i) ==> x in ms
  {
    if ms != [] && ms[0].inode != i {
      DelByTime(ms[1..], i);
      var rest := Del(ms[1..], i);
      forall k | 0 <= k < |rest| ensures Older(ms[0], rest[k]) {
        assert rest[k] in ms[1..];
      }
    }
  }

  /** IN is in order of time. */
  ghost predicate InOrder(m: Mgr)
    requires Shape(m)
  {
    ByTime(m.queues[IN].msgs)
  }

  lemma {:induction false} ResponseInOrder(m: Mgr, r: Response)
    requires Sound(m) && InOrder(m)
    ensures InOrder(CheckResponse(m, r))
  {
    DelByTime(m.queues[IN].msgs, r.inode);
  }

  lemma {:induction false} ReadAllInOrder(m: Mgr, rs: seq<Response>)
    requires Sound(m) && InOrder(m)
    ensures InOrder(ReadAll(m, rs))
    decreases |rs|
  {
    if rs != [] {
      ResponseInOrder(m, rs[0]);
      ReadAllInOrder(CheckResponse(m, rs[0]), rs[1..]);
    }
  }

  lemma {:induction false} FlushInOrder(m: Mgr, q: nat, batches: seq<seq<Response>>)
    requires Sound(m) && q < |m.queues| && InOrder(m)
    ensures Shape(Flush(m, q, batches).m) && InOrder(Flush(m, q, batches).m)
    decreases |batches|, q
  {
    if q == 0 {
    } else if Total(m, q) == 0 {
      FlushInOrder(m, q - 1, batches);
    } else if batches != [] {
      ReadAllInOrder(Feed(m, q), batches[0]);
      FlushInOrder(Flushing.Turn(m, q, batches[0]), q, batches[1..]);
    }
  }

  lemma {:induction false} StepInOrder(s: Loop, ev: Event)
    requires Healthy(s) && MayHappen(s, ev) && InOrder(s.m)
    ensures Shape(Step(s, ev).m) && InOrder(Step(s, ev).m)
  {
    StepHealthy(s, ev);
    match ev {
      case Answers(rs) => ReadAllInOrder(s.m, rs);
      case Up(found, line, batches) =>
        var m := ScanDrop(s.m, found, line);
        FlushInOrder(m, Last(m), batches);
      case _ =>
    }
  }

  lemma {:induction false} InOrderAlong(s: Loop, evs: seq<Event>, end: Loop)
    requires Healthy(s) && InOrder(s.m) && Reaches(s, evs, end)
    ensures Healthy(end) && InOrder(end.m)
    decreases |evs|
  {
    if evs != [] {
      StepHealthy(s, evs[0]);
      StepInOrder(s, evs[0]);
      InOrderAlong(Step(s, evs[0]), evs[1..], end);
    }
  }

  /** In every run that starts with IN sorted, as start-up sorts it: a connected turn gives the
      sender the oldest message of IN, if none of IN is in flight. */
  lemma {:induction false} OldestFirst(s: Loop, evs: seq<Event>, end: Loop, now: TimeVal, root: Option<Node>)
    requires Runs(s, evs, end) && Shape(s.m) && InOrder(s.m)
    requires Sound(end.m) && MayHappen(end, Turn(now, root)) && end.connected
    requires end.m.queues[IN].send == 0 && end.m.queues[IN].msgs != []
    ensures var ms := end.m.queues[IN].msgs;
      && Gave(end.m, Step(end, Turn(now, root)).m, IN, ms[0].inode)
      && forall x :: x in ms ==> NotAfter(ms[0].mtime, x.mtime)
  {
    RunsHealthy(s, evs, end);
    InOrderAlong(s, evs, end);
    FeedExact(end.m, IN);
    TurnWait(end.wait, end.m.timers, root, end.seen, now);
    var ms := end.m.queues[IN].msgs;
    forall x | x in ms ensures NotAfter(ms[0].mtime, x.mtime) {
      var k :| 0 <= k < |ms| && ms[k] == x;
      assert k > 0 ==> Older(ms[0], ms[k]);
    }
  }

  // ---------- the link goes up and down ----------

  /** When the link comes up everything found and everything deferred is tried at once: the flush
      ends with nothing in flight, nothing in IN, and a timer on all that failed. */
  lemma {:induction false} UpFlushes(s: Loop, found: seq<Msg>, line: seq<Msg>, batches: seq<seq<Response>>)
    requires Healthy(s) && MayHappen(s, Up(found, line, batches))
    ensures var e := Step(s, Up(found, line, batches));
      && e.connected && e.synced && Shape(e.m) && e.m.act == [] && e.m.dirs[IN] == {}
      && e.m.accepted == s.m.accepted + multiset(Inodes(found))
      && forall q, i :: 2 <= q < |e.m.queues| && i in e.m.dirs[q] ==> HasTimer(e.m.timers, q, i)
  {
    var m := ScanDrop(s.m, found, line);
    ScanBase(s.m, found, line);
    assert (set f | f in found :: f.inode) == Inodes(found);
    FlushKeeps(m, Last(m), batches);
    FlushReturns(m, batches);
    FlushAccepts(m, Last(m), batches);
  }

  lemma {:induction false} ScanWaits(m: Mgr, found: seq<Msg>, line: seq<Msg>, p: nat, i: Inode)
    requires Base(m) && Fresh(m, found) && Sorts(m, found, line) && 1 <= p < |m.queues|
    ensures var c := ScanDrop(m, found, line);
      && c.actDir == m.actDir && |c.queues| == |m.queues| == |c.dirs|
      && (i in m.dirs[p] ==> i in c.dirs[p] && Tries(c, i) == Tries(m, i))
      && (i in Inodes(found) ==> i in c.dirs[IN] && i !in c.actDir && Tries(c, i) == [])
  {
    assert (set f | f in found :: f.inode) == Inodes(found);
  }

  /** Then every message waiting in a queue and not with the sender has been tried exactly once
      more, from that queue, and every message found exactly once, from IN. */
  lemma {:induction false} UpTriesOnce(s: Loop, found: seq<Msg>, line: seq<Msg>, batches: seq<seq<Response>>, p: nat, i: Inode)
    requires Healthy(s) && MayHappen(s, Up(found, line, batches)) && 1 <= p < |s.m.queues|
    ensures i in s.m.dirs[p] && i !in s.m.actDir ==>
      Tries(Step(s, Up(found, line, batches)).m, i) == Tries(s.m, i) + [p]
    ensures i in Inodes(found) ==> Tries(Step(s, Up(found, line, batches)).m, i) == [1]
  {
    var m := ScanDrop(s.m, found, line);
    ScanBase(s.m, found, line);
    ScanWaits(s.m, found, line, p, i);
    FlushKeeps(m, Last(m), batches);
    if i in s.m.dirs[p] && i !in s.m.actDir {
      FlushTriesOnce(m, batches, p, i);
    }
    if i in Inodes(found) {
      FlushTriesOnce(m, batches, IN, i);
    }
  }

  /** After the link has gone down, and whatever else happens until it comes up again, the main
      loop touches no message, queue or timer, and poll is given no timeout. */
  lemma {:induction false} DownIsIdle(s: Loop, evs: seq<Event>, end: Loop)
    requires Healthy(s) && Reaches(Step(s, Hangup), evs, end)
    requires forall k :: 0 <= k < |evs| ==> !evs[k].Up?
    ensures !end.connected && end.wait == -1 && end.m == s.m
  {
    IdleWhileDown(Step(s, Hangup), evs, end);
  }

  lemma {:induction false} IdleWhileDown(s: Loop, evs: seq<Event>, end: Loop)
    requires !s.connected && s.wait == FOREVER && Reaches(s, evs, end)
    requires forall k :: 0 <= k < |evs| ==> !evs[k].Up?
    ensures !end.connected && end.wait == FOREVER && end.m == s.m
    decreases |evs|
  {
    if evs != [] {
      assert !evs[0].Up?;
      IdleWhileDown(Step(s, evs[0]), evs[1..], end);
    }
  }

  lemma {:induction false} FlushAccepts(m: Mgr, q: nat, batches: seq<seq<Response>>)
    requires Sound(m) && q < |m.queues|
    ensures Flush(m, q, batches).m.accepted == m.accepted
    decreases |batches|, q
  {
    if q == 0 {
    } else if Total(m, q) == 0 {
      FlushAccepts(m, q - 1, batches);
    } else if batches != [] {
      ReadAllAccepts(Feed(m, q), batches[0]);
      FlushAccepts(Flushing.Turn(m, q, batches[0]), q, batches[1..]);
    }
  }

  lemma {:induction false} ReadAllAccepts(m: Mgr, rs: seq<Response>)
    requires Sound(m)
    ensures ReadAll(m, rs).accepted == m.accepted
    decreases |rs|
  {
    if rs != [] {
      ReadAllAccepts(CheckResponse(m, rs[0]), rs[1..]);
    }
  }

  /** In every run poll can time out only while the heap holds a timer, and then `minnode` is its
      root, of an existing queue. */
  lemma {:induction false} TimeoutHasRoot(s: Loop, evs: seq<Event>, end: Loop)
    requires Runs(s, evs, end) && end.polling && end.wait >= 0
    ensures end.connected && end.m.timers != multiset{} && end.minnode.Some? && IsRoot(end.minnode, end.m.timers)
    ensures 2 <= end.minnode.value.indque < |end.m.queues|
  {
    HealthyInRun(s, evs, end);
  }

  /** In every run a connected turn sleeps at least the whole milliseconds left to the earliest
      deadline in the heap, and at most the larger of those and 25; without a timer, for ever. */
  lemma {:induction false} WaitInRun(s: Loop, evs: seq<Event>, end: Loop, now: TimeVal, root: Option<Node>)
    requires Runs(s, evs, end) && Sound(end.m) && MayHappen(end, Turn(now, root)) && end.connected
    ensures var wait := Step(end, Turn(now, root)).wait;
      if root.None? then wait == -1 else RightWait(root.value.key, now, wait)
  {
    HealthyInRun(s, evs, end);
    TurnWait(end.wait, end.m.timers, root, end.seen, now);
  }
}
