/** How long the main loop sleeps: the poll timeout carried from turn to turn against the
    earliest deadline in the timer heap.  Integers are unbounded here.
 */
module PollWait {
  import opened Basics
  import opened TimerHeap

  const DELTAUSEC: int := 25
  const FOREVER: int := -1

  /** Division by 1000 that truncates toward zero. */
  function WholeMs(us: int): int { if us >= 0 then us / 1000 else -((-us) / 1000) }

  /** Whole milliseconds from `now` to the deadline, as the loop computes them. */
  function MsLeft(key: TimeVal, now: TimeVal): int {
    WholeMs((key.sec - now.sec) * 1000000 + key.usec - now.usec)
  }

  /** The poll timeout of a connected turn; `min` is what heap_min returns. */
  function NextWait(wait: int, min: Option<Node>, now: TimeVal): int
    requires wait > 0 ==> min.Some?
  {
    if wait > 0 then
      var left := MsLeft(min.value.key, now);
      var nearest := if left < 0 then DELTAUSEC else left;
      if wait > nearest then nearest else wait
    else if min.Some? then
      var left := MsLeft(min.value.key, now);
      if left <= 0 then DELTAUSEC else left
    else FOREVER
  }

  function Max(a: int, b: int): int { if a < b then b else a }

  lemma WholeMsMonotone(a: int, b: int)
    requires a <= b
    ensures WholeMs(a) <= WholeMs(b)
  {
  }

  /** Time passing or an earlier timer can only shorten what is left. */
  lemma {:induction false} MsLeftShrinks(key: TimeVal, key': TimeVal, now: TimeVal, now': TimeVal)
    requires NotAfter(key', key) && NotAfter(now, now')
    ensures MsLeft(key', now') <= MsLeft(key, now)
  {
    WholeMsMonotone((key'.sec - now'.sec) * 1000000 + key'.usec - now'.usec,
                    (key.sec - now.sec) * 1000000 + key.usec - now.usec);
  }

  /** What heap_min returns of the timers in the heap. */
  ghost predicate IsRoot(root: Option<Node>, timers: multiset<Node>) {
    && (root.None? <==> timers == multiset{})
    && (root.Some? ==> root.value in timers && forall u :: u in timers ==> NotAfter(root.value.key, u.key))
  }

  /** A timeout carried over was not too short for some timer when the clock was last read. */
  ghost predicate NotTooShort(wait: int, timers: multiset<Node>, seen: TimeVal) {
    wait >= 0 ==> exists t :: t in timers && wait >= MsLeft(t.key, seen)
  }

  /** Microseconds from `now` to the deadline. */
  function MicrosLeft(key: TimeVal, now: TimeVal): int { (key.sec - now.sec) * 1000000 + key.usec - now.usec }

  /** A timeout in milliseconds for a deadline: it falls short by less than a millisecond, and
      exceeds neither the deadline nor, if that is nearer, 25 milliseconds. */
  predicate RightWait(key: TimeVal, now: TimeVal, wait: int) {
    0 <= wait && MicrosLeft(key, now) < 1000 * wait + 1000 && 1000 * wait <= Max(MicrosLeft(key, now), 25000)
  }

  lemma WholeMsExact(us: int)
    ensures us >= 0 ==> 1000 * WholeMs(us) <= us < 1000 * WholeMs(us) + 1000
    ensures us <= 0 ==> us <= 1000 * WholeMs(us) < us + 1000
  {
  }

  /** A turn sleeps at least the whole milliseconds left to the earliest deadline and at most
      the larger of those and 25, whichever branch computed the timeout. */
  lemma {:induction false} TurnWait(wait: int, timers: multiset<Node>, root: Option<Node>, seen: TimeVal, now: TimeVal)
    requires NotTooShort(wait, timers, seen) && IsRoot(root, timers) && NotAfter(seen, now)
    ensures wait > 0 ==> root.Some?
    ensures root.None? ==> NextWait(wait, root, now) == FOREVER
    ensures root.Some? ==> RightWait(root.value.key, now, NextWait(wait, root, now))
    ensures root.Some? && MicrosLeft(root.value.key, now) <= -1000 ==>
      NextWait(wait, root, now) == if 0 < wait < 25 then wait else 25
    ensures root.Some? && -1000 < MicrosLeft(root.value.key, now) < 1000 ==>
      NextWait(wait, root, now) == if wait > 0 then 0 else 25
    ensures NotTooShort(NextWait(wait, root, now), timers, now)
  {
    if root.Some? {
      WholeMsExact(MicrosLeft(root.value.key, now));
    }
    if wait > 0 {
      var t :| t in timers && wait >= MsLeft(t.key, seen);
      MsLeftShrinks(t.key, root.value.key, seen, now);
    }
  }
}
