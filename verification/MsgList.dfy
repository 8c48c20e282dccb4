/** Message lists: arrays of messages searched by inode and kept in arrival or time order. */
module MsgList {
  import opened TimerHeap

  type Inode = nat

  datatype Msg = Msg(inode: Inode, mtime: TimeVal, state: nat)

  // ---------- search and removal ----------

  /** Index of the first message with this inode, or -1. */
  function Find(ms: seq<Msg>, i: Inode): (r: int)
    ensures -1 <= r < |ms| && (r >= 0 ==> ms[r].inode == i)
  {
    if ms == [] then -1
    else if ms[0].inode == i then 0
    else var r := Find(ms[1..], i); if r < 0 then -1 else r + 1
  }

  /** Without the first message with this inode. */
  function Del(ms: seq<Msg>, i: Inode): seq<Msg> {
    if ms == [] then [] else if ms[0].inode == i then ms[1..] else [ms[0]] + Del(ms[1..], i)
  }

  ghost function Inodes(ms: seq<Msg>): set<Inode> { set m | m in ms :: m.inode }

  ghost predicate Distinct(ms: seq<Msg>) {
    forall i, j :: 0 <= i < j < |ms| ==> ms[i].inode != ms[j].inode
  }

  lemma {:induction false} FindExact(ms: seq<Msg>, i: Inode)
    ensures Find(ms, i) < 0 <==> i !in Inodes(ms)
    ensures forall k :: 0 <= k < |ms| && k < Find(ms, i) ==> ms[k].inode != i
  {
    if ms != [] {
      FindExact(ms[1..], i);
      assert ms == [ms[0]] + ms[1..];
      assert Inodes(ms) == {ms[0].inode} + Inodes(ms[1..]);
    }
  }

  lemma {:induction false} DistinctTail(ms: seq<Msg>)
    requires Distinct(ms) && ms != []
    ensures Distinct(ms[1..])
    ensures Inodes(ms) == {ms[0].inode} + Inodes(ms[1..]) && ms[0].inode !in Inodes(ms[1..])
  {
    assert ms == [ms[0]] + ms[1..];
  }

  /** Removal from a list without duplicates removes exactly the messages with that inode. */
  lemma {:induction false} DelExact(ms: seq<Msg>, i: Inode)
    requires Distinct(ms)
    ensures Distinct(Del(ms, i)) && Inodes(Del(ms, i)) == Inodes(ms) - {i}
    ensures forall m :: m in Del(ms, i) <==> m in ms && m.inode != i
    ensures |Del(ms, i)| == |ms| - (if i in Inodes(ms) then 1 else 0)
  {
    if ms != [] {
      DistinctTail(ms);
      DelExact(ms[1..], i);
      assert ms == [ms[0]] + ms[1..];
      if ms[0].inode == i {
        forall m | m in ms[1..] ensures m.inode != i {
          assert m.inode in Inodes(ms[1..]);
        }
      } else {
        assert Del(ms, i) == [ms[0]] + Del(ms[1..], i);
        assert forall m :: m in Del(ms, i) <==> m == ms[0] || m in Del(ms[1..], i);
        DistinctCons(ms[0], Del(ms[1..], i));
      }
    }
  }

  lemma {:induction false} DistinctCons(m: Msg, ms: seq<Msg>)
    requires Distinct(ms) && m.inode !in Inodes(ms)
    ensures Distinct([m] + ms) && Inodes([m] + ms) == {m.inode} + Inodes(ms)
  {
    forall k | 0 <= k < |ms| ensures ms[k].inode != m.inode {
      assert ms[k] in ms;
    }
    assert forall x :: x in [m] + ms <==> x == m || x in ms;
  }

  lemma {:induction false} DistinctSnoc(ms: seq<Msg>, m: Msg)
    requires Distinct(ms) && m.inode !in Inodes(ms)
    ensures Distinct(ms + [m]) && Inodes(ms + [m]) == Inodes(ms) + {m.inode}
  {
    forall k | 0 <= k < |ms| ensures ms[k].inode != m.inode {
      assert ms[k] in ms;
    }
    assert forall x :: x in ms + [m] <==> x in ms || x == m;
  }

  lemma {:induction false} DistinctSize(ms: seq<Msg>)
    requires Distinct(ms)
    ensures |Inodes(ms)| == |ms|
  {
    if ms != [] {
      DistinctTail(ms);
      DistinctSize(ms[1..]);
    }
  }

  // ---------- counting by queue ----------

  /** How many entries belong to queue q, counting only inodes in `among`. */
  ghost function Count(ms: seq<Msg>, q: nat, among: set<Inode>): nat {
    if ms == [] then 0
    else (if ms[0].state == q && ms[0].inode in among then 1 else 0) + Count(ms[1..], q, among)
  }

  lemma {:induction false} CountSnoc(ms: seq<Msg>, m: Msg, q: nat, among: set<Inode>)
    ensures Count(ms + [m], q, among) == Count(ms, q, among) + (if m.state == q && m.inode in among then 1 else 0)
  {
    if ms == [] {
      assert ms + [m] == [m];
    } else {
      CountSnoc(ms[1..], m, q, among);
      assert (ms + [m])[1..] == ms[1..] + [m];
    }
  }

  lemma {:induction false} CountDel(ms: seq<Msg>, m: Msg, q: nat, among: set<Inode>)
    requires Distinct(ms) && m in ms
    ensures Count(Del(ms, m.inode), q, among)
         == Count(ms, q, among) - (if m.state == q && m.inode in among then 1 else 0)
  {
    DistinctTail(ms);
    if ms[0].inode != m.inode {
      CountDel(ms[1..], m, q, among);
      assert ([ms[0]] + Del(ms[1..], m.inode))[1..] == Del(ms[1..], m.inode);
    }
  }

  /** Adding one inode to the set counted adds its entry. */
  lemma {:induction false} CountAdd(ms: seq<Msg>, m: Msg, q: nat, among: set<Inode>)
    requires Distinct(ms) && m in ms && m.inode !in among
    ensures Count(ms, q, among + {m.inode}) == Count(ms, q, among) + (if m.state == q then 1 else 0)
  {
    DistinctTail(ms);
    if ms[0].inode == m.inode {
      CountOther(ms[1..], q, among, among + {m.inode});
    } else {
      CountAdd(ms[1..], m, q, among);
    }
  }

  lemma {:induction false} CountOther(ms: seq<Msg>, q: nat, a: set<Inode>, b: set<Inode>)
    requires forall i :: i in Inodes(ms) ==> (i in a <==> i in b)
    ensures Count(ms, q, a) == Count(ms, q, b)
  {
    if ms != [] {
      assert ms[0] in ms && ms[0].inode in Inodes(ms);
      forall i | i in Inodes(ms[1..]) ensures i in Inodes(ms) {
        var m :| m in ms[1..] && m.inode == i;
        assert m in ms;
      }
      CountOther(ms[1..], q, a, b);
    }
  }

  lemma {:induction false} CountMonotone(ms: seq<Msg>, q: nat, a: set<Inode>, b: set<Inode>)
    requires a * Inodes(ms) <= b
    ensures Count(ms, q, a) <= Count(ms, q, b)
  {
    if ms != [] {
      assert ms[0] in ms && ms[0].inode in Inodes(ms);
      forall i | i in Inodes(ms[1..]) ensures i in Inodes(ms) {
        var m :| m in ms[1..] && m.inode == i;
        assert m in ms;
      }
      CountMonotone(ms[1..], q, a, b);
    }
  }

  /** No entry of queue q exactly when the count is zero. */
  lemma {:induction false} CountZero(ms: seq<Msg>, q: nat)
    ensures Count(ms, q, Inodes(ms)) == 0 <==> forall m :: m in ms ==> m.state != q
  {
    if ms != [] {
      assert ms[0] in ms && ms[0].inode in Inodes(ms);
      CountZero(ms[1..], q);
      assert ms == [ms[0]] + ms[1..];
      CountSame(ms[1..], q, ms);
    }
  }

  lemma {:induction false} CountSame(tail: seq<Msg>, q: nat, ms: seq<Msg>)
    requires ms != [] && tail == ms[1..]
    ensures Count(tail, q, Inodes(ms)) == Count(tail, q, Inodes(tail))
  {
    forall i | i in Inodes(tail) ensures i in Inodes(ms) {
      var m :| m in tail && m.inode == i;
      assert m in ms;
    }
    CountOther(tail, q, Inodes(ms), Inodes(tail));
  }

  /** Entries of queue q all lie in `home`, so there are no more of them than it has. */
  lemma {:induction false} CountBound(ms: seq<Msg>, q: nat, among: set<Inode>, home: set<Inode>)
    requires Distinct(ms)
    requires forall m :: m in ms && m.state == q ==> m.inode in home
    ensures Count(ms, q, among) <= |home|
  {
    if ms != [] {
      DistinctTail(ms);
      if ms[0].state == q {
        assert ms[0] in ms;
        var rest := home - {ms[0].inode};
        forall m | m in ms[1..] && m.state == q ensures m.inode in rest {
          assert m in ms && m.inode in Inodes(ms[1..]);
        }
        CountBound(ms[1..], q, among, rest);
      } else {
        forall m | m in ms[1..] && m.state == q ensures m.inode in home {
          assert m in ms;
        }
        CountBound(ms[1..], q, among, home);
      }
    }
  }

  // ---------- sorting by modification time ----------

  predicate Older(a: Msg, b: Msg) { NotAfter(a.mtime, b.mtime) }

  function InsertByTime(m: Msg, ms: seq<Msg>): seq<Msg> {
    if ms == [] || Before(m.mtime, ms[0].mtime) then [m] + ms else [ms[0]] + InsertByTime(m, ms[1..])
  }

  /** queue_sort; a stable order is one of those the library sort may produce. */
  function SortByTime(ms: seq<Msg>): seq<Msg> {
    if ms == [] then [] else InsertByTime(ms[|ms| - 1], SortByTime(ms[..|ms| - 1]))
  }

  ghost predicate ByTime(ms: seq<Msg>) {
    forall i, j :: 0 <= i < j < |ms| ==> Older(ms[i], ms[j])
  }

  lemma {:induction false} InsertByTimeExact(m: Msg, ms: seq<Msg>)
    requires ByTime(ms)
    ensures ByTime(InsertByTime(m, ms))
    ensures multiset(InsertByTime(m, ms)) == multiset(ms) + multiset{m}
  {
    if ms == [] || Before(m.mtime, ms[0].mtime) {
    } else {
      InsertByTimeExact(m, ms[1..]);
      var rest := InsertByTime(m, ms[1..]);
      assert ms == [ms[0]] + ms[1..];
      forall k | 0 <= k < |rest| ensures Older(ms[0], rest[k]) {
        assert rest[k] in multiset(rest);
        assert rest[k] in ms[1..] || rest[k] == m;
      }
    }
  }

  /** Sorting gives a permutation ordered by modification time. */
  lemma {:induction false} SortByTimeExact(ms: seq<Msg>)
    ensures ByTime(SortByTime(ms)) && multiset(SortByTime(ms)) == multiset(ms)
    decreases |ms|
  {
    if ms != [] {
      SortByTimeExact(ms[..|ms| - 1]);
      InsertByTimeExact(ms[|ms| - 1], SortByTime(ms[..|ms| - 1]));
      assert ms == ms[..|ms| - 1] + [ms[|ms| - 1]];
    }
  }

  /** A permutation of a list without duplicates has none, and the same inodes. */
  lemma {:induction false} PermutationKeeps(a: seq<Msg>, b: seq<Msg>)
    requires multiset(a) == multiset(b) && Distinct(a)
    ensures Distinct(b) && Inodes(b) == Inodes(a) && |b| == |a|
  {
    assert |multiset(a)| == |a| && |multiset(b)| == |b|;
    assert forall m :: m in a <==> m in multiset(a);
    assert forall m :: m in b <==> m in multiset(b);
    assert Inodes(a) == Inodes(b);
    DistinctSize(a);
    SizeDistinct(b);
  }

  lemma {:induction false} SizeDistinct(ms: seq<Msg>)
    requires |Inodes(ms)| == |ms|
    ensures Distinct(ms)
  {
    if ms != [] {
      assert ms == [ms[0]] + ms[1..];
      assert Inodes(ms) == {ms[0].inode} + Inodes(ms[1..]);
      InodesSize(ms[1..]);
      AddSize(ms[0].inode, Inodes(ms[1..]));
      SizeDistinct(ms[1..]);
      DistinctCons(ms[0], ms[1..]);
    }
  }

  lemma {:induction false} AddSize(i: Inode, s: set<Inode>)
    ensures |{i} + s| == |s| + (if i in s then 0 else 1)
  {
    assert i in s ==> {i} + s == s;
  }

  lemma {:induction false} InodesSize(ms: seq<Msg>)
    ensures |Inodes(ms)| <= |ms|
  {
    if ms != [] {
      assert ms == [ms[0]] + ms[1..];
      assert Inodes(ms) == {ms[0].inode} + Inodes(ms[1..]);
      InodesSize(ms[1..]);
    }
  }

  // ---------- the loops ----------

  method ElemFind(ms: seq<Msg>, i: Inode) returns (r: int)
    ensures r < 0 <==> i !in Inodes(ms)
    ensures r >= 0 ==> r < |ms| && ms[r].inode == i
    ensures r == Find(ms, i)
  {
    FindExact(ms, i);
    var k := 0;
    while k < |ms|
      invariant 0 <= k <= |ms|
      invariant forall j :: 0 <= j < k ==> ms[j].inode != i
    {
      if ms[k].inode == i {
        return k;
      }
      k := k + 1;
    }
    return -1;
  }

  method ElemDel(ms: seq<Msg>, i: Inode) returns (r: seq<Msg>)
    ensures r == Del(ms, i)
  {
    var k := 0;
    assert ms[0..] == ms;
    while k < |ms|
      invariant 0 <= k <= |ms|
      invariant ms[..k] + Del(ms[k..], i) == Del(ms, i)
    {
      if ms[k].inode == i {
        assert Del(ms[k..], i) == ms[k + 1..];
        return ms[..k] + ms[k + 1..];
      }
      assert ms[k..][1..] == ms[k + 1..];
      assert ms[..k] + [ms[k]] == ms[..k + 1];
      k := k + 1;
    }
    return ms;
  }
}
