/** The timer heap: a 1-based binary heap kept in an array that doubles when full.
    The functions work on the array's live slots (slot 0 is never used); the class updates
    the array in place and is proved to compute them.
 */
module TimerHeap {
  import opened Basics

  type Micros = x: int | 0 <= x < 1000000

  datatype TimeVal = TimeVal(sec: int, usec: Micros)

  datatype Node = Node(key: TimeVal, indque: nat, inode: nat)

  predicate Before(a: TimeVal, b: TimeVal) {
    if a.sec == b.sec then a.usec < b.usec else a.sec < b.sec
  }

  predicate NotAfter(a: TimeVal, b: TimeVal) { !Before(b, a) }

  /** Keys are ordered by time. */
  lemma NotAfterExact(a: TimeVal, b: TimeVal)
    ensures NotAfter(a, b) <==> 1000000 * a.sec + a.usec <= 1000000 * b.sec + b.usec
  {
  }

  // ---------- the algorithm on slots ----------

  /** Live slots are 1 .. |s|-1. */
  type Slots = s: seq<Node> | |s| >= 1 witness [Node(TimeVal(0, 0), 0, 0)]

  function Swap(s: Slots, i: nat, j: nat): Slots
    requires i < |s| && j < |s|
  {
    s[i := s[j]][j := s[i]]
  }

  function SiftUp(s: Slots, i: nat): Slots
    requires 1 <= i < |s|
    decreases i
  {
    if i > 1 && Before(s[i].key, s[i / 2].key) then SiftUp(Swap(s, i, i / 2), i / 2) else s
  }

  /** The earliest of a slot and its children. */
  function Least(s: Slots, i: nat): nat
    requires 1 <= i < |s|
  {
    var l, r := 2 * i, 2 * i + 1;
    var least := if l < |s| && Before(s[l].key, s[i].key) then l else i;
    if r < |s| && Before(s[r].key, s[least].key) then r else least
  }

  function SiftDown(s: Slots, i: nat): Slots
    requires 1 <= i < |s|
    decreases |s| - i
  {
    var least := Least(s, i);
    if least == i then s else SiftDown(Swap(s, i, least), least)
  }

  function Inserted(s: Slots, n: Node): Slots { SiftUp(s + [n], |s|) }

  /** Without the minimum: the last node takes the root and sinks. */
  function Removed(s: Slots): Slots
    requires |s| > 1
  {
    var t := s[1 := s[|s| - 1]][..|s| - 1];
    if |t| == 1 then t else SiftDown(t, 1)
  }

  // ---------- what it means ----------

  /** The nodes in slots 1 .. n. */
  ghost function Bag(s: Slots, n: nat): multiset<Node>
    requires n < |s|
  {
    if n == 0 then multiset{} else Bag(s, n - 1) + multiset{s[n]}
  }

  ghost function Contents(s: Slots): multiset<Node> { Bag(s, |s| - 1) }

  lemma {:induction false} BagExact(s: Slots, n: nat)
    requires n < |s|
    ensures Bag(s, n) == multiset(s[1..n + 1])
  {
    if n > 0 {
      BagExact(s, n - 1);
      assert s[1..n + 1] == s[1..n] + [s[n]];
    }
  }

  lemma {:induction false} ContentsExact(s: Slots)
    ensures Contents(s) == multiset(s[1..])
  {
    BagExact(s, |s| - 1);
    assert s[1..|s|] == s[1..];
  }

  ghost predicate Ordered(s: Slots) {
    forall j :: 2 <= j < |s| ==> NotAfter(s[j / 2].key, s[j].key)
  }

  /** The same, slot by slot. */
  ghost predicate OrderedTo(s: Slots, n: nat)
    requires n < |s|
  {
    n < 2 || (NotAfter(s[n / 2].key, s[n].key) && OrderedTo(s, n - 1))
  }

  ghost predicate IsHeap(s: Slots) { OrderedTo(s, |s| - 1) }

  lemma {:induction false} OrderedToExact(s: Slots, n: nat)
    requires n < |s|
    ensures OrderedTo(s, n) <==> forall j :: 2 <= j <= n ==> NotAfter(s[j / 2].key, s[j].key)
  {
    if n >= 2 {
      OrderedToExact(s, n - 1);
    }
  }

  lemma {:induction false} HeapIsOrdered(s: Slots)
    ensures IsHeap(s) <==> Ordered(s)
  {
    OrderedToExact(s, |s| - 1);
  }

  lemma {:induction false} SwapContents(s: Slots, i: nat, j: nat)
    requires 1 <= i < |s| && 1 <= j < |s|
    ensures |Swap(s, i, j)| == |s| && Swap(s, i, j)[0] == s[0]
    ensures Contents(Swap(s, i, j)) == Contents(s)
  {
    ContentsExact(s);
    ContentsExact(Swap(s, i, j));
    var t := s[1..];
    assert Swap(s, i, j)[1..] == t[i - 1 := t[j - 1]][j - 1 := t[i - 1]];
  }

  lemma {:induction false} SiftUpContents(s: Slots, i: nat)
    requires 1 <= i < |s|
    ensures |SiftUp(s, i)| == |s| && SiftUp(s, i)[0] == s[0]
    ensures Contents(SiftUp(s, i)) == Contents(s)
    decreases i
  {
    if i > 1 && Before(s[i].key, s[i / 2].key) {
      SwapContents(s, i, i / 2);
      SiftUpContents(Swap(s, i, i / 2), i / 2);
    }
  }

  lemma {:induction false} SiftDownContents(s: Slots, i: nat)
    requires 1 <= i < |s|
    ensures |SiftDown(s, i)| == |s| && SiftDown(s, i)[0] == s[0]
    ensures Contents(SiftDown(s, i)) == Contents(s)
    decreases |s| - i
  {
    var least := Least(s, i);
    if least != i {
      SwapContents(s, i, least);
      SiftDownContents(Swap(s, i, least), least);
    }
  }

  /** Ordered except between slot i and its parent. */
  ghost predicate OrderedAbove(s: Slots, i: nat) {
    && (forall j :: 2 <= j < |s| && j != i ==> NotAfter(s[j / 2].key, s[j].key))
    && (forall j :: 2 <= j < |s| && j / 2 == i && 2 <= i ==> NotAfter(s[j / 2 / 2].key, s[j].key))
  }

  /** Ordered except between slot i and its children. */
  ghost predicate OrderedBelow(s: Slots, i: nat) {
    && (forall j :: 2 <= j < |s| && j / 2 != i ==> NotAfter(s[j / 2].key, s[j].key))
    && (forall j :: 2 <= j < |s| && j / 2 == i && 2 <= i ==> NotAfter(s[j / 2 / 2].key, s[j].key))
  }

  lemma {:induction false} SiftUpOrdered(s: Slots, i: nat)
    requires 1 <= i < |s| && OrderedAbove(s, i)
    ensures Ordered(SiftUp(s, i))
    decreases i
  {
    if i > 1 && Before(s[i].key, s[i / 2].key) {
      SiftUpOrdered(Swap(s, i, i / 2), i / 2);
    }
  }

  lemma {:induction false} LeastStep(s: Slots, i: nat)
    requires 1 <= i < |s| && OrderedBelow(s, i) && Least(s, i) != i
    ensures OrderedBelow(Swap(s, i, Least(s, i)), Least(s, i))
  {
    var m := Least(s, i);
    var t := Swap(s, i, m);
    assert m / 2 == i;
    forall j | 2 <= j < |t| && j / 2 != m ensures NotAfter(t[j / 2].key, t[j].key) {
      if j / 2 == i {
        assert NotAfter(s[m].key, s[j].key);
      } else if j == i {
        assert NotAfter(s[m / 2 / 2].key, s[m].key);
      }
    }
    forall j | 2 <= j < |t| && j / 2 == m && 2 <= m ensures NotAfter(t[j / 2 / 2].key, t[j].key) {
      assert NotAfter(s[j / 2].key, s[j].key);
    }
  }

  lemma {:induction false} SiftDownOrdered(s: Slots, i: nat)
    requires 1 <= i < |s| && OrderedBelow(s, i)
    ensures Ordered(SiftDown(s, i))
    decreases |s| - i
  {
    var m := Least(s, i);
    if m == i {
      forall j | 2 <= j < |s| ensures NotAfter(s[j / 2].key, s[j].key) {
        if j / 2 == i {
          assert j == 2 * i || j == 2 * i + 1;
        }
      }
    } else {
      LeastStep(s, i);
      SiftDownOrdered(Swap(s, i, m), m);
    }
  }

  /** Insertion adds exactly one node and keeps heap order. */
  lemma {:induction false} InsertedRefines(s: Slots, n: Node)
    requires IsHeap(s)
    ensures IsHeap(Inserted(s, n)) && Contents(Inserted(s, n)) == Contents(s) + multiset{n}
    ensures |Inserted(s, n)| == |s| + 1
  {
    HeapIsOrdered(s);
    HeapIsOrdered(Inserted(s, n));
    SiftUpContents(s + [n], |s|);
    ContentsExact(s);
    ContentsExact(s + [n]);
    assert (s + [n])[1..] == s[1..] + [n];
    SiftUpOrdered(s + [n], |s|);
  }

  /** The root is a minimum. */
  lemma {:induction false} RootIsMin(s: Slots, i: nat)
    requires Ordered(s) && 1 <= i < |s|
    ensures NotAfter(s[1].key, s[i].key)
    decreases i
  {
    if i > 1 {
      RootIsMin(s, i / 2);
    }
  }

  /** Removal takes out exactly the root and keeps heap order. */
  lemma {:induction false} RemovedRefines(s: Slots)
    requires IsHeap(s) && |s| > 1
    ensures IsHeap(Removed(s)) && |Removed(s)| == |s| - 1
    ensures s[1] in Contents(s) && Contents(Removed(s)) == Contents(s) - multiset{s[1]}
    ensures forall n :: n in Contents(s) ==> NotAfter(s[1].key, n.key)
  {
    var last := s[|s| - 1];
    var t: Slots := s[1 := last][..|s| - 1];
    RemovedSlots(s);
    HeapIsOrdered(s);
    HeapIsOrdered(Removed(s));
    if |t| > 1 {
      assert OrderedBelow(t, 1);
      SiftDownContents(t, 1);
      SiftDownOrdered(t, 1);
    }
    ContentsExact(s);
    forall n | n in Contents(s) ensures NotAfter(s[1].key, n.key) {
      var i :| 0 <= i < |s[1..]| && s[1..][i] == n;
      RootIsMin(s, i + 1);
    }
  }

  lemma {:induction false} RemovedSlots(s: Slots)
    requires |s| > 1
    ensures s[1] in Contents(s)
    ensures Contents(s[1 := s[|s| - 1]][..|s| - 1]) == Contents(s) - multiset{s[1]}
  {
    var last := s[|s| - 1];
    var t: Slots := s[1 := last][..|s| - 1];
    ContentsExact(s);
    ContentsExact(t);
    assert s[1..][0] == s[1];
    if |s| == 2 {
      assert s[1..] == [s[1]];
      assert t[1..] == [];
    } else {
      var mid := s[2..|s| - 1];
      assert s[1..] == [s[1]] + mid + [last];
      assert t[1..] == [last] + mid;
    }
  }

  // ---------- repeated extraction ----------

  function ExtractAll(s: Slots): seq<Node>
    requires IsHeap(s)
    decreases |s|
  {
    if |s| == 1 then [] else
      RemovedRefines(s);
      [s[1]] + ExtractAll(Removed(s))
  }

  ghost predicate Sorted(ns: seq<Node>) {
    forall i, j :: 0 <= i < j < |ns| ==> NotAfter(ns[i].key, ns[j].key)
  }

  lemma {:induction false} SortedCons(n: Node, ns: seq<Node>, all: multiset<Node>)
    requires Sorted(ns) && multiset(ns) <= all
    requires forall m :: m in all ==> NotAfter(n.key, m.key)
    ensures Sorted([n] + ns)
  {
    forall i | 0 <= i < |ns| ensures NotAfter(n.key, ns[i].key) {
      assert ns[i] in multiset(ns);
    }
  }

  /** Repeated extraction yields a sorted permutation of what was inserted. */
  lemma {:induction false} ExtractAllSorts(s: Slots)
    requires IsHeap(s)
    ensures multiset(ExtractAll(s)) == Contents(s)
    ensures Sorted(ExtractAll(s))
    decreases |s|
  {
    if |s| > 1 {
      RemovedRefines(s);
      ExtractAllSorts(Removed(s));
      SortedCons(s[1], ExtractAll(Removed(s)), Contents(s));
    } else {
      assert s[1..] == [];
    }
  }

  // ---------- the heap in place ----------

  class Heap {
    var maxsize: nat
    var nodecount: nat
    var nodes: array<Node>
    ghost var contents: multiset<Node>   // what has been inserted and not yet extracted

    /** The array holds every index the operations touch, and its live part is a heap of the
        contents. */
    ghost predicate Valid()
      reads this, nodes
    {
      && nodecount < maxsize <= nodes.Length
      && IsHeap(Live()) && Contents(Live()) == contents
    }

    function Live(): Slots
      requires nodecount < nodes.Length
      reads this, nodes
    {
      nodes[..nodecount + 1]
    }

    constructor (maxsize: nat)
      requires maxsize >= 1
      ensures Valid() && fresh(nodes)
      ensures contents == multiset{} && nodecount == 0
    {
      this.maxsize := maxsize;
      nodecount := 0;
      nodes := new Node[maxsize + 1](_ => Node(TimeVal(0, 0), 0, 0));
      contents := multiset{};
    }

    /** The earliest node, if any. */
    method Min() returns (n: Option<Node>)
      requires Valid()
      ensures n.None? <==> nodecount == 0
      ensures n.None? <==> contents == multiset{}
      ensures n.Some? ==> n.value == nodes[1] && n.value in contents
      ensures n.Some? ==> forall m :: m in contents ==> NotAfter(n.value.key, m.key)
    {
      if nodecount == 0 {
        return None;
      }
      RemovedRefines(Live());
      return Some(nodes[1]);
    }

    /** Make room: when the next index would reach maxsize, double it. */
    method Grow()
      requires Valid()
      modifies `maxsize, `nodes
      ensures Valid() && Live() == old(Live())
      ensures nodecount + 1 < maxsize
      ensures nodes == old(nodes) || fresh(nodes)
    {
      if nodecount + 1 >= maxsize {
        maxsize := 2 * maxsize;
        var before := nodes;
        nodes := new Node[maxsize](i requires 0 <= i reads before =>
          if i < before.Length then before[i] else Node(TimeVal(0, 0), 0, 0));
        assert Live() == old(Live());
      }
    }

    method Rise(index: nat)
      requires 1 <= index <= nodecount < nodes.Length
      modifies nodes
      ensures Live() == SiftUp(old(Live()), index)
    {
      var i := index;
      while i > 1 && Before(nodes[i].key, nodes[i / 2].key)
        invariant 1 <= i <= nodecount
        invariant SiftUp(Live(), i) == SiftUp(old(Live()), index)
      {
        ghost var now := Live();
        nodes[i], nodes[i / 2] := nodes[i / 2], nodes[i];
        assert Live() == Swap(now, i, i / 2);
        i := i / 2;
      }
    }

    method Insert(key: TimeVal, indque: nat, inode: nat)
      requires Valid()
      modifies this, nodes
      ensures Valid() && (nodes == old(nodes) || fresh(nodes))
      ensures contents == old(contents) + multiset{Node(key, indque, inode)}
    {
      ghost var before := Live();
      InsertedRefines(before, Node(key, indque, inode));
      Grow();
      nodecount := nodecount + 1;
      nodes[nodecount] := Node(key, indque, inode);
      assert Live() == before + [Node(key, indque, inode)];
      Rise(nodecount);
      contents := contents + multiset{Node(key, indque, inode)};
    }

    method Earliest(i: nat) returns (least: nat)
      requires 1 <= i <= nodecount < nodes.Length
      ensures least == Least(Live(), i)
    {
      var left, right := 2 * i, 2 * i + 1;
      least := i;
      if left <= nodecount && Before(nodes[left].key, nodes[i].key) {
        least := left;
      }
      if right <= nodecount && Before(nodes[right].key, nodes[least].key) {
        least := right;
      }
    }

    method Heapify(index: nat)
      requires 1 <= index <= nodecount < nodes.Length
      modifies nodes
      ensures Live() == SiftDown(old(Live()), index)
    {
      var i := index;
      while true
        invariant 1 <= i <= nodecount
        invariant SiftDown(Live(), i) == SiftDown(old(Live()), index)
        decreases nodecount - i
      {
        var least := Earliest(i);
        if least == i {
          break;
        }
        ghost var now := Live();
        nodes[i], nodes[least] := nodes[least], nodes[i];
        assert Live() == Swap(now, i, least);
        i := least;
      }
    }

    /** Move the last node to the root. */
    method DropRoot()
      requires 1 <= nodecount < nodes.Length
      modifies `nodecount, nodes
      ensures nodecount == old(nodecount) - 1
      ensures Live() == old(Live()[1 := Live()[nodecount]][..nodecount])
    {
      nodes[1] := nodes[nodecount];
      nodecount := nodecount - 1;
    }

    /** Take the root out of the array. */
    method TakeRoot()
      requires 1 <= nodecount < nodes.Length
      modifies `nodecount, nodes
      ensures nodecount == old(nodecount) - 1
      ensures Live() == Removed(old(Live()))
    {
      DropRoot();
      if nodecount > 0 {   // on an empty heap Heapify does nothing
        Heapify(1);
      }
    }

    /** Take out the root, a minimum; on an empty heap, a zero node. */
    method ExtractMin() returns (n: Node)
      requires Valid()
      modifies `nodecount, `contents, nodes
      ensures Valid()
      ensures old(nodecount) == 0 ==> contents == old(contents) && n == Node(TimeVal(0, 0), 0, 0)
      ensures old(nodecount) > 0 ==>
        && n == old(nodes[1]) && n in old(contents) && contents == old(contents) - multiset{n}
        && forall m :: m in old(contents) ==> NotAfter(n.key, m.key)
    {
      if nodecount == 0 {
        return Node(TimeVal(0, 0), 0, 0);
      }
      RemovedRefines(Live());
      n := nodes[1];
      TakeRoot();
      contents := contents - multiset{n};
    }
  }
}
