/** When one pass over the queue of map entries is enough: every entry is looked at after those that
    lead to its key. */
module GcOrder {
  import opened Wrappers
  import opened Sequences
  import opened Gc

  /** Entry j of map n is looked at before entry i of map m: it is an earlier entry of the same map, or
      of a map that is strongly reachable, while m itself is first reached through some entry. */
  ghost predicate Before(h: Heap, root: Ref, n: Ref, j: nat, m: Ref, i: nat) {
    || (n == m && j < i)
    || (StronglyReachable(h, root, n) && !StronglyReachable(h, root, m))
  }

  /** The key of entry i of map m is strongly reachable, or strongly reachable from the value of an
      entry that is looked at before and of which this holds too. */
  ghost predicate Timely(h: Heap, root: Ref, m: Ref, i: nat)
    decreases if StronglyReachable(h, root, m) then 0 else 1, i
  {
    exists k: Ref, x: Ref ::
      && MapsTo(h, m, i, k, x)
      && (|| StronglyReachable(h, root, k)
          || exists n: Ref, j: nat, l: Ref, y: Ref ::
               && Before(h, root, n, j, m, i)
               && MapsTo(h, n, j, l, y) && Timely(h, root, n, j) && StronglyReachable(h, y, k))
  }

  /** The live entries with live keys are timely. */
  ghost predicate KeysInOrder(h: Heap, root: Ref) {
    forall m: Ref, i: nat, k: Ref, x: Ref :: MapsTo(h, m, i, k, x) && Live(h, root, m) && Live(h, root, k) ==>
      Timely(h, root, m, i)
  }

  // --- The queue keeps the order of every map ---

  predicate InOrder(q: seq<Item>) {
    forall a, b :: 0 <= a < b < |q| && q[a].0 == q[b].0 ==> q[a].1 < q[b].1
  }

  predicate OfMarked(s: Marks) {
    forall a :: 0 <= a < |s.queue| ==> s.queue[a].0 in s.marked
  }

  /** What was queued since s is of maps marked since s. */
  predicate QueuesNew(s: Marks, r: Marks) {
    && s.marked <= r.marked && s.queue <= r.queue
    && forall a :: |s.queue| <= a < |r.queue| ==> r.queue[a].0 !in s.marked
  }

  lemma {:induction false} MarkOrders(h: Heap, s: Marks, o: Ref)
    requires Valid(h) && QueueOk(h, s.queue) && o < |h| && InOrder(s.queue) && OfMarked(s)
    ensures var r := Mark(h, s, o); InOrder(r.queue) && OfMarked(r) && QueuesNew(s, r)
    decreases Unmarked(h, s), 0
  {
    hide Strong, QueueOk, InOrder;
    if o !in s.marked {
      var s1 := s.(marked := s.marked + [o]);
      assert o in Unmarked(h, s) && o !in Unmarked(h, s1);
      UnmarkedShrinks(h, s, s1);
      assert forall x :: x in s.marked ==> x in s1.marked;
      assert o in s1.marked;
      MarkAllOrders(h, s1, Strong(h[o]));
      var s2 := MarkAll(h, s1, Strong(h[o]));
      var items := if h[o].WeakMap? then Items(o, |h[o].data|) else [];
      assert Mark(h, s, o) == s2.(queue := s2.queue + items);
      assert forall a :: 0 <= a < |s2.queue| ==> s2.queue[a].0 != o;
      assert o in s2.marked;
      ItemsInOrder(s2.queue, o, |items|);
      assert items == Items(o, |items|);
    }
  }

  lemma ItemsInOrder(q: seq<Item>, o: Ref, n: nat)
    requires InOrder(q) && forall a :: 0 <= a < |q| ==> q[a].0 != o
    ensures InOrder(q + Items(o, n))
  {
  }

  lemma {:induction false} MarkAllOrders(h: Heap, s: Marks, os: seq<Ref>)
    requires Valid(h) && QueueOk(h, s.queue) && Below(os, |h|) && InOrder(s.queue) && OfMarked(s)
    ensures var r := MarkAll(h, s, os); InOrder(r.queue) && OfMarked(r) && QueuesNew(s, r)
    decreases Unmarked(h, s), 1 + |os|
  {
    hide Valid, QueueOk, Strong, InOrder;
    if os != [] {
      MarkOrders(h, s, os[0]);
      var s1 := Mark(h, s, os[0]);
      UnmarkedShrinks(h, s, s1);
      assert Unmarked(h, s1) < Unmarked(h, s) || Unmarked(h, s1) == Unmarked(h, s);
      MarkAllOrders(h, s1, os[1..]);
      assert forall x :: x in s.marked ==> x in s1.marked;
    }
  }

  // --- Timely entries fire ---

  /** A timely entry that has left the queue has its value marked. */
  ghost predicate Fired(h: Heap, root: Ref, s: Marks, m: Ref, i: nat) {
    forall k: Ref, x: Ref :: MapsTo(h, m, i, k, x) && Timely(h, root, m, i) ==> x in s.marked
  }

  /** What is strongly reachable is marked, and the entries of such maps come first in the queue. */
  ghost predicate ReachableFirst(h: Heap, root: Ref, s: Marks) {
    && (forall x :: StronglyReachable(h, root, x) ==> x in s.marked)
    && (forall a, b :: 0 <= a < b < |s.queue| && StronglyReachable(h, root, s.queue[b].0) ==>
          StronglyReachable(h, root, s.queue[a].0))
  }

  ghost predicate OrderInv(h: Heap, root: Ref, s: Marks) {
    && LoopInv(h, root, s) && InOrder(s.queue) && OfMarked(s) && ReachableFirst(h, root, s)
    && (forall m: Ref, i: nat :: m in s.marked && m < |h| && h[m].WeakMap? && i < |h[m].data| ==>
          (m, i) in s.queue || Fired(h, root, s, m, i))
  }

  lemma {:induction false} ReachedMarked(h: Heap, root: Ref, s: Marks, y: Ref, x: Ref, k: nat)
    requires LoopInv(h, root, s) && y in s.marked && StrongIn(h, y, x, k)
    ensures x in s.marked
    decreases k
  {
    hide Strong, EntryDone;
    if k > 0 {
      var z: Ref :| StrongIn(h, y, z, k - 1) && z < |h| && Holds(h[z], x);
      ReachedMarked(h, root, s, y, z, k - 1);
      assert StrongDone(h, s, z) && x in Strong(h[z]);
    }
  }

  /** The key of a timely entry is marked when the entry comes to the front of the queue. */
  lemma TimelyKeyMarked(h: Heap, root: Ref, s: Marks, k: Ref, x: Ref)
    requires Valid(h) && s.queue != [] && QueueOk(h, s.queue) && OrderInv(h, root, s)
    requires MapsTo(h, s.queue[0].0, s.queue[0].1, k, x) && Timely(h, root, s.queue[0].0, s.queue[0].1)
    ensures k in s.marked
  {
    hide Valid, Strong, StrongIn, LoopInv, MapsTo;
    var (m, i) := s.queue[0];
    SameEntry(h, m, i);
    if StronglyReachable(h, root, k) {
      var n: nat :| StrongIn(h, root, k, n);
      StrongMarked(h, root, s, k, n);
    } else {
      var n: Ref, j: nat, l: Ref, y: Ref :|
        && Before(h, root, n, j, m, i)
        && MapsTo(h, n, j, l, y) && Timely(h, root, n, j) && StronglyReachable(h, y, k);
      BeforeHasLeft(h, root, s, n, j);
      InMap(h, n, j, l, y);
      assert Fired(h, root, s, n, j);
      var d: nat :| StrongIn(h, y, k, d);
      ReachedMarked(h, root, s, y, k, d);
    }
  }

  /** An entry that is looked at before the front of the queue has left it, and its map is marked. */
  lemma BeforeHasLeft(h: Heap, root: Ref, s: Marks, n: Ref, j: nat)
    requires s.queue != [] && InOrder(s.queue) && OfMarked(s) && ReachableFirst(h, root, s)
    requires Before(h, root, n, j, s.queue[0].0, s.queue[0].1)
    ensures (n, j) !in s.queue && n in s.marked
  {
    hide StronglyReachable;
  }

  /** An entry that does not fire at the front of the queue was not timely. */
  lemma SkippedIsLate(h: Heap, root: Ref, s: Marks, k: Ref, x: Ref)
    requires Valid(h) && s.queue != [] && QueueOk(h, s.queue) && OrderInv(h, root, s) && !Fires(h, s, s.queue[0])
    requires MapsTo(h, s.queue[0].0, s.queue[0].1, k, x)
    ensures !Timely(h, root, s.queue[0].0, s.queue[0].1)
  {
    hide Timely, OrderInv, Valid;
    if Timely(h, root, s.queue[0].0, s.queue[0].1) {
      TimelyKeyMarked(h, root, s, k, x);
      assert false;
    }
  }

  lemma SameEntry(h: Heap, m: Ref, i: nat)
    ensures forall k: Ref, x: Ref, k': Ref, x': Ref :: MapsTo(h, m, i, k, x) && MapsTo(h, m, i, k', x') ==>
              k == k' && x == x'
  {
  }

  lemma InMap(h: Heap, m: Ref, i: nat, k: Ref, x: Ref)
    requires MapsTo(h, m, i, k, x)
    ensures m < |h| && h[m].WeakMap? && i < |h[m].data|
    ensures h[m].data[i].key == Some(k) && h[m].data[i].value == Some(x)
  {
  }

  lemma OrderStep(h: Heap, root: Ref, s: Marks, v: Ref)
    requires Valid(h) && s.queue != [] && QueueOk(h, s.queue) && OrderInv(h, root, s) && Fires(h, s, s.queue[0])
    requires v == h[s.queue[0].0].data[s.queue[0].1].value.value
    ensures OrderInv(h, root, Mark(h, s.(queue := s.queue[1..]), v))
  {
    hide Strong, StronglyReachable, LoopInv, Timely;
    var it := s.queue[0];
    var s1 := s.(queue := s.queue[1..]);
    var s2 := Mark(h, s1, v);
    LoopStep(h, root, s, v);
    MarkOrders(h, s1, v);
    MarkDone(h, s1, v);
    StaysFirst(h, root, s1, s2);
    assert forall x :: x in s1.marked ==> x in s2.marked;
    assert forall q :: q in s1.queue ==> q in s2.queue;
    assert forall q :: q in s.queue ==> q == it || q in s1.queue;
    forall m: Ref, i: nat | m in s2.marked && m < |h| && h[m].WeakMap? && i < |h[m].data|
      ensures (m, i) in s2.queue || Fired(h, root, s2, m, i)
    {
      if m !in s1.marked {
        assert EntriesQueued(h, s2, m);
      } else if (m, i) != it && (m, i) !in s.queue {
        assert Fired(h, root, s, m, i);
      }
    }
  }

  lemma StaysFirst(h: Heap, root: Ref, s: Marks, r: Marks)
    requires ReachableFirst(h, root, s) && QueuesNew(s, r)
    ensures ReachableFirst(h, root, r)
  {
    hide StronglyReachable;
    assert forall x :: x in s.marked ==> x in r.marked;
    forall a, b | 0 <= a < b < |r.queue| && StronglyReachable(h, root, r.queue[b].0)
      ensures StronglyReachable(h, root, r.queue[a].0)
    {
      assert b < |s.queue|;
      assert r.queue[a] == s.queue[a] && r.queue[b] == s.queue[b];
    }
  }

  lemma OrderSkip(h: Heap, root: Ref, s: Marks)
    requires Valid(h) && s.queue != [] && QueueOk(h, s.queue) && OrderInv(h, root, s) && !Fires(h, s, s.queue[0])
    ensures OrderInv(h, root, s.(queue := s.queue[1..]))
  {
    hide Valid, Strong, StronglyReachable, LoopInv, Timely, MapsTo;
    var it := s.queue[0];
    var s1 := s.(queue := s.queue[1..]);
    LoopSkip(h, root, s);
    assert forall q :: q in s.queue ==> q == it || q in s1.queue;
    forall k: Ref, x: Ref | MapsTo(h, it.0, it.1, k, x) ensures !Timely(h, root, it.0, it.1) {
      SkippedIsLate(h, root, s, k, x);
    }
    assert Fired(h, root, s1, it.0, it.1);
    forall m: Ref, i: nat | m in s1.marked && m < |h| && h[m].WeakMap? && i < |h[m].data|
      ensures (m, i) in s1.queue || Fired(h, root, s1, m, i)
    {
      if (m, i) != it && (m, i) !in s.queue {
        assert Fired(h, root, s, m, i);
      }
    }
  }

  lemma {:induction false} DrainOrders(h: Heap, root: Ref, s: Marks)
    requires Valid(h) && QueueOk(h, s.queue) && OrderInv(h, root, s)
    ensures OrderInv(h, root, Drain(h, s))
    decreases Unmarked(h, s), |s.queue|
  {
    hide OrderInv, Strong;
    if s.queue != [] {
      var it := s.queue[0];
      var s1 := s.(queue := s.queue[1..]);
      assert Unmarked(h, s1) == Unmarked(h, s);
      if Fires(h, s, it) {
        var v := h[it.0].data[it.1].value.value;
        OrderStep(h, root, s, v);
        var s2 := Mark(h, s1, v);
        UnmarkedShrinks(h, s1, s2);
        MarkMarks(h, s1, v);
        assert v !in s1.marked ==> v in Unmarked(h, s1) && v !in Unmarked(h, s2);
        assert Unmarked(h, s2) < Unmarked(h, s) || (Unmarked(h, s2) == Unmarked(h, s) && s2 == s1);
        DrainOrders(h, root, s2);
      } else {
        OrderSkip(h, root, s);
        DrainOrders(h, root, s1);
      }
    }
  }

  /** If every live entry comes after those that lead to its key, the single pass marks exactly the
      live objects, even where keys are kept alive by weak maps only. */
  lemma MarkingExactWhenInOrder(h: Heap, root: Ref)
    requires Valid(h) && root < |h| && KeysInOrder(h, root)
    ensures forall x :: Live(h, root, x) <==> x in Marked(h, root)
  {
    hide Valid, Strong, LiveIn, StrongIn, LoopInv, Timely;
    var s0 := Marks([], []);
    MarkingFacts(h, root);
    MarkingExact(h, root);
    StartsInOrder(h, root);
    DrainOrders(h, root, Mark(h, s0, root));
    var s := Drain(h, Mark(h, s0, root));
    forall m: Ref, i: nat, k: Ref, x: Ref ensures !Missed(h, s.marked, m, i, k, x) {
      if m in s.marked && k in s.marked && MapsTo(h, m, i, k, x) {
        InMap(h, m, i, k, x);
        assert Live(h, root, m) && Live(h, root, k);
        assert Fired(h, root, s, m, i);
      }
    }
  }

  lemma StartsInOrder(h: Heap, root: Ref)
    requires Valid(h) && root < |h|
    ensures OrderInv(h, root, Mark(h, Marks([], []), root))
  {
    hide Strong, Timely, StronglyReachable;
    var s0 := Marks([], []);
    MarkDone(h, s0, root);
    MarkOrders(h, s0, root);
    var s := Mark(h, s0, root);
    assert forall x: Ref :: x in s.marked ==> StrongDone(h, s, x) && EntriesQueued(h, s, x);
    StartsReachable(h, root);
  }

  /** Before the loop exactly what is strongly reachable is marked. */
  lemma StartsReachable(h: Heap, root: Ref)
    requires Valid(h) && root < |h| && LoopInv(h, root, Mark(h, Marks([], []), root))
    ensures var s := Mark(h, Marks([], []), root); forall x :: x in s.marked <==> StronglyReachable(h, root, x)
  {
    hide Strong, StrongIn, LoopInv, Valid;
    var s := Mark(h, Marks([], []), root);
    assert StrongIn(h, root, root, 0) by { RootReaches(h, root); }
    MarkReachable(h, root, Marks([], []), root);
    forall x | StronglyReachable(h, root, x) ensures x in s.marked {
      var n: nat :| StrongIn(h, root, x, n);
      StrongMarked(h, root, s, x, n);
    }
  }

  lemma RootReaches(h: Heap, root: Ref)
    ensures StrongIn(h, root, root, 0)
  {
  }

  ghost predicate AllReachable(h: Heap, root: Ref, s: Marks) {
    forall x :: x in s.marked ==> StronglyReachable(h, root, x)
  }

  lemma ReachableNext(h: Heap, root: Ref, y: Ref, x: Ref)
    requires StronglyReachable(h, root, y) && y < |h| && Holds(h[y], x)
    ensures StronglyReachable(h, root, x)
  {
    hide Strong;
    var n: nat :| StrongIn(h, root, y, n);
    assert StrongIn(h, root, x, n + 1);
  }

  lemma {:induction false} MarkReachable(h: Heap, root: Ref, s: Marks, o: Ref)
    requires Valid(h) && QueueOk(h, s.queue) && o < |h| && AllReachable(h, root, s) && StronglyReachable(h, root, o)
    ensures AllReachable(h, root, Mark(h, s, o))
    decreases Unmarked(h, s), 0
  {
    hide StronglyReachable, Strong;
    if o !in s.marked {
      var s1 := s.(marked := s.marked + [o]);
      assert o in Unmarked(h, s) && o !in Unmarked(h, s1);
      UnmarkedShrinks(h, s, s1);
      forall x | x in Strong(h[o]) ensures StronglyReachable(h, root, x) {
        ReachableNext(h, root, o, x);
      }
      MarkAllReachable(h, root, s1, Strong(h[o]));
    }
  }

  lemma {:induction false} MarkAllReachable(h: Heap, root: Ref, s: Marks, os: seq<Ref>)
    requires Valid(h) && QueueOk(h, s.queue) && Below(os, |h|) && AllReachable(h, root, s)
    requires forall x :: x in os ==> StronglyReachable(h, root, x)
    ensures AllReachable(h, root, MarkAll(h, s, os))
    decreases Unmarked(h, s), 1 + |os|
  {
    hide Valid, StronglyReachable, Strong;
    if os != [] {
      MarkReachable(h, root, s, os[0]);
      var s1 := Mark(h, s, os[0]);
      UnmarkedShrinks(h, s, s1);
      assert Unmarked(h, s1) < Unmarked(h, s) || Unmarked(h, s1) == Unmarked(h, s);
      MarkAllReachable(h, root, s1, os[1..]);
    }
  }

  // --- Keys that need no order ---

  /** No live key is kept alive by weak maps only. */
  ghost predicate KeysHeldStrongly(h: Heap, root: Ref) {
    forall m: Ref, i: nat, k: Ref, x: Ref :: MapsTo(h, m, i, k, x) && Live(h, root, m) && Live(h, root, k) ==>
      StronglyReachable(h, root, k)
  }

  lemma HeldKeysAreInOrder(h: Heap, root: Ref)
    requires KeysHeldStrongly(h, root)
    ensures KeysInOrder(h, root)
  {
    hide StronglyReachable, Live, MapsTo;
  }

  /** So on such heaps the single pass is enough whatever the order. */
  lemma MarkingExactWhenKeysHeld(h: Heap, root: Ref)
    requires Valid(h) && root < |h| && KeysHeldStrongly(h, root)
    ensures forall x :: Live(h, root, x) <==> x in Marked(h, root)
  {
    hide Valid, Live, Marked, KeysHeldStrongly, KeysInOrder;
    HeldKeysAreInOrder(h, root);
    MarkingExactWhenInOrder(h, root);
  }
}
