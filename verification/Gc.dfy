/** The garbage collector's marking: a depth-first mark over strong references and one pass over a
    queue of weak-map entries. */
module Gc {
  import opened Sequences
  import opened Wrappers

  type Ref = nat

  datatype Cell = Cell(target: Option<Ref>, held: Option<Ref>)

  datatype Entry = Entry(key: Option<Ref>, value: Option<Ref>)

  /** `strong` are the references that marking follows: an object's own, or, for the four weak kinds,
      its property table and its prototype. */
  datatype Obj =
    | Plain(strong: seq<Ref>)
    | WeakRef(strong: seq<Ref>, target: Option<Ref>)
    | Registry(strong: seq<Ref>, cells: seq<Cell>)
    | WeakMap(strong: seq<Ref>, data: seq<Entry>)
    | WeakSet(strong: seq<Ref>, members: seq<Option<Ref>>)

  type Heap = seq<Obj>

  function HeldValues(cells: seq<Cell>): (r: seq<Ref>)
    ensures forall x: Ref :: x in r <==> HeldBy(cells, x)
  {
    if cells == [] then []
    else
      assert forall x: Ref :: HeldBy(cells, x) <==> cells[0].held == Some(x) || HeldBy(cells[1..], x) by {
        forall x: Ref ensures HeldBy(cells, x) <==> cells[0].held == Some(x) || HeldBy(cells[1..], x) {
          HeldByOneMore(cells, x);
        }
      }
      (if cells[0].held.Some? then [cells[0].held.value] else []) + HeldValues(cells[1..])
  }

  ghost predicate HeldBy(cells: seq<Cell>, x: Ref) {
    exists i :: 0 <= i < |cells| && cells[i].held == Some(x)
  }

  lemma HeldByOneMore(cells: seq<Cell>, x: Ref)
    requires cells != []
    ensures HeldBy(cells, x) <==> cells[0].held == Some(x) || HeldBy(cells[1..], x)
  {
    if i :| 0 <= i < |cells| && cells[i].held == Some(x) {
      assert i > 0 ==> cells[1..][i - 1] == cells[i];
    }
    if i :| 0 <= i < |cells[1..]| && cells[1..][i].held == Some(x) {
      assert cells[i + 1] == cells[1..][i];
    }
  }

  /** o keeps x alive by itself: x is one of its own references, or the held value of one of its cells if it
      is a registry. The targets of weak references and cells, and the entries of weak collections, are not. */
  ghost predicate Holds(o: Obj, x: Ref) {
    x in o.strong || (o.Registry? && HeldBy(o.cells, x))
  }

  /** What an object keeps alive by itself. */
  function Strong(o: Obj): (r: seq<Ref>)
    ensures forall x: Ref :: x in r <==> Holds(o, x)
  {
    if o.Registry? then o.strong + HeldValues(o.cells) else o.strong
  }

  predicate Valid(h: Heap) {
    forall o :: 0 <= o < |h| ==>
      && Below(Strong(h[o]), |h|)
      && (h[o].WeakMap? ==> forall i :: 0 <= i < |h[o].data| && h[o].data[i].value.Some? ==>
                              h[o].data[i].value.value < |h|)
  }

  type Item = (Ref, nat)

  /** The marked objects in the order in which they were marked, and the queue of map entries. */
  datatype Marks = Marks(marked: seq<Ref>, queue: seq<Item>)

  predicate ItemOk(h: Heap, it: Item) {
    it.0 < |h| && h[it.0].WeakMap? && it.1 < |h[it.0].data|
  }

  predicate QueueOk(h: Heap, q: seq<Item>) {
    forall i :: 0 <= i < |q| ==> ItemOk(h, q[i])
  }

  function Unmarked(h: Heap, s: Marks): set<Ref> {
    set o | 0 <= o < |h| && o !in s.marked
  }

  function Items(o: Ref, n: nat): (r: seq<Item>)
    ensures |r| == n && forall i :: 0 <= i < n ==> r[i] == (o, i)
  {
    seq(n, i => (o, i))
  }

  predicate Extends(s: Marks, s': Marks) {
    s.marked <= s'.marked && s.queue <= s'.queue
  }

  lemma UnmarkedShrinks(h: Heap, s: Marks, s': Marks)
    requires s.marked <= s'.marked
    ensures Unmarked(h, s') <= Unmarked(h, s)
  {
    assert forall o :: o in s.marked ==> o in s'.marked;
  }

  function Mark(h: Heap, s: Marks, o: Ref): (r: Marks)
    requires Valid(h) && QueueOk(h, s.queue) && o < |h|
    ensures QueueOk(h, r.queue) && Extends(s, r)
    decreases Unmarked(h, s), 0
  {
    if o in s.marked then s
    else
      var s1 := s.(marked := s.marked + [o]);
      assert o in Unmarked(h, s) && o !in Unmarked(h, s1);
      UnmarkedShrinks(h, s, s1);
      var s2 := MarkAll(h, s1, Strong(h[o]));
      if h[o].WeakMap? then s2.(queue := s2.queue + Items(o, |h[o].data|)) else s2
  }

  function MarkAll(h: Heap, s: Marks, os: seq<Ref>): (r: Marks)
    requires Valid(h) && QueueOk(h, s.queue) && Below(os, |h|)
    ensures QueueOk(h, r.queue) && Extends(s, r)
    decreases Unmarked(h, s), 1 + |os|
  {
    if os == [] then s
    else
      var s1 := Mark(h, s, os[0]);
      UnmarkedShrinks(h, s, s1);
      assert Unmarked(h, s1) < Unmarked(h, s) || Unmarked(h, s1) == Unmarked(h, s);
      MarkAll(h, s1, os[1..])
  }

  lemma MarkMarks(h: Heap, s: Marks, o: Ref)
    requires Valid(h) && QueueOk(h, s.queue) && o < |h|
    ensures o in Mark(h, s, o).marked
    ensures o in s.marked ==> Mark(h, s, o) == s
  {
    if o !in s.marked {
      var s1 := s.(marked := s.marked + [o]);
      assert o in s1.marked;
    }
  }

  /** Is the value of this queued entry to be marked now? */
  predicate Fires(h: Heap, s: Marks, it: Item)
    requires ItemOk(h, it)
  {
    var e := h[it.0].data[it.1];
    e.key.Some? && e.key.value in s.marked && e.value.Some?
  }

  /** The ephemeron loop: every entry is looked at once, when it leaves the queue. */
  function Drain(h: Heap, s: Marks): (r: Marks)
    requires Valid(h) && QueueOk(h, s.queue)
    ensures s.marked <= r.marked && r.queue == []
    decreases Unmarked(h, s), |s.queue|
  {
    if s.queue == [] then s
    else
      var s1 := s.(queue := s.queue[1..]);
      assert Unmarked(h, s1) == Unmarked(h, s);
      if Fires(h, s, s.queue[0]) then
        var v := h[s.queue[0].0].data[s.queue[0].1].value.value;
        var s2 := Mark(h, s1, v);
        UnmarkedShrinks(h, s1, s2);
        MarkMarks(h, s1, v);
        assert v !in s1.marked ==> v in Unmarked(h, s1) && v !in Unmarked(h, s2);
        assert Unmarked(h, s2) < Unmarked(h, s) || (Unmarked(h, s2) == Unmarked(h, s) && s2 == s1);
        Drain(h, s2)
      else Drain(h, s1)
  }

  /** The objects marked by one collection, from the agent `root`. */
  function Marked(h: Heap, root: Ref): seq<Ref>
    requires Valid(h) && root < |h|
  {
    Drain(h, Mark(h, Marks([], []), root)).marked
  }

  // --- What marking means ---

  ghost predicate StrongIn(h: Heap, root: Ref, x: Ref, k: nat)
    decreases k
  {
    if k == 0 then x == root
    else exists y: Ref :: StrongIn(h, root, y, k - 1) && y < |h| && Holds(h[y], x)
  }

  /** x is strongly reachable from root. */
  ghost predicate StronglyReachable(h: Heap, root: Ref, x: Ref) {
    exists k: nat :: StrongIn(h, root, x, k)
  }

  predicate MapsTo(h: Heap, m: Ref, i: nat, k: Ref, x: Ref) {
    m < |h| && h[m].WeakMap? && i < |h[m].data| && h[m].data[i] == Entry(Some(k), Some(x))
  }

  /** x is live within `depth` rounds of following strong references and entries of live maps with
      live keys. */
  ghost predicate LiveIn(h: Heap, root: Ref, x: Ref, depth: nat)
    decreases depth
  {
    if depth == 0 then x == root
    else
      || LiveIn(h, root, x, depth - 1)
      || (exists y: Ref :: LiveIn(h, root, y, depth - 1) && y < |h| && Holds(h[y], x))
      || (exists m: Ref, i: nat, k: Ref ::
            LiveIn(h, root, m, depth - 1) && LiveIn(h, root, k, depth - 1) && MapsTo(h, m, i, k, x))
  }

  /** The least set that contains root and is closed under strong references and under map entries
      whose map and key it contains. */
  ghost predicate Live(h: Heap, root: Ref, x: Ref) {
    exists depth: nat :: LiveIn(h, root, x, depth)
  }

  lemma {:induction false} LiveDeeper(h: Heap, root: Ref, x: Ref, d: nat, d': nat)
    requires LiveIn(h, root, x, d) && d <= d'
    ensures LiveIn(h, root, x, d')
    decreases d'
  {
    if d < d' {
      LiveDeeper(h, root, x, d, d' - 1);
    }
  }

  lemma LiveStrong(h: Heap, root: Ref, y: Ref, x: Ref)
    requires Live(h, root, y) && y < |h| && Holds(h[y], x)
    ensures Live(h, root, x)
  {
    hide Strong;
    var d: nat :| LiveIn(h, root, y, d);
    assert LiveIn(h, root, x, d + 1);
  }

  lemma LiveEntry(h: Heap, root: Ref, m: Ref, i: nat, k: Ref, x: Ref)
    requires Live(h, root, m) && Live(h, root, k) && MapsTo(h, m, i, k, x)
    ensures Live(h, root, x)
  {
    hide MapsTo, Strong;
    var d: nat :| LiveIn(h, root, m, d);
    var d': nat :| LiveIn(h, root, k, d');
    var e := if d <= d' then d' else d;
    LiveDeeper(h, root, m, d, e);
    LiveDeeper(h, root, k, d', e);
    assert LiveIn(h, root, x, e + 1);
  }

  lemma {:induction false} StrongIsLive(h: Heap, root: Ref, x: Ref, k: nat)
    requires StrongIn(h, root, x, k)
    ensures Live(h, root, x)
    decreases k
  {
    if k == 0 {
      assert LiveIn(h, root, x, 0);
    } else {
      var y: Ref :| StrongIn(h, root, y, k - 1) && y < |h| && Holds(h[y], x);
      StrongIsLive(h, root, y, k - 1);
      LiveStrong(h, root, y, x);
    }
  }

  /** Everything marked is live, given that it was so before. */
  ghost predicate AllLive(h: Heap, root: Ref, s: Marks) {
    && (forall x :: x in s.marked ==> Live(h, root, x))
    && (forall i :: 0 <= i < |s.queue| ==> s.queue[i].0 in s.marked)
  }

  lemma {:induction false} MarkLive(h: Heap, root: Ref, s: Marks, o: Ref)
    requires Valid(h) && QueueOk(h, s.queue) && o < |h| && AllLive(h, root, s) && Live(h, root, o)
    ensures AllLive(h, root, Mark(h, s, o))
    decreases Unmarked(h, s), 0
  {
    hide Live, Strong;
    if o !in s.marked {
      var s1 := s.(marked := s.marked + [o]);
      assert o in Unmarked(h, s) && o !in Unmarked(h, s1);
      UnmarkedShrinks(h, s, s1);
      forall x | x in Strong(h[o]) ensures Live(h, root, x) {
        LiveStrong(h, root, o, x);
      }
      MarkAllLive(h, root, s1, Strong(h[o]));
      MarkMarks(h, s, o);
    }
  }

  lemma {:induction false} MarkAllLive(h: Heap, root: Ref, s: Marks, os: seq<Ref>)
    requires Valid(h) && QueueOk(h, s.queue) && Below(os, |h|) && AllLive(h, root, s) && forall x :: x in os ==>
                                        Live(h, root, x)
    ensures AllLive(h, root, MarkAll(h, s, os))
    decreases Unmarked(h, s), 1 + |os|
  {
    hide Valid, Live, Strong;
    if os != [] {
      MarkLive(h, root, s, os[0]);
      var s1 := Mark(h, s, os[0]);
      UnmarkedShrinks(h, s, s1);
      assert Unmarked(h, s1) < Unmarked(h, s) || Unmarked(h, s1) == Unmarked(h, s);
      MarkAllLive(h, root, s1, os[1..]);
    }
  }

  lemma {:induction false} DrainLive(h: Heap, root: Ref, s: Marks)
    requires Valid(h) && QueueOk(h, s.queue) && AllLive(h, root, s)
    ensures AllLive(h, root, Drain(h, s))
    decreases Unmarked(h, s), |s.queue|
  {
    hide Live, Strong;
    if s.queue != [] {
      var it := s.queue[0];
      var s1 := s.(queue := s.queue[1..]);
      assert Unmarked(h, s1) == Unmarked(h, s);
      if Fires(h, s, it) {
        var e := h[it.0].data[it.1];
        var v := e.value.value;
        assert it.0 in s.marked;
        assert MapsTo(h, it.0, it.1, e.key.value, v);
        LiveEntry(h, root, it.0, it.1, e.key.value, v);
        MarkLive(h, root, s1, v);
        var s2 := Mark(h, s1, v);
        UnmarkedShrinks(h, s1, s2);
        MarkMarks(h, s1, v);
        assert v !in s1.marked ==> v in Unmarked(h, s1) && v !in Unmarked(h, s2);
        assert Unmarked(h, s2) < Unmarked(h, s) || (Unmarked(h, s2) == Unmarked(h, s) && s2 == s1);
        DrainLive(h, root, s2);
      } else {
        DrainLive(h, root, s1);
      }
    }
  }

  /** Everything x refers to strongly is marked. */
  predicate StrongDone(h: Heap, s: Marks, x: Ref) {
    x < |h| && forall i :: 0 <= i < |Strong(h[x])| ==> Strong(h[x])[i] in s.marked
  }

  predicate EntriesQueued(h: Heap, s: Marks, x: Ref) {
    x < |h| && (h[x].WeakMap? ==> forall i :: 0 <= i < |h[x].data| ==> (x, i) in s.queue)
  }

  /** What was marked since s has its strong references marked and its entries queued. */
  ghost predicate NewDone(h: Heap, s: Marks, r: Marks) {
    forall x: Ref :: x in r.marked && x !in s.marked ==> StrongDone(h, r, x) && EntriesQueued(h, r, x)
  }

  lemma NewDoneTrans(h: Heap, a: Marks, b: Marks, c: Marks)
    requires NewDone(h, a, b) && NewDone(h, b, c) && Extends(b, c)
    ensures NewDone(h, a, c)
  {
    hide Strong;
    assert forall x :: x in b.marked ==> x in c.marked;
    assert forall x :: x in b.queue ==> x in c.queue;
  }

  lemma {:induction false} MarkDone(h: Heap, s: Marks, o: Ref)
    requires Valid(h) && QueueOk(h, s.queue) && o < |h|
    ensures NewDone(h, s, Mark(h, s, o)) && o in Mark(h, s, o).marked
    decreases Unmarked(h, s), 0
  {
    hide Strong, QueueOk;
    MarkMarks(h, s, o);
    if o !in s.marked {
      var s1 := s.(marked := s.marked + [o]);
      assert o in Unmarked(h, s) && o !in Unmarked(h, s1);
      UnmarkedShrinks(h, s, s1);
      MarkAllDone(h, s1, Strong(h[o]));
      var s2 := MarkAll(h, s1, Strong(h[o]));
      var r := Mark(h, s, o);
      assert r.marked == s2.marked && s2.queue <= r.queue;
      assert forall x :: x in s2.queue ==> x in r.queue;
      if h[o].WeakMap? {
        forall i | 0 <= i < |h[o].data| ensures (o, i) in r.queue {
          assert r.queue[|s2.queue| + i] == (o, i);
        }
      }
      forall x: Ref | x in r.marked && x !in s.marked ensures StrongDone(h, r, x) && EntriesQueued(h, r, x) {
        if x != o {
          assert StrongDone(h, s2, x) && EntriesQueued(h, s2, x);
        }
      }
    }
  }

  lemma {:induction false} MarkAllDone(h: Heap, s: Marks, os: seq<Ref>)
    requires Valid(h) && QueueOk(h, s.queue) && Below(os, |h|)
    ensures NewDone(h, s, MarkAll(h, s, os)) && forall i :: 0 <= i < |os| ==> os[i] in MarkAll(h, s, os).marked
    decreases Unmarked(h, s), 1 + |os|
  {
    hide Valid, Strong, QueueOk;
    if os != [] {
      MarkDone(h, s, os[0]);
      var s1 := Mark(h, s, os[0]);
      UnmarkedShrinks(h, s, s1);
      assert Unmarked(h, s1) < Unmarked(h, s) || Unmarked(h, s1) == Unmarked(h, s);
      MarkAllDone(h, s1, os[1..]);
      NewDoneTrans(h, s, s1, MarkAll(h, s, os));
      assert os[0] in s1.marked;
      assert forall x :: x in s1.marked ==> x in MarkAll(h, s, os).marked;
    }
  }

  /** An entry whose key is strongly reachable has its value marked. */
  ghost predicate EntryDone(h: Heap, root: Ref, s: Marks, m: Ref, i: nat) {
    forall k: Ref, x: Ref :: MapsTo(h, m, i, k, x) && StronglyReachable(h, root, k) ==> x in s.marked
  }

  /** Between two rounds of the loop. */
  ghost predicate LoopInv(h: Heap, root: Ref, s: Marks) {
    && root in s.marked
    && (forall x: Ref :: x in s.marked ==> StrongDone(h, s, x))
    && (forall m: Ref, i: nat :: m in s.marked && m < |h| && h[m].WeakMap? && i < |h[m].data| ==>
          (m, i) in s.queue || EntryDone(h, root, s, m, i))
  }

  lemma {:induction false} StrongMarked(h: Heap, root: Ref, s: Marks, x: Ref, k: nat)
    requires LoopInv(h, root, s) && StrongIn(h, root, x, k)
    ensures x in s.marked
    decreases k
  {
    hide Strong, EntryDone;
    if k > 0 {
      var y: Ref :| StrongIn(h, root, y, k - 1) && y < |h| && Holds(h[y], x);
      StrongMarked(h, root, s, y, k - 1);
      assert StrongDone(h, s, y) && x in Strong(h[y]);
    }
  }

  lemma LoopStep(h: Heap, root: Ref, s: Marks, v: Ref)
    requires Valid(h) && s.queue != [] && QueueOk(h, s.queue) && LoopInv(h, root, s) && Fires(h, s, s.queue[0])
    requires v == h[s.queue[0].0].data[s.queue[0].1].value.value
    ensures LoopInv(h, root, Mark(h, s.(queue := s.queue[1..]), v))
  {
    hide Strong, StronglyReachable;
    var it := s.queue[0];
    var s1 := s.(queue := s.queue[1..]);
    var s2 := Mark(h, s1, v);
    MarkDone(h, s1, v);
    assert forall x :: x in s1.marked ==> x in s2.marked;
    assert forall q :: q in s1.queue ==> q in s2.queue;
    assert forall q :: q in s.queue ==> q == it || q in s1.queue;
    forall x: Ref | x in s2.marked ensures StrongDone(h, s2, x) {
      if x in s.marked { assert StrongDone(h, s, x); }
    }
    forall m: Ref, i: nat | m in s2.marked && m < |h| && h[m].WeakMap?
        && i < |h[m].data| ensures (m, i) in s2.queue || EntryDone(h, root, s2, m, i) {
      if m !in s1.marked {
        assert EntriesQueued(h, s2, m);
      } else if (m, i) != it && (m, i) !in s.queue {
        assert EntryDone(h, root, s, m, i);
      }
    }
  }

  lemma LoopSkip(h: Heap, root: Ref, s: Marks)
    requires Valid(h) && s.queue != [] && QueueOk(h, s.queue) && LoopInv(h, root, s) && !Fires(h, s, s.queue[0])
    ensures LoopInv(h, root, s.(queue := s.queue[1..]))
  {
    hide Valid, Strong, StrongIn;
    var it := s.queue[0];
    var s1 := s.(queue := s.queue[1..]);
    assert forall q :: q in s.queue ==> q == it || q in s1.queue;
    var e := h[it.0].data[it.1];
    if e.key.Some? && StronglyReachable(h, root, e.key.value) {
      var n: nat :| StrongIn(h, root, e.key.value, n);
      StrongMarked(h, root, s, e.key.value, n);
      assert e.value.None?;
    }
    assert EntryDone(h, root, s1, it.0, it.1);
    forall m: Ref, i: nat | m in s1.marked && m < |h| && h[m].WeakMap?
        && i < |h[m].data| ensures (m, i) in s1.queue || EntryDone(h, root, s1, m, i) {
      if (m, i) != it && (m, i) !in s.queue {
        assert EntryDone(h, root, s, m, i);
      }
    }
    forall x: Ref | x in s1.marked ensures StrongDone(h, s1, x) {
      assert StrongDone(h, s, x);
    }
  }

  lemma {:induction false} DrainInv(h: Heap, root: Ref, s: Marks)
    requires Valid(h) && QueueOk(h, s.queue) && LoopInv(h, root, s)
    ensures LoopInv(h, root, Drain(h, s))
    decreases Unmarked(h, s), |s.queue|
  {
    hide LoopInv, Strong;
    if s.queue != [] {
      var it := s.queue[0];
      var s1 := s.(queue := s.queue[1..]);
      assert Unmarked(h, s1) == Unmarked(h, s);
      if Fires(h, s, it) {
        var v := h[it.0].data[it.1].value.value;
        LoopStep(h, root, s, v);
        var s2 := Mark(h, s1, v);
        UnmarkedShrinks(h, s1, s2);
        MarkMarks(h, s1, v);
        assert v !in s1.marked ==> v in Unmarked(h, s1) && v !in Unmarked(h, s2);
        assert Unmarked(h, s2) < Unmarked(h, s) || (Unmarked(h, s2) == Unmarked(h, s) && s2 == s1);
        DrainInv(h, root, s2);
      } else {
        LoopSkip(h, root, s);
        DrainInv(h, root, s1);
      }
    }
  }

  lemma MarkingFacts(h: Heap, root: Ref)
    requires Valid(h) && root < |h|
    ensures var s := Drain(h, Mark(h, Marks([], []), root)); LoopInv(h, root, s) && AllLive(h, root, s)
  {
    hide Valid, Strong;
    var s0 := Marks([], []);
    assert LiveIn(h, root, root, 0);
    MarkLive(h, root, s0, root);
    MarkDone(h, s0, root);
    var s := Mark(h, s0, root);
    DrainInv(h, root, s);
    DrainLive(h, root, s);
  }

  /** Some entry of a marked map has a marked key and an unmarked value. */
  predicate Missed(h: Heap, marked: seq<Ref>, m: Ref, i: nat, k: Ref, x: Ref) {
    m in marked && k in marked && x !in marked && MapsTo(h, m, i, k, x)
  }

  lemma {:induction false} LiveMarked(h: Heap, root: Ref, s: Marks, x: Ref, depth: nat)
    requires LoopInv(h, root, s) && LiveIn(h, root, x, depth)
    requires forall m: Ref, i: nat, k: Ref, x: Ref :: !Missed(h, s.marked, m, i, k, x)
    ensures x in s.marked
    decreases depth
  {
    hide Strong, EntryDone, Holds;
    if depth > 0 {
      if LiveIn(h, root, x, depth - 1) {
        LiveMarked(h, root, s, x, depth - 1);
      } else if exists y: Ref :: LiveIn(h, root, y, depth - 1) && y < |h| && Holds(h[y], x) {
        var y: Ref :| LiveIn(h, root, y, depth - 1) && y < |h| && Holds(h[y], x);
        LiveMarked(h, root, s, y, depth - 1);
        assert StrongDone(h, s, y) && x in Strong(h[y]);
      } else {
        var m: Ref, i: nat, k: Ref :| LiveIn(h, root, m, depth - 1) && LiveIn(h, root, k, depth - 1)
            && MapsTo(h, m, i, k, x);
        LiveMarked(h, root, s, m, depth - 1);
        LiveMarked(h, root, s, k, depth - 1);
        assert !Missed(h, s.marked, m, i, k, x);
      }
    }
  }

  /** Marking lies between strong reachability and liveness, and it is exactly liveness if and only
      if no entry is missed. */
  lemma MarkingExact(h: Heap, root: Ref)
    requires Valid(h) && root < |h|
    ensures var marked := Marked(h, root);
            && (forall x :: StronglyReachable(h, root, x) ==> x in marked)
            && (forall x :: x in marked ==> Live(h, root, x))
            && ((forall x :: Live(h, root, x) ==>
                   x in marked) <==> forall m: Ref, i: nat, k: Ref, x: Ref :: !Missed(h, marked, m, i, k, x))
  {
    hide Valid, Strong, LiveIn, StrongIn, LoopInv, MapsTo;
    MarkingFacts(h, root);
    var s := Drain(h, Mark(h, Marks([], []), root));
    forall x | StronglyReachable(h, root, x) ensures x in s.marked {
      var k: nat :| StrongIn(h, root, x, k);
      StrongMarked(h, root, s, x, k);
    }
    if forall m: Ref, i: nat, k: Ref, x: Ref :: !Missed(h, s.marked, m, i, k, x) {
      forall x | Live(h, root, x) ensures x in s.marked {
        var depth: nat :| LiveIn(h, root, x, depth);
        LiveMarked(h, root, s, x, depth);
      }
    } else {
      var m: Ref, i: nat, k: Ref, x: Ref :| Missed(h, s.marked, m, i, k, x);
      LiveEntry(h, root, m, i, k, x);
    }
  }
}
