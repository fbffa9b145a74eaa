/** The sweeps of the garbage collector, and collecting twice. */
module GcSweep {
  import opened Sequences
  import opened Wrappers
  import opened Gc

  function KeepIf(marked: seq<Ref>, slot: Option<Ref>): Option<Ref> {
    if slot.Some? && slot.value in marked then slot else None
  }

  function SweepCells(marked: seq<Ref>, cells: seq<Cell>): (r: seq<Cell>)
    ensures |r| == |cells| && forall i :: 0 <= i < |cells| ==>
                                r[i] == cells[i].(target := KeepIf(marked, cells[i].target))
  {
    seq(|cells|, i requires 0 <= i < |cells| => cells[i].(target := KeepIf(marked, cells[i].target)))
  }

  function SweepEntry(marked: seq<Ref>, e: Entry): Entry {
    if e.key.Some? && e.key.value in marked then e else Entry(None, None)
  }

  function SweepData(marked: seq<Ref>, data: seq<Entry>): (r: seq<Entry>)
    ensures |r| == |data| && forall i :: 0 <= i < |data| ==> r[i] == SweepEntry(marked, data[i])
  {
    seq(|data|, i requires 0 <= i < |data| => SweepEntry(marked, data[i]))
  }

  function SweepMembers(marked: seq<Ref>, members: seq<Option<Ref>>): (r: seq<Option<Ref>>)
    ensures |r| == |members| && forall i :: 0 <= i < |members| ==> r[i] == KeepIf(marked, members[i])
  {
    seq(|members|, i requires 0 <= i < |members| => KeepIf(marked, members[i]))
  }

  /** What a visited object looks like after the sweeps. */
  function SweepObj(marked: seq<Ref>, o: Obj): Obj {
    match o
    case Plain(_) => o
    case WeakRef(strong, target) => WeakRef(strong, KeepIf(marked, target))
    case Registry(strong, cells) => Registry(strong, SweepCells(marked, cells))
    case WeakMap(strong, data) => WeakMap(strong, SweepData(marked, data))
    case WeakSet(strong, members) => WeakSet(strong, SweepMembers(marked, members))
  }

  function Sweep(h: Heap, marked: seq<Ref>): (r: Heap)
    ensures |r| == |h| && forall o :: 0 <= o < |h| ==> r[o] == if o in marked then SweepObj(marked, h[o]) else h[o]
  {
    seq(|h|, o requires 0 <= o < |h| => if o in marked then SweepObj(marked, h[o]) else h[o])
  }

  /** Some cell of the registry is empty or about to be. */
  predicate Dirty(marked: seq<Ref>, cells: seq<Cell>) {
    exists i :: 0 <= i < |cells| && KeepIf(marked, cells[i].target).None?
  }

  /** The registries for which a cleanup job is enqueued, in the order in which they were marked. */
  function Jobs(h: Heap, marked: seq<Ref>, visited: seq<Ref>): seq<Ref> {
    if visited == [] then []
    else
      var l := |visited| - 1;
      var o := visited[l];
      Jobs(h, marked, visited[..l]) + if o < |h| && h[o].Registry? && Dirty(marked, h[o].cells) then [o] else []
  }

  function CollectOnce(h: Heap, root: Ref): (Heap, seq<Ref>)
    requires Valid(h) && root < |h|
  {
    var marked := Marked(h, root);
    (Sweep(h, marked), Jobs(h, marked, marked))
  }

  /** The weak slots of an object: where it refers to something that it does not keep alive. */
  function Slots(o: Obj): seq<Option<Ref>> {
    match o
    case Plain(_) => []
    case WeakRef(_, target) => [target]
    case Registry(_, cells) => seq(|cells|, i requires 0 <= i < |cells| => cells[i].target)
    case WeakMap(_, data) => seq(|data|, i requires 0 <= i < |data| => data[i].key)
    case WeakSet(_, members) => members
  }

  /** A visited container's slot keeps its object if that object is marked and is emptied otherwise;
      a map entry's value goes with its key; everything else stays as it was. */
  lemma SweepExact(h: Heap, marked: seq<Ref>, o: Ref, i: nat)
    requires o < |h| && i < |Slots(h[o])|
    ensures var h' := Sweep(h, marked);
            && |Slots(h'[o])| == |Slots(h[o])|
            && Slots(h'[o])[i] == (if o in marked then KeepIf(marked, Slots(h[o])[i]) else Slots(h[o])[i])
            && (h[o].WeakMap? ==>
                  && h'[o].WeakMap?
                  && h'[o].data[i].value ==
                     if o in marked && Slots(h'[o])[i].None? then None else h[o].data[i].value)
            && Strong(h'[o]) == Strong(h[o])
  {
    SweepStrong(marked, h[o]);
  }

  lemma SweepStrong(marked: seq<Ref>, o: Obj)
    ensures Strong(SweepObj(marked, o)) == Strong(o)
  {
    if o.Registry? {
      SameHeld(o.cells, SweepCells(marked, o.cells));
    }
  }

  lemma {:induction false} SameHeld(a: seq<Cell>, b: seq<Cell>)
    requires |a| == |b| && forall i :: 0 <= i < |a| ==> a[i].held == b[i].held
    ensures HeldValues(a) == HeldValues(b)
  {
    if a != [] {
      SameHeld(a[1..], b[1..]);
    }
  }

  lemma {:induction false} MarkNoRepeats(h: Heap, s: Marks, o: Ref)
    requires Valid(h) && QueueOk(h, s.queue) && o < |h| && Distinct(s.marked)
    ensures Distinct(Mark(h, s, o).marked)
    decreases Unmarked(h, s), 0
  {
    hide QueueOk, Strong;
    if o !in s.marked {
      var s1 := s.(marked := s.marked + [o]);
      assert o in Unmarked(h, s) && o !in Unmarked(h, s1);
      UnmarkedShrinks(h, s, s1);
      MarkAllNoRepeats(h, s1, Strong(h[o]));
    }
  }

  lemma {:induction false} MarkAllNoRepeats(h: Heap, s: Marks, os: seq<Ref>)
    requires Valid(h) && QueueOk(h, s.queue) && Below(os, |h|) && Distinct(s.marked)
    ensures Distinct(MarkAll(h, s, os).marked)
    decreases Unmarked(h, s), 1 + |os|
  {
    hide Valid, QueueOk;
    if os != [] {
      MarkNoRepeats(h, s, os[0]);
      var s1 := Mark(h, s, os[0]);
      UnmarkedShrinks(h, s, s1);
      assert Unmarked(h, s1) < Unmarked(h, s) || Unmarked(h, s1) == Unmarked(h, s);
      MarkAllNoRepeats(h, s1, os[1..]);
    }
  }

  lemma {:induction false} DrainNoRepeats(h: Heap, s: Marks)
    requires Valid(h) && QueueOk(h, s.queue) && Distinct(s.marked)
    ensures Distinct(Drain(h, s).marked)
    decreases Unmarked(h, s), |s.queue|
  {
    if s.queue != [] {
      var it := s.queue[0];
      var s1 := s.(queue := s.queue[1..]);
      assert Unmarked(h, s1) == Unmarked(h, s);
      if Fires(h, s, it) {
        var v := h[it.0].data[it.1].value.value;
        MarkNoRepeats(h, s1, v);
        var s2 := Mark(h, s1, v);
        UnmarkedShrinks(h, s1, s2);
        MarkMarks(h, s1, v);
        assert v !in s1.marked ==> v in Unmarked(h, s1) && v !in Unmarked(h, s2);
        assert Unmarked(h, s2) < Unmarked(h, s) || (Unmarked(h, s2) == Unmarked(h, s) && s2 == s1);
        DrainNoRepeats(h, s2);
      } else {
        DrainNoRepeats(h, s1);
      }
    }
  }

  lemma {:induction false} JobsAre(h: Heap, marked: seq<Ref>, visited: seq<Ref>, o: Ref)
    requires Distinct(visited)
    ensures multiset(Jobs(h, marked, visited))[o] == if o in visited && o < |h| && h[o].Registry?
        && Dirty(marked, h[o].cells) then 1 else 0
  {
    if visited != [] {
      var l := |visited| - 1;
      assert visited == visited[..l] + [visited[l]];
      JobsAre(h, marked, visited[..l], o);
    }
  }

  /** A registry is enqueued exactly once if it is marked and has a cell whose target is empty or
      unmarked, and not at all otherwise. */
  lemma EnqueuedExactlyOnce(h: Heap, root: Ref, o: Ref)
    requires Valid(h) && root < |h|
    ensures multiset(CollectOnce(h, root).1)[o] ==
            if o in Marked(h, root) && o < |h| && h[o].Registry? && Dirty(Marked(h, root), h[o].cells) then 1 else 0
  {
    MarkNoRepeats(h, Marks([], []), root);
    DrainNoRepeats(h, Mark(h, Marks([], []), root));
    JobsAre(h, Marked(h, root), Marked(h, root), o);
  }

  /** If no entry was missed, no slot that held a live object is emptied. */
  lemma SweepKeepsLive(h: Heap, root: Ref, o: Ref, i: nat)
    requires Valid(h) && root < |h| && o < |h| && i < |Slots(h[o])|
    requires forall m: Ref, i: nat, k: Ref, x: Ref :: !Missed(h, Marked(h, root), m, i, k, x)
    requires Slots(h[o])[i].Some? && Live(h, root, Slots(h[o])[i].value)
    ensures |Slots(CollectOnce(h, root).0[o])| == |Slots(h[o])| && Slots(CollectOnce(h, root).0[o])[i] == Slots(h[o])[i]
  {
    hide Valid, Live, Missed, Marked;
    MarkingExact(h, root);
    SweepExact(h, Marked(h, root), o, i);
  }

  // --- Collecting twice ---

  lemma SweptValid(h: Heap, marked: seq<Ref>)
    requires Valid(h)
    ensures Valid(Sweep(h, marked))
    ensures forall o :: 0 <= o < |h| ==> Strong(Sweep(h, marked)[o]) == Strong(h[o])
    ensures forall o :: 0 <= o < |h| ==> Sweep(h, marked)[o].WeakMap? == h[o].WeakMap?
    ensures forall o :: 0 <= o < |h| && h[o].WeakMap? ==> |Sweep(h, marked)[o].data| == |h[o].data|
  {
    hide Strong;
    var h' := Sweep(h, marked);
    forall o | 0 <= o < |h| ensures Strong(h'[o]) == Strong(h[o]) {
      SweepStrong(marked, h[o]);
    }
  }

  /** Marking follows strong references only, which sweeping leaves alone. */
  lemma {:induction false} MarkSame(h: Heap, marked: seq<Ref>, s: Marks, o: Ref)
    requires Valid(h) && QueueOk(h, s.queue) && o < |h|
    ensures Valid(Sweep(h, marked)) && QueueOk(Sweep(h, marked), s.queue)
    ensures Mark(Sweep(h, marked), s, o) == Mark(h, s, o)
    decreases Unmarked(h, s), 0
  {
    hide Strong, Sweep, SweepObj;
    SweptValid(h, marked);
    if o !in s.marked {
      var s1 := s.(marked := s.marked + [o]);
      assert o in Unmarked(h, s) && o !in Unmarked(h, s1);
      UnmarkedShrinks(h, s, s1);
      MarkAllSame(h, marked, s1, Strong(h[o]));
    }
  }

  lemma {:induction false} MarkAllSame(h: Heap, marked: seq<Ref>, s: Marks, os: seq<Ref>)
    requires Valid(h) && QueueOk(h, s.queue) && Below(os, |h|)
    ensures Valid(Sweep(h, marked)) && QueueOk(Sweep(h, marked), s.queue)
    ensures MarkAll(Sweep(h, marked), s, os) == MarkAll(h, s, os)
    decreases Unmarked(h, s), 1 + |os|
  {
    hide Strong, Sweep, SweepObj;
    SweptValid(h, marked);
    if os != [] {
      MarkSame(h, marked, s, os[0]);
      var s1 := Mark(h, s, os[0]);
      UnmarkedShrinks(h, s, s1);
      assert Unmarked(h, s1) < Unmarked(h, s) || Unmarked(h, s1) == Unmarked(h, s);
      MarkAllSame(h, marked, s1, os[1..]);
    }
  }

  /** An entry emptied by the sweep never fired: its key is not even marked in the end. */
  lemma {:induction false} DrainSame(h: Heap, marked: seq<Ref>, s: Marks)
    requires Valid(h) && QueueOk(h, s.queue) && marked == Drain(h, s).marked
    ensures Valid(Sweep(h, marked)) && QueueOk(Sweep(h, marked), s.queue)
    ensures Drain(Sweep(h, marked), s) == Drain(h, s)
    decreases Unmarked(h, s), |s.queue|
  {
    hide Strong;
    SweptValid(h, marked);
    var h' := Sweep(h, marked);
    if s.queue != [] {
      var it := s.queue[0];
      var s1 := s.(queue := s.queue[1..]);
      assert Unmarked(h, s1) == Unmarked(h, s);
      assert forall x :: x in s.marked ==> x in marked;
      assert Fires(h', s, it) == Fires(h, s, it);
      if Fires(h, s, it) {
        assert h'[it.0].data[it.1] == h[it.0].data[it.1];
        var v := h[it.0].data[it.1].value.value;
        MarkSame(h, marked, s1, v);
        var s2 := Mark(h, s1, v);
        UnmarkedShrinks(h, s1, s2);
        MarkMarks(h, s1, v);
        assert v !in s1.marked ==> v in Unmarked(h, s1) && v !in Unmarked(h, s2);
        assert Unmarked(h, s2) < Unmarked(h, s) || (Unmarked(h, s2) == Unmarked(h, s) && s2 == s1);
        DrainSame(h, marked, s2);
      } else {
        DrainSame(h, marked, s1);
      }
    }
  }

  /** A second collection with nothing in between marks the same objects and changes nothing. */
  lemma CollectTwice(h: Heap, root: Ref)
    requires Valid(h) && root < |h|
    ensures var h1 := CollectOnce(h, root).0;
            && Valid(h1) && |h1| == |h|
            && Marked(h1, root) == Marked(h, root)
            && CollectOnce(h1, root).0 == h1
  {
    var marked := Marked(h, root);
    var s := Mark(h, Marks([], []), root);
    MarkSame(h, marked, Marks([], []), root);
    DrainSame(h, marked, s);
    var h1 := Sweep(h, marked);
    SweepTwice(h, marked);
  }

  lemma SweepTwice(h: Heap, marked: seq<Ref>)
    ensures Sweep(Sweep(h, marked), marked) == Sweep(h, marked)
  {
    var h1 := Sweep(h, marked);
    forall o | 0 <= o < |h| ensures Sweep(h1, marked)[o] == h1[o] {
      if o in marked {
        SweepObjTwice(marked, h[o]);
      }
    }
  }

  lemma SweepObjTwice(marked: seq<Ref>, o: Obj)
    ensures SweepObj(marked, SweepObj(marked, o)) == SweepObj(marked, o)
  {
    match o
    case Plain(_) =>
    case WeakRef(_, _) =>
    case Registry(_, cells) =>
      var c := SweepCells(marked, cells);
      assert SweepCells(marked, c) == c;
    case WeakMap(_, data) =>
      var d := SweepData(marked, data);
      assert SweepData(marked, d) == d;
    case WeakSet(_, members) =>
      var m := SweepMembers(marked, members);
      assert SweepMembers(marked, m) == m;
  }

  /** A heap on which the single pass misses an entry: object 3 is held by map 1 under key 2, and 2
      is held by the same map under key 0, whose entry comes later in the queue. */
  function OutOfOrder(): Heap {
    [Plain([1, 4]), WeakMap([], [Entry(Some(2), Some(3)), Entry(Some(0), Some(2))]), Plain([]), Plain([]),
        WeakRef([], Some(3))]
  }

  /** There, a weak reference to a live object is cleared. */
  lemma LiveSlotCleared()
    ensures var h := OutOfOrder();
            && Valid(h) && Live(h, 0, 3) && 3 !in Marked(h, 0)
            && h[4] == WeakRef([], Some(3)) && CollectOnce(h, 0).0[4] == WeakRef([], None)
  {
    hide Live;
    LiveOutOfOrder();
    MarkOutOfOrder();
    DrainOutOfOrder();
  }

  lemma LiveOutOfOrder()
    ensures Live(OutOfOrder(), 0, 3)
  {
    hide LiveIn;
    var h := OutOfOrder();
    assert Live(h, 0, 0) by { RootIsLive(h); }
    LiveStrong(h, 0, 0, 1);
    LiveEntry(h, 0, 1, 1, 0, 2);
    LiveEntry(h, 0, 1, 0, 2, 3);
  }

  lemma RootIsLive(h: Heap)
    ensures Live(h, 0, 0)
  {
    assert LiveIn(h, 0, 0, 0);
  }

  /** An object without strong references is marked and that is all. */
  lemma MarkLeaf(h: Heap, s: Marks, o: Ref)
    requires Valid(h) && QueueOk(h, s.queue) && o < |h| && o !in s.marked && Strong(h[o]) == []
    ensures Mark(h, s, o) == Marks(s.marked + [o], s.queue + if h[o].WeakMap? then Items(o, |h[o].data|) else [])
  {
  }

  lemma MarkOutOfOrder()
    ensures Valid(OutOfOrder()) && Mark(OutOfOrder(), Marks([], []), 0) == Marks([0, 1, 4], [(1, 0), (1, 1)])
  {
    hide Mark;
    var h := OutOfOrder();
    var q := [(1, 0), (1, 1)];
    assert Items(1, 2) == q;
    MarkLeaf(h, Marks([0], []), 1);
    assert Mark(h, Marks([0], []), 1) == Marks([0, 1], q);
    MarkLeaf(h, Marks([0, 1], q), 4);
    assert Mark(h, Marks([0, 1], q), 4) == Marks([0, 1, 4], q);
    MarkTwo(h, Marks([0], []), 1, 4);
    MarkRoot(h);
    assert h[0].strong == [1, 4];
  }

  lemma MarkTwo(h: Heap, s: Marks, a: Ref, b: Ref)
    requires Valid(h) && QueueOk(h, s.queue) && a < |h| && b < |h|
    ensures MarkAll(h, s, [a, b]) == Mark(h, Mark(h, s, a), b)
  {
    hide Mark;
    var os := [a, b];
    assert os[1..] == [b] && os[1..][1..] == [];
    var s1 := Mark(h, s, a);
    assert MarkAll(h, s1, os[1..]) == MarkAll(h, Mark(h, s1, b), os[1..][1..]);
  }

  lemma MarkRoot(h: Heap)
    requires Valid(h) && |h| > 0 && h[0].Plain?
    ensures Mark(h, Marks([], []), 0) == MarkAll(h, Marks([0], []), h[0].strong)
  {
    assert [] + [0] == [0];
  }

  lemma DrainOutOfOrder()
    requires Valid(OutOfOrder())
    ensures Drain(OutOfOrder(), Marks([0, 1, 4], [(1, 0), (1, 1)])).marked == [0, 1, 4, 2]
  {
    hide Mark, Valid, Holds;
    var h := OutOfOrder();
    var s, s1, s2 := Marks([0, 1, 4], [(1, 0), (1, 1)]), Marks([0, 1, 4], [(1, 1)]), Marks([0, 1, 4, 2], []);
    assert s.queue[1..] == s1.queue && s1.queue[1..] == [];
    assert Drain(h, s) == Drain(h, s1);
    MarkLeaf(h, Marks([0, 1, 4], []), 2);
    assert Drain(h, s1) == Drain(h, s2);
    assert Drain(h, s2) == s2;
  }
}
