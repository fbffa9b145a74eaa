/** The collector as it runs: a growing mark set, a queue that is shifted and pushed, and weak slots
    cleared in place. */
module GcMethod {
  import opened Wrappers
  import opened Gc
  import opened GcSweep

  datatype Kind = WeakRefs | Registries | WeakMaps | WeakSets

  predicate IsKind(o: Obj, k: Kind) {
    match k
    case WeakRefs => o.WeakRef?
    case Registries => o.Registry?
    case WeakMaps => o.WeakMap?
    case WeakSets => o.WeakSet?
  }

  /** The visited objects of one kind, in the order in which they were marked. */
  function Visited(h: Heap, marked: seq<Ref>, k: Kind): (r: seq<Ref>)
    ensures forall o :: o in r <==> o in marked && o < |h| && IsKind(h[o], k)
  {
    if marked == [] then []
    else
      var l := |marked| - 1;
      var o := marked[l];
      assert marked == marked[..l] + [o];
      Visited(h, marked[..l], k) + if o < |h| && IsKind(h[o], k) then [o] else []
  }

  lemma VisitedAreKind(h: Heap, marked: seq<Ref>, k: Kind)
    ensures forall i :: 0 <= i < |Visited(h, marked, k)| ==>
              Visited(h, marked, k)[i] < |h| && IsKind(h[Visited(h, marked, k)[i]], k)
  {
    var v := Visited(h, marked, k);
    forall i | 0 <= i < |v| ensures v[i] < |h| && IsKind(h[v[i]], k) {
      assert v[i] in v;
    }
  }

  class Memory {
    var objects: Heap
    var jobs: seq<Ref>

    constructor (h: Heap)
      ensures objects == h && jobs == []
    {
      objects, jobs := h, [];
    }
  }

  class Collector {
    var marked: seq<Ref>
    var weakrefs: seq<Ref>
    var fgs: seq<Ref>
    var weakmaps: seq<Ref>
    var weaksets: seq<Ref>
    var ephemeronQueue: seq<Item>

    constructor ()
      ensures marked == [] && weakrefs == [] && fgs == [] && weakmaps == [] && weaksets == [] && ephemeronQueue == []
    {
      marked, weakrefs, fgs, weakmaps, weaksets, ephemeronQueue := [], [], [], [], [], [];
    }

    predicate View(h: Heap, s: Marks)
      reads this
    {
      && marked == s.marked && ephemeronQueue == s.queue
      && weakrefs == Visited(h, marked, WeakRefs) && fgs == Visited(h, marked, Registries)
      && weakmaps == Visited(h, marked, WeakMaps) && weaksets == Visited(h, marked, WeakSets)
    }

    method AddMarked(h: Heap, o: Ref, ghost s: Marks)
      requires o < |h| && View(h, s)
      modifies this
      ensures View(h, s.(marked := s.marked + [o]))
    {
      assert (marked + [o])[..|marked|] == marked;
      marked := marked + [o];
      match h[o]
      case WeakRef(_, _) => weakrefs := weakrefs + [o];
      case Registry(_, _) => fgs := fgs + [o];
      case WeakMap(_, _) => weakmaps := weakmaps + [o];
      case WeakSet(_, _) => weaksets := weaksets + [o];
      case Plain(_) =>
    }

    /** markCb */
    method MarkObject(h: Heap, o: Ref, ghost s: Marks)
      requires Valid(h) && QueueOk(h, s.queue) && o < |h| && View(h, s)
      modifies this
      ensures View(h, Mark(h, s, o))
      decreases Unmarked(h, s), 0
    {
      hide Visited, Strong;
      if o in marked {
        return;
      }
      ghost var s1 := s.(marked := s.marked + [o]);
      assert o in Unmarked(h, s) && o !in Unmarked(h, s1);
      UnmarkedShrinks(h, s, s1);
      AddMarked(h, o, s);
      var strong := Strong(h[o]);
      ghost var t := s1;
      for i := 0 to |strong|
        invariant View(h, t) && QueueOk(h, t.queue) && s1.marked <= t.marked
        invariant MarkAll(h, t, strong[i..]) == MarkAll(h, s1, strong)
      {
        assert strong[i..][0] == strong[i] && strong[i..][1..] == strong[i + 1..];
        UnmarkedShrinks(h, s1, t);
        MarkObject(h, strong[i], t);
        t := Mark(h, t, strong[i]);
      }
      assert strong[|strong|..] == [];
      if h[o].WeakMap? {
        for i := 0 to |h[o].data|
          invariant View(h, t.(queue := t.queue + Items(o, i)))
        {
          assert t.queue + Items(o, i) + [(o, i)] == t.queue + Items(o, i + 1);
          ephemeronQueue := ephemeronQueue + [(o, i)];
        }
      }
    }

    method MarkPhase(h: Heap, root: Ref)
      requires Valid(h) && root < |h| && View(h, Marks([], []))
      modifies this
      ensures View(h, Drain(h, Mark(h, Marks([], []), root))) && marked == Marked(h, root)
    {
      hide Visited, Strong, Valid;
      ghost var s := Marks([], []);
      MarkObject(h, root, s);
      s := Mark(h, s, root);
      ghost var start := s;
      while |ephemeronQueue| > 0
        invariant View(h, s) && QueueOk(h, s.queue) && Drain(h, s) == Drain(h, start)
        decreases Unmarked(h, s), |s.queue|
      {
        var item := ephemeronQueue[0];
        ghost var before := s;
        ephemeronQueue := ephemeronQueue[1..];
        s := s.(queue := s.queue[1..]);
        assert Unmarked(h, s) == Unmarked(h, before);
        var e := h[item.0].data[item.1];
        if e.key.Some? && e.key.value in marked && e.value.Some? {
          ValueInHeap(h, item);
          ghost var s1 := s;
          MarkObject(h, e.value.value, s);
          s := Mark(h, s, e.value.value);
          UnmarkedShrinks(h, s1, s);
          MarkMarks(h, s1, e.value.value);
          assert e.value.value !in s1.marked ==> e.value.value in Unmarked(h, s1) && e.value.value !in Unmarked(h, s);
          assert Unmarked(h, s) < Unmarked(h, before) || (Unmarked(h, s) == Unmarked(h, before) && s == s1);
        }
      }
    }

    lemma ValueInHeap(h: Heap, it: Item)
      requires Valid(h) && ItemOk(h, it) && h[it.0].data[it.1].value.Some?
      ensures h[it.0].data[it.1].value.value < |h|
    {
      hide Strong;
    }

    predicate SweptOf(h0: Heap, h: Heap, done: seq<Ref>)
      reads this
    {
      |h| == |h0| && forall o :: 0 <= o < |h| ==> h[o] == if o in done then SweepObj(marked, h0[o]) else h0[o]
    }

    lemma SweptStep(h0: Heap, h: Heap, done: seq<Ref>, o: Ref)
      requires SweptOf(h0, h, done) && o < |h0|
      ensures SweptOf(h0, h[o := SweepObj(marked, h0[o])], done + [o])
    {
      hide SweepObj;
    }

    /** A visited object, swept so far or not, is swept by sweeping what it now holds. */
    lemma SweptNow(h0: Heap, h: Heap, done: seq<Ref>, o: Ref)
      requires SweptOf(h0, h, done) && o < |h0|
      ensures SweepObj(marked, h[o]) == SweepObj(marked, h0[o])
    {
      SweepObjTwice(marked, h0[o]);
    }

    method SweepWeakRefs(mem: Memory)
      requires forall i :: 0 <= i < |weakrefs| ==> weakrefs[i] < |mem.objects| && mem.objects[weakrefs[i]].WeakRef?
      modifies mem`objects
      ensures SweptOf(old(mem.objects), mem.objects, weakrefs)
    {
      ghost var h0 := mem.objects;
      for k := 0 to |weakrefs|
        invariant SweptOf(h0, mem.objects, weakrefs[..k])
      {
        var ref := mem.objects[weakrefs[k]];
        assert weakrefs[..k + 1] == weakrefs[..k] + [weakrefs[k]];
        if !(ref.target.Some? && ref.target.value in marked) {
          mem.objects := mem.objects[weakrefs[k] := ref.(target := None)];
        }
      }
      assert weakrefs[..|weakrefs|] == weakrefs;
    }

    /** Clear the cells of one registry whose target is not marked. */
    method SweepRegistryCells(cells: seq<Cell>) returns (r: seq<Cell>, dirty: bool)
      ensures r == SweepCells(marked, cells) && dirty == Dirty(marked, cells)
    {
      r, dirty := cells, false;
      for i := 0 to |cells|
        invariant |r| == |cells|
        invariant forall j :: 0 <= j < |cells| ==>
                    r[j] == if j < i then cells[j].(target := KeepIf(marked, cells[j].target)) else cells[j]
        invariant dirty <==> exists j :: 0 <= j < i && KeepIf(marked, cells[j].target).None?
      {
        if !(cells[i].target.Some? && cells[i].target.value in marked) {
          r := r[i := cells[i].(target := None)];
          dirty := true;
        }
      }
    }

    method SweepRegistries(mem: Memory)
      requires forall i :: 0 <= i < |fgs| ==> fgs[i] < |mem.objects| && mem.objects[fgs[i]].Registry?
      modifies mem
      ensures SweptOf(old(mem.objects), mem.objects, fgs)
      ensures mem.jobs == old(mem.jobs) + Jobs(old(mem.objects), marked, fgs)
    {
      hide KeepIf, SweepCells, Dirty;
      ghost var h0 := mem.objects;
      for k := 0 to |fgs|
        invariant SweptOf(h0, mem.objects, fgs[..k])
        invariant mem.jobs == old(mem.jobs) + Jobs(h0, marked, fgs[..k])
      {
        var fg := fgs[k];
        assert fgs[..k + 1] == fgs[..k] + [fg];
        assert fgs[..k + 1][..k] == fgs[..k];
        assert h0[fg].Registry?;
        var cells, dirty := SweepRegistryCells(mem.objects[fg].cells);
        SweepCellsTwice(h0[fg].cells);
        SweptNow(h0, mem.objects, fgs[..k], fg);
        SweptStep(h0, mem.objects, fgs[..k], fg);
        mem.objects := mem.objects[fg := Registry(mem.objects[fg].strong, cells)];
        if dirty {
          mem.jobs := mem.jobs + [fg];
        }
      }
      assert fgs[..|fgs|] == fgs;
    }

    lemma SweepCellsTwice(cells: seq<Cell>)
      ensures SweepCells(marked, SweepCells(marked, cells)) == SweepCells(marked, cells)
      ensures Dirty(marked, SweepCells(marked, cells)) == Dirty(marked, cells)
    {
      var c := SweepCells(marked, cells);
      assert SweepCells(marked, c) == c;
      if Dirty(marked, cells) {
        var i :| 0 <= i < |cells| && KeepIf(marked, cells[i].target).None?;
        assert KeepIf(marked, c[i].target).None?;
      }
      if Dirty(marked, c) {
        var i :| 0 <= i < |c| && KeepIf(marked, c[i].target).None?;
        assert KeepIf(marked, cells[i].target).None?;
      }
    }

    /** Clear the entries of one map whose key is not marked. */
    method SweepMapData(data: seq<Entry>) returns (r: seq<Entry>)
      ensures r == SweepData(marked, data)
    {
      r := data;
      for i := 0 to |data|
        invariant |r| == |data|
        invariant forall j :: 0 <= j < |data| ==> r[j] == if j < i then SweepEntry(marked, data[j]) else data[j]
      {
        if !(data[i].key.Some? && data[i].key.value in marked) {
          r := r[i := Entry(None, None)];
        }
      }
    }

    method SweepWeakMaps(mem: Memory)
      requires forall i :: 0 <= i < |weakmaps| ==> weakmaps[i] < |mem.objects| && mem.objects[weakmaps[i]].WeakMap?
      modifies mem`objects
      ensures SweptOf(old(mem.objects), mem.objects, weakmaps)
    {
      ghost var h0 := mem.objects;
      for k := 0 to |weakmaps|
        invariant SweptOf(h0, mem.objects, weakmaps[..k])
      {
        var map_ := weakmaps[k];
        assert weakmaps[..k + 1] == weakmaps[..k] + [map_];
        var data := SweepMapData(mem.objects[map_].data);
        SweptNow(h0, mem.objects, weakmaps[..k], map_);
        SweptStep(h0, mem.objects, weakmaps[..k], map_);
        mem.objects := mem.objects[map_ := WeakMap(mem.objects[map_].strong, data)];
      }
      assert weakmaps[..|weakmaps|] == weakmaps;
    }

    /** Clear the members of one set that are not marked. */
    method SweepSetMembers(members: seq<Option<Ref>>) returns (r: seq<Option<Ref>>)
      ensures r == SweepMembers(marked, members)
    {
      r := members;
      for i := 0 to |members|
        invariant |r| == |members|
        invariant forall j :: 0 <= j < |members| ==> r[j] == if j < i then KeepIf(marked, members[j]) else members[j]
      {
        if !(members[i].Some? && members[i].value in marked) {
          r := r[i := None];
        }
      }
    }

    method SweepWeakSets(mem: Memory)
      requires forall i :: 0 <= i < |weaksets| ==> weaksets[i] < |mem.objects| && mem.objects[weaksets[i]].WeakSet?
      modifies mem`objects
      ensures SweptOf(old(mem.objects), mem.objects, weaksets)
    {
      ghost var h0 := mem.objects;
      for k := 0 to |weaksets|
        invariant SweptOf(h0, mem.objects, weaksets[..k])
      {
        var set_ := weaksets[k];
        assert weaksets[..k + 1] == weaksets[..k] + [set_];
        var members := SweepSetMembers(mem.objects[set_].members);
        SweptNow(h0, mem.objects, weaksets[..k], set_);
        SweptStep(h0, mem.objects, weaksets[..k], set_);
        mem.objects := mem.objects[set_ := WeakSet(mem.objects[set_].strong, members)];
      }
      assert weaksets[..|weaksets|] == weaksets;
    }

    method SweepAll(mem: Memory)
      requires weakrefs == Visited(mem.objects, marked, WeakRefs) && fgs == Visited(mem.objects, marked, Registries)
      requires weakmaps == Visited(mem.objects, marked, WeakMaps) && weaksets == Visited(mem.objects, marked, WeakSets)
      modifies mem
      ensures mem.objects == Sweep(old(mem.objects), marked)
      ensures mem.jobs == old(mem.jobs) + Jobs(old(mem.objects), marked, marked)
    {
      hide SweepObj, Jobs, Sweep;
      ghost var h0 := mem.objects;
      VisitedAreKind(h0, marked, WeakRefs);
      VisitedAreKind(h0, marked, Registries);
      VisitedAreKind(h0, marked, WeakMaps);
      VisitedAreKind(h0, marked, WeakSets);
      KindsDiffer(h0, marked);
      SweepWeakRefs(mem);
      KindKept(h0, mem.objects, weakrefs);
      JobsOfVisited(h0, mem.objects, marked);
      ghost var h1 := mem.objects;
      SweepRegistries(mem);
      KindKept(h1, mem.objects, fgs);
      ghost var h2 := mem.objects;
      SweepWeakMaps(mem);
      KindKept(h2, mem.objects, weakmaps);
      ghost var h3 := mem.objects;
      SweepWeakSets(mem);
      AllSwept(h0, h1, h2, h3, mem.objects);
    }

    /** No object is of two kinds. */
    lemma KindsDiffer(h: Heap, m: seq<Ref>)
      ensures forall o :: o in Visited(h, m, WeakRefs) ==>
                o !in Visited(h, m, Registries) && o !in Visited(h, m, WeakMaps) && o !in Visited(h, m, WeakSets)
      ensures forall o :: o in Visited(h, m, Registries) ==>
                o !in Visited(h, m, WeakMaps) && o !in Visited(h, m, WeakSets)
      ensures forall o :: o in Visited(h, m, WeakMaps) ==> o !in Visited(h, m, WeakSets)
    {
    }

    lemma KindKept(h0: Heap, h: Heap, done: seq<Ref>)
      requires SweptOf(h0, h, done)
      ensures |h| == |h0|
      ensures forall o, k :: 0 <= o < |h| ==> (IsKind(h[o], k) <==> IsKind(h0[o], k))
      ensures forall o :: 0 <= o < |h| && o !in done ==> h[o] == h0[o]
    {
    }

    lemma AllSwept(h0: Heap, h1: Heap, h2: Heap, h3: Heap, h4: Heap)
      requires weakrefs == Visited(h0, marked, WeakRefs) && fgs == Visited(h0, marked, Registries)
      requires weakmaps == Visited(h0, marked, WeakMaps) && weaksets == Visited(h0, marked, WeakSets)
      requires SweptOf(h0, h1, weakrefs) && SweptOf(h1, h2, fgs) && SweptOf(h2, h3, weakmaps)
          && SweptOf(h3, h4, weaksets)
      ensures h4 == Sweep(h0, marked)
    {
      hide SweepCells, SweepData, SweepMembers, KeepIf;
      KindsDiffer(h0, marked);
      forall o | 0 <= o < |h0| ensures h4[o] == Sweep(h0, marked)[o] {
        PlainSwept(h0[o]);
      }
    }

    lemma PlainSwept(o: Obj)
      ensures o.Plain? ==> SweepObj(marked, o) == o
      ensures o.WeakRef? || o.Registry? || o.WeakMap? || o.WeakSet? || o.Plain?
    {
    }

    /** Only registries matter for the jobs, and the earlier sweep left them alone. */
    lemma {:induction false} JobsOfVisited(h0: Heap, h: Heap, visited: seq<Ref>)
      requires |h| == |h0| && forall o :: 0 <= o < |h| ==>
                                (h[o].Registry? <==> h0[o].Registry?) && (h[o].Registry? ==> h[o] == h0[o])
      ensures Jobs(h, marked, Visited(h0, visited, Registries)) == Jobs(h0, marked, visited)
      decreases |visited|
    {
      if visited != [] {
        var l := |visited| - 1;
        var v := Visited(h0, visited[..l], Registries);
        JobsOfVisited(h0, h, visited[..l]);
        var all := Visited(h0, visited, Registries);
        if visited[l] < |h0| && h0[visited[l]].Registry? {
          assert all == v + [visited[l]];
          assert all[..|all| - 1] == v;
        } else {
          assert all == v;
        }
      }
    }
  }

  /** gc */
  method Collect(mem: Memory, root: Ref)
    requires Valid(mem.objects) && root < |mem.objects|
    modifies mem
    ensures mem.objects == CollectOnce(old(mem.objects), root).0
    ensures mem.jobs == old(mem.jobs) + CollectOnce(old(mem.objects), root).1
  {
    var c := new Collector();
    c.MarkPhase(mem.objects, root);
    c.SweepAll(mem);
  }
}
