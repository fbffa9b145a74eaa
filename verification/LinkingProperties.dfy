/** What Link promises, over single calls and over every sequence of calls. */
module LinkingProperties {
  import opened Graphs
  import opened ModuleDfs
  import opened ModuleScc
  import opened ModuleHistory
  import opened ImportedNames
  import opened ModuleRequests
  import opened ModuleRecords
  import opened Linking
  import LL = LinkingList

  /** No module is in the middle of linking, and linked modules only depend on linked modules. */
  ghost predicate LinkInv(w: World, s: State)
    requires Valid(w)
  {
    && Sized(w, s) && Base(LinkGraph(w), Idle(s))
    && forall i :: 0 <= i < |s.nodes| ==> s.nodes[i].error.None?
  }

  predicate IsLinked(w: World, s: State, m: nat) {
    m < |w| && m < |s.nodes| && w[m].SourceText? && s.nodes[m].color == Black
  }

  /** Linked modules are left alone, and nothing else is left half done. */
  predicate OnlyLinks(s: State, s': State) {
    && |s'.nodes| == |s.nodes|
    && forall i :: 0 <= i < |s.nodes| && s.nodes[i].color == Black ==> s'.nodes[i] == s.nodes[i]
  }

  lemma RollbackBase(g: Graph, w: Walk)
    requires g.Valid() && Base(g, w)
    ensures InRange(g, Walk(Rollback(w.nodes, w.stack), [], w.log))
        && Base(g, Walk(Rollback(w.nodes, w.stack), [], w.log))
  {
    var w' := Walk(Rollback(w.nodes, w.stack), [], w.log);
    assert forall a :: Ok(g, w', a) ==> Ok(g, w, a);
    assert forall a :: Ok(g, w, a) ==> Ok(g, w', a);
    assert OkClosed(g, w');
  }

  lemma WalkKeeps(w: World, body: Body, s: State, m: nat)
    requires Valid(w) && LinkInv(w, s) && m < |w|
    ensures var r := LinkGraphFrom(w, body, s, m);
            && LinkInv(w, r.s) && OnlyLinks(s, r.s)
            && (r.LinkOk? && w[m].SourceText? ==> IsLinked(w, r.s, m))
            && (r.LinkError? && w[m].SourceText? && s.nodes[m].color == White ==> r.s.nodes[m].color == White)
  {
    hide Reach, LowLink, Settled, Valid, LL.LinkingListOf, OkClosed;
    var g := LinkGraph(w);
    LinkGraphValid(w);
    var i := Idle(s);
    var idx := VisitKeeps(g, body, i, m, 0, [], {});
    var r := Visit(g, body, i, m, 0);
    if r.Done? {
      StackEmpties(g, r.w, idx, r.index);
      IdleBase(g, r.w);
    } else {
      RollbackBase(g, r.w);
      RollbackOnlyLinks(g, i, r.w);
    }
  }

  lemma IdleBase(g: Graph, w: Walk)
    requires Base(g, w) && w.stack == []
    ensures Walk(w.nodes, [], w.log) == w
  {
  }

  lemma RollbackOnlyLinks(g: Graph, i: Walk, w: Walk)
    requires Base(g, w) && Continues(i, w, {}) && |i.nodes| == |w.nodes|
    ensures forall k :: 0 <= k < |i.nodes| && i.nodes[k].color == Black ==> Rollback(w.nodes, w.stack)[k] == i.nodes[k]
    ensures forall k :: 0 <= k < |i.nodes| ==> Rollback(w.nodes, w.stack)[k].error == i.nodes[k].error
  {
    hide OkClosed;
  }

  lemma {:induction false} LinkKeeps(w: World, body: Body, s: State, m: nat, names: Names)
    requires Valid(w) && LinkInv(w, s) && m < |w| && w[m].SourceText?
    ensures var r := Link(w, body, s, m, names);
            && LinkInv(w, r.s) && OnlyLinks(s, r.s)
            && (r.LinkOk? ==> IsLinked(w, r.s, m))
    decreases Whites(Idle(s)), if s.nodes[m].color == White then 0 else 2, 0
  {
    hide Valid, LinkInv, OptionalRequests;
    SizedOf(w, s);
    WalkKeeps(w, body, s, m);
    var r := LinkGraphFrom(w, body, s, m);
    if r.LinkOk? {
      LL.OptionalRequestsLoaded(w, m, names);
      assert Whites(Idle(r.s)) < Whites(Idle(s)) || Whites(Idle(r.s)) == Whites(Idle(s));
      assert s.nodes[m].color == White ==> m in Whites(Idle(s));
      NestedKeeps(w, body, r.s, m, OptionalRequests(Optional(w, m), names));
    }
  }

  lemma SizedOf(w: World, s: State)
    requires Valid(w) && LinkInv(w, s)
    ensures Sized(w, s)
  {
  }

  lemma {:induction false} NestedKeeps(w: World, body: Body, s: State, m: nat, reqs: seq<ModuleRequest>)
    requires Valid(w) && LinkInv(w, s) && LL.Requestable(w, m, reqs)
    ensures var r := LinkNested(w, body, s, m, reqs);
            && LinkInv(w, r.s) && OnlyLinks(s, r.s)
    decreases Whites(Idle(s)), 1, |reqs|
  {
    hide Valid, LinkInv, GetImportedModule, IsLoaded;
    SizedOf(w, s);
    if reqs != [] {
      var t := GetImportedModule(w, m, reqs[0]);
      if w[t].SourceText? && s.nodes[t].color == White {
        LinkKeeps(w, body, s, t, reqs[0].importedNames);
        var r := Link(w, body, s, t, reqs[0].importedNames);
        if r.LinkOk? {
          assert Whites(Idle(r.s)) < Whites(Idle(s)) || Whites(Idle(r.s)) == Whites(Idle(s));
          NestedKeeps(w, body, r.s, m, reqs[1..]);
        }
      } else {
        NestedKeeps(w, body, s, m, reqs[1..]);
      }
    }
  }

  /** After a successful Link, everything the module depends on is linked. */
  lemma LinkReachesAll(w: World, body: Body, s: State, m: nat, names: Names, d: nat)
    requires Valid(w) && LinkInv(w, s) && m < |w| && w[m].SourceText?
    requires Link(w, body, s, m, names).LinkOk? && Reach(LinkGraph(w), m, d)
    ensures IsLinked(w, Link(w, body, s, m, names).s, d)
  {
    hide Valid, Reach;
    LinkKeeps(w, body, s, m, names);
    var s' := Link(w, body, s, m, names).s;
    OkReaches(LinkGraph(w), Idle(s'), m, d);
  }

  /** Whether it succeeds or fails, Link changes the status of whole strongly connected components
      only, from unlinked to linked, and only of components all of whose dependencies are linked. */
  lemma LinkChangesWholeComponents(w: World, body: Body, s: State, m: nat, names: Names, u: nat, v: nat)
    requires Valid(w) && LinkInv(w, s) && m < |w| && w[m].SourceText?
    ensures var s' := Link(w, body, s, m, names).s; var g := LinkGraph(w);
            && (IsLinked(w, s, u) ==> IsLinked(w, s', u))
            && (IsLinked(w, s', u) && g.Edge(u, v) ==> IsLinked(w, s', v))
            && (SameScc(g, u, v) && IsLinked(w, s', u) && !IsLinked(w, s, u) ==>
                  IsLinked(w, s', v) && !IsLinked(w, s, v))
            && (u < |w| && w[u].SourceText? && !IsLinked(w, s', u) ==> s'.nodes[u].color == White)
  {
    hide Valid, Reach;
    LinkKeeps(w, body, s, m, names);
    var g := LinkGraph(w);
    var s' := Link(w, body, s, m, names).s;
    if SameScc(g, u, v) && IsLinked(w, s', u) {
      OkReaches(g, Idle(s'), u, v);
    }
    if SameScc(g, u, v) && IsLinked(w, s, v) {
      OkReaches(g, Idle(s), v, u);
    }
  }

  datatype LinkCall = LinkCall(body: Body, m: nat, names: Names)

  predicate CallsOk(w: World, calls: seq<LinkCall>) {
    forall i :: 0 <= i < |calls| ==> calls[i].m < |w| && w[calls[i].m].SourceText?
  }

  function LinkAll(w: World, s: State, calls: seq<LinkCall>): State
    requires Valid(w) && Sized(w, s) && CallsOk(w, calls)
    decreases |calls|
  {
    if calls == [] then s
    else LinkAll(w, Link(w, calls[0].body, s, calls[0].m, calls[0].names).s, calls[1..])
  }

  /** Over every sequence of Link calls, successful or failing: no module is left in the middle of
      linking, the linked modules stay closed under linking lists, and none becomes unlinked again. */
  lemma {:induction false} LinkAllKeeps(w: World, s: State, calls: seq<LinkCall>)
    requires Valid(w) && LinkInv(w, s) && CallsOk(w, calls)
    ensures LinkInv(w, LinkAll(w, s, calls)) && OnlyLinks(s, LinkAll(w, s, calls))
    decreases |calls|
  {
    hide Valid, LinkInv;
    SizedOf(w, s);
    if calls != [] {
      LinkKeeps(w, calls[0].body, s, calls[0].m, calls[0].names);
      LinkAllKeeps(w, Link(w, calls[0].body, s, calls[0].m, calls[0].names).s, calls[1..]);
    }
  }
}
