/** What Link does for requested names.  Its nested calls go on only at modules that are still unlinked,
    so a module further along a chain of optional re-exports can stay unlinked, although the nested
    calls of Evaluate for the same names go on to it and assert that it is linked. */
module LinkingNames {
  import opened Wrappers
  import opened Graphs
  import opened ModuleDfs
  import opened ModuleScc
  import opened ModuleSuccess
  import opened ImportedNames
  import opened ModuleRequests
  import opened ModuleRecords
  import opened OptionalChains
  import opened Linking
  import opened LinkingProperties
  import LF = LinkingFailure
  import LL = LinkingList

  /** The names lead from m to the Cyclic Module Record x, over any number of optional re-exports. */
  ghost predicate LedTo(w: World, m: nat, names: Names, x: nat)
    requires Valid(w)
  {
    && x < |w| && w[x].SourceText?
    && exists n: string, y: string, links: nat :: Denotes(names, n) && Leads(w, true, m, n, x, y, links)
  }

  /** t is the module of an optional re-export of m that the names select. */
  ghost predicate Selects(w: World, m: nat, names: Names, t: nat)
    requires Valid(w)
  {
    exists k: nat, n: string :: Denotes(names, n) && Takes(w, true, m, k, n, t)
  }

  /** Linking reaches x from m, or from a module that the names lead to over one re-export. */
  ghost predicate Near(w: World, m: nat, names: Names, x: nat)
    requires Valid(w)
  {
    || Reach(LinkGraph(w), m, x)
    || exists t: nat :: t < |w| && w[t].SourceText? && Selects(w, m, names, t) && Reach(LinkGraph(w), t, x)
  }

  /** If this call of Link succeeds, everything that the names lead to is linked. */
  ghost predicate LinksNames(w: World, body: Body, s: State, m: nat, names: Names)
    requires Valid(w) && LinkInv(w, s) && m < |w| && w[m].SourceText?
  {
    var r := Link(w, body, s, m, names);
    r.LinkOk? ==> forall x: nat :: LedTo(w, m, names, x) ==> IsLinked(w, r.s, x)
  }

  /** Every successful Link links what the names lead to, whatever was linked before, if and only if
      linking reaches all of it from m and from the modules one re-export away. */
  lemma LinksNamesExactly(w: World, m: nat, names: Names)
    requires Valid(w) && m < |w| && w[m].SourceText?
    ensures (forall s: State, body: Body :: LinkInv(w, s) ==> LinksNames(w, body, s, m, names))
            <==> forall x: nat :: LedTo(w, m, names, x) ==> Near(w, m, names, x)
  {
    hide Valid, LinkInv, Link, LedTo, Near, Reach;
    if forall x: nat :: LedTo(w, m, names, x) ==> Near(w, m, names, x) {
      forall s: State, body: Body | LinkInv(w, s) ensures LinksNames(w, body, s, m, names) {
        SizedOf(w, s);
        var r := Link(w, body, s, m, names);
        forall x: nat | r.LinkOk? && LedTo(w, m, names, x) ensures IsLinked(w, r.s, x) {
          NearIsLinked(w, body, s, m, names, x);
        }
      }
    } else {
      var x: nat :| LedTo(w, m, names, x) && !Near(w, m, names, x);
      var s := FarIsLeft(w, m, names, x);
      assert !LinksNames(w, Succeeds(), s, m, names);
    }
  }

  // --- What is near is linked ---

  lemma NearIsLinked(w: World, body: Body, s: State, m: nat, names: Names, x: nat)
    requires Valid(w) && LinkInv(w, s) && m < |w| && w[m].SourceText? && Sized(w, s)
    requires Link(w, body, s, m, names).LinkOk? && Near(w, m, names, x)
    ensures IsLinked(w, Link(w, body, s, m, names).s, x)
  {
    hide Valid, Reach, LinkInv, Takes, IsLinked, Denotes, OptionalRequests;
    LinkKeeps(w, body, s, m, names);
    var s' := Link(w, body, s, m, names).s;
    if Reach(LinkGraph(w), m, x) {
      LF.LinkedReaches(w, s', m, x);
    } else {
      var t: nat :| t < |w| && w[t].SourceText? && Selects(w, m, names, t) && Reach(LinkGraph(w), t, x);
      SelectedIsLinked(w, body, s, m, names, t);
      LF.LinkedReaches(w, s', t, x);
    }
  }

  lemma SelectedIsLinked(w: World, body: Body, s: State, m: nat, names: Names, t: nat)
    requires Valid(w) && LinkInv(w, s) && m < |w| && w[m].SourceText? && Sized(w, s)
    requires Link(w, body, s, m, names).LinkOk? && t < |w| && w[t].SourceText? && Selects(w, m, names, t)
    ensures IsLinked(w, Link(w, body, s, m, names).s, t)
  {
    hide Valid, LinkInv, OptionalRequests, IsLinked, IsLoaded, GetImportedModule, Denotes;
    var k: nat, n: string :| Denotes(names, n) && Takes(w, true, m, k, n, t);
    WalkKeeps(w, body, s, m);
    var r := LinkGraphFrom(w, body, s, m);
    LL.OptionalRequestsLoaded(w, m, names);
    var i := EntryRequested(w, m, names, k);
    NestedLinks(w, body, r.s, m, OptionalRequests(Optional(w, m), names), i);
  }

  lemma {:induction false} NestedLinks(w: World, body: Body, s: State, m: nat, reqs: seq<ModuleRequest>, i: nat)
    requires Valid(w) && LinkInv(w, s) && LL.Requestable(w, m, reqs) && i < |reqs| && Sized(w, s)
    requires LinkNested(w, body, s, m, reqs).LinkOk? && w[GetImportedModule(w, m, reqs[i])].SourceText?
    ensures IsLinked(w, LinkNested(w, body, s, m, reqs).s, GetImportedModule(w, m, reqs[i]))
    decreases |reqs|
  {
    hide Valid, LinkInv, GetImportedModule, IsLoaded, Link;
    var t := GetImportedModule(w, m, reqs[0]);
    var s1 := s;
    if w[t].SourceText? {
      if s.nodes[t].color == White {
        LinkKeeps(w, body, s, t, reqs[0].importedNames);
        s1 := Link(w, body, s, t, reqs[0].importedNames).s;
      } else {
        NotWhite(w, s, t);
      }
    }
    NestedKeeps(w, body, s1, m, reqs[1..]);
    if i > 0 {
      NestedLinks(w, body, s1, m, reqs[1..], i - 1);
    }
  }

  lemma NotWhite(w: World, s: State, t: nat)
    requires Valid(w) && LinkInv(w, s) && t < |w| && w[t].SourceText? && s.nodes[t].color != White
    ensures IsLinked(w, s, t)
  {
    hide Valid;
  }

  // --- What is not near can be left ---

  /** Exactly the Cyclic Module Records of `linked` are linked. */
  function LinkedState(w: World, linked: set<nat>): State {
    State(seq(|w|, i requires 0 <= i < |w| =>
      Node(if i in linked && w[i].SourceText? then Black else White, 0, 0, None)), [])
  }

  lemma LinkedStateInv(w: World, linked: set<nat>)
    requires Valid(w) && |w| > 0 && ClosedUnder(LinkGraph(w), linked)
    ensures LinkInv(w, LinkedState(w, linked))
  {
    hide Valid, LL.LinkingListOf;
    LinkGraphValid(w);
    var g := LinkGraph(w);
    var i := Idle(LinkedState(w, linked));
    assert forall a :: Ok(g, i, a) ==> a in linked;
    assert OkClosed(g, i);
  }

  /** A state where all that is near is linked: Link succeeds at once, and x stays unlinked. */
  lemma FarIsLeft(w: World, m: nat, names: Names, x: nat) returns (s: State)
    requires Valid(w) && m < |w| && w[m].SourceText? && LedTo(w, m, names, x) && !Near(w, m, names, x)
    ensures LinkInv(w, s) && Sized(w, s)
    ensures var r := Link(w, Succeeds(), s, m, names); r.LinkOk? && !IsLinked(w, r.s, x)
  {
    hide Valid, Reach, OptionalRequests, LinkInv, Near, IsLoaded, GetImportedModule, LinkGraph, Denotes;
    var near := set t: nat | t < |w| && Near(w, m, names, t);
    NearClosed(w, m, names, near);
    LinkedStateInv(w, near);
    s := LinkedState(w, near);
    SizedOf(w, s);
    ReachRefl(LinkGraph(w), m);
    assert Near(w, m, names, m) by { NearFromReach(w, m, names, m); }
    assert m in near;
    StaysIdle(w, s, m);
    LL.OptionalRequestsLoaded(w, m, names);
    var reqs := OptionalRequests(Optional(w, m), names);
    LL.RequestableParts(w, m, reqs);
    forall i | 0 <= i < |reqs| ensures var t := GetImportedModule(w, m, reqs[i]);
        w[t].Synthetic? || s.nodes[t].color != White {
      SelectedNear(w, m, names, i);
    }
    LF.NestedIdle(w, Succeeds(), s, m, reqs);
  }

  lemma NearFromReach(w: World, m: nat, names: Names, x: nat)
    requires Valid(w) && Reach(LinkGraph(w), m, x)
    ensures Near(w, m, names, x)
  {
  }

  lemma NearClosed(w: World, m: nat, names: Names, near: set<nat>)
    requires Valid(w) && near == set t: nat | t < |w| && Near(w, m, names, t)
    ensures ClosedUnder(LinkGraph(w), near)
  {
    hide Valid, Reach, Selects, LinkGraph;
    var g := LinkGraph(w);
    forall a, b | a in near && g.Edge(a, b) ensures b in near {
      ReachEdge(g, a, b);
      if Reach(g, m, a) {
        ReachTrans(g, m, a, b);
      } else {
        var t: nat :| t < |w| && w[t].SourceText? && Selects(w, m, names, t) && Reach(g, t, a);
        ReachTrans(g, t, a, b);
      }
      assert |g.deps| == |w|;
    }
  }

  lemma SelectedNear(w: World, m: nat, names: Names, i: nat)
    requires Valid(w) && m < |w| && LL.Requestable(w, m, OptionalRequests(Optional(w, m), names))
    requires i < |OptionalRequests(Optional(w, m), names)|
    requires IsLoaded(w[m], OptionalRequests(Optional(w, m), names)[i])
    ensures var t := GetImportedModule(w, m, OptionalRequests(Optional(w, m), names)[i]);
            w[t].SourceText? ==> Near(w, m, names, t)
  {
    hide Valid, Reach, OptionalRequests, IsLoaded, GetImportedModule, LinkGraph, Denotes;
    RequestStandsFor(w, m, names, i);
    var k: nat :| StandsFor(w, m, names, i, k);
    var t := GetImportedModule(w, m, OptionalRequests(Optional(w, m), names)[i]);
    assert Selects(w, m, names, t);
    ReachRefl(LinkGraph(w), t);
  }

  /** Linking a linked module walks nothing. */
  lemma StaysIdle(w: World, s: State, m: nat)
    requires Valid(w) && LinkInv(w, s) && Sized(w, s) && m < |w| && w[m].SourceText? && s.nodes[m].color == Black
    ensures LinkGraphFrom(w, Succeeds(), s, m) == LinkOk(s)
  {
    hide Valid, Reach;
    LinkGraphValid(w);
  }

  // --- Link succeeds where nothing fails ---

  /** If no environment fails, Link succeeds. */
  lemma {:induction false} LinkSucceeds(w: World, s: State, m: nat, names: Names)
    requires Valid(w) && LinkInv(w, s) && m < |w| && w[m].SourceText?
    ensures Link(w, Succeeds(), s, m, names).LinkOk?
    decreases Whites(Idle(s)), if s.nodes[m].color == White then 0 else 2, 0
  {
    hide Valid, OptionalRequests, Reach, LinkGraph, Base;
    var g := LinkGraph(w);
    LinkGraphValid(w);
    ReachRefl(g, m);
    VisitSucceeds(g, Succeeds(), Idle(s), m, 0, m);
    WalkKeeps(w, Succeeds(), s, m);
    var r := LinkGraphFrom(w, Succeeds(), s, m);
    LL.OptionalRequestsLoaded(w, m, names);
    assert Whites(Idle(r.s)) < Whites(Idle(s)) || Whites(Idle(r.s)) == Whites(Idle(s));
    assert s.nodes[m].color == White ==> m in Whites(Idle(s));
    NestedSucceeds(w, r.s, m, OptionalRequests(Optional(w, m), names));
  }

  lemma {:induction false} NestedSucceeds(w: World, s: State, m: nat, reqs: seq<ModuleRequest>)
    requires Valid(w) && LinkInv(w, s) && LL.Requestable(w, m, reqs)
    ensures LinkNested(w, Succeeds(), s, m, reqs).LinkOk?
    decreases Whites(Idle(s)), 1, |reqs|
  {
    hide Valid, LinkInv, GetImportedModule, IsLoaded, Link;
    SizedOf(w, s);
    if reqs != [] {
      var t := GetImportedModule(w, m, reqs[0]);
      if w[t].SourceText? && s.nodes[t].color == White {
        LinkSucceeds(w, s, t, reqs[0].importedNames);
        LinkKeeps(w, Succeeds(), s, t, reqs[0].importedNames);
        var r := Link(w, Succeeds(), s, t, reqs[0].importedNames);
        assert Whites(Idle(r.s)) < Whites(Idle(s)) || Whites(Idle(r.s)) == Whites(Idle(s));
        NestedSucceeds(w, r.s, m, reqs[1..]);
      } else {
        NestedSucceeds(w, s, m, reqs[1..]);
      }
    }
  }

  // --- A world on which Link leaves what its names lead to ---

  function ImportOf(specifier: string): ModuleRequest {
    ModuleRequest(specifier, [], EvaluationPhase, List([]))
  }

  /** Module 0 imports module 1 for its effects and optionally re-exports `x` of it; module 1 optionally
      re-exports `x` of module 2, which has it. */
  const CHAIN: World := [
    SourceText([ImportOf("b")], [LoadedModule("b", [], 1)], [], [], [], [Reexport("x", "b")]),
    SourceText([], [LoadedModule("c", [], 2)], [], [], [], [Reexport("x", "c")]),
    SourceText([], [], [LocalEntry("x", "x")], [], [], [])
  ]

  lemma ChainLoaded()
    ensures Valid(CHAIN) && Takes(CHAIN, true, 0, 0, "x", 1) && Takes(CHAIN, true, 1, 0, "x", 2)
    ensures LL.Requestable(CHAIN, 0, [ImportOf("b")]) && GetImportedModule(CHAIN, 0, ImportOf("b")) == 1
  {
    var w := CHAIN;
    assert ModuleRequestsKeyEqual(KeyOf(w[0].loaded[0]), ImportOf("b"));
    assert ModuleRequestsKeyEqual(KeyOf(w[0].loaded[0]), Reexport("x", "b").request);
    assert ModuleRequestsKeyEqual(KeyOf(w[1].loaded[0]), Reexport("x", "c").request);
    assert FindLoaded(w[0].loaded, ImportOf("b")) == 0;
    assert FindLoaded(w[0].loaded, Reexport("x", "b").request) == 0;
    assert FindLoaded(w[1].loaded, Reexport("x", "c").request) == 0;
    assert ValidInfo(w[0], 3) && ValidInfo(w[1], 3) && ValidInfo(w[2], 3);
  }

  /** With nothing linked before and nothing failing, Link for all names links module 0 and not module
      2, to which the name `x` leads. */
  lemma ChainLeftUnlinked()
    ensures Valid(CHAIN) && LinkInv(CHAIN, LinkedState(CHAIN, {}))
    ensures var r := Link(CHAIN, Succeeds(), LinkedState(CHAIN, {}), 0, All);
            && r.LinkOk? && IsLinked(CHAIN, r.s, 0)
            && LedTo(CHAIN, 0, List(["x"]), 2) && !IsLinked(CHAIN, r.s, 2)
  {
    hide Valid, LinkInv, LinkGraph, IsLoaded, GetImportedModule, OptionalRequests, Reach, LinkedState;
    var w := CHAIN;
    ChainLoaded();
    var s := LinkedState(w, {});
    LinkedStateInv(w, {});
    SizedOf(w, s);
    LinkKeeps(w, Succeeds(), s, 0, All);
    LinkSucceeds(w, s, 0, All);
    ChainLeads();
    ChainWalk(s);
    var r := LinkGraphFrom(w, Succeeds(), s, 0);
    LL.OptionalRequestsLoaded(w, 0, All);
    var reqs := OptionalRequests(Optional(w, 0), All);
    LL.RequestableParts(w, 0, reqs);
    forall i | 0 <= i < |reqs| ensures GetImportedModule(w, 0, reqs[i]) == 1 {
      RequestStandsFor(w, 0, All, i);
    }
    LF.NestedIdle(w, Succeeds(), r.s, 0, reqs);
  }

  lemma ChainWants()
    ensures forall m :: 0 <= m < 2 ==> |Optional(CHAIN, m)| == 1 && Wants(Optional(CHAIN, m)[0], "x")
  {
  }

  lemma ChainLeads()
    requires Valid(CHAIN) && Takes(CHAIN, true, 0, 0, "x", 1) && Takes(CHAIN, true, 1, 0, "x", 2)
    ensures LedTo(CHAIN, 0, List(["x"]), 2)
  {
    hide Valid, Takes, Wants, Optional;
    var w := CHAIN;
    ChainWants();
    assert OneLink(w, true, 0, "x", 1, "x") && OneLink(w, true, 1, "x", 2, "x");
    assert Leads(w, true, 0, "x", 0, "x", 0);
    assert Leads(w, true, 0, "x", 1, "x", 1);
    assert Leads(w, true, 0, "x", 2, "x", 2);
  }

  /** The walk of Link links module 1 and leaves module 2. */
  lemma ChainWalk(s: State)
    requires Valid(CHAIN) && LinkInv(CHAIN, s) && Sized(CHAIN, s) && s == LinkedState(CHAIN, {})
    ensures var r := LinkGraphFrom(CHAIN, Succeeds(), s, 0);
            r.LinkOk? && r.s.nodes[1].color == Black && r.s.nodes[2].color == White
  {
    hide Valid, LinkGraph, Reach, Base;
    var w := CHAIN;
    var g := LinkGraph(w);
    LinkGraphValid(w);
    ReachRefl(g, 0);
    VisitSucceeds(g, Succeeds(), Idle(s), 0, 0, 0);
    WalkKeeps(w, Succeeds(), s, 0);
    var r := LinkGraphFrom(w, Succeeds(), s, 0);
    ChainGraph();
    LF.LinkedReaches(w, r.s, 0, 1);
  }

  lemma ChainGraph()
    requires Valid(CHAIN)
    ensures Reach(LinkGraph(CHAIN), 0, 1) && !Reach(LinkGraph(CHAIN), 0, 2)
  {
    hide Valid, LL.LinkingListOf, Reach;
    var w := CHAIN;
    var g := LinkGraph(w);
    ChainList();
    ReachEdge(g, 0, 1);
    if Reach(g, 0, 2) { ReachStaysInside(g, {0, 1}, 0, 2); }
  }

  lemma ChainList()
    requires Valid(CHAIN)
    ensures LL.LinkingListOf(CHAIN, 0) == [1] && LL.LinkingListOf(CHAIN, 1) == []
  {
    hide Valid, IsLoaded, GetImportedModule;
    var w := CHAIN;
    ChainLoaded();
    var s := LL.Lists([], map[]);
    var s1 := LL.Enter(w, s, 1);
    var extra := Exclude(List([]), s1.prev[1]);
    assert extra == List([]) && OptionalRequests(Optional(w, 1), extra) == [];
    assert w[0].requested == [ImportOf("b")] && w[0].requested[1..] == [];
  }
}
