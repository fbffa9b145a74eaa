/** Which environments one call of Link creates, and in which order; with which error it fails; and
    what a failing call leaves linked. */
module LinkingOrder {
  import opened Wrappers
  import opened Graphs
  import opened ModuleDfs
  import opened ModuleScc
  import opened ModuleOrder
  import opened ModuleFailure
  import opened ImportedNames
  import opened ModuleRequests
  import opened ModuleRecords
  import opened Linking
  import opened LinkingProperties
  import LL = LinkingList

  /** The linked modules. */
  function LinkedOf(w: World, s: State): set<nat>
    requires Valid(w)
  {
    EnteredOf(LinkGraph(w), Idle(s))
  }

  lemma RegularState(w: World, s: State)
    requires Valid(w) && LinkInv(w, s)
    ensures Sized(w, s) && Regular(LinkGraph(w), Idle(s)) && FailedOf(LinkGraph(w), Idle(s)) == map[]
  {
    hide LL.LinkingListOf, OkClosed;
  }

  /** The environments to create for m and its names, from a state where `linked` are linked: the post-order
      of m over linking lists, and then, for each selected request in turn whose module is not linked yet,
      those of that module for the names of the request. */
  ghost function LinkOrder(w: World, m: nat, names: Names, linked: set<nat>): (r: Order)
    requires Valid(w) && m < |w| && w[m].SourceText?
    ensures linked + {m} <= r.entered
    decreases Left(LinkGraph(w), linked), if m in linked then 2 else 0, 0
  {
    LinkGraphValid(w);
    var o := PostOrder(LinkGraph(w), map[], m, linked);
    LL.OptionalRequestsLoaded(w, m, names);
    EntersItself(LinkGraph(w), m, linked);
    assert Left(LinkGraph(w), o.entered) < Left(LinkGraph(w), linked)
        || Left(LinkGraph(w), o.entered) == Left(LinkGraph(w), linked);
    assert m !in linked ==> m in Left(LinkGraph(w), linked);
    var nested := NestedOrder(w, m, OptionalRequests(Optional(w, m), names), o.entered);
    nested.(ids := o.ids + nested.ids)
  }

  ghost function NestedOrder(w: World, m: nat, reqs: seq<ModuleRequest>, linked: set<nat>): (r: Order)
    requires Valid(w) && LL.Requestable(w, m, reqs)
    ensures linked <= r.entered
    decreases Left(LinkGraph(w), linked), 1, |reqs|
  {
    if reqs == [] then Order([], linked, None)
    else
      var t := GetImportedModule(w, m, reqs[0]);
      if w[t].SourceText? && t !in linked then
        var first := LinkOrder(w, t, reqs[0].importedNames, linked);
        assert t in Left(LinkGraph(w), linked) && t !in Left(LinkGraph(w), first.entered);
        var rest := NestedOrder(w, m, reqs[1..], first.entered);
        rest.(ids := first.ids + rest.ids)
      else NestedOrder(w, m, reqs[1..], linked)
  }

  lemma EntersItself(g: Graph, m: nat, entered: set<nat>)
    requires g.Valid() && m < g.Size() && g.cyclic[m]
    ensures m in PostOrder(g, map[], m, entered).entered
  {
  }

  /** The walk of one call, with its rollback. */
  lemma WalkInOrder(w: World, body: Body, s: State, m: nat)
    requires Valid(w) && LinkInv(w, s) && Sized(w, s) && m < |w| && LinkGraph(w).Valid()
    ensures var r := LinkGraphFrom(w, body, s, m);
            var o := PostOrder(LinkGraph(w), map[], m, LinkedOf(w, s));
            var (events, error) := Execute(body, o.ids, |s.log|);
            && r.s.log == s.log + events
            && o.stop.None?
            && (r.LinkOk? <==> error.None?) && (r.LinkError? ==> Some(r.error) == error)
            && (r.LinkOk? ==> LinkedOf(w, r.s) == o.entered)
  {
    hide Valid, LinkInv, Visit, FailedOf, EnteredOf, Regular, LinkGraph, PostOrder;
    RegularState(w, s);
    VisitInOrder(LinkGraph(w), body, Idle(s), m, 0);
    NeverStops(LinkGraph(w), m, LinkedOf(w, s));
    SameLinked(w, body, s, m);
  }

  lemma SameLinked(w: World, body: Body, s: State, m: nat)
    requires Valid(w) && Sized(w, s) && m < |w| && LinkGraph(w).Valid()
    ensures var r := Visit(LinkGraph(w), body, Idle(s), m, 0);
            r.Done? ==> LinkedOf(w, LinkGraphFrom(w, body, s, m).s) == EnteredOf(LinkGraph(w), r.w)
  {
    hide Valid, Visit, LinkGraph;
  }

  /** Link creates the environments in that order up to the first that fails, fails with the error of that
      one, and on success leaves exactly the modules linked that were entered. */
  lemma {:induction false} LinkInOrder(w: World, body: Body, s: State, m: nat, names: Names)
    requires Valid(w) && LinkInv(w, s) && m < |w| && w[m].SourceText? && Sized(w, s)
    ensures RunsLike(w, body, s, LinkOrder(w, m, names, LinkedOf(w, s)), Link(w, body, s, m, names))
    decreases Whites(Idle(s)), if s.nodes[m].color == White then 0 else 2, 0
  {
    hide Valid, LinkInv, OptionalRequests, FailedOf, EnteredOf, LinkGraphFrom, LinkGraph, PostOrder, LinkNested,
        NestedOrder;
    LinkGraphValid(w);
    WalkInOrder(w, body, s, m);
    WalkKeeps(w, body, s, m);
    var r := LinkGraphFrom(w, body, s, m);
    var o := PostOrder(LinkGraph(w), map[], m, LinkedOf(w, s));
    LL.OptionalRequestsLoaded(w, m, names);
    var reqs := OptionalRequests(Optional(w, m), names);
    var nested := NestedOrder(w, m, reqs, o.entered);
    ExecuteConcat(body, o.ids, nested.ids, |s.log|);
    if r.LinkOk? {
      assert Whites(Idle(r.s)) < Whites(Idle(s)) || Whites(Idle(r.s)) == Whites(Idle(s));
      assert s.nodes[m].color == White ==> m in Whites(Idle(s));
      NestedInOrder(w, body, r.s, m, reqs);
      ThenNested(w, body, s, o, r.s, nested, LinkNested(w, body, r.s, m, reqs));
    }
  }

  ghost predicate RunsLike(w: World, body: Body, s: State, o: Order, r: LinkResult)
    requires Valid(w)
  {
    var (events, error) := Execute(body, o.ids, |s.log|);
    && r.s.log == s.log + events
    && (r.LinkOk? <==> error.None?) && (r.LinkError? ==> Some(r.error) == error)
    && (r.LinkOk? ==> LinkedOf(w, r.s) == o.entered)
  }

  lemma ThenNested(w: World, body: Body, s: State, first: Order, s1: State, rest: Order, r: LinkResult)
    requires Valid(w)
    requires var (events, error) := Execute(body, first.ids, |s.log|); s1.log == s.log + events && error.None?
    requires RunsLike(w, body, s1, rest, r)
    ensures RunsLike(w, body, s, rest.(ids := first.ids + rest.ids), r)
  {
    hide Valid, LinkedOf, Execute;
    ExecuteConcat(body, first.ids, rest.ids, |s.log|);
    var events := Execute(body, first.ids, |s.log|).0;
    var more := Execute(body, rest.ids, |s1.log|).0;
    assert (s.log + events) + more == s.log + (events + more);
  }

  lemma {:induction false} NestedInOrder(w: World, body: Body, s: State, m: nat, reqs: seq<ModuleRequest>)
    requires Valid(w) && LinkInv(w, s) && LL.Requestable(w, m, reqs) && Sized(w, s)
    ensures RunsLike(w, body, s, NestedOrder(w, m, reqs, LinkedOf(w, s)), LinkNested(w, body, s, m, reqs))
    decreases Whites(Idle(s)), 1, |reqs|
  {
    hide Valid, LinkInv, GetImportedModule, IsLoaded, Link, LinkOrder;
    if reqs == [] {
      assert s.log + [] == s.log;
    } else {
      var t := GetImportedModule(w, m, reqs[0]);
      if w[t].SourceText? {
        LinkedMeans(w, s, t);
      }
      if w[t].SourceText? && s.nodes[t].color == White {
        LinkInOrder(w, body, s, t, reqs[0].importedNames);
        LinkKeeps(w, body, s, t, reqs[0].importedNames);
        var first := LinkOrder(w, t, reqs[0].importedNames, LinkedOf(w, s));
        var r := Link(w, body, s, t, reqs[0].importedNames);
        var rest := NestedOrder(w, m, reqs[1..], first.entered);
        ExecuteConcat(body, first.ids, rest.ids, |s.log|);
        if r.LinkOk? {
          assert Whites(Idle(r.s)) < Whites(Idle(s)) || Whites(Idle(r.s)) == Whites(Idle(s));
          NestedInOrder(w, body, r.s, m, reqs[1..]);
          ThenNested(w, body, s, first, r.s, rest, LinkNested(w, body, r.s, m, reqs[1..]));
        }
      } else {
        NestedInOrder(w, body, s, m, reqs[1..]);
      }
    }
  }

  lemma LinkedMeans(w: World, s: State, t: nat)
    requires Valid(w) && Sized(w, s) && t < |w| && w[t].SourceText?
    ensures t in LinkedOf(w, s) <==> s.nodes[t].color != White
  {
    hide Valid, LL.LinkingListOf;
  }

  /** A failed walk leaves linked, of the modules it entered, exactly those whose environment was created
      and that do not depend on the module whose environment was not. */
  lemma FailedWalkLeaves(w: World, body: Body, s: State, m: nat) returns (f: nat)
    requires Valid(w) && LinkInv(w, s) && Sized(w, s) && m < |w| && LinkGraphFrom(w, body, s, m).LinkError?
    ensures var r := LinkGraphFrom(w, body, s, m);
            && |s.log| < |r.s.log| && r.s.log[|r.s.log| - 1] == Event(f, Some(r.error))
            && forall x: nat :: x < |w| && w[x].SourceText? && s.nodes[x].color == White ==>
                 Leaves(w, s, r.s, f, x)
  {
    hide Valid, LinkInv, Visit, Regular, LeftBehind, DependsOn, Blames;
    var g := LinkGraph(w);
    LinkGraphValid(w);
    RegularState(w, s);
    StateBase(w, s);
    f := FailedWalkExact(g, body, Idle(s), m);
    var r := Visit(g, body, Idle(s), m, 0);
    NoneRecorded(g, Idle(s), r, f);
    StartLow(g, Idle(s), m);
    var idx := VisitKeeps(g, body, Idle(s), m, 0, [], {});
    forall x: nat | x < |w| && w[x].SourceText? && s.nodes[x].color == White
      ensures Leaves(w, s, LinkGraphFrom(w, body, s, m).s, f, x)
    {
      LeavesAt(w, s, r.w, LinkGraphFrom(w, body, s, m).s, f, x);
    }
  }

  lemma StateBase(w: World, s: State)
    requires Valid(w) && LinkInv(w, s)
    ensures Base(LinkGraph(w), Idle(s))
  {
  }

  lemma NoneRecorded(g: Graph, w: Walk, r: Outcome, f: nat)
    requires FailedOf(g, w) == map[] && Blames(g, w, r, f)
    ensures Culprit(w, r, f)
  {
  }

  /** What became of the unlinked module x. */
  ghost predicate Leaves(w: World, s: State, s': State, f: nat, x: nat)
    requires Valid(w) && x < |s'.nodes|
  {
    var created := RanSince(Idle(s), Idle(s'), x);
    && (s'.nodes[x].color == Black ==> created)
    && (created && !DependsOn(LinkGraph(w), x, f) ==> s'.nodes[x].color == Black)
    && (s'.nodes[x].color == Black && f < |w| && w[f].SourceText? ==> !DependsOn(LinkGraph(w), x, f))
  }

  lemma LeavesAt(w: World, s: State, v: Walk, s': State, f: nat, x: nat)
    requires Valid(w) && Sized(w, s) && x < |w| && w[x].SourceText? && s.nodes[x].color == White
    requires InRange(LinkGraph(w), v) && Base(LinkGraph(w), v)
    requires LeftBehind(LinkGraph(w), Idle(s), v, f, x)
    requires s'.nodes == Rollback(v.nodes, v.stack) && s'.log == v.log
    ensures Leaves(w, s, s', f, x)
  {
    hide Valid, DependsOn, OkClosed, LL.LinkingListOf;
    assert RanSince(Idle(s), Idle(s'), x) <==> RanSince(Idle(s), v, x) by {
      RanFromLog(Idle(s), v, Idle(s'), x);
    }
  }
}
