/** Which bodies one call of Evaluate for some names runs, with its nested calls, and in which order. */
module EvaluationNestedOrder {
  import opened Wrappers
  import opened Graphs
  import opened ModuleDfs
  import opened ModuleOrder
  import opened ImportedNames
  import opened ModuleRequests
  import opened ModuleRecords
  import opened Promises
  import opened Evaluation
  import opened EvaluationNested
  import opened EvaluationOrder
  import LL = LinkingList

  /** First m in post-order; then, for each selected request in turn, its module for the names of the
      request.  Deeper than `fuel` the order is cut. */
  ghost function NamesOrder(w: World, g: Graph, failed: map<nat, Error>, fuel: nat, m: nat, names: Names,
      entered: set<nat>): Order
    requires Serves(w, g) && m < |w|
    decreases fuel, 1, 0
  {
    var first := PostOrder(g, failed, m, entered);
    if w[m].Synthetic? || first.stop.Some? then first
    else
      LL.OptionalRequestsLoaded(w, m, names);
      var nested := RequestsOrder(w, g, failed, fuel, m, OptionalRequests(Optional(w, m), names), first.entered);
      nested.(ids := first.ids + nested.ids)
  }

  ghost function RequestsOrder(w: World, g: Graph, failed: map<nat, Error>, fuel: nat, m: nat,
      reqs: seq<ModuleRequest>, entered: set<nat>): Order
    requires Serves(w, g) && LL.Requestable(w, m, reqs)
    decreases fuel, 0, |reqs|
  {
    if reqs == [] || fuel == 0 then Order([], entered, None)
    else
      var t := GetImportedModule(w, m, reqs[0]);
      var first := NamesOrder(w, g, failed, fuel - 1, t, reqs[0].importedNames, entered);
      if first.stop.Some? then first
      else
        var rest := RequestsOrder(w, g, failed, fuel, m, reqs[1..], first.entered);
        rest.(ids := first.ids + rest.ids)
  }

  /** The run of `o` from s ends in s', rejected with what the first failing body threw, or with the
      recorded error that ends the order. */
  ghost predicate RunsAs(g: Graph, body: Body, s: EvalState, o: Order, s': EvalState, rejected: Option<Error>) {
    var (events, error) := Execute(body, o.ids, |s.log|);
    && s'.log == s.log + events
    && rejected == (if error.Some? then error else o.stop)
    && (rejected.None? ==> EnteredOf(g, Idle(s')) == o.entered && FailedOf(g, Idle(s')) == FailedOf(g, Idle(s)))
  }

  ghost predicate Good(g: Graph, s: EvalState)
    requires g.Valid()
  {
    EvalInv(g, s) && Unfailed(g, s) && Sized(g, s)
  }

  lemma SyntheticInOrder(w: World, g: Graph, body: Body, s: EvalState, m: nat)
    requires Serves(w, g) && Good(g, s) && m < |w| && w[m].Synthetic?
    ensures var (s', p) := EvaluateSynthetic(body, s, m);
            Good(g, s') && RunsAs(g, body, s, Order([m], EnteredOf(g, Idle(s)), None), s', p.rejected)
  {
    hide Valid, EvalInv;
    SyntheticKeeps(w, g, body, s, m);
    assert [m][1..] == [] && Execute(body, [], |s.log| + 1) == ([], None);
  }

  lemma AloneInOrder(w: World, g: Graph, body: Body, s: EvalState, m: nat)
    requires Serves(w, g) && Good(g, s) && m < |w|
    ensures var (s', p) := EvaluateAlone(w, g, body, s, m);
            && Good(g, s')
            && RunsAs(g, body, s, PostOrder(g, FailedOf(g, Idle(s)), m, EnteredOf(g, Idle(s))), s', p.rejected)
  {
    hide Valid, EvalInv, EvaluateSynthetic, Evaluate, Unfailed, FailedOf, EnteredOf, RunsAs;
    if w[m].Synthetic? {
      SyntheticInOrder(w, g, body, s, m);
    } else {
      EvaluateInOrder(g, body, s, m);
      PlannedRuns(g, body, s, m);
    }
  }

  lemma PlannedRuns(g: Graph, body: Body, s: EvalState, m: nat)
    requires g.Valid() && Sized(g, s) && m < g.Size() && g.cyclic[m]
    requires var (s', p) := Evaluate(g, body, s, m);
             var (events, error) := Execute(body, Planned(g, s, m).ids, |s.log|);
             && s'.log == s.log + events
             && p.rejected == (if error.Some? then error else Planned(g, s, m).stop)
             && (p.rejected.None? ==>
                   EnteredOf(g, Idle(s')) == Planned(g, s, m).entered && FailedOf(g, Idle(s')) == FailedOf(g, Idle(s)))
    ensures var (s', p) := Evaluate(g, body, s, m);
            RunsAs(g, body, s, PostOrder(g, FailedOf(g, Idle(s)), m, EnteredOf(g, Idle(s))), s', p.rejected)
  {
    hide Evaluate, FailedOf, EnteredOf, PostOrder;
  }

  lemma RunsThen(g: Graph, body: Body, s: EvalState, first: Order, s1: EvalState, rest: Order, s': EvalState,
      rejected: Option<Error>)
    requires RunsAs(g, body, s, first, s1, None) && RunsAs(g, body, s1, rest, s', rejected)
    ensures RunsAs(g, body, s, rest.(ids := first.ids + rest.ids), s', rejected)
  {
    hide FailedOf, EnteredOf;
    ExecuteConcat(body, first.ids, rest.ids, |s.log|);
    var events := Execute(body, first.ids, |s.log|).0;
    var more := Execute(body, rest.ids, |s1.log|).0;
    assert (s.log + events) + more == s.log + (events + more);
  }

  /** What fails in the first part fails the whole. */
  lemma RunsFirst(g: Graph, body: Body, s: EvalState, first: Order, rest: Order, s': EvalState,
      rejected: Option<Error>)
    requires RunsAs(g, body, s, first, s', rejected) && rejected.Some? && first.stop.None?
    ensures RunsAs(g, body, s, rest.(ids := first.ids + rest.ids), s', rejected)
  {
    hide FailedOf, EnteredOf;
    ExecuteConcat(body, first.ids, rest.ids, |s.log|);
  }

  lemma EndsThere(g: Graph, body: Body, s: EvalState, o: Order, s': EvalState, rejected: Option<Error>)
    requires RunsAs(g, body, s, o, s', rejected)
    ensures rejected.None? ==> o.stop.None? && EnteredOf(g, Idle(s')) == o.entered
                               && FailedOf(g, Idle(s')) == FailedOf(g, Idle(s))
  {
  }

  /** A call for names that returns runs the bodies in that order, up to the first that throws. */
  lemma {:induction false} NamesInOrder(w: World, g: Graph, body: Body, fuel: nat, s: EvalState, m: nat, names: Names)
    requires Serves(w, g) && Good(g, s) && m < |w| && EvaluateNames(w, g, body, fuel, s, m, names).Some?
    ensures var (s', p) := EvaluateNames(w, g, body, fuel, s, m, names).value;
            && Good(g, s')
            && RunsAs(g, body, s, NamesOrder(w, g, FailedOf(g, Idle(s)), fuel, m, names, EnteredOf(g, Idle(s))), s',
                 p.rejected)
    decreases fuel, 1, 0
  {
    hide Valid, EvalInv, Unfailed, EvaluateAlone, OptionalRequests, EvaluateRequests, FailedOf, EnteredOf, RunsAs,
        PostOrder, RequestsOrder;
    AloneInOrder(w, g, body, s, m);
    var r := EvaluateAlone(w, g, body, s, m);
    var first := PostOrder(g, FailedOf(g, Idle(s)), m, EnteredOf(g, Idle(s)));
    EndsThere(g, body, s, first, r.0, r.1.rejected);
    if w[m].SourceText? {
      LL.OptionalRequestsLoaded(w, m, names);
      var reqs := OptionalRequests(Optional(w, m), names);
      var nested := RequestsOrder(w, g, FailedOf(g, Idle(s)), fuel, m, reqs, first.entered);
      if r.1.rejected.None? {
        RequestsInOrder(w, g, body, fuel, r.0, m, reqs, r.1);
        var (s', p) := EvaluateRequests(w, g, body, fuel, r.0, m, reqs, r.1).value;
        RunsThen(g, body, s, first, r.0, nested, s', p.rejected);
      } else if first.stop.None? {
        RunsFirst(g, body, s, first, nested, r.0, r.1.rejected);
      }
    }
  }

  lemma {:induction false} RequestsInOrder(w: World, g: Graph, body: Body, fuel: nat, s: EvalState, m: nat,
      reqs: seq<ModuleRequest>, top: Promise)
    requires Serves(w, g) && Good(g, s) && LL.Requestable(w, m, reqs) && top.rejected.None?
    requires EvaluateRequests(w, g, body, fuel, s, m, reqs, top).Some?
    ensures var (s', p) := EvaluateRequests(w, g, body, fuel, s, m, reqs, top).value;
            && Good(g, s')
            && RunsAs(g, body, s, RequestsOrder(w, g, FailedOf(g, Idle(s)), fuel, m, reqs, EnteredOf(g, Idle(s))), s',
                 p.rejected)
    decreases fuel, 0, |reqs|
  {
    hide Valid, EvalInv, Unfailed, EvaluateNames, GetImportedModule, IsLoaded, FailedOf, EnteredOf, RunsAs,
        NamesOrder;
    if reqs == [] {
      RunsNothing(g, body, s);
    } else {
      var t := GetImportedModule(w, m, reqs[0]);
      NamesInOrder(w, g, body, fuel - 1, s, t, reqs[0].importedNames);
      var r := EvaluateNames(w, g, body, fuel - 1, s, t, reqs[0].importedNames).value;
      var first := NamesOrder(w, g, FailedOf(g, Idle(s)), fuel - 1, t, reqs[0].importedNames, EnteredOf(g, Idle(s)));
      EndsThere(g, body, s, first, r.0, r.1.rejected);
      var rest := RequestsOrder(w, g, FailedOf(g, Idle(s)), fuel, m, reqs[1..], first.entered);
      if r.1.rejected.None? {
        RequestsInOrder(w, g, body, fuel, r.0, m, reqs[1..], top);
        var (s', p) := EvaluateRequests(w, g, body, fuel, r.0, m, reqs[1..], top).value;
        RunsThen(g, body, s, first, r.0, rest, s', p.rejected);
      } else if first.stop.None? {
        RunsFirst(g, body, s, first, rest, r.0, r.1.rejected);
      }
    }
  }

  lemma RunsNothing(g: Graph, body: Body, s: EvalState)
    ensures RunsAs(g, body, s, Order([], EnteredOf(g, Idle(s)), None), s, None)
  {
    hide FailedOf, EnteredOf;
    assert s.log + [] == s.log;
  }
}
