/** InnerModuleEvaluation and Evaluate on mutable module records, proved to do what ModuleDfs and
    Evaluation specify.  The graph's dependency lists are the evaluation lists of the modules. */
module EvaluationObjects {
  import opened Sequences
  import opened Wrappers
  import opened Graphs
  import opened ModuleDfs
  import opened Promises
  import opened ModuleObjects
  import opened ImportedNames
  import opened ModuleRequests
  import opened ModuleRecords
  import E = Evaluation
  import EP = EvaluationProperties
  import EN = EvaluationNested
  import LL = LinkingList

  function EvalStatus(c: Color): Status {
    match c
    case White => Linked
    case Grey => Evaluating
    case Black => Evaluated
  }

  class Evaluator {
    const graph: Graph
    const records: seq<ModuleRecord>
    const body: Body
    var log: seq<Event>
    var promises: nat

    /** All modules are linked, and none has been evaluated. */
    constructor (graph: Graph, body: Body)
      requires graph.Valid()
      ensures this.graph == graph && this.body == body && WellFormed() && fresh(records)
      ensures Shows(EP.Fresh(graph))
    {
      this.graph, this.body, log, promises := graph, body, [], 0;
      var records := MakeRecords(graph.Size(), Linked);
      this.records := records;
    }

    predicate WellFormed() {
      && graph.Valid() && |records| == graph.Size()
      && forall i :: 0 <= i < |records| ==> records[i].id == i
    }

    predicate Owns(m: ModuleRecord) {
      m.id < |records| && records[m.id] == m
    }

    predicate RecordShows(r: ModuleRecord, n: Node)
      requires n.root < |records|
      reads r`status, r`dfsAncestorIndex, r`evaluationError, r`cycleRoot
    {
      && r.status == EvalStatus(n.color)
      && r.dfsAncestorIndex == n.anc
      && r.evaluationError == n.error
      && (n.color == Black ==>
           r.cycleRoot == records[n.root] && n.root < |graph.cyclic| && graph.cyclic[n.root])
    }

    /** The Cyclic Module Records look as the walk w says. */
    predicate EvalView(stack: ModuleStack, w: Walk)
      requires graph.Valid()
      reads this, stack, records
    {
      && |records| == |w.nodes| && log == w.log && InRange(graph, w) && |records| == graph.Size()
      && |stack.items| == |w.stack|
      && (forall i :: 0 <= i < |w.stack| ==> stack.items[i] == records[w.stack[i]] && graph.cyclic[w.stack[i]])
      && (forall i :: 0 <= i < |records| && graph.cyclic[i] ==> RecordShows(records[i], w.nodes[i]))
    }

    method RunBody(m: nat) returns (e: Option<Error>)
      modifies this`log
      ensures e == body(m, |old(log)|) && log == old(log) + [Event(m, e)]
    {
      e := body(m, |log|);
      log := log + [Event(m, e)];
    }

    lemma EvalStatusMeans(stack: ModuleStack, w: Walk, m: ModuleRecord)
      requires WellFormed() && Owns(m) && EvalView(stack, w) && graph.cyclic[m.id]
      ensures m.status == Linked <==> w.nodes[m.id].color == White
      ensures m.status == Evaluating <==> w.nodes[m.id].color == Grey
      ensures m.status == Evaluated <==> w.nodes[m.id].color == Black
      ensures m.evaluationError == w.nodes[m.id].error
      ensures w.nodes[m.id].color == Black ==>
                m.cycleRoot == records[w.nodes[m.id].root] && graph.cyclic[w.nodes[m.id].root]
      ensures |w.nodes| == |records| && InRange(graph, w)
    {
    }

    method EnterEvaluation(stack: ModuleStack, m: ModuleRecord, index: nat, ghost w: Walk)
      requires WellFormed() && Owns(m) && EvalView(stack, w) && graph.cyclic[m.id]
      modifies m`status, m`dfsAncestorIndex, stack
      ensures EvalView(stack, Push(w, m.id, index))
    {
      m.status := Evaluating;
      m.dfsAncestorIndex := index;
      stack.items := stack.items + [m];
    }

    method PopRecord(stack: ModuleStack, m: ModuleRecord, ghost w: Walk) returns (top: ModuleRecord)
      requires WellFormed() && Owns(m) && EvalView(stack, w) && w.stack != [] && graph.cyclic[m.id]
      modifies records`status, records`cycleRoot, stack
      ensures Below(w.stack, |w.nodes|) && EvalView(stack, PopOne(w, m.id)) && log == old(log)
      ensures top.id == w.stack[|w.stack| - 1] && top == records[top.id]
    {
      top := stack.items[|stack.items| - 1];
      stack.items := stack.items[..|stack.items| - 1];
      top.status := Evaluated;
      top.cycleRoot := m;
    }

    /** Pop the stack down to m; every popped module is evaluated, with cycle root m. */
    method PopEvaluated(stack: ModuleStack, m: ModuleRecord, ghost w: Walk)
      requires WellFormed() && Owns(m) && EvalView(stack, w) && m.id in w.stack
      modifies records`status, records`cycleRoot, stack
      ensures EvalView(stack, PopTo(w, m.id)) && log == old(log)
    {
      hide RecordShows, PopTo, PopOne;
      var done := false;
      ghost var v := w;
      while !done
        invariant EvalView(stack, v) && log == old(log)
        invariant !done ==> m.id in v.stack && PopTo(v, m.id) == PopTo(w, m.id)
        invariant done ==> v == PopTo(w, m.id)
        decreases |v.stack|, !done
      {
        PopToStep(v, m.id);
        var requiredModule := PopRecord(stack, m, v);
        v := PopOne(v, m.id);
        if requiredModule == m {
          done := true;
        }
      }
    }

    /** Execute m, and finish its whole component if m is the first visited of it. */
    method FinishEvaluation(stack: ModuleStack, m: ModuleRecord, moduleIndex: nat, index: nat, ghost w: Walk)
      returns (r: Completion<nat>, ghost w': Walk)
      requires WellFormed() && Owns(m) && EvalView(stack, w) && graph.cyclic[m.id] && m.id in w.stack
      modifies this`log, records`status, records`dfsAncestorIndex, records`cycleRoot, stack
      ensures EvalView(stack, w')
      ensures Finish(graph, body, w, m.id, moduleIndex, index) ==
              match r { case Normal(i) => Done(w', i) case Throw(e) => Failed(w', e) }
    {
      var e := RunBody(m.id);
      w' := Record(w, m.id, e);
      if e.Some? {
        return Throw(e.value), w';
      }
      if m.dfsAncestorIndex == moduleIndex {
        PopEvaluated(stack, m, w');
        w' := PopTo(w', m.id);
      }
      r := Normal(index);
    }

    /** What m does with a dependency once its visit returned: compare ancestor indices while the
        dependency is in progress, else look at its cycle root's error. */
    method AfterDependency(stack: ModuleStack, m: ModuleRecord, required: ModuleRecord, index: nat, ghost w: Walk)
      returns (r: Completion<nat>, ghost w': Walk)
      requires WellFormed() && Owns(m) && Owns(required) && EvalView(stack, w) && graph.cyclic[m.id]
      requires graph.cyclic[required.id] ==> w.nodes[required.id].color != White
      modifies m`dfsAncestorIndex
      ensures EvalView(stack, w')
      ensures AfterDep(graph, w, m.id, required.id, index) ==
              match r { case Normal(i) => Done(w', i) case Throw(e) => Failed(w', e) }
    {
      w' := w;
      r := Normal(index);
      if graph.cyclic[required.id] {
        EvalStatusMeans(stack, w, required);
        if required.status == Evaluating {
          m.dfsAncestorIndex := if m.dfsAncestorIndex <= required.dfsAncestorIndex
              then m.dfsAncestorIndex else required.dfsAncestorIndex;
          w' := Lower(w, m.id, required.id);
        } else {
          var root := required.cycleRoot;
          EvalStatusMeans(stack, w, root);
          if root.evaluationError.Some? {
            r := Throw(root.evaluationError.value);
          }
        }
      }
    }

    method InnerModuleEvaluation(stack: ModuleStack, m: ModuleRecord, index: nat, ghost w: Walk)
      returns (r: Completion<nat>, ghost w': Walk)
      requires WellFormed() && Owns(m) && EvalView(stack, w) && InRange(graph, w)
      modifies this`log, records`status, records`dfsAncestorIndex, records`cycleRoot, stack
      ensures EvalView(stack, w')
      ensures Visit(graph, body, w, m.id, index) ==
              match r { case Normal(i) => Done(w', i) case Throw(e) => Failed(w', e) }
      decreases Whites(w), 0
    {
      hide EvalView;
      if !graph.cyclic[m.id] {
        r, w' := EvaluateSynthetic(stack, m, index, w);
        return;
      }
      EvalStatusMeans(stack, w, m);
      if m.status == Evaluated {
        return if m.evaluationError.None? then Normal(index) else Throw(m.evaluationError.value), w;
      }
      if m.status == Evaluating {
        return Normal(index), w;
      }
      EnterEvaluation(stack, m, index, w);
      ghost var w1 := Push(w, m.id, index);
      assert m.id in Whites(w) && m.id !in Whites(w1);
      r, w' := EvaluateDependencies(stack, m, graph.deps[m.id], index + 1, w1);
      if r.Normal? {
        VisitAllStack(graph, body, w1, m.id, graph.deps[m.id], index + 1);
        assert w1.stack[|w.stack|] == m.id;
        r, w' := FinishEvaluation(stack, m, index, r.value, w');
      }
    }

    method EvaluateDependencies(stack: ModuleStack, m: ModuleRecord, evaluationList: seq<nat>, index: nat,
        ghost w: Walk)
      returns (r: Completion<nat>, ghost w': Walk)
      requires WellFormed() && Owns(m) && EvalView(stack, w) && InRange(graph, w) && graph.cyclic[m.id]
          && Below(evaluationList, |records|)
      modifies this`log, records`status, records`dfsAncestorIndex, records`cycleRoot, stack
      ensures EvalView(stack, w')
      ensures VisitAll(graph, body, w, m.id, evaluationList, index) ==
              match r { case Normal(i) => Done(w', i) case Throw(e) => Failed(w', e) }
      decreases Whites(w), 1
    {
      hide EvalView;
      var next: nat := index;
      w' := w;
      for k := 0 to |evaluationList|
        invariant EvalView(stack, w') && InRange(graph, w') && Whites(w') <= Whites(w)
        invariant VisitAll(graph, body, w', m.id, evaluationList[k..], next)
               == VisitAll(graph, body, w, m.id, evaluationList, index)
      {
        assert evaluationList[k..][0] == evaluationList[k] && evaluationList[k..][1..] == evaluationList[k + 1..];
        var required := records[evaluationList[k]];
        assert Whites(w') < Whites(w) || Whites(w') == Whites(w);
        VisitLeavesWhite(graph, body, w', required.id, next);
        r, w' := InnerModuleEvaluation(stack, required, next, w');
        if r.Throw? {
          return;
        }
        assert graph.cyclic[required.id] ==> required.id !in Whites(w');
        r, w' := AfterDependency(stack, m, required, r.value, w');
        if r.Throw? {
          return;
        }
        next := r.value;
      }
      assert evaluationList[|evaluationList|..] == [];
      r := Normal(next);
    }

    method EvaluateSynthetic(stack: ModuleStack, m: ModuleRecord, index: nat, ghost w: Walk)
      returns (r: Completion<nat>, ghost w': Walk)
      requires WellFormed() && Owns(m) && EvalView(stack, w)
      modifies this`log
      ensures EvalView(stack, w') && w' == Record(w, m.id, body(m.id, |w.log|))
      ensures r == match body(m.id, |w.log|) { case Some(e) => Throw(e) case None => Normal(index) }
    {
      var e := RunBody(m.id);
      w' := Record(w, m.id, e);
      r := if e.Some? then Throw(e.value) else Normal(index);
    }

    /** Between calls the objects, their promises and the log show s. */
    ghost predicate Shows(s: E.EvalState)
      requires graph.Valid()
      reads this, records
    {
      && E.Sized(graph, s) && |records| == graph.Size() && log == s.log && promises == s.issued
      && (forall i :: 0 <= i < |records| && graph.cyclic[i] ==> RecordShows(records[i], s.nodes[i]))
      && (forall i :: 0 <= i < |records| ==> records[i].topLevelCapability == s.caps[i])
    }

    /** All the modules left on the stack fail with the same error, each as its own cycle root. */
    method FailStack(stack: ModuleStack, e: Error, ghost w: Walk)
      requires WellFormed() && EvalView(stack, w)
      modifies records`status, records`evaluationError, records`cycleRoot
      ensures Below(w.stack, |w.nodes|) && |w.nodes| == |records|
      ensures forall i :: 0 <= i < |records| && graph.cyclic[i] ==>
                var n := E.FailStack(w.nodes, w.stack, e)[i]; n.root < |records| && RecordShows(records[i], n)
    {
      for k := 0 to |stack.items|
        invariant stack.items == old(stack.items)
        invariant forall i :: 0 <= i < |records| && graph.cyclic[i] ==>
                    if i in w.stack[..k]
                    then RecordShows(records[i], w.nodes[i].(color := Black, error := Some(e), root := i))
                    else RecordShows(records[i], w.nodes[i])
      {
        var m := stack.items[k];
        m.status := Evaluated;
        m.evaluationError := Some(e);
        m.cycleRoot := m;
        assert w.stack[..k + 1] == w.stack[..k] + [w.stack[k]];
      }
      assert w.stack[..|w.stack|] == w.stack;
    }

    /** InnerModuleEvaluation from an empty stack; if it fails, the modules on the stack fail. */
    method EvaluateGraphFrom(m: ModuleRecord, ghost s: E.EvalState) returns (error: Option<Error>,
        ghost nodes: seq<Node>)
      requires WellFormed() && Owns(m) && graph.cyclic[m.id] && E.Sized(graph, s) && log == s.log
      requires forall i :: 0 <= i < |records| && graph.cyclic[i] ==> RecordShows(records[i], s.nodes[i])
      modifies this`log, records`status, records`dfsAncestorIndex, records`evaluationError, records`cycleRoot
      ensures |nodes| == |records|
      ensures forall i :: 0 <= i < |records| && graph.cyclic[i] ==>
                nodes[i].root < |records| && RecordShows(records[i], nodes[i])
      ensures var r := Visit(graph, body, E.Idle(s), m.id, 0);
              && error == (if r.Failed? then Some(r.error) else None)
              && nodes == (if r.Failed? then E.FailStack(r.w.nodes, r.w.stack, r.error) else r.w.nodes)
              && log == r.w.log
    {
      var stack := new ModuleStack();
      var result;
      ghost var w;
      result, w := InnerModuleEvaluation(stack, m, 0, E.Idle(s));
      if result.Throw? {
        FailStack(stack, result.error, w);
        return Some(result.error), E.FailStack(w.nodes, w.stack, result.error);
      }
      return None, w.nodes;
    }

    /** The early return is taken exactly when the module's cycle root already has a promise. */
    lemma EarlyReturn(m: ModuleRecord, s: E.EvalState)
      requires WellFormed() && Owns(m) && graph.cyclic[m.id] && Shows(s)
      requires m.status == Linked || m.status == Evaluated
      ensures m.status == Evaluated && m.cycleRoot != null && m.cycleRoot.topLevelCapability.Some? <==>
              E.Answered(s, m.id)
      ensures E.Answered(s, m.id) ==>
                m.cycleRoot != null && m.cycleRoot.topLevelCapability == s.caps[s.nodes[m.id].root]
    {
    }

    method Evaluate(m: ModuleRecord, ghost s: E.EvalState) returns (p: Promise, ghost s': E.EvalState)
      requires WellFormed() && Owns(m) && graph.cyclic[m.id] && Shows(s)
      requires m.status == Linked || m.status == Evaluated
      modifies this`log, this`promises, records
      ensures (s', p) == E.Evaluate(graph, body, s, m.id) && Shows(s')
    {
      hide RecordShows, E.Answered, Visit, E.FailStack;
      EarlyReturn(m, s);
      if m.status == Evaluated && m.cycleRoot != null && m.cycleRoot.topLevelCapability.Some? {
        return m.cycleRoot.topLevelCapability.value, s;
      }
      m.topLevelCapability := Some(Promise(promises, None));
      var error;
      ghost var nodes;
      error, nodes := EvaluateGraphFrom(m, s);
      p := Promise(promises, error);
      m.topLevelCapability := Some(p);
      promises := promises + 1;
      s' := E.EvalState(nodes, s.caps[m.id := Some(p)], log, s.issued + 1);
      assert (s', p) == E.Evaluate(graph, body, s, m.id);
    }

    lemma IdleStatus(s: E.EvalState, m: ModuleRecord)
      requires WellFormed() && Owns(m) && graph.cyclic[m.id] && Shows(s) && E.EvalInv(graph, s)
      ensures m.status == Linked || m.status == Evaluated
    {
    }

    /** A Synthetic Module Record's Evaluate. */
    method EvaluateSteps(m: ModuleRecord, ghost s: E.EvalState) returns (p: Promise, ghost s': E.EvalState)
      requires WellFormed() && Owns(m) && Shows(s)
      modifies this`log, this`promises
      ensures (s', p) == EN.EvaluateSynthetic(body, s, m.id) && Shows(s')
    {
      var e := RunBody(m.id);
      p := Promise(promises, e);
      promises := promises + 1;
      s' := s.(log := log, issued := promises);
    }

    /** Evaluate for requested names: after the module itself, the targets of the optional re-exports
        that the names select, until one is rejected. */
    method EvaluateNames(world: World, m: ModuleRecord, importedNames: Names, ghost s: E.EvalState,
        ghost fuel: nat) returns (p: Promise, ghost s': E.EvalState)
      requires WellFormed() && Owns(m) && EN.Serves(world, graph) && Shows(s) && E.EvalInv(graph, s)
      requires EN.EvaluateNames(world, graph, body, fuel, s, m.id, importedNames).Some?
      modifies this`log, this`promises, records
      ensures Some((s', p)) == EN.EvaluateNames(world, graph, body, fuel, s, m.id, importedNames) && Shows(s')
      decreases fuel, 1, 0
    {
      hide Valid, Shows, E.EvalInv, E.Sized, OptionalRequests, E.Evaluate, EN.EvaluateSynthetic;
      ShowsSized(s);
      if world[m.id].Synthetic? {
        p, s' := EvaluateSteps(m, s);
        return;
      }
      IdleStatus(s, m);
      var topLevelPromise;
      topLevelPromise, s' := Evaluate(m, s);
      E.EvaluateKeeps(graph, body, s, m.id);
      if topLevelPromise.rejected.Some? {
        return topLevelPromise, s';
      }
      LL.OptionalRequestsLoaded(world, m.id, importedNames);
      var optionalIndirectRequests := GetOptionalIndirectExportsModuleRequests(Optional(world, m.id), importedNames);
      p, s' := EvaluateRequests(world, m, optionalIndirectRequests, topLevelPromise, s', fuel);
    }

    lemma ShowsSized(s: E.EvalState)
      requires graph.Valid() && Shows(s)
      ensures E.Sized(graph, s)
    {
    }

    method EvaluateRequests(world: World, m: ModuleRecord, requests: seq<ModuleRequest>, topLevelPromise: Promise,
        ghost s: E.EvalState, ghost fuel: nat) returns (p: Promise, ghost s': E.EvalState)
      requires WellFormed() && Owns(m) && EN.Serves(world, graph) && Shows(s) && E.EvalInv(graph, s)
          && E.Sized(graph, s) && LL.Requestable(world, m.id, requests)
      requires EN.EvaluateRequests(world, graph, body, fuel, s, m.id, requests, topLevelPromise).Some?
      modifies this`log, this`promises, records
      ensures Shows(s')
      ensures Some((s', p)) == EN.EvaluateRequests(world, graph, body, fuel, s, m.id, requests, topLevelPromise)
      decreases fuel, 0, 0
    {
      hide Valid, Shows, E.EvalInv, E.Sized, EN.EvaluateNames, GetImportedModule, IsLoaded, LL.Requestable,
          E.OnlyAdds, EN.Known;
      LL.RequestableParts(world, m.id, requests);
      s' := s;
      assert requests[0..] == requests;
      for k := 0 to |requests|
        invariant Shows(s') && E.EvalInv(graph, s') && E.Sized(graph, s')
        invariant EN.EvaluateRequests(world, graph, body, fuel, s', m.id, requests[k..], topLevelPromise)
               == EN.EvaluateRequests(world, graph, body, fuel, s, m.id, requests, topLevelPromise)
      {
        assert requests[k..][0] == requests[k] && requests[k..][1..] == requests[k + 1..];
        var required := records[GetImportedModule(world, m.id, requests[k])];
        EN.NamesKeep(world, graph, body, fuel - 1, s', required.id, requests[k].importedNames);
        var innerPromise;
        innerPromise, s' := EvaluateNames(world, required, requests[k].importedNames, s', fuel - 1);
        if innerPromise.rejected.Some? {
          return innerPromise, s';
        }
      }
      assert requests[|requests|..] == [];
      p := topLevelPromise;
    }
  }
}
