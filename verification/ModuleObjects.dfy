/** Module records as mutable objects, and the methods that update them in place.  Every method is
    proved to do what ModuleDfs, Linking and Evaluation specify. */
module ModuleObjects {
  import opened Sequences
  import opened Wrappers
  import opened ModuleDfs
  import opened ImportedNames
  import opened ModuleRequests
  import opened ModuleRecords
  import LL = LinkingList
  import L = Linking
  import opened Promises

  datatype Status = New | Unlinked | Linking | Linked | Evaluating | EvaluatingAsync | Evaluated

  datatype Completion<+T> = Normal(value: T) | Throw(error: Error)

  class ModuleRecord {
    const id: nat
    var status: Status
    var dfsAncestorIndex: nat
    var evaluationError: Option<Error>
    var cycleRoot: ModuleRecord?
    var topLevelCapability: Option<Promise>

    constructor (id: nat, status: Status)
      ensures this.id == id && this.status == status && dfsAncestorIndex == 0 && evaluationError == None
          && cycleRoot == null && topLevelCapability == None
    {
      this.id, this.status := id, status;
      dfsAncestorIndex, evaluationError, cycleRoot, topLevelCapability := 0, None, null, None;
    }
  }

  /** The records of n modules, all with the same status. */
  method MakeRecords(n: nat, status: Status) returns (records: seq<ModuleRecord>)
    ensures |records| == n
    ensures forall i :: 0 <= i < n ==>
              var r := records[i];
              && fresh(r) && r.id == i && r.status == status && r.dfsAncestorIndex == 0
              && r.evaluationError == None && r.topLevelCapability == None
  {
    records := [];
    for i := 0 to n
      invariant |records| == i
      invariant forall j :: 0 <= j < i ==>
                  var r := records[j];
                  && fresh(r) && r.id == j && r.status == status && r.dfsAncestorIndex == 0
                  && r.evaluationError == None && r.topLevelCapability == None
    {
      var r := new ModuleRecord(i, status);
      records := records + [r];
    }
  }

  /** Every module is loaded and none is linked. */
  function AllUnlinked(w: World): L.State {
    L.State(seq(|w|, i => Node(White, 0, 0, None)), [])
  }

  class ModuleStack {
    var items: seq<ModuleRecord>

    constructor ()
      ensures items == []
    {
      items := [];
    }
  }

  /** The status that linking has brought a module to, given where it started. */
  function LinkStatus(start: Status, c: Color): Status {
    match c
    case White => Unlinked
    case Grey => Linking
    case Black => if start.Linked? || start.EvaluatingAsync? || start.Evaluated? then start else Linked
  }

  class Agent {
    const world: World
    const records: seq<ModuleRecord>
    /** The host and the module code: what each InitializeEnvironment or ExecuteModule yields. */
    const body: Body
    var log: seq<Event>

    /** All modules are loaded, and none is linked. */
    constructor (world: World, body: Body)
      requires Valid(world)
      ensures this.world == world && this.body == body && WellFormed() && fresh(records)
      ensures L.Sized(world, AllUnlinked(world)) && LinkIdle(seq(|world|, i => Unlinked), AllUnlinked(world))
    {
      this.world, this.body, log := world, body, [];
      var records := MakeRecords(|world|, Unlinked);
      this.records := records;
    }

    predicate WellFormed() {
      && Valid(world) && |records| == |world|
      && forall i :: 0 <= i < |records| ==> records[i].id == i
    }

    predicate Owns(m: ModuleRecord) {
      m.id < |records| && records[m.id] == m
    }

    predicate StackIs(stack: ModuleStack, s: seq<nat>)
      reads stack
    {
      && |stack.items| == |s|
      && forall i :: 0 <= i < |s| ==> s[i] < |records| && stack.items[i] == records[s[i]]
    }

    /** The objects look, to linking, as the walk w says; start is where the statuses started. */
    predicate LinkView(stack: ModuleStack, start: seq<Status>, w: Walk)
      reads this, stack, records
    {
      && |start| == |records| == |w.nodes| && log == w.log && StackIs(stack, w.stack)
      && forall i :: 0 <= i < |records| ==>
           && records[i].status == LinkStatus(start[i], w.nodes[i].color)
           && records[i].dfsAncestorIndex == w.nodes[i].anc
           && (w.nodes[i].color != Black ==> start[i] == Unlinked)
    }

    ghost predicate StackStarts(start: seq<Status>, w: Walk) {
      forall i :: 0 <= i < |w.stack| ==> w.stack[i] < |start| && start[w.stack[i]] == Unlinked
    }

    ghost predicate Clean(w: Walk) {
      forall i :: 0 <= i < |w.nodes| ==> w.nodes[i].error.None?
    }

    method RunBody(m: nat) returns (e: Option<Error>)
      modifies this`log
      ensures e == body(m, |old(log)|) && log == old(log) + [Event(m, e)]
    {
      e := body(m, |log|);
      log := log + [Event(m, e)];
    }

    method EnterLinking(stack: ModuleStack, m: ModuleRecord, index: nat, ghost start: seq<Status>, ghost w: Walk)
      requires WellFormed() && Owns(m) && LinkReady(stack, start, w) && w.nodes[m.id].color == White
      modifies m`status, m`dfsAncestorIndex, stack
      ensures LinkReady(stack, start, Push(w, m.id, index))
    {
      m.status := Linking;
      m.dfsAncestorIndex := index;
      stack.items := stack.items + [m];
    }

    method PopRecord(stack: ModuleStack, m: ModuleRecord, ghost start: seq<Status>, ghost w: Walk)
      returns (top: ModuleRecord)
      requires WellFormed() && LinkView(stack, start, w) && w.stack != []
      requires start[w.stack[|w.stack| - 1]] == Unlinked
      modifies records`status, stack
      ensures Below(w.stack, |w.nodes|) && LinkView(stack, start, PopOne(w, m.id)) && log == old(log)
      ensures top.id == w.stack[|w.stack| - 1] && top == records[top.id]
    {
      top := stack.items[|stack.items| - 1];
      stack.items := stack.items[..|stack.items| - 1];
      top.status := Linked;
    }

    /** Pop the stack down to m, linking what is popped. */
    method PopLinked(stack: ModuleStack, m: ModuleRecord, ghost start: seq<Status>, ghost w: Walk)
      requires WellFormed() && Owns(m) && LinkView(stack, start, w) && m.id in w.stack
      requires forall i :: 0 <= i < |w.stack| ==> start[w.stack[i]] == Unlinked
      modifies records`status, stack
      ensures Below(w.stack, |w.nodes|) && LinkView(stack, start, PopTo(w, m.id))
      ensures log == old(log)
    {
      var done := false;
      ghost var v := w;
      while !done
        invariant LinkView(stack, start, v) && v.stack <= w.stack && log == old(log)
        invariant !done ==> m.id in v.stack && PopTo(v, m.id) == PopTo(w, m.id)
        invariant done ==> v == PopTo(w, m.id)
        decreases |v.stack|, !done
      {
        PopToStep(v, m.id);
        var requiredModule := PopRecord(stack, m, start, v);
        v := PopOne(v, m.id);
        if requiredModule == m {
          done := true;
        }
      }
    }

    /** The linking list of m, built in a scratch builder. */
    method LinkingListFor(m: ModuleRecord) returns (list: seq<nat>)
      requires WellFormed() && Owns(m) && world[m.id].SourceText?
      ensures list == LL.LinkingListOf(world, m.id)
    {
      hide Valid;
      LL.AllRequestable(world, m.id);
      var b := new LL.LinkingListBuilder();
      b.BuildLinkingList(world, m.id, world[m.id].requested);
      list := b.linkingList;
    }

    /** What every step of linking keeps between the objects and the walk. */
    ghost predicate LinkReady(stack: ModuleStack, start: seq<Status>, w: Walk)
      reads this, stack, records
    {
      LinkView(stack, start, w) && StackStarts(start, w) && Clean(w)
    }

    /** The branches on a module's status are branches on its colour. */
    lemma LinkStatusMeans(stack: ModuleStack, start: seq<Status>, w: Walk, m: ModuleRecord)
      requires Owns(m) && LinkReady(stack, start, w)
      ensures |w.nodes| == |records|
      ensures m.status == Linking <==> w.nodes[m.id].color == Grey
      ensures m.status == Linking || m.status == Linked || m.status == EvaluatingAsync || m.status == Evaluated <==>
                w.nodes[m.id].color != White
      ensures w.nodes[m.id].error.None?
    {
    }

    /** min(module.[[DFSAncestorIndex]], requiredModule.[[DFSAncestorIndex]]), if required is on the stack. */
    method LowerAncestor(stack: ModuleStack, m: ModuleRecord, required: ModuleRecord, ghost start: seq<Status>,
        ghost w: Walk, ghost index: nat)
      returns (ghost w': Walk)
      requires WellFormed() && Owns(m) && Owns(required) && LinkReady(stack, start, w) && InRange(L.LinkGraph(world), w)
      requires L.LinkGraph(world).Valid()
      modifies m`dfsAncestorIndex
      ensures LinkReady(stack, start, w')
          && AfterDep(L.LinkGraph(world), w, m.id, required.id, index) == Done(w', index)
    {
      hide Valid, LL.LinkingListOf;
      w' := w;
      if world[required.id].SourceText? && required.status == Linking {
        m.dfsAncestorIndex := if m.dfsAncestorIndex <= required.dfsAncestorIndex
            then m.dfsAncestorIndex else required.dfsAncestorIndex;
        w' := Lower(w, m.id, required.id);
      }
    }

    method InnerModuleLinking(stack: ModuleStack, m: ModuleRecord, index: nat, ghost start: seq<Status>, ghost w: Walk)
      returns (r: Completion<nat>, ghost w': Walk)
      requires WellFormed() && Owns(m) && LinkReady(stack, start, w)
      requires InRange(L.LinkGraph(world), w) && L.LinkGraph(world).Valid()
      modifies this`log, records`status, records`dfsAncestorIndex, stack
      ensures LinkReady(stack, start, w')
      ensures Visit(L.LinkGraph(world), body, w, m.id, index) ==
              match r { case Normal(i) => Done(w', i) case Throw(e) => Failed(w', e) }
      decreases Whites(w), 0
    {
      hide Valid, LL.LinkingListOf, LinkReady;
      ghost var g := L.LinkGraph(world);
      LinkStatusMeans(stack, start, w, m);
      if world[m.id].Synthetic? {
        r, w' := RunSynthetic(stack, m, index, start, w);
        return;
      }
      if m.status == Linking || m.status == Linked || m.status == EvaluatingAsync || m.status == Evaluated {
        return Normal(index), w;
      }
      EnterLinking(stack, m, index, start, w);
      ghost var w1 := Push(w, m.id, index);
      assert m.id in Whites(w) && m.id !in Whites(w1);
      var linkingList := LinkingListFor(m);
      r, w' := LinkDependencies(stack, m, linkingList, index + 1, start, w1);
      if r.Normal? {
        VisitAllStack(g, body, w1, m.id, linkingList, index + 1);
        assert w1.stack[|w.stack|] == m.id;
        r, w' := FinishLinking(stack, m, index, r.value, start, w');
      }
    }

    method LinkDependencies(stack: ModuleStack, m: ModuleRecord, linkingList: seq<nat>, index: nat,
        ghost start: seq<Status>, ghost w: Walk)
      returns (r: Completion<nat>, ghost w': Walk)
      requires WellFormed() && Owns(m) && LinkReady(stack, start, w) && Below(linkingList, |records|)
      requires InRange(L.LinkGraph(world), w) && L.LinkGraph(world).Valid()
      modifies this`log, records`status, records`dfsAncestorIndex, stack
      ensures LinkReady(stack, start, w')
      ensures VisitAll(L.LinkGraph(world), body, w, m.id, linkingList, index) ==
              match r { case Normal(i) => Done(w', i) case Throw(e) => Failed(w', e) }
      decreases Whites(w), 1
    {
      hide Valid, LL.LinkingListOf, LinkReady;
      ghost var g := L.LinkGraph(world);
      var next: nat := index;
      w' := w;
      for k := 0 to |linkingList|
        invariant LinkReady(stack, start, w') && InRange(g, w') && Whites(w') <= Whites(w)
        invariant VisitAll(g, body, w', m.id, linkingList[k..], next) == VisitAll(g, body, w, m.id, linkingList, index)
      {
        assert linkingList[k..][0] == linkingList[k] && linkingList[k..][1..] == linkingList[k + 1..];
        var required := records[linkingList[k]];
        assert Whites(w') < Whites(w) || Whites(w') == Whites(w);
        r, w' := InnerModuleLinking(stack, required, next, start, w');
        if r.Throw? {
          return;
        }
        next := r.value;
        w' := LowerAncestor(stack, m, required, start, w', next);
      }
      assert linkingList[|linkingList|..] == [];
      r := Normal(next);
    }

    method RunSynthetic(stack: ModuleStack, m: ModuleRecord, index: nat, ghost start: seq<Status>, ghost w: Walk)
      returns (r: Completion<nat>, ghost w': Walk)
      requires WellFormed() && Owns(m) && LinkReady(stack, start, w)
      modifies this`log
      ensures LinkReady(stack, start, w')
      ensures w' == Record(w, m.id, body(m.id, |w.log|))
      ensures r == match body(m.id, |w.log|) { case Some(e) => Throw(e) case None => Normal(index) }
    {
      var e := RunBody(m.id);
      w' := Record(w, m.id, e);
      r := if e.Some? then Throw(e.value) else Normal(index);
    }

    /** Create m's environment, and link its whole component if m is the first visited of it. */
    method FinishLinking(stack: ModuleStack, m: ModuleRecord, moduleIndex: nat, index: nat,
        ghost start: seq<Status>, ghost w: Walk)
      returns (r: Completion<nat>, ghost w': Walk)
      requires WellFormed() && Owns(m) && LinkReady(stack, start, w) && InRange(L.LinkGraph(world), w)
          && m.id in w.stack
      modifies this`log, records`status, records`dfsAncestorIndex, stack
      ensures LinkReady(stack, start, w')
      ensures Finish(L.LinkGraph(world), body, w, m.id, moduleIndex, index) ==
              match r { case Normal(i) => Done(w', i) case Throw(e) => Failed(w', e) }
    {
      hide Valid, LL.LinkingListOf;
      var e := RunBody(m.id);
      w' := Record(w, m.id, e);
      if e.Some? {
        return Throw(e.value), w';
      }
      if m.dfsAncestorIndex == moduleIndex {
        PopToFrame(L.LinkGraph(world), w', m.id);
        PopToKeeps(w', m.id);
        PopLinked(stack, m, start, w');
        w' := PopTo(w', m.id);
      }
      r := Normal(index);
    }

    /** Every module left on the stack becomes unlinked again. */
    method RollBack(stack: ModuleStack, ghost start: seq<Status>, ghost w: Walk)
      requires WellFormed() && LinkReady(stack, start, w) && Below(w.stack, |w.nodes|)
      modifies records`status
      ensures |start| == |w.nodes| == |records| && log == w.log
      ensures forall i :: 0 <= i < |records| ==>
                records[i].status == LinkStatus(start[i], L.Rollback(w.nodes, w.stack)[i].color)
      ensures forall i :: 0 <= i < |records| ==> records[i].dfsAncestorIndex == L.Rollback(w.nodes, w.stack)[i].anc
      ensures forall i :: 0 <= i < |records| && L.Rollback(w.nodes, w.stack)[i].color != Black ==> start[i] == Unlinked
    {
      for k := 0 to |stack.items|
        invariant stack.items == old(stack.items) && log == w.log
        invariant forall i :: 0 <= i < |records| ==>
                    records[i].dfsAncestorIndex == w.nodes[i].anc &&
                    records[i].status == if i in w.stack[..k] then Unlinked else LinkStatus(start[i], w.nodes[i].color)
      {
        stack.items[k].status := Unlinked;
        assert w.stack[..k + 1] == w.stack[..k] + [w.stack[k]];
      }
      assert w.stack[..|w.stack|] == w.stack;
    }

    /** Between calls there is no stack: the objects show s. */
    ghost predicate LinkIdle(start: seq<Status>, s: L.State)
      reads this, records
    {
      && |start| == |records| == |s.nodes| && log == s.log
      && forall i :: 0 <= i < |records| ==>
           && records[i].status == LinkStatus(start[i], s.nodes[i].color)
           && records[i].dfsAncestorIndex == s.nodes[i].anc
           && (s.nodes[i].color != Black ==> start[i] == Unlinked)
           && s.nodes[i].error.None?
    }

    /** InnerModuleLinking from an empty stack, and the rollback if it fails. */
    method LinkGraphFrom(m: ModuleRecord, ghost start: seq<Status>, ghost s: L.State) returns (r: Completion<()>,
        ghost s': L.State)
      requires WellFormed() && Owns(m) && LinkIdle(start, s) && L.Sized(world, s)
      modifies this`log, records`status, records`dfsAncestorIndex
      ensures LinkIdle(start, s')
      ensures L.LinkGraphFrom(world, body, s, m.id) ==
              match r { case Normal(_) => L.LinkOk(s') case Throw(e) => L.LinkError(s', e) }
    {
      hide Valid, LL.LinkingListOf;
      L.LinkGraphValid(world);
      var stack := new ModuleStack();
      ghost var w := L.Idle(s);
      var result;
      result, w := InnerModuleLinking(stack, m, 0, start, w);
      if result.Throw? {
        RollBack(stack, start, w);
        s' := L.State(L.Rollback(w.nodes, w.stack), w.log);
        return Throw(result.error), s';
      }
      s' := L.State(w.nodes, w.log);
      r := Normal(());
    }

    /** Link: on failure the modules on the stack are rolled back; on success the unlinked targets of
        the requested optional re-exports are linked in turn. */
    method Link(m: ModuleRecord, importedNames: Names, ghost start: seq<Status>, ghost s: L.State)
      returns (r: Completion<()>, ghost s': L.State)
      requires WellFormed() && Owns(m) && LinkIdle(start, s) && L.Sized(world, s) && world[m.id].SourceText?
      requires m.status == Unlinked || m.status == Linked || m.status == EvaluatingAsync || m.status == Evaluated
      modifies this`log, records`status, records`dfsAncestorIndex
      ensures LinkIdle(start, s')
      ensures L.Link(world, body, s, m.id, importedNames) ==
              match r { case Normal(_) => L.LinkOk(s') case Throw(e) => L.LinkError(s', e) }
      decreases Whites(L.Idle(s)), if s.nodes[m.id].color == White then 0 else 2, 0
    {
      hide Valid, LL.LinkingListOf, OptionalRequests, LinkIdle;
      ghost var s0 := s;
      r, s' := LinkGraphFrom(m, start, s);
      if r.Throw? {
        return;
      }
      LL.OptionalRequestsLoaded(world, m.id, importedNames);
      var optionalIndirectRequests := GetOptionalIndirectExportsModuleRequests(Optional(world, m.id), importedNames);
      assert Whites(L.Idle(s')) < Whites(L.Idle(s0)) || Whites(L.Idle(s')) == Whites(L.Idle(s0));
      assert s0.nodes[m.id].color == White ==> m.id in Whites(L.Idle(s0));
      r, s' := LinkRequests(m, optionalIndirectRequests, start, s');
    }

    method LinkRequests(m: ModuleRecord, requests: seq<ModuleRequest>, ghost start: seq<Status>, ghost s: L.State)
      returns (r: Completion<()>, ghost s': L.State)
      requires WellFormed() && Owns(m) && LinkIdle(start, s) && L.Sized(world, s)
          && LL.Requestable(world, m.id, requests)
      modifies this`log, records`status, records`dfsAncestorIndex
      ensures LinkIdle(start, s')
      ensures L.LinkNested(world, body, s, m.id, requests) ==
              match r { case Normal(_) => L.LinkOk(s') case Throw(e) => L.LinkError(s', e) }
      decreases Whites(L.Idle(s)), 1, 0
    {
      hide Valid, LL.LinkingListOf, LinkIdle, GetImportedModule, IsLoaded, LL.Requestable;
      LL.RequestableParts(world, m.id, requests);
      s' := s;
      for k := 0 to |requests|
        invariant LinkIdle(start, s') && L.Sized(world, s') && Whites(L.Idle(s')) <= Whites(L.Idle(s))
        invariant L.LinkNested(world, body, s', m.id, requests[k..]) == L.LinkNested(world, body, s, m.id, requests)
      {
        assert requests[k..][0] == requests[k] && requests[k..][1..] == requests[k + 1..];
        var required := records[GetImportedModule(world, m.id, requests[k])];
        IdleStatusMeans(start, s', required);
        if world[required.id].SourceText? && required.status == Unlinked {
          assert Whites(L.Idle(s')) < Whites(L.Idle(s)) || Whites(L.Idle(s')) == Whites(L.Idle(s));
          r, s' := Link(required, requests[k].importedNames, start, s');
          if r.Throw? {
            return;
          }
        }
      }
      assert requests[|requests|..] == [];
      r := Normal(());
    }

    lemma IdleStatusMeans(start: seq<Status>, s: L.State, m: ModuleRecord)
      requires Owns(m) && LinkIdle(start, s)
      ensures |s.nodes| == |records|
      ensures m.status == Unlinked <==> s.nodes[m.id].color == White
    {
    }
  }
}
