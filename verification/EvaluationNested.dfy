/** Evaluate for requested names: after the module itself, the optional re-exports that the names
    select are evaluated by nested calls, and the first rejection ends the call.  The nested calls
    are not guarded against re-exports that come back; `fuel` bounds their depth.  That their targets
    are linked is taken for granted here; LinkingNames says when it is so. */
module EvaluationNested {
  import opened Wrappers
  import opened Graphs
  import opened ModuleDfs
  import opened ModuleScc
  import opened ModuleHistory
  import opened ModuleSuccess
  import opened ImportedNames
  import opened ModuleRequests
  import opened ModuleRecords
  import opened OptionalChains
  import opened Promises
  import opened Evaluation
  import EG = EvaluationGraphs
  import EP = EvaluationProperties
  import LL = LinkingList

  /** g is a graph of the world's modules. */
  predicate Serves(w: World, g: Graph) {
    && Valid(w) && g.Valid() && g.Size() == |w|
    && forall m :: 0 <= m < |w| ==> g.cyclic[m] == w[m].SourceText?
  }

  /** A Synthetic Module Record's Evaluate runs its steps anew and makes a new promise. */
  function EvaluateSynthetic(body: Body, s: EvalState, m: nat): (EvalState, Promise) {
    var e := body(m, |s.log|);
    (s.(log := s.log + [Event(m, e)], issued := s.issued + 1), Promise(s.issued, e))
  }

  /** What the module's own evaluation does, before the nested calls. */
  function EvaluateAlone(w: World, g: Graph, body: Body, s: EvalState, m: nat): (r: (EvalState, Promise))
    requires Serves(w, g) && Sized(g, s) && m < |w|
    ensures Sized(g, r.0)
  {
    if w[m].Synthetic? then EvaluateSynthetic(body, s, m) else Evaluate(g, body, s, m)
  }

  function EvaluateNames(w: World, g: Graph, body: Body, fuel: nat, s: EvalState, m: nat,
      names: Names): (r: Option<(EvalState, Promise)>)
    requires Serves(w, g) && Sized(g, s) && m < |w|
    ensures r.Some? ==> Sized(g, r.value.0)
    decreases fuel, 1, 0
  {
    var r := EvaluateAlone(w, g, body, s, m);
    if w[m].Synthetic? || r.1.rejected.Some? then Some(r)
    else
      LL.OptionalRequestsLoaded(w, m, names);
      EvaluateRequests(w, g, body, fuel, r.0, m, OptionalRequests(Optional(w, m), names), r.1)
  }

  function EvaluateRequests(w: World, g: Graph, body: Body, fuel: nat, s: EvalState, m: nat,
      reqs: seq<ModuleRequest>, topLevelPromise: Promise): (r: Option<(EvalState, Promise)>)
    requires Serves(w, g) && Sized(g, s) && LL.Requestable(w, m, reqs)
    ensures r.Some? ==> Sized(g, r.value.0)
    decreases fuel, 0, |reqs|
  {
    if reqs == [] then Some((s, topLevelPromise))
    else if fuel == 0 then None
    else
      var t := GetImportedModule(w, m, reqs[0]);
      var r := EvaluateNames(w, g, body, fuel - 1, s, t, reqs[0].importedNames);
      if r.None? || r.value.1.rejected.Some? then r
      else EvaluateRequests(w, g, body, fuel, r.value.0, m, reqs[1..], topLevelPromise)
  }

  /** e is recorded for some module, or was thrown by what ran last. */
  predicate Known(s: EvalState, e: Error) {
    || (exists x :: 0 <= x < |s.nodes| && s.nodes[x].color == Black && s.nodes[x].error == Some(e))
    || (|s.log| > 0 && s.log[|s.log| - 1].error == Some(e))
  }

  lemma SyntheticKeeps(w: World, g: Graph, body: Body, s: EvalState, m: nat)
    requires Serves(w, g) && EvalInv(g, s) && m < |w| && w[m].Synthetic?
    ensures EvalInv(g, EvaluateSynthetic(body, s, m).0) && OnlyAdds(s, EvaluateSynthetic(body, s, m).0)
  {
    hide Valid, Reach, DepsRan;
    var s' := EvaluateSynthetic(body, s, m).0;
    var w0, w1 := Idle(s), Idle(s');
    assert w1.log == w0.log + [Event(m, body(m, |s.log|))];
    assert forall a :: Ok(g, w0, a) <==> Ok(g, w1, a);
    RootsSame(g, w0, w1);
    assert OkClosed(g, w1);
    LogFitsOneMore(g, w0, w1, m);
    assert forall k :: 0 <= k < g.Size() ==> CapOk(s, k) ==> CapOk(s', k);
  }

  lemma LogFitsOneMore(g: Graph, w0: Walk, w1: Walk, m: nat)
    requires g.Valid() && InRange(g, w0) && InRange(g, w1) && LogFits(g, w0) && m < g.Size() && !g.cyclic[m]
    requires w1.nodes == w0.nodes && exists e :: w1.log == w0.log + [Event(m, e)]
    ensures LogFits(g, w1)
  {
    hide Reach, DepsRan;
    forall k | 0 <= k < |w1.log| && w1.log[k].id < g.Size() && g.cyclic[w1.log[k].id]
      ensures DepsRan(g, w1.log[..k], w1.log[k].id)
    {
      assert k < |w0.log| && w1.log[..k] == w0.log[..k];
    }
    forall x | 0 <= x < g.Size() && g.cyclic[x] && w1.nodes[x].color == White ensures !Ran(w1.log, x) {
      assert !Ran(w0.log, x);
    }
  }

  lemma AloneKeeps(w: World, g: Graph, body: Body, s: EvalState, m: nat)
    requires Serves(w, g) && EvalInv(g, s) && m < |w| && Sized(g, s)
    ensures var (s', p) := EvaluateAlone(w, g, body, s, m);
            && EvalInv(g, s') && OnlyAdds(s, s')
            && (p.rejected.Some? ==> Known(s', p.rejected.value))
            && (p.rejected.None? && w[m].SourceText? ==> Ok(g, Idle(s'), m))
  {
    hide Valid, EvalInv;
    if w[m].Synthetic? {
      SyntheticKeeps(w, g, body, s, m);
    } else {
      EvaluateKeeps(g, body, s, m);
    }
  }

  lemma AddsTrans(a: EvalState, b: EvalState, c: EvalState)
    requires OnlyAdds(a, b) && OnlyAdds(b, c)
    ensures OnlyAdds(a, c)
  {
  }

  /** Evaluate with its nested calls keeps the evaluation invariant and leaves finished modules alone;
      a rejection carries an error that is recorded or was thrown last; if the promise is fulfilled,
      the module has finished without error. */
  lemma {:induction false} NamesKeep(w: World, g: Graph, body: Body, fuel: nat, s: EvalState, m: nat, names: Names)
    requires Serves(w, g) && EvalInv(g, s) && m < |w| && Sized(g, s)
    requires EvaluateNames(w, g, body, fuel, s, m, names).Some?
    ensures var (s', p) := EvaluateNames(w, g, body, fuel, s, m, names).value;
            && EvalInv(g, s') && OnlyAdds(s, s')
            && (p.rejected.Some? ==> Known(s', p.rejected.value))
            && (p.rejected.None? && w[m].SourceText? ==> Ok(g, Idle(s'), m))
    decreases fuel, 1, 0
  {
    hide Valid, EvalInv, EvaluateAlone, OptionalRequests, OnlyAdds, Known, EvaluateRequests;
    AloneKeeps(w, g, body, s, m);
    var r := EvaluateAlone(w, g, body, s, m);
    if w[m].SourceText? && r.1.rejected.None? {
      LL.OptionalRequestsLoaded(w, m, names);
      var reqs := OptionalRequests(Optional(w, m), names);
      RequestsKeep(w, g, body, fuel, r.0, m, reqs, r.1);
      var (s', p) := EvaluateRequests(w, g, body, fuel, r.0, m, reqs, r.1).value;
      AddsTrans(s, r.0, s');
      OkStays(g, r.0, s', m);
    }
  }

  lemma OkStays(g: Graph, s: EvalState, s': EvalState, m: nat)
    requires OnlyAdds(s, s') && Ok(g, Idle(s), m)
    ensures Ok(g, Idle(s'), m)
  {
  }

  lemma {:induction false} RequestsKeep(w: World, g: Graph, body: Body, fuel: nat, s: EvalState, m: nat,
      reqs: seq<ModuleRequest>, top: Promise)
    requires Serves(w, g) && EvalInv(g, s) && LL.Requestable(w, m, reqs) && top.rejected.None? && Sized(g, s)
    requires EvaluateRequests(w, g, body, fuel, s, m, reqs, top).Some?
    ensures var (s', p) := EvaluateRequests(w, g, body, fuel, s, m, reqs, top).value;
            && EvalInv(g, s') && OnlyAdds(s, s')
            && (p.rejected.Some? ==> Known(s', p.rejected.value))
    decreases fuel, 0, |reqs|
  {
    hide Valid, EvalInv, EvaluateNames, OnlyAdds, Known, GetImportedModule, IsLoaded;
    if reqs == [] {
      AddsRefl(s);
    } else {
      var t := GetImportedModule(w, m, reqs[0]);
      NamesKeep(w, g, body, fuel - 1, s, t, reqs[0].importedNames);
      var r := EvaluateNames(w, g, body, fuel - 1, s, t, reqs[0].importedNames).value;
      if r.1.rejected.None? {
        RequestsKeep(w, g, body, fuel, r.0, m, reqs[1..], top);
        AddsTrans(s, r.0, EvaluateRequests(w, g, body, fuel, r.0, m, reqs[1..], top).value.0);
      }
    }
  }

  lemma AddsRefl(s: EvalState)
    ensures OnlyAdds(s, s)
  {
  }

  /** Every module that name n of module t leads to has finished without error. */
  ghost predicate ChainDone(w: World, g: Graph, s: EvalState, t: nat, n: string)
    requires Valid(w)
  {
    forall x: nat, y: string, links: nat :: Leads(w, true, t, n, x, y, links) && x < |w| && w[x].SourceText? ==>
      Ok(g, Idle(s), x)
  }

  lemma {:induction false} FirstLink(w: World, t: nat, n: string, x: nat, y: string, links: nat)
      returns (u: nat, n': string)
    requires Valid(w) && links > 0 && Leads(w, true, t, n, x, y, links)
    ensures OneLink(w, true, t, n, u, n') && Leads(w, true, u, n', x, y, links - 1)
    decreases links
  {
    hide Valid, OneLink;
    var x0: nat, y0: string :| Leads(w, true, t, n, x0, y0, links - 1) && OneLink(w, true, x0, y0, x, y);
    if links == 1 {
      u, n' := x, y;
    } else {
      u, n' := FirstLink(w, t, n, x0, y0, links - 1);
      assert Leads(w, true, u, n', x, y, links - 1);
    }
  }

  lemma ChainStays(w: World, g: Graph, s: EvalState, s': EvalState, t: nat, n: string)
    requires Valid(w) && OnlyAdds(s, s') && ChainDone(w, g, s, t, n)
    ensures ChainDone(w, g, s', t, n)
  {
    hide Valid, Leads;
  }

  /** If the promise is fulfilled, it is that of the module's own evaluation, and everything that the
      names lead to over optional re-exports has finished without error. */
  lemma {:induction false} FulfilledCoversNames(w: World, g: Graph, body: Body, fuel: nat, s: EvalState, m: nat,
      names: Names)
    requires Serves(w, g) && EvalInv(g, s) && m < |w| && Sized(g, s)
    requires EvaluateNames(w, g, body, fuel, s, m, names).Some?
    requires EvaluateNames(w, g, body, fuel, s, m, names).value.1.rejected.None?
    ensures var (s', p) := EvaluateNames(w, g, body, fuel, s, m, names).value;
            && p == EvaluateAlone(w, g, body, s, m).1
            && forall n :: Denotes(names, n) ==> ChainDone(w, g, s', m, n)
    decreases fuel, 1, 0
  {
    hide Valid, EvalInv, EvaluateAlone, OptionalRequests, OnlyAdds, Known, EvaluateRequests, ChainDone, Denotes;
    AloneKeeps(w, g, body, s, m);
    NamesKeep(w, g, body, fuel, s, m, names);
    var r := EvaluateAlone(w, g, body, s, m);
    var s' := EvaluateNames(w, g, body, fuel, s, m, names).value.0;
    if w[m].Synthetic? {
      forall n ensures ChainDone(w, g, s', m, n) {
        SyntheticDone(w, g, s', m, n);
      }
    } else {
      LL.OptionalRequestsLoaded(w, m, names);
      var reqs := OptionalRequests(Optional(w, m), names);
      LL.RequestableParts(w, m, reqs);
      RequestsCover(w, g, body, fuel, r.0, m, reqs, r.1);
      forall n | Denotes(names, n) ensures ChainDone(w, g, s', m, n) {
        NamesDone(w, g, s', m, names, n);
      }
    }
  }

  lemma SyntheticDone(w: World, g: Graph, s: EvalState, m: nat, n: string)
    requires Valid(w) && m < |w| && w[m].Synthetic?
    ensures ChainDone(w, g, s, m, n)
  {
    hide Valid, Ok;
    forall x: nat, y: string, links: nat | Leads(w, true, m, n, x, y, links) ensures x == m {
      SyntheticEnds(w, m, n, x, y, links);
    }
  }

  lemma SyntheticEnds(w: World, m: nat, n: string, x: nat, y: string, links: nat)
    requires Valid(w) && m < |w| && w[m].Synthetic? && Leads(w, true, m, n, x, y, links)
    ensures x == m
  {
    hide Valid;
    if links > 0 {
      var u, n' := FirstLink(w, m, n, x, y, links);
    }
  }

  ghost predicate RequestDone(w: World, g: Graph, s: EvalState, m: nat, req: ModuleRequest)
    requires Valid(w) && m < |w| && IsLoaded(w[m], req)
  {
    forall n :: Denotes(req.importedNames, n) ==> ChainDone(w, g, s, GetImportedModule(w, m, req), n)
  }

  lemma NamesDone(w: World, g: Graph, s: EvalState, m: nat, names: Names, n: string)
    requires Valid(w) && m < |w| && LL.Requestable(w, m, OptionalRequests(Optional(w, m), names))
    requires forall i :: 0 <= i < |OptionalRequests(Optional(w, m), names)| ==>
               IsLoaded(w[m], OptionalRequests(Optional(w, m), names)[i])
               && RequestDone(w, g, s, m, OptionalRequests(Optional(w, m), names)[i])
    requires Denotes(names, n) && (w[m].SourceText? ==> Ok(g, Idle(s), m))
    ensures ChainDone(w, g, s, m, n)
  {
    hide Valid, Ok, Leads, IsLoaded, GetImportedModule, OptionalRequests, Denotes, LL.Requestable;
    forall x: nat, y: string, links: nat | Leads(w, true, m, n, x, y, links) && x < |w| && w[x].SourceText?
      ensures Ok(g, Idle(s), x)
    {
      if links == 0 {
        NoLink(w, m, n, x, y);
      } else {
        var u, n' := FirstLink(w, m, n, x, y, links);
        var k: nat :| Takes(w, true, m, k, n, u) && Wants(Optional(w, m)[k], n');
        var i := EntryRequested(w, m, names, k);
        assert RequestDone(w, g, s, m, OptionalRequests(Optional(w, m), names)[i]);
        assert ChainDone(w, g, s, u, n');
      }
    }
  }

  lemma NoLink(w: World, m: nat, n: string, x: nat, y: string)
    requires Valid(w) && Leads(w, true, m, n, x, y, 0)
    ensures x == m && y == n
  {
  }

  lemma {:induction false} RequestsCover(w: World, g: Graph, body: Body, fuel: nat, s: EvalState, m: nat,
      reqs: seq<ModuleRequest>, top: Promise)
    requires Serves(w, g) && EvalInv(g, s) && LL.Requestable(w, m, reqs) && top.rejected.None? && Sized(g, s)
    requires EvaluateRequests(w, g, body, fuel, s, m, reqs, top).Some?
    requires EvaluateRequests(w, g, body, fuel, s, m, reqs, top).value.1.rejected.None?
    ensures var (s', p) := EvaluateRequests(w, g, body, fuel, s, m, reqs, top).value;
            && p == top
            && forall i :: 0 <= i < |reqs| ==> IsLoaded(w[m], reqs[i]) && RequestDone(w, g, s', m, reqs[i])
    decreases fuel, 0, |reqs|
  {
    hide Valid, EvalInv, EvaluateNames, OnlyAdds, Known, GetImportedModule, IsLoaded, ChainDone, Denotes;
    if reqs != [] {
      var t := GetImportedModule(w, m, reqs[0]);
      NamesKeep(w, g, body, fuel - 1, s, t, reqs[0].importedNames);
      FulfilledCoversNames(w, g, body, fuel - 1, s, t, reqs[0].importedNames);
      var r := EvaluateNames(w, g, body, fuel - 1, s, t, reqs[0].importedNames).value;
      RequestsKeep(w, g, body, fuel, r.0, m, reqs[1..], top);
      RequestsCover(w, g, body, fuel, r.0, m, reqs[1..], top);
      var s' := EvaluateRequests(w, g, body, fuel, r.0, m, reqs[1..], top).value.0;
      forall n | Denotes(reqs[0].importedNames, n) ensures ChainDone(w, g, s', t, n) {
        ChainStays(w, g, r.0, s', t, n);
      }
      forall i | 0 <= i < |reqs| ensures RequestDone(w, g, s', m, reqs[i]) {
        if i > 0 {
          assert reqs[i] == reqs[1..][i - 1];
        }
      }
    }
  }

  // --- When the nested calls end ---

  lemma {:induction false} NamesEnd(w: World, g: Graph, body: Body, fuel: nat, s: EvalState, m: nat, names: Names)
    requires Serves(w, g) && Sized(g, s) && m < |w|
    requires forall n :: Denotes(names, n) ==> Bounded(w, true, m, n, fuel)
    ensures EvaluateNames(w, g, body, fuel, s, m, names).Some?
    decreases fuel, 1, 0
  {
    hide Valid, EvaluateAlone, OptionalRequests, EvaluateRequests, Denotes, IsLoaded, GetImportedModule,
        LL.Requestable, Sized;
    var r := EvaluateAlone(w, g, body, s, m);
    if w[m].SourceText? && r.1.rejected.None? {
      LL.OptionalRequestsLoaded(w, m, names);
      var reqs := OptionalRequests(Optional(w, m), names);
      LL.RequestableParts(w, m, reqs);
      forall i | 0 <= i < |reqs| ensures RequestEnds(w, fuel, m, reqs[i]) {
        NamesEndAt(w, fuel, m, names, i);
      }
      RequestsEnd(w, g, body, fuel, r.0, m, reqs, r.1);
    }
  }

  ghost predicate RequestEnds(w: World, fuel: nat, m: nat, req: ModuleRequest)
    requires Valid(w) && m < |w| && IsLoaded(w[m], req)
  {
    fuel > 0 && forall n :: Denotes(req.importedNames, n) ==>
      Bounded(w, true, GetImportedModule(w, m, req), n, fuel - 1)
  }

  lemma NamesEndAt(w: World, fuel: nat, m: nat, names: Names, i: nat)
    requires Valid(w) && m < |w| && LL.Requestable(w, m, OptionalRequests(Optional(w, m), names))
    requires i < |OptionalRequests(Optional(w, m), names)|
    requires IsLoaded(w[m], OptionalRequests(Optional(w, m), names)[i])
    requires forall n :: Denotes(names, n) ==> Bounded(w, true, m, n, fuel)
    ensures RequestEnds(w, fuel, m, OptionalRequests(Optional(w, m), names)[i])
  {
    hide Valid, IsLoaded, GetImportedModule, OptionalRequests, Denotes, LL.Requestable;
    RequestStandsFor(w, m, names, i);
    var req := OptionalRequests(Optional(w, m), names)[i];
    var k0: nat :| StandsFor(w, m, names, i, k0);
    assert Bounded(w, true, m, Optional(w, m)[k0].exportName, fuel);
    forall n | Denotes(req.importedNames, n) ensures Bounded(w, true, GetImportedModule(w, m, req), n, fuel - 1) {
      var k: nat :| StandsFor(w, m, names, i, k) && Wants(Optional(w, m)[k], n);
      assert Bounded(w, true, m, Optional(w, m)[k].exportName, fuel);
    }
  }

  lemma {:induction false} RequestsEnd(w: World, g: Graph, body: Body, fuel: nat, s: EvalState, m: nat,
      reqs: seq<ModuleRequest>, top: Promise)
    requires Serves(w, g) && Sized(g, s) && LL.Requestable(w, m, reqs)
    requires forall i :: 0 <= i < |reqs| ==> IsLoaded(w[m], reqs[i]) && RequestEnds(w, fuel, m, reqs[i])
    ensures EvaluateRequests(w, g, body, fuel, s, m, reqs, top).Some?
    decreases fuel, 0, |reqs|
  {
    hide Valid, EvaluateNames, GetImportedModule, IsLoaded, Denotes, Bounded, Sized;
    if reqs != [] {
      forall i | 0 <= i < |reqs[1..]| ensures IsLoaded(w[m], reqs[1..][i])
          && RequestEnds(w, fuel, m, reqs[1..][i]) {
        assert reqs[1..][i] == reqs[i + 1];
      }
      assert RequestEnds(w, fuel, m, reqs[0]);
      var t := GetImportedModule(w, m, reqs[0]);
      NamesEnd(w, g, body, fuel - 1, s, t, reqs[0].importedNames);
      var r := EvaluateNames(w, g, body, fuel - 1, s, t, reqs[0].importedNames).value;
      if r.1.rejected.None? {
        RequestsEnd(w, g, body, fuel, r.0, m, reqs[1..], top);
      }
    }
  }

  /** Nothing has failed so far. */
  predicate NoErrors(s: EvalState) {
    Clean(Idle(s)) && forall x :: 0 <= x < |s.caps| && s.caps[x].Some? ==> s.caps[x].value.rejected.None?
  }

  lemma AloneSucceeds(w: World, g: Graph, s: EvalState, m: nat)
    requires Serves(w, g) && Sized(g, s) && m < |w| && NoErrors(s)
    ensures var (s', p) := EvaluateAlone(w, g, Succeeds(), s, m);
            NoErrors(s') && p.rejected.None?
  {
    hide Valid, Reach, Visit;
    if w[m].SourceText? && !Answered(s, m) {
      ReachRefl(g, m);
      VisitSucceeds(g, Succeeds(), Idle(s), m, 0, m);
    }
  }

  /** If no body fails, the nested calls end only where the chains from the names are bounded. */
  lemma {:induction false} SuccessBounds(w: World, g: Graph, fuel: nat, s: EvalState, m: nat, names: Names)
    requires Serves(w, g) && Sized(g, s) && m < |w| && NoErrors(s)
    requires EvaluateNames(w, g, Succeeds(), fuel, s, m, names).Some?
    ensures var (s', p) := EvaluateNames(w, g, Succeeds(), fuel, s, m, names).value;
            NoErrors(s') && p.rejected.None?
    ensures forall n :: Denotes(names, n) ==> Bounded(w, true, m, n, fuel)
    decreases fuel, 1, 0
  {
    hide Valid, EvaluateAlone, OptionalRequests, EvaluateRequests, Denotes, IsLoaded, GetImportedModule,
        LL.Requestable, Sized, NoErrors, Bounded;
    AloneSucceeds(w, g, s, m);
    var r := EvaluateAlone(w, g, Succeeds(), s, m);
    if w[m].Synthetic? {
      SyntheticBounded(w, m, fuel);
    } else {
      LL.OptionalRequestsLoaded(w, m, names);
      var reqs := OptionalRequests(Optional(w, m), names);
      LL.RequestableParts(w, m, reqs);
      SuccessBoundsRequests(w, g, fuel, r.0, m, reqs, r.1);
      NamesBounded(w, fuel, m, names);
    }
  }

  lemma SyntheticBounded(w: World, m: nat, d: nat)
    requires Valid(w) && m < |w| && w[m].Synthetic?
    ensures forall n :: Bounded(w, true, m, n, d)
  {
    hide Valid;
  }

  lemma NamesBounded(w: World, fuel: nat, m: nat, names: Names)
    requires Valid(w) && m < |w| && LL.Requestable(w, m, OptionalRequests(Optional(w, m), names))
    requires forall i :: 0 <= i < |OptionalRequests(Optional(w, m), names)| ==>
               IsLoaded(w[m], OptionalRequests(Optional(w, m), names)[i])
               && RequestEnds(w, fuel, m, OptionalRequests(Optional(w, m), names)[i])
    ensures forall n :: Denotes(names, n) ==> Bounded(w, true, m, n, fuel)
  {
    hide Valid, IsLoaded, GetImportedModule, OptionalRequests, Denotes, LL.Requestable;
    forall n, k: nat, u: nat | Denotes(names, n) && Takes(w, true, m, k, n, u)
      ensures fuel > 0
      ensures forall n' :: Wants(Optional(w, m)[k], n') ==> Bounded(w, true, u, n', fuel - 1)
    {
      var i := EntryRequested(w, m, names, k);
      assert RequestEnds(w, fuel, m, OptionalRequests(Optional(w, m), names)[i]);
    }
  }

  lemma {:induction false} SuccessBoundsRequests(w: World, g: Graph, fuel: nat, s: EvalState, m: nat,
      reqs: seq<ModuleRequest>, top: Promise)
    requires Serves(w, g) && Sized(g, s) && LL.Requestable(w, m, reqs) && NoErrors(s) && top.rejected.None?
    requires EvaluateRequests(w, g, Succeeds(), fuel, s, m, reqs, top).Some?
    ensures var (s', p) := EvaluateRequests(w, g, Succeeds(), fuel, s, m, reqs, top).value;
            NoErrors(s') && p.rejected.None?
    ensures forall i :: 0 <= i < |reqs| ==> IsLoaded(w[m], reqs[i]) && RequestEnds(w, fuel, m, reqs[i])
    decreases fuel, 0, |reqs|
  {
    hide Valid, EvaluateNames, GetImportedModule, IsLoaded, Denotes, Bounded, Sized, NoErrors;
    if reqs != [] {
      var t := GetImportedModule(w, m, reqs[0]);
      SuccessBounds(w, g, fuel - 1, s, t, reqs[0].importedNames);
      var r := EvaluateNames(w, g, Succeeds(), fuel - 1, s, t, reqs[0].importedNames).value;
      SuccessBoundsRequests(w, g, fuel, r.0, m, reqs[1..], top);
      forall i | 0 <= i < |reqs| ensures RequestEnds(w, fuel, m, reqs[i]) {
        if i > 0 {
          assert reqs[i] == reqs[1..][i - 1];
        }
      }
    }
  }

  /** The call returns: some depth is enough for it. */
  ghost predicate Returns(w: World, g: Graph, body: Body, s: EvalState, m: nat, names: Names)
    requires Serves(w, g) && m < |w|
  {
    Sized(g, s) && exists fuel: nat :: EvaluateNames(w, g, body, fuel, s, m, names).Some?
  }

  /** Evaluate for `names` returns for every state and every pattern of failures exactly when nothing
      that the names lead to over optional re-exports comes back to itself. */
  lemma ReturnsExactlyWhenCalm(w: World, g: Graph, m: nat, names: Names)
    requires Serves(w, g) && m < |w|
    ensures (forall body: Body, s: EvalState :: EvalInv(g, s) ==> Returns(w, g, body, s, m, names))
            <==> forall n :: Denotes(names, n) ==> Calm(w, true, m, n)
  {
    hide Valid, EvalInv, EvaluateNames, Calm, Bounded, Denotes, Sized;
    if forall n :: Denotes(names, n) ==> Calm(w, true, m, n) {
      forall body: Body, s: EvalState | EvalInv(g, s)
        ensures Returns(w, g, body, s, m, names)
      {
        EP.SizedOf(g, s);
        CalmReturns(w, g, body, s, m, names);
      }
    } else {
      var n :| Denotes(names, n) && !Calm(w, true, m, n);
      EP.FreshInv(g);
      EP.SizedOf(g, EP.Fresh(g));
      forall fuel: nat ensures EvaluateNames(w, g, Succeeds(), fuel, EP.Fresh(g), m, names).None? {
        RestlessNeverReturns(w, g, fuel, EP.Fresh(g), m, names, n);
      }
      assert !Returns(w, g, Succeeds(), EP.Fresh(g), m, names);
    }
  }

  lemma CalmReturns(w: World, g: Graph, body: Body, s: EvalState, m: nat, names: Names)
    requires Serves(w, g) && Sized(g, s) && m < |w| && forall n :: Denotes(names, n) ==> Calm(w, true, m, n)
    ensures EvaluateNames(w, g, body, |Entries(w)|, s, m, names).Some?
  {
    hide Valid, EvaluateNames, Calm, Bounded, Denotes, Sized;
    forall n | Denotes(names, n) ensures Bounded(w, true, m, n, |Entries(w)|) {
      BoundedExactlyWhenCalm(w, true, m, n);
    }
    NamesEnd(w, g, body, |Entries(w)|, s, m, names);
  }

  /** Where nothing has failed and nothing fails, such a call returns at no depth. */
  lemma RestlessNeverReturns(w: World, g: Graph, fuel: nat, s: EvalState, m: nat, names: Names, n: string)
    requires Serves(w, g) && Sized(g, s) && m < |w| && NoErrors(s)
    requires Denotes(names, n) && !Calm(w, true, m, n)
    ensures EvaluateNames(w, g, Succeeds(), fuel, s, m, names).None?
  {
    hide Valid, EvaluateNames, Calm, Bounded, Denotes, Sized, NoErrors;
    if EvaluateNames(w, g, Succeeds(), fuel, s, m, names).Some? {
      SuccessBounds(w, g, fuel, s, m, names);
      assert Bounded(w, true, m, n, fuel);
      BoundedExactlyWhenCalm(w, true, m, n);
    }
  }

  /** The graph of a world whose lists end is one of its modules. */
  lemma EvaluationGraphServes(w: World)
    requires Valid(w) && EG.ListsEnd(w)
    ensures Serves(w, EG.EvaluationGraph(w))
  {
    hide Valid, EG.ListsEnd;
    EG.EvaluationGraphValid(w);
  }

  /** On two modules that optionally re-export `x` of each other and request nothing, all lists end,
      and evaluating one of them for `x` returns at no depth when no body fails. */
  lemma EachOtherNeverReturns(fuel: nat)
    ensures var w := EachOther(false);
            && Valid(w) && EG.ListsEnd(w) && Serves(w, EG.EvaluationGraph(w))
            && var g := EG.EvaluationGraph(w);
               && Sized(g, EP.Fresh(g)) && EvalInv(g, EP.Fresh(g))
               && EvaluateNames(w, g, Succeeds(), fuel, EP.Fresh(g), 0, List(["x"])).None?
  {
    hide Valid, EvalInv, EvaluateNames, ComesBack, EG.EvaluationGraph;
    var w := EachOther(false);
    EachOtherComesBack(false, true);
    EvaluationGraphServes(w);
    var g := EG.EvaluationGraph(w);
    EP.FreshInv(g);
    EP.SizedOf(g, EP.Fresh(g));
    assert Leads(w, true, 0, "x", 0, "x", 0);
    RestlessNeverReturns(w, g, fuel, EP.Fresh(g), 0, List(["x"]), "x");
  }
}
