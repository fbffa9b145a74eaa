/** What an evaluation list contains: the modules demanded in the evaluation phase, and the modules that
    wait for top-level await among those that gathering reaches. */
module EvaluationListContent {
  import opened Wrappers
  import opened ImportedNames
  import opened ModuleRequests
  import opened ModuleRecords
  import opened LinkingList
  import opened OptionalChains
  import opened EvaluationList
  import opened EvaluationListEnds
  import opened EvaluationListExact

  /** The request demands t in the evaluation phase: over `links` optional re-exports, each selected by the
      names asked before, none of which asks for everything. */
  predicate DemandsOver(w: World, referrer: nat, req: ModuleRequest, t: nat, links: nat)
    requires Valid(w) && referrer < |w| && IsLoaded(w[referrer], req)
    decreases links
  {
    var u := GetImportedModule(w, referrer, req);
    if links == 0 then req.phase == EvaluationPhase && u == t
    else
      && req.phase != SourcePhase && !req.importedNames.All?
      && var reqs := OptionalRequests(Optional(w, u), req.importedNames);
         exists i :: 0 <= i < |reqs| && IsLoaded(w[u], reqs[i]) && DemandsOver(w, u, reqs[i], t, links - 1)
  }

  ghost predicate Demands(w: World, referrer: nat, req: ModuleRequest, t: nat)
    requires Valid(w) && referrer < |w| && IsLoaded(w[referrer], req)
  {
    exists links: nat :: DemandsOver(w, referrer, req, t, links)
  }

  /** Some request of m demands t in the evaluation phase. */
  ghost predicate EvaluationDemanded(w: World, m: nat, t: nat)
    requires Valid(w) && m < |w|
  {
    w[m].SourceText? && exists i :: 0 <= i < |w[m].requested| && IsLoaded(w[m], w[m].requested[i])
                                     && Demands(w, m, w[m].requested[i], t)
  }

  // --- Everything demanded is listed ---

  lemma {:induction false} DemandedListed(w: World, st: seq<Progress>, fuel: nat, referrer: nat,
      reqs: seq<ModuleRequest>, list: seq<nat>, i: nat, t: nat, links: nat)
    requires Tracked(w, st) && Requestable(w, referrer, reqs) && i < |reqs| && IsLoaded(w[referrer], reqs[i])
    requires BuildEvaluationList(w, st, fuel, referrer, reqs, list).Some?
    requires DemandsOver(w, referrer, reqs[i], t, links)
    ensures t in BuildEvaluationList(w, st, fuel, referrer, reqs, list).value
    decreases fuel, |reqs|
  {
    hide Valid, IsLoaded, Requestable, GetImportedModule, OptionalRequests, GatherRequests, Listed, AppendNew;
    RequestableParts(w, referrer, reqs);
    var r := BuildEvaluationList(w, st, fuel, referrer, reqs, list).value;
    if reqs[0].phase == SourcePhase {
      SourceDemandsNothing(w, referrer, reqs[0], t, links);
      DemandedListed(w, st, fuel, referrer, reqs[1..], list, i - 1, t, links);
    } else {
      ListKept(w, st, fuel, referrer, reqs, list);
      var u := GetImportedModule(w, referrer, reqs[0]);
      var l := Listed(w, st, fuel - 1, u, reqs[0], list).value;
      var optional := OptionalRequests(Optional(w, u), reqs[0].importedNames);
      if i > 0 {
        var next := if w[u].Synthetic? then l
                    else if reqs[0].importedNames.All? then
                      AppendNew(l, GatherRequests(w, st, fuel - 1, u, optional, {}, []).value.list)
                    else BuildEvaluationList(w, st, fuel - 1, u, optional, l).value;
        DemandedListed(w, st, fuel, referrer, reqs[1..], next, i - 1, t, links);
      } else if links == 0 {
        TargetListed(w, st, fuel - 1, u, reqs[0], list);
      } else {
        var k :| 0 <= k < |optional| && IsLoaded(w[u], optional[k]) && DemandsOver(w, u, optional[k], t, links - 1);
        SyntheticAsksNothing(w, u, reqs[0].importedNames);
        DemandedListed(w, st, fuel - 1, u, optional, l, k, t, links - 1);
      }
    }
  }

  lemma SourceDemandsNothing(w: World, referrer: nat, req: ModuleRequest, t: nat, links: nat)
    requires Valid(w) && referrer < |w| && IsLoaded(w[referrer], req)
    ensures req.phase == SourcePhase ==> !DemandsOver(w, referrer, req, t, links)
  {
    hide Valid, IsLoaded, GetImportedModule, OptionalRequests;
  }

  lemma SyntheticAsksNothing(w: World, u: nat, names: Names)
    requires u < |w|
    ensures w[u].Synthetic? ==> OptionalRequests(Optional(w, u), names) == []
  {
  }

  lemma TargetListed(w: World, st: seq<Progress>, fuel: nat, t: nat, req: ModuleRequest, list: seq<nat>)
    requires Tracked(w, st) && t < |w| && Listed(w, st, fuel, t, req, list).Some? && req.phase == EvaluationPhase
    ensures t in Listed(w, st, fuel, t, req, list).value
  {
    hide Valid;
  }

  // --- Nothing else is listed ---

  /** Gathering sees only modules that are in reach. */
  lemma {:induction false} GatherInReach(w: World, st: seq<Progress>, m: nat, d: nat, fuel: nat, x: nat, seen: set<nat>)
    requires Tracked(w, st) && AllBounded(w, st, m, d) && x < |w| && Reached(w, st, m, From(x))
    requires Gather(w, st, fuel, x, seen).Some?
    ensures forall y :: y in Gather(w, st, fuel, x, seen).value.seen ==> y in seen || Reached(w, st, m, From(y))
    decreases fuel, 1, 0
  {
    hide Valid, IsLoaded, Reached, AllBounded, InReach, GatherRequests, Requestable;
    if x !in seen && Walked(w, st, x) {
      AllRequestable(w, x);
      RequestableParts(w, x, w[x].requested);
      RequestedInReach(w, st, m, x, d);
      RequestsInReach(w, st, m, d, fuel, x, w[x].requested, seen + {x}, [], d + 1);
    }
  }

  lemma {:induction false} RequestsInReach(w: World, st: seq<Progress>, m: nat, d: nat, fuel: nat, referrer: nat,
      reqs: seq<ModuleRequest>, seen: set<nat>, result: seq<nat>, links: nat)
    requires Tracked(w, st) && AllBounded(w, st, m, d) && Requestable(w, referrer, reqs)
    requires forall i :: 0 <= i < |reqs| ==> InReach(w, st, m, referrer, reqs[i], true, links)
    requires GatherRequests(w, st, fuel, referrer, reqs, seen, result).Some?
    ensures forall y :: y in GatherRequests(w, st, fuel, referrer, reqs, seen, result).value.seen ==>
              y in seen || Reached(w, st, m, From(y))
    decreases fuel, 0, |reqs|
  {
    hide Valid, IsLoaded, Reached, AllBounded, Requestable, GetImportedModule, OptionalRequests, Gather, AppendNew,
        Bounded, Denotes;
    RequestableParts(w, referrer, reqs);
    if reqs != [] {
      forall i | 0 <= i < |reqs[1..]| ensures InReach(w, st, m, referrer, reqs[1..][i], true, links) {
        assert reqs[1..][i] == reqs[i + 1];
      }
      if reqs[0].phase == SourcePhase {
        RequestsInReach(w, st, m, d, fuel, referrer, reqs[1..], seen, result, links);
      } else {
        assert InReach(w, st, m, referrer, reqs[0], true, links);
        var t := GetImportedModule(w, referrer, reqs[0]);
        GatherInReach(w, st, m, d, fuel - 1, t, seen);
        var a := Gather(w, st, fuel - 1, t, seen).value;
        OptionalRequestsLoaded(w, t, reqs[0].importedNames);
        if w[t].Synthetic? {
          RequestsInReach(w, st, m, d, fuel, referrer, reqs[1..], a.seen,
            AppendNew(AppendNew(result, a.list), []), links);
        } else {
          var optional := OptionalRequests(Optional(w, t), reqs[0].importedNames);
          forall i | 0 <= i < |optional| ensures IsLoaded(w[t], optional[i])
              && InReach(w, st, m, t, optional[i], true, links - 1) {
            RequestableParts(w, t, optional);
            OptionalInReach(w, st, m, t, reqs[0].importedNames, true, links - 1, i);
          }
          RequestsInReach(w, st, m, d, fuel - 1, t, optional, a.seen, [], links - 1);
          var b := GatherRequests(w, st, fuel - 1, t, optional, a.seen, []).value;
          RequestsInReach(w, st, m, d, fuel, referrer, reqs[1..], b.seen,
            AppendNew(AppendNew(result, a.list), b.list), links);
        }
      }
    }
  }

  /** Why t may be on the list. */
  ghost predicate Explained(w: World, st: seq<Progress>, m: nat, referrer: nat, reqs: seq<ModuleRequest>,
      list: seq<nat>, t: nat)
    requires Valid(w) && referrer < |w|
  {
    || t in list
    || (exists i :: 0 <= i < |reqs| && IsLoaded(w[referrer], reqs[i]) && Demands(w, referrer, reqs[i], t))
    || (Awaits(w, st, t) && Reached(w, st, m, From(t)))
  }

  lemma {:induction false} ListedExplained(w: World, st: seq<Progress>, m: nat, d: nat, fuel: nat, referrer: nat,
      reqs: seq<ModuleRequest>, list: seq<nat>, links: nat, t: nat)
    requires Tracked(w, st) && AllBounded(w, st, m, d) && Requestable(w, referrer, reqs) && referrer < |w|
    requires forall i :: 0 <= i < |reqs| ==> InReach(w, st, m, referrer, reqs[i], false, links)
    requires BuildEvaluationList(w, st, fuel, referrer, reqs, list).Some?
    requires t in BuildEvaluationList(w, st, fuel, referrer, reqs, list).value
    ensures Explained(w, st, m, referrer, reqs, list, t)
    decreases fuel, |reqs|
  {
    hide Valid, IsLoaded, Reached, AllBounded, Requestable, GetImportedModule, OptionalRequests, Gather,
        GatherRequests, AppendNew, Bounded, Denotes, Explained, Listed;
    RequestableParts(w, referrer, reqs);
    if reqs == [] {
      OnListBefore(w, st, m, referrer, reqs, list, t);
    } else {
      forall i | 0 <= i < |reqs[1..]| ensures InReach(w, st, m, referrer, reqs[1..][i], false, links) {
        assert reqs[1..][i] == reqs[i + 1];
      }
      if reqs[0].phase == SourcePhase {
        ListedExplained(w, st, m, d, fuel, referrer, reqs[1..], list, links, t);
        if t in list {
          OnListBefore(w, st, m, referrer, reqs, list, t);
        }
        ExplainedLater(w, st, m, referrer, reqs, list, list, t);
      } else {
        assert InReach(w, st, m, referrer, reqs[0], false, links);
        var u := GetImportedModule(w, referrer, reqs[0]);
        var l := Listed(w, st, fuel - 1, u, reqs[0], list).value;
        if t in l {
          ByItselfExplained(w, st, m, d, fuel - 1, referrer, reqs, list, t);
        }
        if w[u].Synthetic? {
          ListedExplained(w, st, m, d, fuel, referrer, reqs[1..], l, links, t);
          ExplainedLater(w, st, m, referrer, reqs, list, l, t);
        } else {
          OptionalRequestsLoaded(w, u, reqs[0].importedNames);
          var optional := OptionalRequests(Optional(w, u), reqs[0].importedNames);
          var all := reqs[0].importedNames.All?;
          forall i | 0 <= i < |optional| ensures IsLoaded(w[u], optional[i])
              && InReach(w, st, m, u, optional[i], all, links - 1) {
            RequestableParts(w, u, optional);
            OptionalInReach(w, st, m, u, reqs[0].importedNames, all, links - 1, i);
          }
          if all {
            var b := GatherRequests(w, st, fuel - 1, u, optional, {}, []).value;
            RequestsInReach(w, st, m, d, fuel - 1, u, optional, {}, [], links - 1);
            RequestsGather(w, st, fuel - 1, u, optional, {}, []);
            if t in b.list {
              GatheredExplained(w, st, m, referrer, reqs, list, t);
            }
            ListedExplained(w, st, m, d, fuel, referrer, reqs[1..], AppendNew(l, b.list), links, t);
            ExplainedLater(w, st, m, referrer, reqs, list, AppendNew(l, b.list), t);
          } else {
            var b := BuildEvaluationList(w, st, fuel - 1, u, optional, l).value;
            if t in b {
              ListedExplained(w, st, m, d, fuel - 1, u, optional, l, links - 1, t);
              ExplainedBelow(w, st, m, referrer, reqs, list, l, t);
            }
            ListedExplained(w, st, m, d, fuel, referrer, reqs[1..], b, links, t);
            ExplainedLater(w, st, m, referrer, reqs, list, b, t);
          }
        }
      }
    }
  }

  lemma OnListBefore(w: World, st: seq<Progress>, m: nat, referrer: nat, reqs: seq<ModuleRequest>, list: seq<nat>,
      t: nat)
    requires Valid(w) && referrer < |w| && t in list
    ensures Explained(w, st, m, referrer, reqs, list, t)
  {
  }

  lemma GatheredExplained(w: World, st: seq<Progress>, m: nat, referrer: nat, reqs: seq<ModuleRequest>,
      list: seq<nat>, t: nat)
    requires Valid(w) && referrer < |w| && Awaits(w, st, t) && Reached(w, st, m, From(t))
    ensures Explained(w, st, m, referrer, reqs, list, t)
  {
    hide Valid, Reached, Demands;
  }

  lemma ByItselfExplained(w: World, st: seq<Progress>, m: nat, d: nat, fuel: nat, referrer: nat,
      reqs: seq<ModuleRequest>, list: seq<nat>, t: nat)
    requires Tracked(w, st) && AllBounded(w, st, m, d) && referrer < |w| && reqs != [] && IsLoaded(w[referrer], reqs[0])
    requires reqs[0].phase != SourcePhase
    requires var u := GetImportedModule(w, referrer, reqs[0]);
             && (reqs[0].phase == DeferPhase ==> Reached(w, st, m, From(u)))
             && Listed(w, st, fuel, u, reqs[0], list).Some? && t in Listed(w, st, fuel, u, reqs[0], list).value
    ensures Explained(w, st, m, referrer, reqs, list, t)
  {
    hide Valid, IsLoaded, GetImportedModule, Reached, Gather, AllBounded, Awaits;
    var u := GetImportedModule(w, referrer, reqs[0]);
    if reqs[0].phase == DeferPhase {
      GatherInReach(w, st, m, d, fuel, u, {});
      GathersAwaiting(w, st, fuel, u, {});
    } else if t !in list {
      assert DemandsOver(w, referrer, reqs[0], t, 0);
      assert Demands(w, referrer, reqs[0], t);
    }
  }

  lemma ExplainedLater(w: World, st: seq<Progress>, m: nat, referrer: nat, reqs: seq<ModuleRequest>, list: seq<nat>,
      next: seq<nat>, t: nat)
    requires Valid(w) && referrer < |w| && reqs != [] && Explained(w, st, m, referrer, reqs[1..], next, t)
    requires t in next ==> Explained(w, st, m, referrer, reqs, list, t)
    ensures Explained(w, st, m, referrer, reqs, list, t)
  {
    hide Valid, IsLoaded, Reached, Demands, Awaits;
    if i :| 0 <= i < |reqs[1..]| && IsLoaded(w[referrer], reqs[1..][i]) && Demands(w, referrer, reqs[1..][i], t) {
      assert reqs[i + 1] == reqs[1..][i];
    }
  }

  lemma ExplainedBelow(w: World, st: seq<Progress>, m: nat, referrer: nat, reqs: seq<ModuleRequest>, list: seq<nat>,
      l: seq<nat>, t: nat)
    requires Valid(w) && referrer < |w| && reqs != [] && IsLoaded(w[referrer], reqs[0])
    requires reqs[0].phase != SourcePhase && !reqs[0].importedNames.All?
    requires var u := GetImportedModule(w, referrer, reqs[0]);
             Explained(w, st, m, u, OptionalRequests(Optional(w, u), reqs[0].importedNames), l, t)
    requires t in l ==> Explained(w, st, m, referrer, reqs, list, t)
    ensures Explained(w, st, m, referrer, reqs, list, t)
  {
    hide Valid, IsLoaded, Reached, Awaits, GetImportedModule, OptionalRequests;
    var u := GetImportedModule(w, referrer, reqs[0]);
    var optional := OptionalRequests(Optional(w, u), reqs[0].importedNames);
    if i :| 0 <= i < |optional| && IsLoaded(w[u], optional[i]) && Demands(w, u, optional[i], t) {
      var links: nat :| DemandsOver(w, u, optional[i], t, links);
      assert DemandsOver(w, referrer, reqs[0], t, links + 1);
      assert Demands(w, referrer, reqs[0], t);
    }
  }

  /** Wherever it ends, m's list consists of exactly the modules that m demands in the evaluation phase and
      the waiting modules that gathering on behalf of m reaches. */
  lemma ListIsExactly(w: World, st: seq<Progress>, fuel: nat, m: nat, t: nat)
    requires Tracked(w, st) && m < |w| && w[m].SourceText? && EvaluationListOf(w, st, fuel, m).Some?
    ensures t in EvaluationListOf(w, st, fuel, m).value <==>
              EvaluationDemanded(w, m, t) || (Awaits(w, st, t) && Reached(w, st, m, From(t)))
  {
    hide Valid, IsLoaded, Requestable, BuildEvaluationList, Reached, Bounded, InReach, NoneComesBack, Awaits;
    AllRequestable(w, m);
    RequestableParts(w, m, w[m].requested);
    if t in EvaluationListOf(w, st, fuel, m).value {
      EndsOnlyWhenNoneComesBack(w, st, fuel, m);
      var d := |Entries(w)|;
      forall t: nat, n: string, g: bool | Reached(w, st, m, Name(t, n, g)) ensures Bounded(w, false, t, n, d) {
        ReachedBounded(w, st, m, t, n, g);
      }
      OwnInReach(w, st, m, d);
      ListedExplained(w, st, m, d, fuel, m, w[m].requested, [], d + 1, t);
    } else if EvaluationDemanded(w, m, t) {
      var i :| 0 <= i < |w[m].requested| && IsLoaded(w[m], w[m].requested[i]) && Demands(w, m, w[m].requested[i], t);
      var links: nat :| DemandsOver(w, m, w[m].requested[i], t, links);
      DemandedListed(w, st, fuel, m, w[m].requested, [], i, t, links);
    } else if Awaits(w, st, t) && Reached(w, st, m, From(t)) {
      AwaitedListed(w, st, fuel, m, t);
    }
  }

  // --- The order of the list ---

  /** The list after one request. */
  function AfterRequest(w: World, st: seq<Progress>, fuel: nat, referrer: nat, req: ModuleRequest,
      list: seq<nat>): Option<seq<nat>>
    requires Tracked(w, st) && referrer < |w| && IsLoaded(w[referrer], req)
  {
    if req.phase == SourcePhase then Some(list)
    else if fuel == 0 then None
    else
      var t := GetImportedModule(w, referrer, req);
      var l := Listed(w, st, fuel - 1, t, req, list);
      if l.None? || w[t].Synthetic? then l
      else
        OptionalRequestsLoaded(w, t, req.importedNames);
        var optional := OptionalRequests(Optional(w, t), req.importedNames);
        if req.importedNames.All? then
          var b := GatherRequests(w, st, fuel - 1, t, optional, {}, []);
          if b.None? then None else Some(AppendNew(l.value, b.value.list))
        else BuildEvaluationList(w, st, fuel - 1, t, optional, l.value)
  }

  lemma BuildStep(w: World, st: seq<Progress>, fuel: nat, referrer: nat, reqs: seq<ModuleRequest>, list: seq<nat>)
    requires Tracked(w, st) && Requestable(w, referrer, reqs) && reqs != []
    ensures IsLoaded(w[referrer], reqs[0]) && Requestable(w, referrer, reqs[1..])
    ensures var a := AfterRequest(w, st, fuel, referrer, reqs[0], list);
            BuildEvaluationList(w, st, fuel, referrer, reqs, list) ==
            if a.None? then None else BuildEvaluationList(w, st, fuel, referrer, reqs[1..], a.value)
  {
    hide Valid, IsLoaded, GetImportedModule, OptionalRequests, GatherRequests, Listed, AppendNew;
  }

  /** Requests are worked off from the first to the last. */
  lemma {:induction false} BuildSplit(w: World, st: seq<Progress>, fuel: nat, referrer: nat, reqs: seq<ModuleRequest>,
      list: seq<nat>, i: nat)
    requires Tracked(w, st) && Requestable(w, referrer, reqs) && i <= |reqs|
    requires BuildEvaluationList(w, st, fuel, referrer, reqs, list).Some?
    ensures Requestable(w, referrer, reqs[..i]) && Requestable(w, referrer, reqs[i..])
    ensures var pre := BuildEvaluationList(w, st, fuel, referrer, reqs[..i], list);
            && pre.Some?
            && BuildEvaluationList(w, st, fuel, referrer, reqs[i..], pre.value)
                 == BuildEvaluationList(w, st, fuel, referrer, reqs, list)
    decreases i
  {
    hide Valid, IsLoaded, AfterRequest;
    if i == 0 {
      assert reqs[..0] == [] && reqs[0..] == reqs;
    } else {
      hide BuildEvaluationList;
      assert reqs[..i][1..] == reqs[1..][..i - 1] && reqs[1..][i - 1..] == reqs[i..] && reqs[..i][0] == reqs[0];
      BuildStep(w, st, fuel, referrer, reqs, list);
      BuildStep(w, st, fuel, referrer, reqs[..i], list);
      BuildSplit(w, st, fuel, referrer, reqs[1..], AfterRequest(w, st, fuel, referrer, reqs[0], list).value, i - 1);
    }
  }

  /** The list for the first i requests, and after it the module of the next one, if that is in the
      evaluation phase and its module not listed yet, come first in the list. */
  lemma ListedInOrder(w: World, st: seq<Progress>, fuel: nat, m: nat, i: nat)
    requires Tracked(w, st) && m < |w| && w[m].SourceText? && EvaluationListOf(w, st, fuel, m).Some?
    requires i < |w[m].requested| && w[m].requested[i].phase == EvaluationPhase
    ensures Requestable(w, m, w[m].requested[..i]) && IsLoaded(w[m], w[m].requested[i])
    ensures var list := EvaluationListOf(w, st, fuel, m).value;
            var pre := BuildEvaluationList(w, st, fuel, m, w[m].requested[..i], []);
            var t := GetImportedModule(w, m, w[m].requested[i]);
            pre.Some? && (if t in pre.value then pre.value else pre.value + [t]) <= list
  {
    hide Valid, IsLoaded, BuildEvaluationList, GetImportedModule;
    AllRequestable(w, m);
    var reqs := w[m].requested;
    BuildSplit(w, st, fuel, m, reqs, [], i);
    var pre := BuildEvaluationList(w, st, fuel, m, reqs[..i], []).value;
    FirstTarget(w, st, fuel, m, reqs[i..], pre);
  }

  lemma FirstTarget(w: World, st: seq<Progress>, fuel: nat, referrer: nat, reqs: seq<ModuleRequest>, list: seq<nat>)
    requires Tracked(w, st) && Requestable(w, referrer, reqs) && reqs != [] && reqs[0].phase == EvaluationPhase
    requires BuildEvaluationList(w, st, fuel, referrer, reqs, list).Some? && IsLoaded(w[referrer], reqs[0])
    ensures var t := GetImportedModule(w, referrer, reqs[0]);
            (if t in list then list else list + [t]) <= BuildEvaluationList(w, st, fuel, referrer, reqs, list).value
  {
    hide Valid, IsLoaded, GetImportedModule, OptionalRequests, GatherRequests, AppendNew, Requestable;
    RequestableParts(w, referrer, reqs);
    var t := GetImportedModule(w, referrer, reqs[0]);
    var l := if t in list then list else list + [t];
    OptionalRequestsLoaded(w, t, reqs[0].importedNames);
    var optional := OptionalRequests(Optional(w, t), reqs[0].importedNames);
    if w[t].Synthetic? {
      BuildAppends(w, st, fuel, referrer, reqs[1..], l);
    } else if reqs[0].importedNames.All? {
      var b := GatherRequests(w, st, fuel - 1, t, optional, {}, []).value;
      AppendNewAppends(l, b.list);
      BuildAppends(w, st, fuel, referrer, reqs[1..], AppendNew(l, b.list));
    } else {
      BuildAppends(w, st, fuel - 1, t, optional, l);
      BuildAppends(w, st, fuel, referrer, reqs[1..], BuildEvaluationList(w, st, fuel - 1, t, optional, l).value);
    }
  }
}
