/** The loops that build evaluation lists, on the sets and lists that they grow in place.  They
    return wherever the specification has a value at some depth. */
module EvaluationListMethod {
  import opened Wrappers
  import opened ImportedNames
  import opened ModuleRequests
  import opened ModuleRecords
  import opened LinkingList
  import EL = EvaluationList

  method ListAppendUnique(list1: seq<nat>, list2: seq<nat>) returns (target: seq<nat>)
    ensures target == AppendNew(list1, list2)
  {
    target := list1;
    for i := 0 to |list2|
      invariant AppendNew(target, list2[i..]) == AppendNew(list1, list2)
    {
      assert list2[i..][1..] == list2[i + 1..];
      if list2[i] !in target {
        target := target + [list2[i]];
      }
    }
  }

  /** The set of modules that one run of gathering shares. */
  class Seen {
    var modules: set<nat>

    constructor ()
      ensures modules == {}
    {
      modules := {};
    }

    method GatherAsynchronousTransitiveDependencies(w: World, st: seq<EL.Progress>, m: nat,
        ghost fuel: nat) returns (result: seq<nat>)
      requires EL.Tracked(w, st) && m < |w| && EL.Gather(w, st, fuel, m, modules).Some?
      modifies this
      ensures EL.Gather(w, st, fuel, m, old(modules)) == Some(EL.Found(result, modules))
      decreases fuel, 1, 0
    {
      hide Valid, EL.GatherRequests;
      result := [];
      if m in modules {
        return;
      }
      modules := modules + {m};
      if w[m].Synthetic? {
        return;
      }
      if st[m].Settled? {
        return;
      }
      if st[m].Awaiting? {
        result := [m];
        return;
      }
      AllRequestable(w, m);
      result := GatherForRequests(w, st, m, w[m].requested, fuel);
    }

    method GatherForRequests(w: World, st: seq<EL.Progress>, referrer: nat, requests: seq<ModuleRequest>,
        ghost fuel: nat) returns (result: seq<nat>)
      requires EL.Tracked(w, st) && Requestable(w, referrer, requests)
      requires EL.GatherRequests(w, st, fuel, referrer, requests, modules, []).Some?
      modifies this
      ensures EL.GatherRequests(w, st, fuel, referrer, requests, old(modules), []) == Some(EL.Found(result, modules))
      decreases fuel, 0, 0
    {
      hide Valid, IsLoaded, Requestable, GetImportedModule, OptionalRequests, AppendNew, EL.Gather;
      RequestableParts(w, referrer, requests);
      result := [];
      assert requests[0..] == requests;
      for i := 0 to |requests|
        invariant EL.GatherRequests(w, st, fuel, referrer, requests[i..], modules, result)
               == EL.GatherRequests(w, st, fuel, referrer, requests, old(modules), [])
      {
        assert requests[i..][0] == requests[i] && requests[i..][1..] == requests[i + 1..];
        if requests[i].phase != SourcePhase {
          var requiredModule := GetImportedModule(w, referrer, requests[i]);
          var gathered := GatherAsynchronousTransitiveDependencies(w, st, requiredModule, fuel - 1);
          result := ListAppendUnique(result, gathered);
          OptionalRequestsLoaded(w, requiredModule, requests[i].importedNames);
          if w[requiredModule].SourceText? {
            var optionalIndirectRequests := GetOptionalIndirectExportsModuleRequests(Optional(w, requiredModule),
                requests[i].importedNames);
            gathered := GatherForRequests(w, st, requiredModule, optionalIndirectRequests, fuel - 1);
            result := ListAppendUnique(result, gathered);
          } else {
            NothingToAppend(result);
          }
        }
      }
    }
  }

  lemma NothingToAppend(list: seq<nat>)
    ensures AppendNew(list, []) == list
  {
  }

  class EvaluationListBuilder {
    var evaluationList: seq<nat>

    constructor ()
      ensures evaluationList == []
    {
      evaluationList := [];
    }

    method BuildEvaluationList(w: World, st: seq<EL.Progress>, referrer: nat, moduleRequests: seq<ModuleRequest>,
        ghost fuel: nat)
      requires EL.Tracked(w, st) && Requestable(w, referrer, moduleRequests)
      requires EL.BuildEvaluationList(w, st, fuel, referrer, moduleRequests, evaluationList).Some?
      modifies this
      ensures EL.BuildEvaluationList(w, st, fuel, referrer, moduleRequests, old(evaluationList))
           == Some(evaluationList)
      decreases fuel
    {
      hide Valid, IsLoaded, Requestable, GetImportedModule, OptionalRequests, AppendNew, EL.Gather, EL.GatherRequests;
      RequestableParts(w, referrer, moduleRequests);
      assert moduleRequests[0..] == moduleRequests;
      for i := 0 to |moduleRequests|
        invariant EL.BuildEvaluationList(w, st, fuel, referrer, moduleRequests[i..], evaluationList)
               == EL.BuildEvaluationList(w, st, fuel, referrer, moduleRequests, old(evaluationList))
      {
        var request := moduleRequests[i];
        assert moduleRequests[i..][0] == request && moduleRequests[i..][1..] == moduleRequests[i + 1..];
        if request.phase != SourcePhase {
          var requiredModule := GetImportedModule(w, referrer, request);
          if request.phase == DeferPhase {
            var seen := new Seen();
            var gathered := seen.GatherAsynchronousTransitiveDependencies(w, st, requiredModule, fuel - 1);
            evaluationList := ListAppendUnique(evaluationList, gathered);
          } else if requiredModule !in evaluationList {
            evaluationList := evaluationList + [requiredModule];
          }
          if w[requiredModule].SourceText? {
            OptionalRequestsLoaded(w, requiredModule, request.importedNames);
            var optionalIndirectRequests := GetOptionalIndirectExportsModuleRequests(Optional(w, requiredModule),
                request.importedNames);
            if request.importedNames.All? {
              var seen := new Seen();
              var gathered := seen.GatherForRequests(w, st, requiredModule, optionalIndirectRequests, fuel - 1);
              evaluationList := ListAppendUnique(evaluationList, gathered);
            } else {
              BuildEvaluationList(w, st, requiredModule, optionalIndirectRequests, fuel - 1);
            }
          }
        }
      }
    }
  }
}
