/** If building a list ends, no name that it asks for comes back to itself. */
module EvaluationListEnds {
  import opened ImportedNames
  import opened ModuleRequests
  import opened ModuleRecords
  import opened LinkingList
  import opened LinkingDemand
  import opened OptionalChains
  import opened EvaluationList

  /** Every chain from name n of module t has at most d links and stays inside `seen`. */
  ghost predicate Covered(w: World, seen: set<nat>, t: nat, n: string, d: nat)
    requires Valid(w)
    decreases d
  {
    forall k: nat, u: nat :: Follows(w, t, k, n, u) ==>
      u in seen && d > 0 && forall n' :: Wants(Optional(w, t)[k], n') ==> Covered(w, seen, u, n', d - 1)
  }

  /** All of m's requests stay inside `seen`. */
  ghost predicate ModuleCovered(w: World, seen: set<nat>, m: nat, d: nat)
    requires Valid(w)
  {
    forall i: nat, u: nat :: Requests(w, m, i, u) ==>
      u in seen && forall n :: Denotes(w[m].requested[i].importedNames, n) ==> Covered(w, seen, u, n, d)
  }

  /** Everything that was newly seen, and is gathered from, has been worked off. */
  ghost predicate NewCovered(w: World, st: seq<Progress>, before: set<nat>, seen: set<nat>, d: nat)
    requires Valid(w)
  {
    forall x :: x in seen && x !in before && Walked(w, st, x) ==> ModuleCovered(w, seen, x, d)
  }

  ghost predicate RequestCovered(w: World, seen: set<nat>, referrer: nat, req: ModuleRequest, d: nat)
    requires Valid(w) && referrer < |w| && IsLoaded(w[referrer], req)
  {
    req.phase != SourcePhase ==>
      var u := GetImportedModule(w, referrer, req);
      u in seen && d > 0 && forall n :: Denotes(req.importedNames, n) ==> Covered(w, seen, u, n, d - 1)
  }

  lemma CoveredNext(w: World, seen: set<nat>, t: nat, n: string, d: nat, k: nat, u: nat)
    requires Valid(w) && Covered(w, seen, t, n, d) && Follows(w, t, k, n, u)
    ensures u in seen && d > 0
    ensures forall n' :: Wants(Optional(w, t)[k], n') ==> Covered(w, seen, u, n', d - 1)
  {
    hide Valid, IsLoaded, GetImportedModule, Denotes;
  }

  lemma CoveredIf(w: World, seen: set<nat>, t: nat, n: string, d: nat)
    requires Valid(w)
    requires forall k: nat, u: nat :: Follows(w, t, k, n, u) ==>
               u in seen && d > 0
               && forall n' :: Wants(Optional(w, t)[k], n') ==> Covered(w, seen, u, n', d - 1)
    ensures Covered(w, seen, t, n, d)
  {
    hide Valid, IsLoaded, GetImportedModule, Denotes;
  }

  lemma {:induction false} CoveredStays(w: World, seen: set<nat>, seen': set<nat>, t: nat, n: string, d: nat, d': nat)
    requires Valid(w) && Covered(w, seen, t, n, d) && seen <= seen' && d <= d'
    ensures Covered(w, seen', t, n, d')
    decreases d
  {
    hide Valid, IsLoaded, GetImportedModule, Denotes, Covered;
    forall k: nat, u: nat | Follows(w, t, k, n, u)
      ensures u in seen' && d' > 0
      ensures forall n' :: Wants(Optional(w, t)[k], n') ==> Covered(w, seen', u, n', d' - 1)
    {
      CoveredNext(w, seen, t, n, d, k, u);
      forall n' | Wants(Optional(w, t)[k], n') ensures Covered(w, seen', u, n', d' - 1) {
        CoveredStays(w, seen, seen', u, n', d - 1, d' - 1);
      }
    }
    CoveredIf(w, seen', t, n, d');
  }

  lemma {:induction false} CoveredBounded(w: World, seen: set<nat>, t: nat, n: string, d: nat)
    requires Valid(w) && Covered(w, seen, t, n, d)
    ensures Bounded(w, false, t, n, d)
    decreases d
  {
    hide Valid, IsLoaded, GetImportedModule, Denotes;
    forall k: nat, u: nat, n' | Follows(w, t, k, n, u) && Wants(Optional(w, t)[k], n')
      ensures Bounded(w, false, u, n', d - 1)
    {
      CoveredBounded(w, seen, u, n', d - 1);
    }
  }

  lemma ModuleCoveredStays(w: World, seen: set<nat>, seen': set<nat>, m: nat, d: nat, d': nat)
    requires Valid(w) && ModuleCovered(w, seen, m, d) && seen <= seen' && d <= d'
    ensures ModuleCovered(w, seen', m, d')
  {
    hide Valid, IsLoaded, GetImportedModule, Denotes, Covered;
    forall i: nat, u: nat, n | Requests(w, m, i, u) && Denotes(w[m].requested[i].importedNames, n)
      ensures Covered(w, seen', u, n, d')
    {
      CoveredStays(w, seen, seen', u, n, d, d');
    }
  }

  lemma NewCoveredTrans(w: World, st: seq<Progress>, a: set<nat>, b: set<nat>, c: set<nat>, d: nat, d': nat)
    requires Valid(w) && NewCovered(w, st, a, b, d) && NewCovered(w, st, b, c, d') && b <= c && d <= d'
    ensures NewCovered(w, st, a, c, d')
  {
    hide Valid, ModuleCovered;
    forall x | x in c && x !in a && Walked(w, st, x) ensures ModuleCovered(w, c, x, d') {
      if x in b {
        ModuleCoveredStays(w, b, c, x, d, d');
      }
    }
  }

  lemma RequestCoveredStays(w: World, seen: set<nat>, seen': set<nat>, referrer: nat, req: ModuleRequest, d: nat)
    requires Valid(w) && referrer < |w| && IsLoaded(w[referrer], req)
    requires RequestCovered(w, seen, referrer, req, d) && seen <= seen'
    ensures RequestCovered(w, seen', referrer, req, d)
  {
    hide Valid, IsLoaded, GetImportedModule, Denotes, Covered;
    if req.phase != SourcePhase {
      var u := GetImportedModule(w, referrer, req);
      forall n | Denotes(req.importedNames, n) ensures Covered(w, seen', u, n, d - 1) {
        CoveredStays(w, seen, seen', u, n, d - 1, d - 1);
      }
    }
  }

  /** Covered requests for optional re-exports cover the names that selected these. */
  lemma OptionalCovered(w: World, seen: set<nat>, t: nat, names: Names, d: nat)
    requires Valid(w) && t < |w| && Requestable(w, t, OptionalRequests(Optional(w, t), names))
    requires var reqs := OptionalRequests(Optional(w, t), names);
             forall i :: 0 <= i < |reqs| ==> RequestCovered(w, seen, t, reqs[i], d)
    ensures forall n :: Denotes(names, n) ==> Covered(w, seen, t, n, d)
  {
    hide Valid, IsLoaded, GetImportedModule, Denotes, OptionalRequests;
    forall n, k: nat, u: nat | Denotes(names, n) && Follows(w, t, k, n, u)
      ensures u in seen && d > 0
      ensures forall n' :: Wants(Optional(w, t)[k], n') ==> Covered(w, seen, u, n', d - 1)
    {
      var i := EntryRequested(w, t, names, k);
      assert RequestCovered(w, seen, t, OptionalRequests(Optional(w, t), names)[i], d);
    }
  }

  lemma SyntheticCovered(w: World, seen: set<nat>, t: nat, d: nat)
    requires Valid(w) && t < |w| && w[t].Synthetic?
    ensures forall n :: Covered(w, seen, t, n, d)
  {
    hide Valid;
  }

  lemma {:induction false} GatherCovers(w: World, st: seq<Progress>, fuel: nat, m: nat, seen: set<nat>)
    requires Tracked(w, st) && m < |w| && Gather(w, st, fuel, m, seen).Some?
    ensures var s := Gather(w, st, fuel, m, seen).value.seen;
            seen <= s && m in s && NewCovered(w, st, seen, s, fuel)
    decreases fuel, 1, 0
  {
    hide Valid, IsLoaded, ModuleCovered, RequestCovered, GatherRequests;
    if m !in seen && Walked(w, st, m) {
      AllRequestable(w, m);
      RequestableParts(w, m, w[m].requested);
      GatherRequestsCovers(w, st, fuel, m, w[m].requested, seen + {m}, []);
      RequestedCovered(w, Gather(w, st, fuel, m, seen).value.seen, m, fuel);
    }
  }

  lemma RequestedCovered(w: World, seen: set<nat>, m: nat, d: nat)
    requires Valid(w) && m < |w| && w[m].SourceText? && Requestable(w, m, w[m].requested)
    requires forall i :: 0 <= i < |w[m].requested| ==> RequestCovered(w, seen, m, w[m].requested[i], d)
    ensures ModuleCovered(w, seen, m, d)
  {
    hide Valid, IsLoaded, GetImportedModule, Denotes, Covered;
    forall i: nat, u: nat, n | Requests(w, m, i, u) && Denotes(w[m].requested[i].importedNames, n)
      ensures Covered(w, seen, u, n, d)
    {
      assert RequestCovered(w, seen, m, w[m].requested[i], d);
      CoveredStays(w, seen, seen, u, n, d - 1, d);
    }
    forall i: nat, u: nat | Requests(w, m, i, u) ensures u in seen {
      assert RequestCovered(w, seen, m, w[m].requested[i], d);
    }
  }

  lemma {:induction false} GatherRequestsCovers(w: World, st: seq<Progress>, fuel: nat, referrer: nat,
      reqs: seq<ModuleRequest>, seen: set<nat>, result: seq<nat>)
    requires Tracked(w, st) && Requestable(w, referrer, reqs)
    requires GatherRequests(w, st, fuel, referrer, reqs, seen, result).Some?
    ensures var s := GatherRequests(w, st, fuel, referrer, reqs, seen, result).value.seen;
            && seen <= s && NewCovered(w, st, seen, s, fuel)
            && forall i :: 0 <= i < |reqs| ==> RequestCovered(w, s, referrer, reqs[i], fuel)
    decreases fuel, 0, |reqs|
  {
    hide Valid, IsLoaded, ModuleCovered, RequestCovered, NewCovered, Gather, OptionalRequests, Requestable, AppendNew,
        GetImportedModule;
    RequestableParts(w, referrer, reqs);
    var s := GatherRequests(w, st, fuel, referrer, reqs, seen, result).value.seen;
    if reqs == [] {
      NothingNew(w, st, seen, fuel);
    } else if reqs[0].phase == SourcePhase {
      GatherRequestsCovers(w, st, fuel, referrer, reqs[1..], seen, result);
      SourceCovered(w, s, referrer, reqs[0], fuel);
      FirstAndRest(w, s, referrer, reqs, fuel);
    } else {
      var t := GetImportedModule(w, referrer, reqs[0]);
      OptionalRequestsLoaded(w, t, reqs[0].importedNames);
      var a, b := OneGathered(w, st, fuel, referrer, reqs[0], seen);
      GatherRequestsCovers(w, st, fuel, referrer, reqs[1..], b.seen, AppendNew(AppendNew(result, a.list), b.list));
      RequestCoveredStays(w, b.seen, s, referrer, reqs[0], fuel);
      NewCoveredTrans(w, st, seen, b.seen, s, fuel, fuel);
      FirstAndRest(w, s, referrer, reqs, fuel);
    }
  }

  lemma NothingNew(w: World, st: seq<Progress>, seen: set<nat>, d: nat)
    requires Valid(w)
    ensures NewCovered(w, st, seen, seen, d)
  {
    hide Valid;
  }

  lemma SourceCovered(w: World, seen: set<nat>, referrer: nat, req: ModuleRequest, d: nat)
    requires Valid(w) && referrer < |w| && IsLoaded(w[referrer], req) && req.phase == SourcePhase
    ensures RequestCovered(w, seen, referrer, req, d)
  {
    hide Valid, IsLoaded;
  }

  lemma FirstAndRest(w: World, seen: set<nat>, referrer: nat, reqs: seq<ModuleRequest>, d: nat)
    requires Valid(w) && Requestable(w, referrer, reqs) && reqs != [] && Requestable(w, referrer, reqs[1..])
    requires RequestCovered(w, seen, referrer, reqs[0], d)
    requires forall i :: 0 <= i < |reqs[1..]| ==> RequestCovered(w, seen, referrer, reqs[1..][i], d)
    ensures forall i :: 0 <= i < |reqs| ==> RequestCovered(w, seen, referrer, reqs[i], d)
  {
    hide Valid, IsLoaded, RequestCovered;
    forall i | 0 <= i < |reqs| ensures RequestCovered(w, seen, referrer, reqs[i], d) {
      if i > 0 {
        assert reqs[i] == reqs[1..][i - 1];
      }
    }
  }

  /** One round of the loop over requests: gather from the module, then from its optional re-exports. */
  lemma {:induction false} OneGathered(w: World, st: seq<Progress>, fuel: nat, referrer: nat, req: ModuleRequest,
      seen: set<nat>) returns (a: Found, b: Found)
    requires Tracked(w, st) && fuel > 0 && referrer < |w| && IsLoaded(w[referrer], req) && req.phase != SourcePhase
    requires var t := GetImportedModule(w, referrer, req);
             var g := Gather(w, st, fuel - 1, t, seen);
             && Requestable(w, t, OptionalRequests(Optional(w, t), req.importedNames))
             && g.Some?
             && (w[t].Synthetic? || GatherRequests(w, st, fuel - 1, t,
                   OptionalRequests(Optional(w, t), req.importedNames), g.value.seen, []).Some?)
    ensures var t := GetImportedModule(w, referrer, req);
            && a == Gather(w, st, fuel - 1, t, seen).value
            && b == (if w[t].Synthetic? then Found([], a.seen)
                       else GatherRequests(w, st, fuel - 1, t, OptionalRequests(Optional(w, t), req.importedNames),
                           a.seen, []).value)
            && seen <= b.seen && NewCovered(w, st, seen, b.seen, fuel)
            && RequestCovered(w, b.seen, referrer, req, fuel)
    decreases fuel, 0, 0
  {
    hide Valid, IsLoaded, ModuleCovered, NewCovered, Gather, GatherRequests, OptionalRequests, Requestable, Covered,
        GetImportedModule, Denotes;
    var t := GetImportedModule(w, referrer, req);
    GatherCovers(w, st, fuel - 1, t, seen);
    a := Gather(w, st, fuel - 1, t, seen).value;
    var optional := OptionalRequests(Optional(w, t), req.importedNames);
    if w[t].Synthetic? {
      b := Found([], a.seen);
      SyntheticCovered(w, a.seen, t, fuel - 1);
      NothingNew(w, st, a.seen, fuel);
    } else {
      b := GatherRequests(w, st, fuel - 1, t, optional, a.seen, []).value;
      GatherRequestsCovers(w, st, fuel - 1, t, optional, a.seen, []);
      OptionalCovered(w, b.seen, t, req.importedNames, fuel - 1);
      NothingNew(w, st, b.seen, fuel);
      NewCoveredTrans(w, st, a.seen, b.seen, b.seen, fuel - 1, fuel);
    }
    NewCoveredTrans(w, st, seen, a.seen, b.seen, fuel - 1, fuel);
  }

  /** x is a module that waits for top-level await. */
  predicate Awaits(w: World, st: seq<Progress>, x: nat) {
    x < |w| && x < |st| && w[x].SourceText? && st[x].Awaiting?
  }

  /** Gathering lists exactly the waiting modules among those that it newly saw. */
  lemma {:induction false} GathersAwaiting(w: World, st: seq<Progress>, fuel: nat, m: nat, seen: set<nat>)
    requires Tracked(w, st) && m < |w| && Gather(w, st, fuel, m, seen).Some?
    ensures var r := Gather(w, st, fuel, m, seen).value;
            && seen <= r.seen
            && forall t :: t in r.list <==> t in r.seen && t !in seen && Awaits(w, st, t)
    decreases fuel, 1, 0
  {
    hide Valid, GatherRequests;
    if m !in seen && Walked(w, st, m) {
      AllRequestable(w, m);
      RequestsGather(w, st, fuel, m, w[m].requested, seen + {m}, []);
    }
  }

  lemma {:induction false} RequestsGather(w: World, st: seq<Progress>, fuel: nat, referrer: nat,
      reqs: seq<ModuleRequest>, seen: set<nat>, result: seq<nat>)
    requires Tracked(w, st) && Requestable(w, referrer, reqs)
    requires GatherRequests(w, st, fuel, referrer, reqs, seen, result).Some?
    ensures var r := GatherRequests(w, st, fuel, referrer, reqs, seen, result).value;
            && seen <= r.seen
            && forall t :: t in r.list <==> t in result || (t in r.seen && t !in seen && Awaits(w, st, t))
    decreases fuel, 0, |reqs|
  {
    hide Valid, IsLoaded, Requestable, GetImportedModule, OptionalRequests, Gather, Awaits;
    RequestableParts(w, referrer, reqs);
    if reqs != [] {
      if reqs[0].phase == SourcePhase {
        RequestsGather(w, st, fuel, referrer, reqs[1..], seen, result);
      } else {
        var t := GetImportedModule(w, referrer, reqs[0]);
        var a := Gather(w, st, fuel - 1, t, seen).value;
        GathersAwaiting(w, st, fuel - 1, t, seen);
        OptionalRequestsLoaded(w, t, reqs[0].importedNames);
        var optional := OptionalRequests(Optional(w, t), reqs[0].importedNames);
        var b := Found([], a.seen);
        if w[t].SourceText? {
          RequestsGather(w, st, fuel - 1, t, optional, a.seen, []);
          b := GatherRequests(w, st, fuel - 1, t, optional, a.seen, []).value;
        }
        RequestsGather(w, st, fuel, referrer, reqs[1..], b.seen, AppendNew(AppendNew(result, a.list), b.list));
      }
    }
  }

  /** Building keeps what is on the list, and its order. */
  lemma {:induction false} BuildAppends(w: World, st: seq<Progress>, fuel: nat, referrer: nat,
      reqs: seq<ModuleRequest>, list: seq<nat>)
    requires Tracked(w, st) && Requestable(w, referrer, reqs)
    requires BuildEvaluationList(w, st, fuel, referrer, reqs, list).Some?
    ensures list <= BuildEvaluationList(w, st, fuel, referrer, reqs, list).value
    decreases fuel, |reqs|
  {
    hide Valid, IsLoaded, Requestable, GetImportedModule, OptionalRequests, GatherRequests, Gather, AppendNew;
    RequestableParts(w, referrer, reqs);
    if reqs != [] {
      if reqs[0].phase == SourcePhase {
        BuildAppends(w, st, fuel, referrer, reqs[1..], list);
      } else {
        var t := GetImportedModule(w, referrer, reqs[0]);
        var l := Listed(w, st, fuel - 1, t, reqs[0], list).value;
        ListedAppends(w, st, fuel - 1, t, reqs[0], list);
        OptionalRequestsLoaded(w, t, reqs[0].importedNames);
        var optional := OptionalRequests(Optional(w, t), reqs[0].importedNames);
        if w[t].Synthetic? {
          BuildAppends(w, st, fuel, referrer, reqs[1..], l);
        } else if reqs[0].importedNames.All? {
          var b := GatherRequests(w, st, fuel - 1, t, optional, {}, []).value;
          AppendNewAppends(l, b.list);
          BuildAppends(w, st, fuel, referrer, reqs[1..], AppendNew(l, b.list));
        } else {
          BuildAppends(w, st, fuel - 1, t, optional, l);
          BuildAppends(w, st, fuel, referrer, reqs[1..], BuildEvaluationList(w, st, fuel - 1, t, optional, l).value);
        }
      }
    }
  }

  lemma ListedAppends(w: World, st: seq<Progress>, fuel: nat, t: nat, req: ModuleRequest, list: seq<nat>)
    requires Tracked(w, st) && t < |w| && Listed(w, st, fuel, t, req, list).Some?
    ensures list <= Listed(w, st, fuel, t, req, list).value
  {
    hide Valid, Gather;
    if req.phase == DeferPhase {
      AppendNewAppends(list, Gather(w, st, fuel, t, {}).value.list);
    }
  }

  lemma {:induction false} AppendNewAppends(list: seq<nat>, more: seq<nat>)
    ensures list <= AppendNew(list, more)
    decreases |more|
  {
    if more != [] {
      AppendNewAppends(if more[0] in list then list else list + [more[0]], more[1..]);
    }
  }

  lemma Included(list: seq<nat>, longer: seq<nat>)
    requires list <= longer
    ensures forall t :: t in list ==> t in longer
  {
    assert forall i :: 0 <= i < |list| ==> list[i] == longer[i];
  }

  /** A set that gathering has worked off completely, with the waiting modules of it on the list. */
  ghost predicate WorkedOff(w: World, st: seq<Progress>, goal: seq<nat>, seen: set<nat>, d: nat)
    requires Valid(w)
  {
    && (forall x :: x in seen && Walked(w, st, x) ==> ModuleCovered(w, seen, x, d))
    && (forall x :: x in seen && Awaits(w, st, x) ==> x in goal)
  }

  ghost predicate FromFine(w: World, st: seq<Progress>, goal: seq<nat>, d: nat, t: nat)
    requires Valid(w)
  {
    exists seen :: WorkedOff(w, st, goal, seen, d) && t in seen
  }

  ghost predicate GatheredFine(w: World, st: seq<Progress>, goal: seq<nat>, d: nat, t: nat, n: string, links: nat)
    requires Valid(w)
  {
    exists seen :: WorkedOff(w, st, goal, seen, d) && Covered(w, seen, t, n, links)
  }

  /** The same for a name asked for by the list being built: the chains from it are bounded, and
      whatever they gather from has been worked off. */
  ghost predicate ListedFine(w: World, st: seq<Progress>, goal: seq<nat>, d: nat, t: nat, n: string, links: nat)
    requires Valid(w)
    decreases links
  {
    forall k: nat, u: nat :: Follows(w, t, k, n, u) ==>
      && links > 0
      && (Optional(w, t)[k].request.phase == DeferPhase ==> FromFine(w, st, goal, d, u))
      && forall n' :: Wants(Optional(w, t)[k], n') ==>
           if NewNames(Optional(w, t)[k]).All? then GatheredFine(w, st, goal, d, u, n', links - 1)
           else ListedFine(w, st, goal, d, u, n', links - 1)
  }

  ghost predicate Fine(w: World, st: seq<Progress>, goal: seq<nat>, d: nat, item: Item)
    requires Valid(w)
  {
    match item
    case From(t) => FromFine(w, st, goal, d, t)
    case Name(t, n, true) => exists links: nat :: GatheredFine(w, st, goal, d, t, n, links)
    case Name(t, n, false) => exists links: nat :: ListedFine(w, st, goal, d, t, n, links)
  }

  ghost predicate RequestFine(w: World, st: seq<Progress>, goal: seq<nat>, d: nat, referrer: nat,
      req: ModuleRequest, links: nat)
    requires Valid(w) && referrer < |w| && IsLoaded(w[referrer], req)
  {
    req.phase != SourcePhase ==>
      var u := GetImportedModule(w, referrer, req);
      && links > 0
      && (req.phase == DeferPhase ==> FromFine(w, st, goal, d, u))
      && forall n :: Denotes(req.importedNames, n) ==>
           if req.importedNames.All? then GatheredFine(w, st, goal, d, u, n, links - 1)
           else ListedFine(w, st, goal, d, u, n, links - 1)
  }

  lemma {:induction false} GatheredIsListed(w: World, st: seq<Progress>, goal: seq<nat>, d: nat, t: nat,
      n: string, links: nat)
    requires Valid(w) && GatheredFine(w, st, goal, d, t, n, links)
    ensures ListedFine(w, st, goal, d, t, n, links)
    decreases links
  {
    hide Valid, IsLoaded, GetImportedModule, Denotes, WorkedOff;
    var seen :| WorkedOff(w, st, goal, seen, d) && Covered(w, seen, t, n, links);
    forall k: nat, u: nat | Follows(w, t, k, n, u)
      ensures links > 0 && FromFine(w, st, goal, d, u)
      ensures forall n' :: Wants(Optional(w, t)[k], n') ==>
                GatheredFine(w, st, goal, d, u, n', links - 1) && ListedFine(w, st, goal, d, u, n', links - 1)
    {
      forall n' | Wants(Optional(w, t)[k], n')
        ensures GatheredFine(w, st, goal, d, u, n', links - 1) && ListedFine(w, st, goal, d, u, n', links - 1)
      {
        assert Covered(w, seen, u, n', links - 1);
        GatheredIsListed(w, st, goal, d, u, n', links - 1);
      }
    }
  }

  lemma {:induction false} ListedBounded(w: World, st: seq<Progress>, goal: seq<nat>, d: nat, t: nat, n: string,
      links: nat)
    requires Valid(w) && ListedFine(w, st, goal, d, t, n, links)
    ensures Bounded(w, false, t, n, links)
    decreases links
  {
    hide Valid, IsLoaded, GetImportedModule, Denotes, FromFine, GatheredFine;
    forall k: nat, u: nat | Follows(w, t, k, n, u)
      ensures links > 0
      ensures forall n' :: Wants(Optional(w, t)[k], n') ==> Bounded(w, false, u, n', links - 1)
    {
      forall n' | Wants(Optional(w, t)[k], n') ensures Bounded(w, false, u, n', links - 1) {
        if NewNames(Optional(w, t)[k]).All? {
          GatheredIsListed(w, st, goal, d, u, n', links - 1);
        }
        ListedBounded(w, st, goal, d, u, n', links - 1);
      }
    }
  }

  lemma FineEnds(w: World, st: seq<Progress>, goal: seq<nat>, d: nat, t: nat, n: string, g: bool)
    requires Valid(w) && Fine(w, st, goal, d, Name(t, n, g))
    ensures !ComesBack(w, false, t, n)
  {
    hide Valid, ListedFine, GatheredFine, ComesBack, Bounded;
    if g {
      var links: nat :| GatheredFine(w, st, goal, d, t, n, links);
      GatheredIsListed(w, st, goal, d, t, n, links);
      ListedBounded(w, st, goal, d, t, n, links);
      BoundedEnds(w, false, t, n, links);
    } else {
      var links: nat :| ListedFine(w, st, goal, d, t, n, links);
      ListedBounded(w, st, goal, d, t, n, links);
      BoundedEnds(w, false, t, n, links);
    }
  }

  lemma FineNext(w: World, st: seq<Progress>, goal: seq<nat>, d: nat, item: Item, item': Item)
    requires Valid(w) && Fine(w, st, goal, d, item) && Next(w, st, item, item')
    ensures Fine(w, st, goal, d, item')
  {
    match item
    case From(x) => FromNext(w, st, goal, d, x, item');
    case Name(t, n, true) => GatheredNext(w, st, goal, d, t, n, item');
    case Name(t, n, false) => ListedNext(w, st, goal, d, t, n, item');
  }

  lemma FromNext(w: World, st: seq<Progress>, goal: seq<nat>, d: nat, x: nat, item: Item)
    requires Valid(w) && FromFine(w, st, goal, d, x) && Walked(w, st, x) && RequestAsks(w, x, true, item)
    ensures Fine(w, st, goal, d, item)
  {
    hide Valid, IsLoaded, GetImportedModule, Denotes, Covered;
    var seen :| WorkedOff(w, st, goal, seen, d) && x in seen;
    assert ModuleCovered(w, seen, x, d);
    if item.Name? {
      assert GatheredFine(w, st, goal, d, item.t, item.n, d);
    }
  }

  lemma GatheredNext(w: World, st: seq<Progress>, goal: seq<nat>, d: nat, t: nat, n: string, item: Item)
    requires Valid(w) && EntryAsks(w, t, n, true, item)
    requires exists links: nat :: GatheredFine(w, st, goal, d, t, n, links)
    ensures Fine(w, st, goal, d, item)
  {
    hide Valid, IsLoaded, GetImportedModule, Denotes, WorkedOff;
    var links: nat :| GatheredFine(w, st, goal, d, t, n, links);
    var seen :| WorkedOff(w, st, goal, seen, d) && Covered(w, seen, t, n, links);
    if item.Name? {
      assert GatheredFine(w, st, goal, d, item.t, item.n, links - 1);
    }
  }

  lemma ListedNext(w: World, st: seq<Progress>, goal: seq<nat>, d: nat, t: nat, n: string, item: Item)
    requires Valid(w) && EntryAsks(w, t, n, false, item) && exists links: nat :: ListedFine(w, st, goal, d, t, n, links)
    ensures Fine(w, st, goal, d, item)
  {
    hide Valid, IsLoaded, GetImportedModule, Denotes, FromFine, GatheredFine;
    var links: nat :| ListedFine(w, st, goal, d, t, n, links);
    var k: nat, u: nat :| Follows(w, t, k, n, u)
        && Asks(u, Optional(w, t)[k].request.phase, NewNames(Optional(w, t)[k]), false, item);
  }

  lemma StartNext(w: World, st: seq<Progress>, goal: seq<nat>, d: nat, m: nat, item: Item, links: nat)
    requires Valid(w) && m < |w| && w[m].SourceText? && Requestable(w, m, w[m].requested)
    requires forall i :: 0 <= i < |w[m].requested| ==> RequestFine(w, st, goal, d, m, w[m].requested[i], links)
    requires RequestAsks(w, m, false, item)
    ensures Fine(w, st, goal, d, item)
  {
    hide Valid, IsLoaded, GetImportedModule, Denotes, FromFine, GatheredFine, ListedFine;
    var i: nat, u: nat :| Requests(w, m, i, u)
        && Asks(u, w[m].requested[i].phase, w[m].requested[i].importedNames, false, item);
    assert RequestFine(w, st, goal, d, m, w[m].requested[i], links);
  }

  lemma {:induction false} ReachedFine(w: World, st: seq<Progress>, goal: seq<nat>, d: nat, m: nat, item: Item,
      links: nat, steps: nat)
    requires Valid(w) && m < |w| && w[m].SourceText? && Requestable(w, m, w[m].requested)
    requires forall i :: 0 <= i < |w[m].requested| ==> RequestFine(w, st, goal, d, m, w[m].requested[i], links)
    requires ReachedIn(w, st, m, item, steps)
    ensures Fine(w, st, goal, d, item)
    decreases steps
  {
    hide Valid, IsLoaded, RequestFine, Fine, Next, RequestAsks, Requestable;
    if steps == 0 {
      StartNext(w, st, goal, d, m, item, links);
    } else {
      var prev: Item :| ReachedIn(w, st, m, prev, steps - 1) && Next(w, st, prev, item);
      ReachedFine(w, st, goal, d, m, prev, links, steps - 1);
      FineNext(w, st, goal, d, prev, item);
    }
  }

  lemma GatheredAll(w: World, st: seq<Progress>, goal: seq<nat>, d: nat, fuel: nat, t: nat, names: Names)
    requires Tracked(w, st) && t < |w| && Requestable(w, t, OptionalRequests(Optional(w, t), names)) && fuel <= d
    requires GatherRequests(w, st, fuel, t, OptionalRequests(Optional(w, t), names), {}, []).Some?
    requires forall x :: x in GatherRequests(w, st, fuel, t, OptionalRequests(Optional(w, t), names), {}, []).value.list
               ==> x in goal
    ensures forall n :: Denotes(names, n) ==> GatheredFine(w, st, goal, d, t, n, fuel)
  {
    hide Valid, IsLoaded, ModuleCovered, RequestCovered, Covered, GatherRequests, OptionalRequests, Requestable;
    var reqs := OptionalRequests(Optional(w, t), names);
    GatherRequestsCovers(w, st, fuel, t, reqs, {}, []);
    var seen := GatherRequests(w, st, fuel, t, reqs, {}, []).value.seen;
    OptionalCovered(w, seen, t, names, fuel);
    RequestsGather(w, st, fuel, t, reqs, {}, []);
    AllWorkedOff(w, st, goal, seen, fuel, d);
  }

  lemma AllWorkedOff(w: World, st: seq<Progress>, goal: seq<nat>, seen: set<nat>, fuel: nat, d: nat)
    requires Valid(w) && NewCovered(w, st, {}, seen, fuel) && fuel <= d
    requires forall x :: x in seen && Awaits(w, st, x) ==> x in goal
    ensures WorkedOff(w, st, goal, seen, d)
  {
    hide Valid, ModuleCovered;
    forall x | x in seen && Walked(w, st, x) ensures ModuleCovered(w, seen, x, d) {
      ModuleCoveredStays(w, seen, seen, x, fuel, d);
    }
  }

  /** Fine requests for optional re-exports make the names that selected these fine. */
  lemma OptionalFine(w: World, st: seq<Progress>, goal: seq<nat>, d: nat, t: nat, names: Names, links: nat)
    requires Valid(w) && t < |w| && Requestable(w, t, OptionalRequests(Optional(w, t), names))
    requires var reqs := OptionalRequests(Optional(w, t), names);
             forall i :: 0 <= i < |reqs| ==> RequestFine(w, st, goal, d, t, reqs[i], links)
    ensures forall n :: Denotes(names, n) ==> ListedFine(w, st, goal, d, t, n, links)
  {
    hide Valid, IsLoaded, GetImportedModule, Denotes, OptionalRequests, FromFine, GatheredFine;
    forall n, k: nat, u: nat | Denotes(names, n) && Follows(w, t, k, n, u)
      ensures links > 0 && (Optional(w, t)[k].request.phase == DeferPhase ==> FromFine(w, st, goal, d, u))
      ensures forall n' :: Wants(Optional(w, t)[k], n') ==>
                if NewNames(Optional(w, t)[k]).All? then GatheredFine(w, st, goal, d, u, n', links - 1)
                else ListedFine(w, st, goal, d, u, n', links - 1)
    {
      var i := EntryRequested(w, t, names, k);
      var req := OptionalRequests(Optional(w, t), names)[i];
      assert RequestFine(w, st, goal, d, t, req, links);
      if req.importedNames.All? {
        forall n' | Wants(Optional(w, t)[k], n') ensures ListedFine(w, st, goal, d, u, n', links - 1) {
          GatheredIsListed(w, st, goal, d, u, n', links - 1);
        }
      }
    }
  }

  lemma SyntheticFine(w: World, st: seq<Progress>, goal: seq<nat>, d: nat, t: nat, links: nat)
    requires Valid(w) && t < |w| && w[t].Synthetic?
    ensures forall n :: ListedFine(w, st, goal, d, t, n, links) && GatheredFine(w, st, goal, d, t, n, links)
  {
    hide Valid;
    assert WorkedOff(w, st, goal, {}, d);
    SyntheticCovered(w, {}, t, links);
  }

  lemma {:induction false} BuildFine(w: World, st: seq<Progress>, goal: seq<nat>, d: nat, fuel: nat, referrer: nat,
      reqs: seq<ModuleRequest>, list: seq<nat>)
    requires Tracked(w, st) && Requestable(w, referrer, reqs) && fuel <= d
    requires BuildEvaluationList(w, st, fuel, referrer, reqs, list).Some?
    requires forall x :: x in BuildEvaluationList(w, st, fuel, referrer, reqs, list).value ==> x in goal
    ensures forall i :: 0 <= i < |reqs| ==> RequestFine(w, st, goal, d, referrer, reqs[i], fuel)
    decreases fuel, |reqs|
  {
    hide Valid, IsLoaded, RequestFine, OptionalRequests, Requestable, AppendNew, GetImportedModule, Listed,
        GatherRequests;
    RequestableParts(w, referrer, reqs);
    if reqs != [] {
      if reqs[0].phase == SourcePhase {
        BuildFine(w, st, goal, d, fuel, referrer, reqs[1..], list);
        SourceFine(w, st, goal, d, referrer, reqs[0], fuel);
      } else {
        var t := GetImportedModule(w, referrer, reqs[0]);
        var l := Listed(w, st, fuel - 1, t, reqs[0], list).value;
        ListKept(w, st, fuel, referrer, reqs, list);
        ListedFrom(w, st, goal, d, fuel - 1, t, reqs[0], list);
        if w[t].Synthetic? {
          BuildFine(w, st, goal, d, fuel, referrer, reqs[1..], l);
          SyntheticFine(w, st, goal, d, t, fuel - 1);
        } else {
          OptionalRequestsLoaded(w, t, reqs[0].importedNames);
          var optional := OptionalRequests(Optional(w, t), reqs[0].importedNames);
          if reqs[0].importedNames.All? {
            var b := GatherRequests(w, st, fuel - 1, t, optional, {}, []).value;
            GatheredAll(w, st, goal, d, fuel - 1, t, reqs[0].importedNames);
            BuildFine(w, st, goal, d, fuel, referrer, reqs[1..], AppendNew(l, b.list));
          } else {
            BuildFine(w, st, goal, d, fuel - 1, t, optional, l);
            OptionalFine(w, st, goal, d, t, reqs[0].importedNames, fuel - 1);
            BuildFine(w, st, goal, d, fuel, referrer, reqs[1..],
              BuildEvaluationList(w, st, fuel - 1, t, optional, l).value);
          }
        }
        FirstFine(w, st, goal, d, referrer, reqs[0], fuel);
      }
      FirstAndRestFine(w, st, goal, d, referrer, reqs, fuel);
    }
  }

  /** What the first request and its optional re-exports put on the list stays there. */
  lemma ListKept(w: World, st: seq<Progress>, fuel: nat, referrer: nat, reqs: seq<ModuleRequest>, list: seq<nat>)
    requires Tracked(w, st) && Requestable(w, referrer, reqs) && reqs != [] && reqs[0].phase != SourcePhase
    requires IsLoaded(w[referrer], reqs[0]) && Requestable(w, referrer, reqs[1..])
    requires BuildEvaluationList(w, st, fuel, referrer, reqs, list).Some?
    ensures var r := BuildEvaluationList(w, st, fuel, referrer, reqs, list).value;
            var t := GetImportedModule(w, referrer, reqs[0]);
            var optional := OptionalRequests(Optional(w, t), reqs[0].importedNames);
            && fuel > 0 && Listed(w, st, fuel - 1, t, reqs[0], list).Some? && Requestable(w, t, optional)
            && var l := Listed(w, st, fuel - 1, t, reqs[0], list).value;
               && (forall x :: x in list ==> x in r)
               && (forall x :: x in l ==> x in r)
               && (w[t].SourceText? && reqs[0].importedNames.All? ==>
                     && GatherRequests(w, st, fuel - 1, t, optional, {}, []).Some?
                     && forall x :: x in GatherRequests(w, st, fuel - 1, t, optional, {}, []).value.list ==> x in r)
               && (w[t].SourceText? && !reqs[0].importedNames.All? ==>
                     && BuildEvaluationList(w, st, fuel - 1, t, optional, l).Some?
                     && forall x :: x in BuildEvaluationList(w, st, fuel - 1, t, optional, l).value ==> x in r)
  {
    hide Valid, IsLoaded, Requestable, GetImportedModule, OptionalRequests, GatherRequests, Listed, AppendNew;
    RequestableParts(w, referrer, reqs);
    var r := BuildEvaluationList(w, st, fuel, referrer, reqs, list).value;
    var t := GetImportedModule(w, referrer, reqs[0]);
    OptionalRequestsLoaded(w, t, reqs[0].importedNames);
    var optional := OptionalRequests(Optional(w, t), reqs[0].importedNames);
    var l := Listed(w, st, fuel - 1, t, reqs[0], list).value;
    ListedAppends(w, st, fuel - 1, t, reqs[0], list);
    Included(list, l);
    var next := if w[t].Synthetic? then l
                else if reqs[0].importedNames.All? then
                  AppendNew(l, GatherRequests(w, st, fuel - 1, t, optional, {}, []).value.list)
                else BuildEvaluationList(w, st, fuel - 1, t, optional, l).value;
    if w[t].SourceText? && !reqs[0].importedNames.All? {
      BuildAppends(w, st, fuel - 1, t, optional, l);
      Included(l, next);
    }
    BuildAppends(w, st, fuel, referrer, reqs[1..], next);
    Included(next, r);
  }

  lemma SourceFine(w: World, st: seq<Progress>, goal: seq<nat>, d: nat, referrer: nat, req: ModuleRequest, links: nat)
    requires Valid(w) && referrer < |w| && IsLoaded(w[referrer], req) && req.phase == SourcePhase
    ensures RequestFine(w, st, goal, d, referrer, req, links)
  {
    hide Valid, IsLoaded;
  }

  lemma FirstFine(w: World, st: seq<Progress>, goal: seq<nat>, d: nat, referrer: nat, req: ModuleRequest, links: nat)
    requires Valid(w) && referrer < |w| && IsLoaded(w[referrer], req) && links > 0
    requires req.phase == DeferPhase ==> FromFine(w, st, goal, d, GetImportedModule(w, referrer, req))
    requires var u := GetImportedModule(w, referrer, req);
             forall n :: Denotes(req.importedNames, n) ==>
               if req.importedNames.All? then GatheredFine(w, st, goal, d, u, n, links - 1)
               else ListedFine(w, st, goal, d, u, n, links - 1)
    ensures RequestFine(w, st, goal, d, referrer, req, links)
  {
    hide Valid, IsLoaded, GetImportedModule, Denotes, FromFine, GatheredFine, ListedFine;
  }

  lemma ListedFrom(w: World, st: seq<Progress>, goal: seq<nat>, d: nat, fuel: nat, t: nat,
      req: ModuleRequest, list: seq<nat>)
    requires Tracked(w, st) && t < |w| && fuel <= d && Listed(w, st, fuel, t, req, list).Some?
    requires forall x :: x in Listed(w, st, fuel, t, req, list).value ==> x in goal
    ensures req.phase == DeferPhase ==> FromFine(w, st, goal, d, t)
  {
    hide Valid, Gather, ModuleCovered;
    if req.phase == DeferPhase {
      GatherCovers(w, st, fuel, t, {});
      GathersAwaiting(w, st, fuel, t, {});
      AllWorkedOff(w, st, goal, Gather(w, st, fuel, t, {}).value.seen, fuel, d);
    }
  }

  lemma FirstAndRestFine(w: World, st: seq<Progress>, goal: seq<nat>, d: nat, referrer: nat,
      reqs: seq<ModuleRequest>, links: nat)
    requires Valid(w) && Requestable(w, referrer, reqs) && reqs != [] && Requestable(w, referrer, reqs[1..])
    requires RequestFine(w, st, goal, d, referrer, reqs[0], links)
    requires forall i :: 0 <= i < |reqs[1..]| ==> RequestFine(w, st, goal, d, referrer, reqs[1..][i], links)
    ensures forall i :: 0 <= i < |reqs| ==> RequestFine(w, st, goal, d, referrer, reqs[i], links)
  {
    hide Valid, IsLoaded, RequestFine;
    forall i | 0 <= i < |reqs| ensures RequestFine(w, st, goal, d, referrer, reqs[i], links) {
      if i > 0 {
        assert reqs[i] == reqs[1..][i - 1];
      }
    }
  }

  /** If building the list ends, no name that it asks for comes back to itself. */
  lemma EndsOnlyWhenNoneComesBack(w: World, st: seq<Progress>, fuel: nat, m: nat)
    requires Tracked(w, st) && m < |w| && w[m].SourceText? && EvaluationListOf(w, st, fuel, m).Some?
    ensures NoneComesBack(w, st, m)
  {
    hide Valid, IsLoaded, RequestFine, Fine, BuildEvaluationList, ComesBack, ReachedIn, Requestable;
    AllRequestable(w, m);
    RequestableParts(w, m, w[m].requested);
    var goal := EvaluationListOf(w, st, fuel, m).value;
    BuildFine(w, st, goal, fuel, fuel, m, w[m].requested, []);
    forall t: nat, n: string, g: bool | Reached(w, st, m, Name(t, n, g)) ensures !ComesBack(w, false, t, n) {
      var steps: nat :| ReachedIn(w, st, m, Name(t, n, g), steps);
      ReachedFine(w, st, goal, fuel, m, Name(t, n, g), fuel, steps);
      FineEnds(w, st, goal, fuel, t, n, g);
    }
  }

  /** A waiting module that gathering reaches is on the list. */
  lemma AwaitedListed(w: World, st: seq<Progress>, fuel: nat, m: nat, t: nat)
    requires Tracked(w, st) && m < |w| && w[m].SourceText? && EvaluationListOf(w, st, fuel, m).Some?
    requires Awaits(w, st, t) && Reached(w, st, m, From(t))
    ensures t in EvaluationListOf(w, st, fuel, m).value
  {
    hide Valid, IsLoaded, RequestFine, BuildEvaluationList, ReachedIn, Requestable, ModuleCovered, Awaits;
    AllRequestable(w, m);
    RequestableParts(w, m, w[m].requested);
    var goal := EvaluationListOf(w, st, fuel, m).value;
    BuildFine(w, st, goal, fuel, fuel, m, w[m].requested, []);
    var steps: nat :| ReachedIn(w, st, m, From(t), steps);
    ReachedFine(w, st, goal, fuel, m, From(t), fuel, steps);
    assert FromFine(w, st, goal, fuel, t);
  }
}
