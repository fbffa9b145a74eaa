/** The graph that evaluation walks, for a world whose lists all end. */
module EvaluationGraphs {
  import opened Sequences
  import opened Wrappers
  import opened Graphs
  import opened ModuleHistory
  import opened ModuleSuccess
  import opened ImportedNames
  import opened ModuleRequests
  import opened ModuleRecords
  import opened LinkingDemand
  import opened OptionalChains
  import opened EvaluationList
  import opened EvaluationListExact
  import opened EvaluationListContent
  import LL = LinkingList
  import Linking
  import LinkingProperties
  import LinkingFailure
  import LinkingNames
  import EP = EvaluationProperties

  /** No name that some module demands comes back to itself. */
  ghost predicate NoDemandComesBack(w: World)
    requires Valid(w)
  {
    forall m: nat, t: nat, n: string :: Demanded(w, m, t, n) ==> !ComesBack(w, false, t, n)
  }

  /** A name that building m's list reaches is demanded by some module. */
  lemma {:induction false} ReachedDemanded(w: World, st: seq<Progress>, m: nat, t: nat, n: string, g: bool,
      steps: nat) returns (m': nat)
    requires Valid(w) && ReachedIn(w, st, m, Name(t, n, g), steps)
    ensures Demanded(w, m', t, n)
    decreases steps
  {
    hide Valid, IsLoaded, GetImportedModule, Denotes, Demanded;
    if steps == 0 {
      m' := m;
      AskedDemanded(w, m, false, t, n, g);
    } else {
      var prev: Item :| ReachedIn(w, st, m, prev, steps - 1) && Next(w, st, prev, Name(t, n, g));
      match prev
      case From(x) =>
        m' := x;
        AskedDemanded(w, x, true, t, n, g);
      case Name(t0, n0, g0) =>
        m' := ReachedDemanded(w, st, m, t0, n0, g0, steps - 1);
        var k: nat, u: nat :| Follows(w, t0, k, n0, u)
            && Asks(u, Optional(w, t0)[k].request.phase, NewNames(Optional(w, t0)[k]), g0, Name(t, n, g));
        DemandedStep(w, m', t0, n0, k, t, n);
    }
  }

  lemma AskedDemanded(w: World, m: nat, gathering: bool, t: nat, n: string, g: bool)
    requires Valid(w) && RequestAsks(w, m, gathering, Name(t, n, g))
    ensures Demanded(w, m, t, n)
  {
    hide Valid, IsLoaded, GetImportedModule, Denotes;
    var i: nat, u: nat :| Requests(w, m, i, u)
        && Asks(u, w[m].requested[i].phase, w[m].requested[i].importedNames, gathering, Name(t, n, g));
    assert DemandedIn(w, m, t, n, 0);
  }

  /** Building m's list reaches every name that m demands, whatever has been evaluated. */
  lemma {:induction false} DemandedReached(w: World, st: seq<Progress>, m: nat, t: nat, n: string,
      steps: nat) returns (g: bool)
    requires Valid(w) && DemandedIn(w, m, t, n, steps)
    ensures Reached(w, st, m, Name(t, n, g))
    decreases steps
  {
    hide Valid, IsLoaded, GetImportedModule, Denotes, Reached;
    if steps == 0 {
      var i: nat :| Requests(w, m, i, t) && Denotes(w[m].requested[i].importedNames, n);
      g := w[m].requested[i].importedNames.All?;
      OwnReached(w, st, m, i, t, Name(t, n, g));
    } else {
      var t0: nat, k: nat, n0: string :| DemandedIn(w, m, t0, n0, steps - 1) && Follows(w, t0, k, n0, t)
          && Wants(Optional(w, t0)[k], n);
      var g0 := DemandedReached(w, st, m, t0, n0, steps - 1);
      assert OneLink(w, false, t0, n0, t, n);
      g := LinkReached(w, st, m, t0, n0, g0, t, n);
    }
  }

  /** Whatever has been evaluated: all lists of the world end exactly when no name that some module
      demands comes back to itself. */
  lemma AllEndExactlyWhenNoDemandComesBack(w: World, st: seq<Progress>)
    requires Tracked(w, st)
    ensures (forall m: nat :: m < |w| && w[m].SourceText? ==>
               exists fuel: nat :: EvaluationListOf(w, st, fuel, m).Some?)
            <==> NoDemandComesBack(w)
  {
    hide Valid, Demanded, Reached, ComesBack, EvaluationListOf;
    if NoDemandComesBack(w) {
      forall m: nat | m < |w| && w[m].SourceText? ensures exists fuel: nat :: EvaluationListOf(w, st, fuel, m).Some? {
        QuietEnds(w, st, m);
      }
    } else {
      var m: nat, t: nat, n: string :| Demanded(w, m, t, n) && ComesBack(w, false, t, n);
      BackNeverEnds(w, st, m, t, n);
    }
  }

  lemma QuietEnds(w: World, st: seq<Progress>, m: nat)
    requires Tracked(w, st) && NoDemandComesBack(w) && m < |w| && w[m].SourceText?
    ensures EvaluationListOf(w, st, Depth(w), m).Some?
  {
    hide Valid, ReachedIn, Demanded, ComesBack, EvaluationListOf;
    forall t: nat, n: string, g: bool | Reached(w, st, m, Name(t, n, g)) ensures !ComesBack(w, false, t, n) {
      var steps: nat :| ReachedIn(w, st, m, Name(t, n, g), steps);
      var m' := ReachedDemanded(w, st, m, t, n, g, steps);
    }
    EndsExactlyWhenNoneComesBack(w, st, m);
  }

  /** A module that demands a name which comes back has no list, at any depth. */
  lemma BackNeverEnds(w: World, st: seq<Progress>, m: nat, t: nat, n: string)
    requires Tracked(w, st) && Demanded(w, m, t, n) && ComesBack(w, false, t, n)
    ensures m < |w| && w[m].SourceText? && forall fuel: nat :: EvaluationListOf(w, st, fuel, m).None?
  {
    hide Valid, DemandedIn, Reached, ComesBack, EvaluationListOf;
    var steps: nat :| DemandedIn(w, m, t, n, steps);
    DemandedOrigin(w, m, t, n, steps);
    var g := DemandedReached(w, st, m, t, n, steps);
    EndsExactlyWhenNoneComesBack(w, st, m);
    assert !NoneComesBack(w, st, m);
  }

  lemma {:induction false} DemandedOrigin(w: World, m: nat, t: nat, n: string, steps: nat)
    requires Valid(w) && DemandedIn(w, m, t, n, steps)
    ensures m < |w| && w[m].SourceText?
    decreases steps
  {
    hide Valid, IsLoaded, GetImportedModule, Denotes;
    if steps > 0 {
      var t0: nat, k: nat, n0: string :| DemandedIn(w, m, t0, n0, steps - 1) && Follows(w, t0, k, n0, t)
          && Wants(Optional(w, t0)[k], n);
      DemandedOrigin(w, m, t0, n0, steps - 1);
    }
  }

  // --- Worlds without top-level await ---

  predicate Synchronous(st: seq<Progress>) {
    forall x :: 0 <= x < |st| ==> !st[x].Awaiting?
  }

  lemma {:induction false} GathersNothing(w: World, st: seq<Progress>, fuel: nat, m: nat, seen: set<nat>)
    requires Tracked(w, st) && Synchronous(st) && m < |w| && Gather(w, st, fuel, m, seen).Some?
    ensures Gather(w, st, fuel, m, seen).value.list == []
    decreases fuel, 1, 0
  {
    hide Valid, GatherRequests;
    if m !in seen && Walked(w, st, m) {
      LL.AllRequestable(w, m);
      RequestsGatherNothing(w, st, fuel, m, w[m].requested, seen + {m}, []);
    }
  }

  lemma {:induction false} RequestsGatherNothing(w: World, st: seq<Progress>, fuel: nat, referrer: nat,
      reqs: seq<ModuleRequest>, seen: set<nat>, result: seq<nat>)
    requires Tracked(w, st) && Synchronous(st) && LL.Requestable(w, referrer, reqs)
    requires GatherRequests(w, st, fuel, referrer, reqs, seen, result).Some?
    ensures GatherRequests(w, st, fuel, referrer, reqs, seen, result).value.list == result
    decreases fuel, 0, |reqs|
  {
    hide Valid, IsLoaded, LL.Requestable, GetImportedModule, OptionalRequests, Gather;
    LL.RequestableParts(w, referrer, reqs);
    if reqs != [] {
      if reqs[0].phase == SourcePhase {
        RequestsGatherNothing(w, st, fuel, referrer, reqs[1..], seen, result);
      } else {
        var t := GetImportedModule(w, referrer, reqs[0]);
        var a := Gather(w, st, fuel - 1, t, seen).value;
        GathersNothing(w, st, fuel - 1, t, seen);
        LL.OptionalRequestsLoaded(w, t, reqs[0].importedNames);
        var optional := OptionalRequests(Optional(w, t), reqs[0].importedNames);
        if w[t].Synthetic? {
          RequestsGatherNothing(w, st, fuel, referrer, reqs[1..], a.seen, result);
        } else {
          RequestsGatherNothing(w, st, fuel - 1, t, optional, a.seen, []);
          var b := GatherRequests(w, st, fuel - 1, t, optional, a.seen, []).value;
          RequestsGatherNothing(w, st, fuel, referrer, reqs[1..], b.seen, result);
        }
      }
    }
  }

  /** Without top-level await the list depends neither on the depth allowed nor on what has been
      evaluated. */
  lemma {:induction false} SameList(w: World, st: seq<Progress>, st': seq<Progress>, fuel: nat, fuel': nat,
      referrer: nat, reqs: seq<ModuleRequest>, list: seq<nat>)
    requires Tracked(w, st) && Tracked(w, st') && Synchronous(st) && Synchronous(st')
    requires LL.Requestable(w, referrer, reqs)
    requires BuildEvaluationList(w, st, fuel, referrer, reqs, list).Some?
    requires BuildEvaluationList(w, st', fuel', referrer, reqs, list).Some?
    ensures BuildEvaluationList(w, st, fuel, referrer, reqs, list)
         == BuildEvaluationList(w, st', fuel', referrer, reqs, list)
    decreases fuel, |reqs|
  {
    hide Valid, IsLoaded, LL.Requestable, GetImportedModule, OptionalRequests, GatherRequests, Listed;
    LL.RequestableParts(w, referrer, reqs);
    if reqs != [] {
      if reqs[0].phase == SourcePhase {
        SameList(w, st, st', fuel, fuel', referrer, reqs[1..], list);
      } else {
        var t := GetImportedModule(w, referrer, reqs[0]);
        ListedPlain(w, st, fuel - 1, t, reqs[0], list);
        ListedPlain(w, st', fuel' - 1, t, reqs[0], list);
        var l := Listed(w, st, fuel - 1, t, reqs[0], list).value;
        LL.OptionalRequestsLoaded(w, t, reqs[0].importedNames);
        var optional := OptionalRequests(Optional(w, t), reqs[0].importedNames);
        if w[t].Synthetic? {
          SameList(w, st, st', fuel, fuel', referrer, reqs[1..], l);
        } else if reqs[0].importedNames.All? {
          RequestsGatherNothing(w, st, fuel - 1, t, optional, {}, []);
          RequestsGatherNothing(w, st', fuel' - 1, t, optional, {}, []);
          SameList(w, st, st', fuel, fuel', referrer, reqs[1..], l);
        } else {
          SameList(w, st, st', fuel - 1, fuel' - 1, t, optional, l);
          SameList(w, st, st', fuel, fuel', referrer, reqs[1..],
            BuildEvaluationList(w, st, fuel - 1, t, optional, l).value);
        }
      }
    }
  }

  lemma ListedPlain(w: World, st: seq<Progress>, fuel: nat, t: nat, req: ModuleRequest, list: seq<nat>)
    requires Tracked(w, st) && Synchronous(st) && t < |w| && Listed(w, st, fuel, t, req, list).Some?
    ensures Listed(w, st, fuel, t, req, list).value ==
            if req.phase == DeferPhase || t in list then list else list + [t]
  {
    hide Valid, Gather;
    if req.phase == DeferPhase {
      GathersNothing(w, st, fuel, t, {});
    }
  }

  /** Everything on the list is demanded, no module is on it twice, and every module requested in
      the evaluation phase is on it. */
  lemma {:induction false} ListDemanded(w: World, st: seq<Progress>, fuel: nat, m: nat, referrer: nat,
      reqs: seq<ModuleRequest>, list: seq<nat>)
    requires Tracked(w, st) && Synchronous(st) && LL.Requestable(w, referrer, reqs)
    requires JustifiedRequests(w, m, referrer, reqs) && Below(list, |w|) && Distinct(list)
    requires forall t :: t in list ==> DemandedModule(w, m, t)
    requires BuildEvaluationList(w, st, fuel, referrer, reqs, list).Some?
    ensures var r := BuildEvaluationList(w, st, fuel, referrer, reqs, list).value;
            && list <= r && Below(r, |w|) && Distinct(r)
            && (forall t :: t in r ==> DemandedModule(w, m, t))
            && (forall i :: 0 <= i < |reqs| && reqs[i].phase == EvaluationPhase ==>
                  IsLoaded(w[referrer], reqs[i]) && GetImportedModule(w, referrer, reqs[i]) in r)
    decreases fuel, |reqs|
  {
    hide Valid, IsLoaded, LL.Requestable, GetImportedModule, OptionalRequests, GatherRequests, Listed, DemandedModule,
        Demanded, Denotes;
    LL.RequestableParts(w, referrer, reqs);
    if reqs != [] {
      forall i | 0 <= i < |reqs[1..]| ensures JustifiedRequest(w, m, referrer, reqs[1..][i]) {
        assert reqs[1..][i] == reqs[i + 1];
      }
      if reqs[0].phase == SourcePhase {
        ListDemanded(w, st, fuel, m, referrer, reqs[1..], list);
      } else {
        assert JustifiedRequest(w, m, referrer, reqs[0]);
        var t := GetImportedModule(w, referrer, reqs[0]);
        ListedPlain(w, st, fuel - 1, t, reqs[0], list);
        var l := Listed(w, st, fuel - 1, t, reqs[0], list).value;
        LL.OptionalRequestsLoaded(w, t, reqs[0].importedNames);
        var optional := OptionalRequests(Optional(w, t), reqs[0].importedNames);
        if w[t].Synthetic? {
          ListDemanded(w, st, fuel, m, referrer, reqs[1..], l);
        } else if reqs[0].importedNames.All? {
          RequestsGatherNothing(w, st, fuel - 1, t, optional, {}, []);
          ListDemanded(w, st, fuel, m, referrer, reqs[1..], l);
        } else {
          OptionalJustified(w, m, t, reqs[0].importedNames);
          ListDemanded(w, st, fuel - 1, m, t, optional, l);
          ListDemanded(w, st, fuel, m, referrer, reqs[1..],
            BuildEvaluationList(w, st, fuel - 1, t, optional, l).value);
        }
      }
      var r := BuildEvaluationList(w, st, fuel, referrer, reqs, list).value;
      if reqs[0].phase == EvaluationPhase {
        StaysListed(if GetImportedModule(w, referrer, reqs[0]) in list then list
            else list + [GetImportedModule(w, referrer, reqs[0])], r, GetImportedModule(w, referrer, reqs[0]));
      }
      forall i | 0 <= i < |reqs| && reqs[i].phase == EvaluationPhase
        ensures GetImportedModule(w, referrer, reqs[i]) in r
      {
        if i > 0 {
          assert reqs[i] == reqs[1..][i - 1];
        }
      }
    }
  }

  lemma StaysListed(list: seq<nat>, r: seq<nat>, t: nat)
    requires t in list && list <= r
    ensures t in r
  {
    var i :| 0 <= i < |list| && list[i] == t;
    assert r[i] == t;
  }

  /** Every module is linked and none has been evaluated. */
  function Untouched(w: World): seq<Progress> {
    seq(|w|, x => Ready)
  }

  /** Every Cyclic Module Record has an evaluation list. */
  predicate ListsEnd(w: World)
    requires Valid(w)
  {
    forall m :: 0 <= m < |w| && w[m].SourceText? ==> EvaluationListOf(w, Untouched(w), Depth(w), m).Some?
  }

  lemma ListsEndExactly(w: World)
    requires Valid(w)
    ensures ListsEnd(w) <==> NoDemandComesBack(w)
  {
    hide Valid, NoDemandComesBack, EvaluationListOf, Depth;
    AllEndExactlyWhenNoDemandComesBack(w, Untouched(w));
    if NoDemandComesBack(w) {
      forall m: nat | m < |w| && w[m].SourceText? ensures EvaluationListOf(w, Untouched(w), Depth(w), m).Some? {
        QuietEnds(w, Untouched(w), m);
      }
    }
  }

  function ListFor(w: World, m: nat): seq<nat>
    requires Valid(w) && ListsEnd(w) && m < |w|
  {
    if w[m].Synthetic? then [] else EvaluationListOf(w, Untouched(w), Depth(w), m).value
  }

  /** The graph that evaluation walks, when no module waits for top-level await. */
  function EvaluationGraph(w: World): (g: Graph)
    requires Valid(w) && ListsEnd(w)
    ensures |g.cyclic| == |g.deps| == |w|
    ensures forall m :: 0 <= m < |w| ==> g.cyclic[m] == w[m].SourceText? && g.deps[m] == ListFor(w, m)
  {
    Graph(seq(|w|, i requires 0 <= i < |w| => w[i].SourceText?), seq(|w|, i requires 0 <= i < |w| => ListFor(w, i)))
  }

  /** Whatever has been evaluated when m's turn comes, its list is that of the graph. */
  lemma ListAtAnyTime(w: World, st: seq<Progress>, m: nat)
    requires Tracked(w, st) && Synchronous(st) && ListsEnd(w) && m < |w| && w[m].SourceText?
    ensures EvaluationListOf(w, st, Depth(w), m) == Some(EvaluationGraph(w).deps[m])
  {
    hide Valid, IsLoaded, NoDemandComesBack, BuildEvaluationList, Depth, LL.Requestable, ListsEnd;
    ListsEndExactly(w);
    QuietEnds(w, st, m);
    QuietEnds(w, Untouched(w), m);
    LL.AllRequestable(w, m);
    SameList(w, st, Untouched(w), Depth(w), Depth(w), m, w[m].requested, []);
  }

  /** m's list: only modules that m demands, none twice, and every module that m requests in the
      evaluation phase. */
  lemma ListKeeps(w: World, m: nat)
    requires Valid(w) && ListsEnd(w) && m < |w| && w[m].SourceText?
    ensures var list := EvaluationGraph(w).deps[m];
            && Below(list, |w|) && Distinct(list)
            && (forall t :: t in list ==> t in LL.LinkingListOf(w, m))
            && (forall i: nat, t: nat :: Requests(w, m, i, t) && w[m].requested[i].phase == EvaluationPhase ==>
                  t in list)
  {
    hide Valid, IsLoaded, BuildEvaluationList, Depth, LL.Requestable, GetImportedModule, DemandedModule,
        JustifiedRequest, LL.LinkingListOf;
    SeedsJustified(w, m);
    ListDemanded(w, Untouched(w), Depth(w), m, m, w[m].requested, []);
    var list := EvaluationGraph(w).deps[m];
    forall t | t in list ensures t in LL.LinkingListOf(w, m) {
      LinkingListExact(w, m, t);
    }
  }

  /** The list of m in the graph is exactly what m demands in the evaluation phase: the modules of its
      requests, and those of the optional re-exports that the names asked for select, up to a namespace. */
  lemma GraphListIsExactly(w: World, m: nat, t: nat)
    requires Valid(w) && ListsEnd(w) && m < |w| && w[m].SourceText?
    ensures t in EvaluationGraph(w).deps[m] <==> EvaluationDemanded(w, m, t)
  {
    hide Valid, IsLoaded, EvaluationListOf, Depth, EvaluationDemanded, Reached;
    ListIsExactly(w, Untouched(w), Depth(w), m, t);
  }

  lemma EvaluationGraphValid(w: World)
    requires Valid(w) && ListsEnd(w)
    ensures EvaluationGraph(w).Valid()
  {
    hide Valid, ListsEnd;
    var g := EvaluationGraph(w);
    forall m | 0 <= m < |w| ensures Below(g.deps[m], |w|) {
      if w[m].SourceText? {
        ListKeeps(w, m);
      }
    }
  }

  lemma EvaluationEdge(w: World, a: nat, b: nat)
    requires Valid(w) && ListsEnd(w) && EvaluationGraph(w).Edge(a, b)
    ensures Linking.LinkGraph(w).Edge(a, b)
  {
    hide Valid, ListsEnd, LL.LinkingListOf;
    ListKeeps(w, a);
  }

  /** After a successful Link, every module that the evaluation will visit is linked. */
  lemma EvaluatedAreLinked(w: World, body: ModuleDfs.Body, s: Linking.State, m: nat, names: Names, d: nat)
    requires Valid(w) && ListsEnd(w) && LinkingProperties.LinkInv(w, s) && m < |w| && w[m].SourceText?
    requires Linking.Link(w, body, s, m, names).LinkOk? && Reach(EvaluationGraph(w), m, d)
    ensures LinkingProperties.IsLinked(w, Linking.Link(w, body, s, m, names).s, d)
  {
    hide Valid, ListsEnd, LinkingProperties.LinkInv, Linking.Link, EvaluationGraph, Linking.LinkGraph;
    var p :| IsPath(EvaluationGraph(w), p) && p[0] == m && p[|p| - 1] == d;
    forall i | 0 <= i < |p| - 1 ensures Linking.LinkGraph(w).Edge(p[i], p[i + 1]) {
      EvaluationEdge(w, p[i], p[i + 1]);
    }
    assert IsPath(Linking.LinkGraph(w), p);
    LinkingProperties.LinkReachesAll(w, body, s, m, names, d);
  }

  /** A module requested in the evaluation phase is demanded in it. */
  lemma RequestDemands(w: World, m: nat, i: nat, t: nat)
    requires Valid(w) && Requests(w, m, i, t) && w[m].requested[i].phase == EvaluationPhase
    ensures EvaluationDemanded(w, m, t)
  {
    hide Valid, IsLoaded, GetImportedModule;
    assert DemandsOver(w, m, w[m].requested[i], t, 0);
    assert Demands(w, m, w[m].requested[i], t);
  }

  /** Over every sequence of Evaluate calls on a world: when the body of a module runs, every module that
      it demands in the evaluation phase, directly or over optional re-exports, has finished without error,
      or depends on it in turn. */
  lemma RequestsRunFirst(w: World, calls: seq<EP.EvalCall>, k: nat, t: nat)
    requires Valid(w) && ListsEnd(w) && |w| > 0
    requires EvaluationGraph(w).Valid() && EP.CallsOk(EvaluationGraph(w), calls)
    requires var log := EP.EvaluateAll(EvaluationGraph(w), EP.Fresh(EvaluationGraph(w)), calls).log;
             k < |log| && log[k].id < |w| && EvaluationDemanded(w, log[k].id, t)
    ensures var g := EvaluationGraph(w); var log := EP.EvaluateAll(g, EP.Fresh(g), calls).log;
            t < g.Size() && DepRan(g, log[..k], log[k].id, t)
  {
    hide Valid, ListsEnd, DepRan, Demands, IsLoaded, EP.EvaluateAll;
    EvaluationGraphValid(w);
    var g := EvaluationGraph(w);
    EP.BodiesRunOnceInOrder(g, calls);
    var log := EP.EvaluateAll(g, EP.Fresh(g), calls).log;
    var m := log[k].id;
    GraphListIsExactly(w, m, t);
    var j :| 0 <= j < |g.deps[m]| && g.deps[m][j] == t;
    assert DepsRan(g, log[..k], m);
  }

  // --- A world that links and has no evaluation list ---

  /** No depth is enough for module 0's list, whatever has been evaluated. */
  lemma EachOtherNeverEnds(st: seq<Progress>, fuel: nat)
    requires |st| == 2
    ensures Valid(EachOther(true)) && EvaluationListOf(EachOther(true), st, fuel, 0).None?
  {
    hide Valid, GetImportedModule, IsLoaded, EvaluationListOf;
    var w := EachOther(true);
    EachOtherComesBack(true, false);
    assert Denotes(w[0].requested[0].importedNames, "x");
    assert DemandedIn(w, 0, 1, "x", 0);
    BackNeverEnds(w, st, 0, 1, "x");
  }

  /** Linking the same world succeeds, if no environment fails. */
  lemma EachOtherLinks()
    ensures Valid(EachOther(true)) && LinkingProperties.LinkInv(EachOther(true), LinkingFailure.UNLINKED)
    ensures Linking.Link(EachOther(true), Succeeds(), LinkingFailure.UNLINKED, 0, All).LinkOk?
  {
    hide Valid, Linking.LinkGraph, LinkingProperties.LinkInv, Linking.Link;
    var w := EachOther(true);
    EachOtherComesBack(true, false);
    Linking.LinkGraphValid(w);
    LinkingFailure.UnlinkedBase(Linking.LinkGraph(w));
    UnlinkedInv(w);
    LinkingNames.LinkSucceeds(w, LinkingFailure.UNLINKED, 0, All);
  }

  lemma UnlinkedInv(w: World)
    requires Valid(w) && |w| == 2 && ModuleScc.Base(Linking.LinkGraph(w), Linking.Idle(LinkingFailure.UNLINKED))
    ensures LinkingProperties.LinkInv(w, LinkingFailure.UNLINKED)
  {
    hide Valid, LL.LinkingListOf, ModuleScc.Base;
  }
}
