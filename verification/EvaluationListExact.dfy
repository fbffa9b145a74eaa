/** Building an evaluation list ends exactly when no name that it asks for comes back to itself
    over optional re-exports, and how deep the recursion then goes. */
module EvaluationListExact {
  import opened ImportedNames
  import opened ModuleRequests
  import opened ModuleRecords
  import opened LinkingList
  import opened LinkingDemand
  import opened OptionalChains
  import opened EvaluationList
  import opened EvaluationListEnds

  function Unseen(w: World, seen: set<nat>): set<nat> {
    set x: nat | 0 <= x < |w| && x !in seen
  }

  /** Gathering from n modules, with chains of at most d links in between. */
  function Rounds(d: nat, n: nat): nat {
    if n == 0 then 0 else d + 1 + Rounds(d, n - 1)
  }

  lemma {:induction false} RoundsGrow(d: nat, n: nat, n': nat)
    requires n <= n'
    ensures Rounds(d, n) <= Rounds(d, n')
    decreases n'
  {
    if n < n' {
      RoundsGrow(d, n, n' - 1);
    }
  }

  lemma FewerRounds(w: World, d: nat, seen: set<nat>, seen': set<nat>)
    requires seen <= seen'
    ensures Rounds(d, |Unseen(w, seen')|) <= Rounds(d, |Unseen(w, seen)|)
  {
    SubsetSize(Unseen(w, seen'), Unseen(w, seen));
    RoundsGrow(d, |Unseen(w, seen')|, |Unseen(w, seen)|);
  }

  lemma OneRoundLess(w: World, d: nat, seen: set<nat>, m: nat)
    requires m < |w| && m !in seen
    ensures Rounds(d, |Unseen(w, seen)|) == d + 1 + Rounds(d, |Unseen(w, seen + {m})|)
  {
    assert Unseen(w, seen + {m}) == Unseen(w, seen) - {m};
    assert m in Unseen(w, seen);
  }

  /** The request asks only for what building m's list reaches, with chains of fewer than d links. */
  ghost predicate InReach(w: World, st: seq<Progress>, m: nat, referrer: nat, req: ModuleRequest,
      gathering: bool, d: nat)
    requires Valid(w) && referrer < |w| && IsLoaded(w[referrer], req)
  {
    req.phase != SourcePhase ==>
      var u := GetImportedModule(w, referrer, req);
      && d > 0
      && (gathering || req.phase == DeferPhase ==> Reached(w, st, m, From(u)))
      && forall n :: Denotes(req.importedNames, n) ==>
           && Reached(w, st, m, Name(u, n, gathering || req.importedNames.All?))
           && Bounded(w, false, u, n, d - 1)
  }

  /** Everything that is reached starts only bounded chains. */
  ghost predicate AllBounded(w: World, st: seq<Progress>, m: nat, d: nat)
    requires Valid(w)
  {
    forall t: nat, n: string, g: bool :: Reached(w, st, m, Name(t, n, g)) ==> Bounded(w, false, t, n, d)
  }

  /** The optional re-exports of names in reach are in reach. */
  lemma OptionalInReach(w: World, st: seq<Progress>, m: nat, t: nat, names: Names, g: bool, d: nat, i: nat)
    requires Valid(w) && t < |w| && Requestable(w, t, OptionalRequests(Optional(w, t), names))
    requires i < |OptionalRequests(Optional(w, t), names)|
    requires forall n :: Denotes(names, n) ==> Reached(w, st, m, Name(t, n, g)) && Bounded(w, false, t, n, d)
    ensures InReach(w, st, m, t, OptionalRequests(Optional(w, t), names)[i], g, d)
  {
    hide Valid, IsLoaded, GetImportedModule, Denotes, OptionalRequests, Reached, Requestable;
    var req := OptionalRequests(Optional(w, t), names)[i];
    assert IsLoaded(w[t], req) by { RequestableParts(w, t, OptionalRequests(Optional(w, t), names)); }
    RequestStandsFor(w, t, names, i);
    if req.phase != SourcePhase {
      var u := GetImportedModule(w, t, req);
      var k: nat :| StandsFor(w, t, names, i, k);
      EntryReached(w, st, m, t, names, g, d, i, k);
      forall n | Denotes(req.importedNames, n)
        ensures Reached(w, st, m, Name(u, n, g || req.importedNames.All?)) && Bounded(w, false, u, n, d - 1)
      {
        NameInReach(w, st, m, t, names, g, d, i, n);
      }
    }
  }

  /** What an optional re-export behind a request brings into reach. */
  lemma EntryReached(w: World, st: seq<Progress>, m: nat, t: nat, names: Names, g: bool, d: nat, i: nat, k: nat)
    requires Valid(w) && t < |w| && Requestable(w, t, OptionalRequests(Optional(w, t), names))
    requires i < |OptionalRequests(Optional(w, t), names)| && StandsFor(w, t, names, i, k)
    requires OptionalRequests(Optional(w, t), names)[i].phase != SourcePhase
    requires IsLoaded(w[t], OptionalRequests(Optional(w, t), names)[i])
    requires forall n :: Denotes(names, n) ==> Reached(w, st, m, Name(t, n, g)) && Bounded(w, false, t, n, d)
    ensures d > 0
    ensures var req := OptionalRequests(Optional(w, t), names)[i];
            var u := GetImportedModule(w, t, req); var asked := NewNames(Optional(w, t)[k]);
            && (g || req.phase == DeferPhase ==> Reached(w, st, m, From(u)))
            && forall n :: Denotes(asked, n) ==>
                 Reached(w, st, m, Name(u, n, g || asked.All?)) && Bounded(w, false, u, n, d - 1)
  {
    hide Valid, IsLoaded, GetImportedModule, Denotes, OptionalRequests, Reached, Requestable;
    var e := Optional(w, t)[k];
    var u := GetImportedModule(w, t, OptionalRequests(Optional(w, t), names)[i]);
    assert Takes(w, false, t, k, e.exportName, u) && Follows(w, t, k, e.exportName, u);
    assert Bounded(w, false, t, e.exportName, d);
    if g || e.request.phase == DeferPhase {
      assert Asks(u, e.request.phase, NewNames(e), g, From(u));
      assert EntryAsks(w, t, e.exportName, g, From(u));
      ReachedNext(w, st, m, Name(t, e.exportName, g), From(u));
    }
    forall n | Wants(e, n) ensures Reached(w, st, m, Name(u, n, g || NewNames(e).All?)) {
      assert Asks(u, e.request.phase, NewNames(e), g, Name(u, n, g || NewNames(e).All?));
      assert EntryAsks(w, t, e.exportName, g, Name(u, n, g || NewNames(e).All?));
      ReachedNext(w, st, m, Name(t, e.exportName, g), Name(u, n, g || NewNames(e).All?));
    }
  }

  lemma NameInReach(w: World, st: seq<Progress>, m: nat, t: nat, names: Names, g: bool, d: nat, i: nat, n: string)
    requires Valid(w) && t < |w| && Requestable(w, t, OptionalRequests(Optional(w, t), names))
    requires i < |OptionalRequests(Optional(w, t), names)|
    requires OptionalRequests(Optional(w, t), names)[i].phase != SourcePhase
    requires IsLoaded(w[t], OptionalRequests(Optional(w, t), names)[i])
    requires Denotes(OptionalRequests(Optional(w, t), names)[i].importedNames, n)
    requires forall n :: Denotes(names, n) ==> Reached(w, st, m, Name(t, n, g)) && Bounded(w, false, t, n, d)
    ensures var req := OptionalRequests(Optional(w, t), names)[i]; var u := GetImportedModule(w, t, req);
            && d > 0
            && Reached(w, st, m, Name(u, n, g || req.importedNames.All?)) && Bounded(w, false, u, n, d - 1)
  {
    hide Valid, IsLoaded, GetImportedModule, OptionalRequests, Reached, Requestable, Bounded;
    var req := OptionalRequests(Optional(w, t), names)[i];
    RequestStandsFor(w, t, names, i);
    var k: nat;
    if req.importedNames.All? {
      k :| StandsFor(w, t, names, i, k) && NewNames(Optional(w, t)[k]).All?;
    } else {
      k :| StandsFor(w, t, names, i, k) && Wants(Optional(w, t)[k], n)
          && !NewNames(Optional(w, t)[k]).All?;
    }
    EntryReached(w, st, m, t, names, g, d, i, k);
  }

  /** The requests of a module that is gathered from are in reach. */
  lemma RequestedInReach(w: World, st: seq<Progress>, m: nat, x: nat, d: nat)
    requires Valid(w) && AllBounded(w, st, m, d) && Reached(w, st, m, From(x)) && Walked(w, st, x)
    requires Requestable(w, x, w[x].requested)
    ensures forall i :: 0 <= i < |w[x].requested| ==> InReach(w, st, m, x, w[x].requested[i], true, d + 1)
  {
    hide Valid, IsLoaded, GetImportedModule, Denotes, Reached, Bounded;
    forall i | 0 <= i < |w[x].requested| ensures InReach(w, st, m, x, w[x].requested[i], true, d + 1) {
      var req := w[x].requested[i];
      if req.phase != SourcePhase {
        var u := GetImportedModule(w, x, req);
        assert Requests(w, x, i, u);
        AskedReached(w, st, m, x, i, u, From(u));
        forall n | Denotes(req.importedNames, n)
          ensures Reached(w, st, m, Name(u, n, true)) && Bounded(w, false, u, n, d)
        {
          AskedReached(w, st, m, x, i, u, Name(u, n, true));
        }
      }
    }
  }

  lemma AskedReached(w: World, st: seq<Progress>, m: nat, x: nat, i: nat, u: nat, item: Item)
    requires Valid(w) && Reached(w, st, m, From(x)) && Walked(w, st, x) && Requests(w, x, i, u)
    requires Asks(u, w[x].requested[i].phase, w[x].requested[i].importedNames, true, item)
    ensures Reached(w, st, m, item)
  {
    hide Valid, IsLoaded, GetImportedModule, Denotes, Reached;
    assert RequestAsks(w, x, true, item);
    ReachedNext(w, st, m, From(x), item);
  }

  /** The module's own requests are in reach. */
  lemma OwnInReach(w: World, st: seq<Progress>, m: nat, d: nat)
    requires Valid(w) && AllBounded(w, st, m, d) && m < |w| && w[m].SourceText? && Requestable(w, m, w[m].requested)
    ensures forall i :: 0 <= i < |w[m].requested| ==> InReach(w, st, m, m, w[m].requested[i], false, d + 1)
  {
    hide Valid, IsLoaded, GetImportedModule, Denotes, Bounded;
    forall i | 0 <= i < |w[m].requested| ensures InReach(w, st, m, m, w[m].requested[i], false, d + 1) {
      var req := w[m].requested[i];
      if req.phase != SourcePhase {
        var u := GetImportedModule(w, m, req);
        assert Requests(w, m, i, u);
        if req.phase == DeferPhase {
          OwnReached(w, st, m, i, u, From(u));
        }
        forall n | Denotes(req.importedNames, n)
          ensures Reached(w, st, m, Name(u, n, req.importedNames.All?)) && Bounded(w, false, u, n, d)
        {
          OwnReached(w, st, m, i, u, Name(u, n, req.importedNames.All?));
        }
      }
    }
  }

  lemma OwnReached(w: World, st: seq<Progress>, m: nat, i: nat, u: nat, item: Item)
    requires Valid(w) && Requests(w, m, i, u)
    requires Asks(u, w[m].requested[i].phase, w[m].requested[i].importedNames, false, item)
    ensures Reached(w, st, m, item)
  {
    hide Valid, IsLoaded, GetImportedModule, Denotes;
    assert ReachedIn(w, st, m, item, 0);
  }

  lemma {:induction false} GatherEnds(w: World, st: seq<Progress>, m: nat, d: nat, fuel: nat, x: nat, seen: set<nat>)
    requires Tracked(w, st) && AllBounded(w, st, m, d) && x < |w| && Reached(w, st, m, From(x))
    requires fuel >= Rounds(d, |Unseen(w, seen)|)
    ensures Gather(w, st, fuel, x, seen).Some?
    decreases fuel, 1, 0
  {
    hide Valid, IsLoaded, Reached, AllBounded, InReach, GatherRequests, Requestable;
    if x !in seen && Walked(w, st, x) {
      AllRequestable(w, x);
      RequestableParts(w, x, w[x].requested);
      RequestedInReach(w, st, m, x, d);
      OneRoundLess(w, d, seen, x);
      GatherRequestsEnds(w, st, m, d, fuel, x, w[x].requested, seen + {x}, [], d + 1);
    }
  }

  lemma {:induction false} GatherRequestsEnds(w: World, st: seq<Progress>, m: nat, d: nat, fuel: nat, referrer: nat,
      reqs: seq<ModuleRequest>, seen: set<nat>, result: seq<nat>, links: nat)
    requires Tracked(w, st) && AllBounded(w, st, m, d) && Requestable(w, referrer, reqs)
    requires forall i :: 0 <= i < |reqs| ==> InReach(w, st, m, referrer, reqs[i], true, links)
    requires fuel >= links + Rounds(d, |Unseen(w, seen)|)
    ensures GatherRequests(w, st, fuel, referrer, reqs, seen, result).Some?
    decreases fuel, 0, |reqs|
  {
    hide Valid, IsLoaded, Reached, AllBounded, Requestable, GetImportedModule, OptionalRequests, Gather, AppendNew,
        Rounds, Bounded, Unseen, Denotes;
    RequestableParts(w, referrer, reqs);
    if reqs != [] {
      forall i | 0 <= i < |reqs[1..]| ensures InReach(w, st, m, referrer, reqs[1..][i], true, links) {
        assert reqs[1..][i] == reqs[i + 1];
      }
      if reqs[0].phase == SourcePhase {
        GatherRequestsEnds(w, st, m, d, fuel, referrer, reqs[1..], seen, result, links);
      } else {
        assert InReach(w, st, m, referrer, reqs[0], true, links);
        var t := GetImportedModule(w, referrer, reqs[0]);
        GatherEnds(w, st, m, d, fuel - 1, t, seen);
        var a := Gather(w, st, fuel - 1, t, seen).value;
        GatherCovers(w, st, fuel - 1, t, seen);
        FewerRounds(w, d, seen, a.seen);
        OptionalRequestsLoaded(w, t, reqs[0].importedNames);
        if w[t].Synthetic? {
          GatherRequestsEnds(w, st, m, d, fuel, referrer, reqs[1..], a.seen,
            AppendNew(AppendNew(result, a.list), []), links);
        } else {
          var optional := OptionalRequests(Optional(w, t), reqs[0].importedNames);
          forall i | 0 <= i < |optional| ensures IsLoaded(w[t], optional[i])
              && InReach(w, st, m, t, optional[i], true, links - 1) {
            RequestableParts(w, t, optional);
            OptionalInReach(w, st, m, t, reqs[0].importedNames, true, links - 1, i);
          }
          GatherRequestsEnds(w, st, m, d, fuel - 1, t, optional, a.seen, [], links - 1);
          var b := GatherRequests(w, st, fuel - 1, t, optional, a.seen, []).value;
          GatherRequestsCovers(w, st, fuel - 1, t, optional, a.seen, []);
          FewerRounds(w, d, a.seen, b.seen);
          GatherRequestsEnds(w, st, m, d, fuel, referrer, reqs[1..], b.seen,
            AppendNew(AppendNew(result, a.list), b.list), links);
        }
      }
    }
  }

  lemma {:induction false} BuildEnds(w: World, st: seq<Progress>, m: nat, d: nat, fuel: nat, referrer: nat,
      reqs: seq<ModuleRequest>, list: seq<nat>, links: nat)
    requires Tracked(w, st) && AllBounded(w, st, m, d) && Requestable(w, referrer, reqs)
    requires forall i :: 0 <= i < |reqs| ==> InReach(w, st, m, referrer, reqs[i], false, links)
    requires fuel >= links + Rounds(d, |Unseen(w, {})|)
    ensures BuildEvaluationList(w, st, fuel, referrer, reqs, list).Some?
    decreases fuel, |reqs|
  {
    hide Valid, IsLoaded, Reached, AllBounded, Requestable, GetImportedModule, OptionalRequests, Gather,
        GatherRequests, AppendNew, Rounds, Bounded, Unseen, Denotes;
    RequestableParts(w, referrer, reqs);
    if reqs != [] {
      forall i | 0 <= i < |reqs[1..]| ensures InReach(w, st, m, referrer, reqs[1..][i], false, links) {
        assert reqs[1..][i] == reqs[i + 1];
      }
      if reqs[0].phase == SourcePhase {
        BuildEnds(w, st, m, d, fuel, referrer, reqs[1..], list, links);
      } else {
        assert InReach(w, st, m, referrer, reqs[0], false, links);
        var t := GetImportedModule(w, referrer, reqs[0]);
        if reqs[0].phase == DeferPhase {
          GatherEnds(w, st, m, d, fuel - 1, t, {});
        }
        var l := Listed(w, st, fuel - 1, t, reqs[0], list).value;
        if w[t].Synthetic? {
          BuildEnds(w, st, m, d, fuel, referrer, reqs[1..], l, links);
        } else {
          OptionalRequestsLoaded(w, t, reqs[0].importedNames);
          var optional := OptionalRequests(Optional(w, t), reqs[0].importedNames);
          var all := reqs[0].importedNames.All?;
          forall i | 0 <= i < |optional| ensures IsLoaded(w[t], optional[i])
              && InReach(w, st, m, t, optional[i], all, links - 1) {
            RequestableParts(w, t, optional);
            OptionalInReach(w, st, m, t, reqs[0].importedNames, all, links - 1, i);
          }
          if all {
            GatherRequestsEnds(w, st, m, d, fuel - 1, t, optional, {}, [], links - 1);
            var b := GatherRequests(w, st, fuel - 1, t, optional, {}, []).value;
            BuildEnds(w, st, m, d, fuel, referrer, reqs[1..], AppendNew(l, b.list), links);
          } else {
            BuildEnds(w, st, m, d, fuel - 1, t, optional, l, links - 1);
            BuildEnds(w, st, m, d, fuel, referrer, reqs[1..],
              BuildEvaluationList(w, st, fuel - 1, t, optional, l).value, links);
          }
        }
      }
    }
  }

  /** A depth that suffices for every list of the world that ends at all. */
  function Depth(w: World): nat {
    |Entries(w)| + 1 + Rounds(|Entries(w)|, |Unseen(w, {})|)
  }

  /** Some depth suffices for m's list exactly when no name that building it asks for comes back
      to itself, and then `Depth` suffices. */
  lemma EndsExactlyWhenNoneComesBack(w: World, st: seq<Progress>, m: nat)
    requires Tracked(w, st) && m < |w| && w[m].SourceText?
    ensures (exists fuel: nat :: EvaluationListOf(w, st, fuel, m).Some?) <==> NoneComesBack(w, st, m)
    ensures NoneComesBack(w, st, m) ==> EvaluationListOf(w, st, Depth(w), m).Some?
  {
    hide Valid, IsLoaded, BuildEvaluationList, ComesBack, Reached, Requestable, Bounded, InReach;
    if fuel: nat :| EvaluationListOf(w, st, fuel, m).Some? {
      EndsOnlyWhenNoneComesBack(w, st, fuel, m);
    }
    if NoneComesBack(w, st, m) {
      var d := |Entries(w)|;
      forall t: nat, n: string, g: bool | Reached(w, st, m, Name(t, n, g)) ensures Bounded(w, false, t, n, d) {
        ReachedBounded(w, st, m, t, n, g);
      }
      AllRequestable(w, m);
      RequestableParts(w, m, w[m].requested);
      OwnInReach(w, st, m, d);
      BuildEnds(w, st, m, d, Depth(w), m, w[m].requested, [], d + 1);
      assert EvaluationListOf(w, st, Depth(w), m).Some?;
    }
  }
}
