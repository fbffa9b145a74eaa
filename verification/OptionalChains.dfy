/** Chains of optional re-exports: a name of a module leads to the names that the optional
    re-export answering it asks of another module. */
module OptionalChains {
  import opened ImportedNames
  import opened ModuleRequests
  import opened ModuleRecords
  import opened LinkingList
  import opened LinkingDemand

  /** The k-th optional re-export of t answers name n from module u.  Lists skip source-phase
      re-exports; nested calls (`any`) do not. */
  predicate Takes(w: World, any: bool, t: nat, k: nat, n: string, u: nat): (r: bool)
    requires Valid(w)
    ensures !any ==> (r <==> Follows(w, t, k, n, u))
  {
    && t < |w| && k < |Optional(w, t)| && Optional(w, t)[k].exportName == n
    && (any || Optional(w, t)[k].request.phase != SourcePhase)
    && IsLoaded(w[t], Optional(w, t)[k].request) && GetImportedModule(w, t, Optional(w, t)[k].request) == u
  }

  ghost predicate OneLink(w: World, any: bool, t: nat, n: string, u: nat, n': string)
    requires Valid(w)
  {
    exists k: nat :: Takes(w, any, t, k, n, u) && Wants(Optional(w, t)[k], n')
  }

  /** Name n of module t leads to name n' of module u over `links` optional re-exports. */
  ghost predicate Leads(w: World, any: bool, t: nat, n: string, u: nat, n': string, links: nat)
    requires Valid(w)
    decreases links
  {
    if links == 0 then t == u && n == n'
    else exists x: nat, y: string :: Leads(w, any, t, n, x, y, links - 1) && OneLink(w, any, x, y, u, n')
  }

  ghost predicate ComesBack(w: World, any: bool, t: nat, n: string)
    requires Valid(w)
  {
    exists links: nat :: links > 0 && Leads(w, any, t, n, t, n, links)
  }

  /** No chain from name n of module t has more than d links. */
  ghost predicate Bounded(w: World, any: bool, t: nat, n: string, d: nat)
    requires Valid(w)
    decreases d
  {
    forall k: nat, u: nat :: Takes(w, any, t, k, n, u) ==>
      d > 0 && forall n' :: Wants(Optional(w, t)[k], n') ==> Bounded(w, any, u, n', d - 1)
  }

  lemma {:induction false} BoundedStays(w: World, any: bool, t: nat, n: string, d: nat, d': nat)
    requires Valid(w) && Bounded(w, any, t, n, d) && d <= d'
    ensures Bounded(w, any, t, n, d')
    decreases d
  {
    hide Valid, IsLoaded, GetImportedModule, Denotes;
    forall k: nat, u: nat, n' | Takes(w, any, t, k, n, u) && Wants(Optional(w, t)[k], n')
      ensures Bounded(w, any, u, n', d' - 1)
    {
      BoundedStays(w, any, u, n', d - 1, d' - 1);
    }
  }

  lemma BoundedNext(w: World, any: bool, t: nat, n: string, d: nat, u: nat, n': string)
    requires Valid(w) && Bounded(w, any, t, n, d) && OneLink(w, any, t, n, u, n')
    ensures d > 0 && Bounded(w, any, u, n', d - 1)
  {
    hide Valid, IsLoaded, GetImportedModule, Denotes;
    var k: nat :| Takes(w, any, t, k, n, u) && Wants(Optional(w, t)[k], n');
  }

  lemma {:induction false} BoundedLeads(w: World, any: bool, t: nat, n: string, d: nat, u: nat, n': string, links: nat)
    requires Valid(w) && Bounded(w, any, t, n, d) && Leads(w, any, t, n, u, n', links)
    ensures links <= d && Bounded(w, any, u, n', d - links)
    decreases links
  {
    hide Valid, OneLink, Bounded;
    if links > 0 {
      var x: nat, y: string :| Leads(w, any, t, n, x, y, links - 1) && OneLink(w, any, x, y, u, n');
      BoundedLeads(w, any, t, n, d, x, y, links - 1);
      BoundedNext(w, any, x, y, d - (links - 1), u, n');
    }
  }

  lemma {:induction false} BoundedEnds(w: World, any: bool, t: nat, n: string, d: nat)
    requires Valid(w) && Bounded(w, any, t, n, d)
    ensures !ComesBack(w, any, t, n)
    decreases d
  {
    hide Valid, Takes, Leads, Bounded;
    if ComesBack(w, any, t, n) {
      var links: nat :| links > 0 && Leads(w, any, t, n, t, n, links);
      BoundedLeads(w, any, t, n, d, t, n, links);
      BoundedEnds(w, any, t, n, d - links);
    }
  }

  lemma {:induction false} LeadsFrom(w: World, any: bool, t: nat, n: string, u: nat, n': string,
      x: nat, y: string, links: nat)
    requires Valid(w) && OneLink(w, any, t, n, u, n') && Leads(w, any, u, n', x, y, links)
    ensures Leads(w, any, t, n, x, y, links + 1)
    decreases links
  {
    hide Valid, OneLink;
    if links == 0 {
      assert Leads(w, any, t, n, t, n, 0);
    } else {
      var x0: nat, y0: string :| Leads(w, any, u, n', x0, y0, links - 1) && OneLink(w, any, x0, y0, x, y);
      LeadsFrom(w, any, t, n, u, n', x0, y0, links - 1);
    }
  }

  function Entries(w: World): set<(nat, nat)> {
    set t: nat, k: nat | 0 <= t < |w| && 0 <= k < |Optional(w, t)| :: (t, k)
  }

  /** Nothing that name n of module t leads to comes back to itself. */
  ghost predicate Calm(w: World, any: bool, t: nat, n: string)
    requires Valid(w)
  {
    forall x: nat, y: string, links: nat :: Leads(w, any, t, n, x, y, links) ==> !ComesBack(w, any, x, y)
  }

  ghost predicate OnTheWay(w: World, any: bool, e: (nat, nat), t: nat, n: string)
    requires Valid(w) && e in Entries(w)
  {
    exists links: nat :: links > 0 && Leads(w, any, e.0, Optional(w, e.0)[e.1].exportName, t, n, links)
  }

  /** A chain that never comes back uses every optional re-export of the world at most once. */
  lemma {:induction false} CalmBounded(w: World, any: bool, t: nat, n: string, past: set<(nat, nat)>)
    requires Valid(w) && past <= Entries(w) && Calm(w, any, t, n)
    requires forall e :: e in past ==> OnTheWay(w, any, e, t, n)
    ensures Bounded(w, any, t, n, |Entries(w) - past|)
    decreases |Entries(w) - past|
  {
    hide Valid, Denotes, IsLoaded, GetImportedModule, Calm, OnTheWay, Entries;
    forall k: nat, u: nat | Takes(w, any, t, k, n, u)
      ensures |Entries(w) - past| > 0
      ensures forall n' :: Wants(Optional(w, t)[k], n') ==> Bounded(w, any, u, n', |Entries(w) - past| - 1)
    {
      NotYet(w, any, t, k, n, past);
      OneFewer(Entries(w), past, (t, k));
      forall n' | Wants(Optional(w, t)[k], n')
        ensures Bounded(w, any, u, n', |Entries(w) - past| - 1)
      {
        CalmNext(w, any, t, n, u, n', k, past);
        CalmBounded(w, any, u, n', past + {(t, k)});
      }
    }
  }

  lemma OneFewer(all: set<(nat, nat)>, past: set<(nat, nat)>, e: (nat, nat))
    requires e in all && e !in past
    ensures |all - (past + {e})| == |all - past| - 1
  {
    assert all - (past + {e}) == (all - past) - {e};
  }

  lemma NotYet(w: World, any: bool, t: nat, k: nat, n: string, past: set<(nat, nat)>)
    requires Valid(w) && past <= Entries(w) && Calm(w, any, t, n)
    requires forall e :: e in past ==> OnTheWay(w, any, e, t, n)
    requires t < |w| && k < |Optional(w, t)| && Optional(w, t)[k].exportName == n
    ensures (t, k) in Entries(w) && (t, k) !in past
  {
    hide Valid, OnTheWay, Leads, ComesBack;
    if (t, k) in past {
      BackAgain(w, any, t, k, n);
    }
  }

  lemma BackAgain(w: World, any: bool, t: nat, k: nat, n: string)
    requires Valid(w) && (t, k) in Entries(w) && Optional(w, t)[k].exportName == n
    requires OnTheWay(w, any, (t, k), t, n)
    ensures ComesBack(w, any, t, n) && Leads(w, any, t, n, t, n, 0)
  {
    hide Valid, OneLink;
  }

  lemma CalmNext(w: World, any: bool, t: nat, n: string, u: nat, n': string, k: nat, past: set<(nat, nat)>)
    requires Valid(w) && past <= Entries(w) && Calm(w, any, t, n)
    requires forall e :: e in past ==> OnTheWay(w, any, e, t, n)
    requires (t, k) in Entries(w) && Takes(w, any, t, k, n, u) && Wants(Optional(w, t)[k], n')
    ensures Calm(w, any, u, n')
    ensures forall e :: e in past + {(t, k)} ==> OnTheWay(w, any, e, u, n')
  {
    hide Valid, IsLoaded, GetImportedModule, Denotes, ComesBack;
    assert OneLink(w, any, t, n, u, n');
    hide OneLink;
    forall x: nat, y: string, links: nat | Leads(w, any, u, n', x, y, links) ensures !ComesBack(w, any, x, y) {
      LeadsFrom(w, any, t, n, u, n', x, y, links);
    }
    forall e | e in past + {(t, k)} ensures OnTheWay(w, any, e, u, n') {
      if e == (t, k) {
        assert Leads(w, any, t, n, t, n, 0);
        assert Leads(w, any, t, n, u, n', 1);
      } else {
        assert e in past;
        var links: nat :| links > 0 && Leads(w, any, e.0, Optional(w, e.0)[e.1].exportName, t, n, links);
        assert Leads(w, any, e.0, Optional(w, e.0)[e.1].exportName, u, n', links + 1);
      }
    }
  }

  /** The chains from a name have a common bound, the number of optional re-exports, exactly when
      none of the names they lead to comes back to itself. */
  lemma BoundedExactlyWhenCalm(w: World, any: bool, t: nat, n: string)
    requires Valid(w)
    ensures (exists d: nat :: Bounded(w, any, t, n, d)) <==> Calm(w, any, t, n)
    ensures Calm(w, any, t, n) ==> Bounded(w, any, t, n, |Entries(w)|)
  {
    hide Valid, Bounded, Leads, ComesBack;
    if Calm(w, any, t, n) {
      CalmBounded(w, any, t, n, {});
      assert Entries(w) - {} == Entries(w);
    }
    if d: nat :| Bounded(w, any, t, n, d) {
      forall x: nat, y: string, links: nat | Leads(w, any, t, n, x, y, links) ensures !ComesBack(w, any, x, y) {
        BoundedLeads(w, any, t, n, d, x, y, links);
        BoundedEnds(w, any, x, y, d - links);
      }
    }
  }

  // --- Requests for optional re-exports against the re-exports themselves ---

  /** A string longer than each of the given ones. */
  function Longer(names: seq<string>): (r: string)
    ensures |r| > 0 && forall i :: 0 <= i < |names| ==> |names[i]| < |r|
  {
    if names == [] then "x" else names[0] + Longer(names[1..])
  }

  lemma DenotesAll(a: Names)
    requires forall n :: Denotes(a, n)
    ensures a.All?
  {
    assert Denotes(a, DEFAULT);
    if a.List? {
      assert Denotes(a, Longer(a.names));
    }
  }

  function NamesOf(entries: seq<IndirectEntry>): (r: seq<string>)
    ensures |r| == |entries|
    ensures forall k :: 0 <= k < |entries| && entries[k].importName.ImportString? ==> r[k] == entries[k].importName.name
  {
    seq(|entries|, k requires 0 <= k < |entries| =>
      if entries[k].importName.ImportString? then entries[k].importName.name else "")
  }

  /** The request's phase and module are those of an optional re-export that it stands for. */
  predicate StandsFor(w: World, t: nat, names: Names, i: nat, k: nat)
    requires Valid(w) && t < |w| && Requestable(w, t, OptionalRequests(Optional(w, t), names))
  {
    var reqs := OptionalRequests(Optional(w, t), names);
    && i < |reqs| && Selected(Optional(w, t), names, k) && reqs[i].phase == Optional(w, t)[k].request.phase
    && Takes(w, true, t, k, Optional(w, t)[k].exportName, GetImportedModule(w, t, reqs[i]))
  }

  lemma StandsForAt(w: World, t: nat, names: Names, i: nat, k: nat)
    requires Valid(w) && t < |w| && Requestable(w, t, OptionalRequests(Optional(w, t), names))
    requires i < |OptionalRequests(Optional(w, t), names)| && Selected(Optional(w, t), names, k)
        && SameSlot(OptionalRequests(Optional(w, t), names)[i], Optional(w, t)[k].request)
    ensures StandsFor(w, t, names, i, k)
  {
    hide Valid, IsLoaded, OptionalRequests, Denotes, SameSlot, GetImportedModule;
    OptionalLoaded(w, t);
    RequestTarget(w, t, OptionalRequests(Optional(w, t), names)[i], Optional(w, t)[k].request);
  }

  /** Every request stands for an optional re-export that the names select; every name it asks for
      is asked by such a re-export; if it asks for everything, so does one of them. */
  lemma RequestStandsFor(w: World, t: nat, names: Names, i: nat)
    requires Valid(w) && t < |w| && Requestable(w, t, OptionalRequests(Optional(w, t), names))
    requires i < |OptionalRequests(Optional(w, t), names)|
    ensures exists k: nat :: StandsFor(w, t, names, i, k)
    ensures var req := OptionalRequests(Optional(w, t), names)[i];
            && (forall n :: Denotes(req.importedNames, n) ==>
                  exists k: nat :: StandsFor(w, t, names, i, k) && Wants(Optional(w, t)[k], n)
                    && (NewNames(Optional(w, t)[k]).All? ==> req.importedNames.All?))
            && (req.importedNames.All? ==>
                  exists k: nat :: StandsFor(w, t, names, i, k) && NewNames(Optional(w, t)[k]).All?)
  {
    hide Valid, IsLoaded, OptionalRequests, Denotes, SameSlot, GetImportedModule, Requestable, NewNames;
    var entries := Optional(w, t);
    OptionalLoaded(w, t);
    var k := RequestSource(entries, names, i);
    StandsForAt(w, t, names, i, k);
    var req := OptionalRequests(entries, names)[i];
    forall n | Denotes(req.importedNames, n)
      ensures exists k: nat :: StandsFor(w, t, names, i, k) && Wants(Optional(w, t)[k], n)
                && (NewNames(Optional(w, t)[k]).All? ==> req.importedNames.All?)
    {
      var k' := NameSource(entries, names, i, n);
      SlotAsksAll(entries, names, i, k');
      StandsForAt(w, t, names, i, k');
    }
    if req.importedNames.All? {
      var k' := AllSource(entries, names, i);
      StandsForAt(w, t, names, i, k');
    }
  }

  lemma SlotAsksAll(entries: seq<IndirectEntry>, names: Names, i: nat, k: nat)
    requires WellKeyed(entries) && i < |OptionalRequests(entries, names)| && Selected(entries, names, k)
    requires SameSlot(OptionalRequests(entries, names)[i], entries[k].request)
    ensures NewNames(entries[k]).All? ==> OptionalRequests(entries, names)[i].importedNames.All?
  {
    hide OptionalRequests, SameSlot, NewNames;
    var req := OptionalRequests(entries, names)[i];
    OptionalRequestsGroup(entries, names);
    if NewNames(entries[k]).All? {
      forall n ensures Denotes(req.importedNames, n) {
        assert Asked(entries, names, req, n);
      }
      DenotesAll(req.importedNames);
    }
  }

  lemma AllSource(entries: seq<IndirectEntry>, names: Names, i: nat) returns (k: nat)
    requires WellKeyed(entries) && i < |OptionalRequests(entries, names)|
        && OptionalRequests(entries, names)[i].importedNames.All?
    ensures k < |entries| && Selected(entries, names, k)
        && SameSlot(OptionalRequests(entries, names)[i], entries[k].request) && NewNames(entries[k]).All?
  {
    hide OptionalRequests, SameSlot, Selected;
    var n := Longer(NamesOf(entries));
    k := NameSource(entries, names, i, n);
    assert |NamesOf(entries)[k]| < |n|;
  }

  /** Every optional re-export that the names select has a request, which asks for at least its names. */
  lemma EntryRequested(w: World, t: nat, names: Names, k: nat) returns (i: nat)
    requires Valid(w) && t < |w| && Requestable(w, t, OptionalRequests(Optional(w, t), names))
    requires Selected(Optional(w, t), names, k)
    ensures StandsFor(w, t, names, i, k)
    ensures var req := OptionalRequests(Optional(w, t), names)[i];
            && (forall n :: Wants(Optional(w, t)[k], n) ==> Denotes(req.importedNames, n))
            && (NewNames(Optional(w, t)[k]).All? ==> req.importedNames.All?)
  {
    hide Valid, IsLoaded, OptionalRequests, SameSlot, GetImportedModule, Requestable, StandsFor;
    OptionalLoaded(w, t);
    i := NameKept(Optional(w, t), names, k);
    StandsForAt(w, t, names, i, k);
    if NewNames(Optional(w, t)[k]).All? {
      DenotesAll(OptionalRequests(Optional(w, t), names)[i].importedNames);
    }
  }

  // --- A world whose optional re-exports come back ---

  function NamespaceOf(specifier: string): ModuleRequest {
    ModuleRequest(specifier, [], EvaluationPhase, All)
  }

  function Reexport(name: string, specifier: string): IndirectEntry {
    IndirectEntry(ModuleRequest(specifier, [], EvaluationPhase, List([name])), ImportString(name), name)
  }

  /** Each of two modules optionally re-exports `x` of the other; module 0 may also import module 1 as
      a namespace. */
  function EachOther(imports: bool): World {
    [
      SourceText(if imports then [NamespaceOf("b")] else [], [LoadedModule("b", [], 1)], [], [], [],
        [Reexport("x", "b")]),
      SourceText([], [LoadedModule("a", [], 0)], [], [], [], [Reexport("x", "a")])
    ]
  }

  lemma EachOtherLoaded(imports: bool, any: bool)
    ensures var w := EachOther(imports);
            && Valid(w) && (imports ==> Requests(w, 0, 0, 1))
            && Takes(w, any, 0, 0, "x", 1) && Takes(w, any, 1, 0, "x", 0)
  {
    var w := EachOther(imports);
    assert ModuleRequestsKeyEqual(KeyOf(w[0].loaded[0]), NamespaceOf("b"));
    assert ModuleRequestsKeyEqual(KeyOf(w[0].loaded[0]), Reexport("x", "b").request);
    assert ModuleRequestsKeyEqual(KeyOf(w[1].loaded[0]), Reexport("x", "a").request);
    assert FindLoaded(w[0].loaded, NamespaceOf("b")) == 0;
    assert FindLoaded(w[0].loaded, Reexport("x", "b").request) == 0;
    assert FindLoaded(w[1].loaded, Reexport("x", "a").request) == 0;
    assert ValidInfo(w[0], 2) && ValidInfo(w[1], 2);
  }

  lemma EachOtherComesBack(imports: bool, any: bool)
    ensures var w := EachOther(imports);
            && Valid(w) && (imports ==> Requests(w, 0, 0, 1))
            && ComesBack(w, any, 0, "x") && ComesBack(w, any, 1, "x")
  {
    hide Valid, IsLoaded, GetImportedModule, Takes;
    var w := EachOther(imports);
    EachOtherLoaded(imports, any);
    assert Wants(Optional(w, 0)[0], "x") && Wants(Optional(w, 1)[0], "x");
    assert OneLink(w, any, 0, "x", 1, "x") && OneLink(w, any, 1, "x", 0, "x");
    TwoLinks(w, any, 0, 1, "x");
    TwoLinks(w, any, 1, 0, "x");
  }

  lemma TwoLinks(w: World, any: bool, t: nat, u: nat, n: string)
    requires Valid(w) && OneLink(w, any, t, n, u, n) && OneLink(w, any, u, n, t, n)
    ensures ComesBack(w, any, t, n)
  {
    hide Valid, OneLink;
    assert Leads(w, any, t, n, t, n, 0);
    assert Leads(w, any, t, n, u, n, 1);
    assert Leads(w, any, t, n, t, n, 2);
  }
}
