/** BuildEvaluationList and the gathering of asynchronous dependencies: which modules a module's
    evaluation visits.  The recursion through optional re-exports is not guarded, so it need not
    end; `fuel` bounds its depth, and a call that ends has its value for some fuel. */
module EvaluationList {
  import opened Wrappers
  import opened ImportedNames
  import opened ModuleRequests
  import opened ModuleRecords
  import opened LinkingList
  import opened LinkingDemand
  import opened OptionalChains

  /** What gathering finds of a Cyclic Module Record: being evaluated or evaluated already; waiting
      for top-level await; or neither. */
  datatype Progress = Settled | Awaiting | Ready

  predicate Tracked(w: World, st: seq<Progress>) {
    Valid(w) && |st| == |w|
  }

  datatype Found = Found(list: seq<nat>, seen: set<nat>)

  function Gather(w: World, st: seq<Progress>, fuel: nat, m: nat, seen: set<nat>): (r: Option<Found>)
    requires Tracked(w, st) && m < |w|
    decreases fuel, 1, 0
  {
    if m in seen then Some(Found([], seen))
    else if w[m].Synthetic? || st[m].Settled? then Some(Found([], seen + {m}))
    else if st[m].Awaiting? then Some(Found([m], seen + {m}))
    else
      AllRequestable(w, m);
      GatherRequests(w, st, fuel, m, w[m].requested, seen + {m}, [])
  }

  function GatherRequests(w: World, st: seq<Progress>, fuel: nat, referrer: nat, reqs: seq<ModuleRequest>,
      seen: set<nat>, result: seq<nat>): (r: Option<Found>)
    requires Tracked(w, st) && Requestable(w, referrer, reqs)
    decreases fuel, 0, |reqs|
  {
    if reqs == [] then Some(Found(result, seen))
    else if reqs[0].phase == SourcePhase then GatherRequests(w, st, fuel, referrer, reqs[1..], seen, result)
    else if fuel == 0 then None
    else
      var t := GetImportedModule(w, referrer, reqs[0]);
      var a := Gather(w, st, fuel - 1, t, seen);
      if a.None? then None
      else
        OptionalRequestsLoaded(w, t, reqs[0].importedNames);
        var b := if w[t].Synthetic? then Some(Found([], a.value.seen))
                 else GatherRequests(w, st, fuel - 1, t, OptionalRequests(Optional(w, t), reqs[0].importedNames),
                     a.value.seen, []);
        if b.None? then None
        else
          GatherRequests(w, st, fuel, referrer, reqs[1..], b.value.seen,
            AppendNew(AppendNew(result, a.value.list), b.value.list))
  }

  /** What one request puts on the list by itself. */
  function Listed(w: World, st: seq<Progress>, fuel: nat, t: nat, req: ModuleRequest, list: seq<nat>): Option<seq<nat>>
    requires Tracked(w, st) && t < |w|
  {
    if req.phase == DeferPhase then
      var a := Gather(w, st, fuel, t, {});
      if a.None? then None else Some(AppendNew(list, a.value.list))
    else Some(if t in list then list else list + [t])
  }

  function BuildEvaluationList(w: World, st: seq<Progress>, fuel: nat, referrer: nat, reqs: seq<ModuleRequest>,
      list: seq<nat>): (r: Option<seq<nat>>)
    requires Tracked(w, st) && Requestable(w, referrer, reqs)
    decreases fuel, |reqs|
  {
    if reqs == [] then Some(list)
    else if reqs[0].phase == SourcePhase then BuildEvaluationList(w, st, fuel, referrer, reqs[1..], list)
    else if fuel == 0 then None
    else
      var t := GetImportedModule(w, referrer, reqs[0]);
      var l := Listed(w, st, fuel - 1, t, reqs[0], list);
      if l.None? then None
      else if w[t].Synthetic? then BuildEvaluationList(w, st, fuel, referrer, reqs[1..], l.value)
      else
        OptionalRequestsLoaded(w, t, reqs[0].importedNames);
        var optional := OptionalRequests(Optional(w, t), reqs[0].importedNames);
        if reqs[0].importedNames.All? then
          var b := GatherRequests(w, st, fuel - 1, t, optional, {}, []);
          if b.None? then None
          else BuildEvaluationList(w, st, fuel, referrer, reqs[1..], AppendNew(l.value, b.value.list))
        else
          var b := BuildEvaluationList(w, st, fuel - 1, t, optional, l.value);
          if b.None? then None
          else BuildEvaluationList(w, st, fuel, referrer, reqs[1..], b.value)
  }

  /** The list that InnerModuleEvaluation builds for m. */
  function EvaluationListOf(w: World, st: seq<Progress>, fuel: nat, m: nat): Option<seq<nat>>
    requires Tracked(w, st) && m < |w| && w[m].SourceText?
  {
    AllRequestable(w, m);
    BuildEvaluationList(w, st, fuel, m, w[m].requested, [])
  }

  // --- What building the list asks for ---

  /** Either name n of module t is asked for, by a list being built or by gathering, or module t
      is to be gathered from. */
  datatype Item = Name(t: nat, n: string, gathering: bool) | From(t: nat)

  /** What a request of u for `names` asks for.  A request for everything changes to gathering. */
  predicate Asks(u: nat, phase: Phase, names: Names, gathering: bool, item: Item) {
    match item
    case Name(t, n, g) => t == u && Denotes(names, n) && g == (gathering || names.All?)
    case From(t) => t == u && (gathering || phase == DeferPhase)
  }

  ghost predicate RequestAsks(w: World, m: nat, gathering: bool, item: Item)
    requires Valid(w)
  {
    exists i: nat, u: nat :: Requests(w, m, i, u)
      && Asks(u, w[m].requested[i].phase, w[m].requested[i].importedNames, gathering, item)
  }

  ghost predicate EntryAsks(w: World, t: nat, n: string, gathering: bool, item: Item)
    requires Valid(w)
  {
    exists k: nat, u: nat :: Follows(w, t, k, n, u)
      && Asks(u, Optional(w, t)[k].request.phase, NewNames(Optional(w, t)[k]), gathering, item)
  }

  predicate Walked(w: World, st: seq<Progress>, x: nat) {
    x < |w| && x < |st| && w[x].SourceText? && st[x].Ready?
  }

  ghost predicate Next(w: World, st: seq<Progress>, item: Item, item': Item)
    requires Valid(w)
  {
    match item
    case Name(t, n, g) => EntryAsks(w, t, n, g, item')
    case From(x) => Walked(w, st, x) && RequestAsks(w, x, true, item')
  }

  ghost predicate ReachedIn(w: World, st: seq<Progress>, m: nat, item: Item, steps: nat)
    requires Valid(w)
    decreases steps
  {
    if steps == 0 then RequestAsks(w, m, false, item)
    else exists prev: Item :: ReachedIn(w, st, m, prev, steps - 1) && Next(w, st, prev, item)
  }

  ghost predicate Reached(w: World, st: seq<Progress>, m: nat, item: Item)
    requires Valid(w)
  {
    exists steps: nat :: ReachedIn(w, st, m, item, steps)
  }

  /** No name that building m's list asks for comes back to itself. */
  ghost predicate NoneComesBack(w: World, st: seq<Progress>, m: nat)
    requires Valid(w)
  {
    forall t: nat, n: string, g: bool :: Reached(w, st, m, Name(t, n, g)) ==> !ComesBack(w, false, t, n)
  }

  lemma ReachedNext(w: World, st: seq<Progress>, m: nat, prev: Item, item: Item)
    requires Valid(w) && Reached(w, st, m, prev) && Next(w, st, prev, item)
    ensures Reached(w, st, m, item)
  {
    hide Valid, Next, RequestAsks;
    var steps: nat :| ReachedIn(w, st, m, prev, steps);
    assert ReachedIn(w, st, m, item, steps + 1);
  }

  /** A name that is reached leads only to names that are reached. */
  lemma {:induction false} ReachedLeads(w: World, st: seq<Progress>, m: nat, t: nat, n: string, g: bool,
      u: nat, n': string, links: nat) returns (g': bool)
    requires Valid(w) && Reached(w, st, m, Name(t, n, g)) && Leads(w, false, t, n, u, n', links)
    ensures Reached(w, st, m, Name(u, n', g'))
    decreases links
  {
    hide Valid, Reached, Follows, Takes, IsLoaded;
    if links == 0 {
      g' := g;
    } else {
      var x: nat, y: string :| Leads(w, false, t, n, x, y, links - 1) && OneLink(w, false, x, y, u, n');
      var gx := ReachedLeads(w, st, m, t, n, g, x, y, links - 1);
      g' := LinkReached(w, st, m, x, y, gx, u, n');
    }
  }

  lemma LinkReached(w: World, st: seq<Progress>, m: nat, t: nat, n: string, g: bool,
      u: nat, n': string) returns (g': bool)
    requires Valid(w) && Reached(w, st, m, Name(t, n, g)) && OneLink(w, false, t, n, u, n')
    ensures Reached(w, st, m, Name(u, n', g'))
  {
    hide Valid, Reached, IsLoaded, GetImportedModule, Denotes;
    var k: nat :| Takes(w, false, t, k, n, u) && Wants(Optional(w, t)[k], n');
    g' := g || NewNames(Optional(w, t)[k]).All?;
    assert Asks(u, Optional(w, t)[k].request.phase, NewNames(Optional(w, t)[k]), g, Name(u, n', g'));
    assert EntryAsks(w, t, n, g, Name(u, n', g'));
    ReachedNext(w, st, m, Name(t, n, g), Name(u, n', g'));
  }

  /** So where none comes back, the chains from every reached name are bounded by the number of
      optional re-exports. */
  lemma ReachedBounded(w: World, st: seq<Progress>, m: nat, t: nat, n: string, g: bool)
    requires Valid(w) && NoneComesBack(w, st, m) && Reached(w, st, m, Name(t, n, g))
    ensures Bounded(w, false, t, n, |Entries(w)|)
  {
    hide Valid, Reached, Bounded, ComesBack, Leads;
    forall u: nat, n': string, links: nat | Leads(w, false, t, n, u, n', links) ensures !ComesBack(w, false, u, n') {
      var g' := ReachedLeads(w, st, m, t, n, g, u, n', links);
    }
    BoundedExactlyWhenCalm(w, false, t, n);
  }
}
