/** BuildLinkingList: the modules that a module's requests bring into its linking. */
module LinkingList {
  import opened ImportedNames
  import opened ModuleRequests
  import opened ModuleRecords

  datatype Lists = Lists(list: seq<nat>, prev: map<nat, Names>)

  function PrevOf(prev: map<nat, Names>, m: nat): Names {
    if m in prev then prev[m] else List([])
  }

  /** prev has a record for exactly the Cyclic Module Records listed. */
  ghost predicate Fits(w: World, s: Lists) {
    && (forall i :: 0 <= i < |s.list| ==> s.list[i] < |w|)
    && (forall m :: m in s.prev <==> m in s.list && w[m].SourceText?)
  }

  predicate Requestable(w: World, m: nat, reqs: seq<ModuleRequest>) {
    m < |w| && forall i :: 0 <= i < |reqs| ==> IsLoaded(w[m], reqs[i])
  }

  /** What a module's optional re-exports could still bring in. */
  predicate Open(w: World, prev: map<nat, Names>, m: nat, k: nat)
    requires m < |w|
  {
    if k == 0 then !PrevOf(prev, m).All?
    else if k == 1 then PrevOf(prev, m).List?
    else k - 2 < |Optional(w, m)| && !Denotes(PrevOf(prev, m), Optional(w, m)[k - 2].exportName)
  }

  function Tokens(w: World, prev: map<nat, Names>): set<(nat, nat)> {
    set m: nat, k: nat | 0 <= m < |w| && 0 <= k < 2 + |Optional(w, m)| && Open(w, prev, m, k) :: (m, k)
  }

  function Enter(w: World, s: Lists, t: nat): Lists
    requires t < |w|
  {
    if t in s.list then s
    else Lists(s.list + [t], if w[t].SourceText? then s.prev[t := List([])] else s.prev)
  }

  lemma OptionalRequestsLoaded(w: World, m: nat, names: Names)
    requires Valid(w) && m < |w|
    ensures Requestable(w, m, OptionalRequests(Optional(w, m), names))
  {
    hide Valid, IsLoaded, SameKey, Denotes, Selected, OptionalRequests;
    var entries := Optional(w, m);
    var reqs := OptionalRequests(entries, names);
    OptionalLoaded(w, m);
    forall i | 0 <= i < |reqs| ensures IsLoaded(w[m], reqs[i]) {
      var k := RequestSource(entries, names, i);
      SameKeySym(reqs[i], entries[k].request);
      SameKeySameModule(w, m, entries[k].request, reqs[i]);
    }
  }

  lemma SameKeySym(r: ModuleRequest, r': ModuleRequest)
    requires SameSlot(r, r')
    ensures SameKey(r', r)
  {
  }

  /** Asking for names that select some optional re-export closes some token for good. */
  lemma NewNamesCloseTokens(w: World, prev: map<nat, Names>, t: nat, names: Names)
    requires Valid(w) && t < |w| && t in prev
    ensures var extra := Exclude(names, prev[t]); var prev' := prev[t := Merge(prev[t], extra)];
            && Tokens(w, prev') <= Tokens(w, prev)
            && (OptionalRequests(Optional(w, t), extra) != [] ==> Tokens(w, prev') < Tokens(w, prev))
  {
    hide Valid, SameSlot, OptionalRequests;
    var p := prev[t];
    var extra := Exclude(names, p);
    var prev' := prev[t := Merge(p, extra)];
    var entries := Optional(w, t);
    OptionalLoaded(w, t);
    forall m: nat, k: nat | m < |w| && Open(w, prev', m, k) ensures Open(w, prev, m, k) {
    }
    var reqs := OptionalRequests(entries, extra);
    if reqs != [] {
      var k := RequestSource(entries, extra, 0);
      var closed := if prev'[t].All? then 0 else if prev'[t].AllButDefault? then 1 else 2 + k;
      assert Open(w, prev, t, closed) && !Open(w, prev', t, closed);
      assert (t, closed) in Tokens(w, prev) && (t, closed) !in Tokens(w, prev');
    }
  }

  lemma EnterKeeps(w: World, s: Lists, t: nat)
    requires Fits(w, s) && t < |w|
    ensures Fits(w, Enter(w, s, t)) && t in Enter(w, s, t).list && Tokens(w, Enter(w, s, t).prev) == Tokens(w, s.prev)
  {
    var s' := Enter(w, s, t);
    assert forall m :: PrevOf(s'.prev, m) == PrevOf(s.prev, m);
    assert forall m: nat, k: nat :: m < |w| ==> (Open(w, s'.prev, m, k) <==> Open(w, s.prev, m, k));
  }

  function Build(w: World, s: Lists, referrer: nat, reqs: seq<ModuleRequest>): (r: Lists)
    requires Valid(w) && Fits(w, s) && Requestable(w, referrer, reqs)
    ensures Fits(w, r) && Tokens(w, r.prev) <= Tokens(w, s.prev)
    decreases Tokens(w, s.prev), |reqs|
  {
    if reqs == [] then s
    else if reqs[0].phase == SourcePhase then Build(w, s, referrer, reqs[1..])
    else
      var t := GetImportedModule(w, referrer, reqs[0]);
      EnterKeeps(w, s, t);
      var s1 := Enter(w, s, t);
      if w[t].Synthetic? then Build(w, s1, referrer, reqs[1..])
      else
        var extra := Exclude(reqs[0].importedNames, s1.prev[t]);
        var s2 := s1.(prev := s1.prev[t := Merge(s1.prev[t], extra)]);
        NewNamesCloseTokens(w, s1.prev, t, reqs[0].importedNames);
        OptionalRequestsLoaded(w, t, extra);
        assert Tokens(w, s2.prev) < Tokens(w, s.prev) || Tokens(w, s2.prev) == Tokens(w, s.prev);
        var s3 := Build(w, s2, t, OptionalRequests(Optional(w, t), extra));
        assert Tokens(w, s3.prev) < Tokens(w, s.prev) || Tokens(w, s3.prev) == Tokens(w, s.prev);
        Build(w, s3, referrer, reqs[1..])
  }

  lemma AllRequestable(w: World, m: nat)
    requires Valid(w) && m < |w| && w[m].SourceText?
    ensures Requestable(w, m, w[m].requested)
  {
    hide FindLoaded;
    assert ValidInfo(w[m], |w|);
  }

  /** The modules InnerModuleLinking visits on behalf of m. */
  function LinkingListOf(w: World, m: nat): seq<nat>
    requires Valid(w) && m < |w|
  {
    if w[m].Synthetic? then []
    else
      AllRequestable(w, m);
      Build(w, Lists([], map[]), m, w[m].requested).list
  }

  lemma RequestableParts(w: World, m: nat, reqs: seq<ModuleRequest>)
    requires Requestable(w, m, reqs)
    ensures m < |w| && forall i :: 0 <= i < |reqs| ==> IsLoaded(w[m], reqs[i])
    ensures forall i :: 0 <= i <= |reqs| ==> Requestable(w, m, reqs[i..])
  {
    hide IsLoaded;
  }

  class LinkingListBuilder {
    var linkingList: seq<nat>
    var previouslyImportedNames: map<nat, Names>

    constructor ()
      ensures View() == Lists([], map[])
    {
      linkingList, previouslyImportedNames := [], map[];
    }

    function View(): Lists
      reads this
    {
      Lists(linkingList, previouslyImportedNames)
    }

    method GetNewOptionalIndirectExportsModuleRequests(w: World, m: nat,
        importedNames: Names) returns (reqs: seq<ModuleRequest>)
      requires m < |w| && m in previouslyImportedNames
      modifies this
      ensures var extra := Exclude(importedNames, old(previouslyImportedNames)[m]);
              && reqs == OptionalRequests(Optional(w, m), extra)
              && View() == Lists(old(linkingList),
                  old(previouslyImportedNames)[m := Merge(old(previouslyImportedNames)[m], extra)])
    {
      var previous := previouslyImportedNames[m];
      var newImportedNames := ExcludeImportedNames(importedNames, previous);
      var merged := MergeImportedNames(previous, newImportedNames);
      previouslyImportedNames := previouslyImportedNames[m := merged];
      reqs := ModuleRequests.GetOptionalIndirectExportsModuleRequests(Optional(w, m), newImportedNames);
    }

    method AppendOnce(w: World, requiredModule: nat)
      requires Fits(w, View()) && requiredModule < |w|
      modifies this
      ensures View() == Enter(w, old(View()), requiredModule)
    {
      if requiredModule !in linkingList {
        linkingList := linkingList + [requiredModule];
        if w[requiredModule].SourceText? {
          assert requiredModule !in previouslyImportedNames;
          previouslyImportedNames := previouslyImportedNames[requiredModule := List([])];
        }
      }
    }

    /** The lists are grown in place through the recursion; the result is the specification's. */
    method BuildLinkingList(w: World, referrer: nat, moduleRequests: seq<ModuleRequest>)
      requires Valid(w) && Fits(w, View()) && Requestable(w, referrer, moduleRequests)
      modifies this
      ensures View() == Build(w, old(View()), referrer, moduleRequests)
      decreases Tokens(w, View().prev), |moduleRequests|, 0
    {
      hide Valid, Tokens, OptionalRequests, Exclude, Merge, IsLoaded, Requestable;
      ghost var start := View();
      RequestableParts(w, referrer, moduleRequests);
      for i := 0 to |moduleRequests|
        invariant Fits(w, View()) && Tokens(w, View().prev) <= Tokens(w, start.prev)
        invariant Build(w, View(), referrer, moduleRequests[i..]) == Build(w, start, referrer, moduleRequests)
      {
        ghost var before := View();
        assert moduleRequests[i..][0] == moduleRequests[i] && moduleRequests[i..][1..] == moduleRequests[i + 1..];
        if moduleRequests[i].phase == SourcePhase {
          continue;
        }
        var requiredModule := GetImportedModule(w, referrer, moduleRequests[i]);
        EnterKeeps(w, View(), requiredModule);
        AppendOnce(w, requiredModule);
        if w[requiredModule].SourceText? {
          assert Tokens(w, View().prev) < Tokens(w, start.prev) || Tokens(w, View().prev) == Tokens(w, start.prev);
          FollowOptionalExports(w, requiredModule, moduleRequests[i].importedNames);
        }
      }
    }

    /** Record what is newly asked of t, and work off the optional re-exports that it selects. */
    method FollowOptionalExports(w: World, t: nat, importedNames: Names)
      requires Valid(w) && Fits(w, View()) && t < |w| && w[t].SourceText? && t in linkingList
      modifies this
      ensures t in old(previouslyImportedNames)
      ensures Fits(w, View()) && Tokens(w, View().prev) <= Tokens(w, old(View()).prev)
      ensures var s := old(View()); var extra := Exclude(importedNames, s.prev[t]);
              var s2 := s.(prev := s.prev[t := Merge(s.prev[t], extra)]);
              Fits(w, s2) && Requestable(w, t, OptionalRequests(Optional(w, t), extra)) &&
              View() == Build(w, s2, t, OptionalRequests(Optional(w, t), extra))
      decreases Tokens(w, View().prev), 0, 1
    {
      hide Valid, Tokens, OptionalRequests, Exclude, Merge, IsLoaded, Requestable;
      ghost var s := View();
      assert t in previouslyImportedNames;
      ghost var extra := Exclude(importedNames, s.prev[t]);
      var optionalIndirectRequests := GetNewOptionalIndirectExportsModuleRequests(w, t, importedNames);
      NewNamesCloseTokens(w, s.prev, t, importedNames);
      OptionalRequestsLoaded(w, t, extra);
      assert Tokens(w, View().prev) < Tokens(w, s.prev) || Tokens(w, View().prev) == Tokens(w, s.prev);
      BuildLinkingList(w, t, optionalIndirectRequests);
    }
  }
}
