/** What BuildLinkingList is for: its list is exactly the modules that a module demands, directly
    or through the optional re-exports that its imported names select. */
module LinkingDemand {
  import opened Sequences
  import opened ImportedNames
  import opened ModuleRequests
  import opened ModuleRecords
  import opened LinkingList

  /** The k-th optional re-export of t answers name n, and linking follows it to module u. */
  predicate Follows(w: World, t: nat, k: nat, n: string, u: nat)
    requires Valid(w)
  {
    && t < |w| && k < |Optional(w, t)|
    && Optional(w, t)[k].exportName == n && Optional(w, t)[k].request.phase != SourcePhase
    && IsLoaded(w[t], Optional(w, t)[k].request) && GetImportedModule(w, t, Optional(w, t)[k].request) == u
  }

  /** The i-th request of m asks for module t. */
  predicate Requests(w: World, m: nat, i: nat, t: nat)
    requires Valid(w)
  {
    && m < |w| && w[m].SourceText? && i < |w[m].requested|
    && w[m].requested[i].phase != SourcePhase
    && IsLoaded(w[m], w[m].requested[i]) && GetImportedModule(w, m, w[m].requested[i]) == t
  }

  /** Name n of module t is demanded on behalf of m, through `steps` optional re-exports. */
  ghost predicate DemandedIn(w: World, m: nat, t: nat, n: string, steps: nat)
    requires Valid(w)
    decreases steps
  {
    if steps == 0 then exists i: nat :: Requests(w, m, i, t) && Denotes(w[m].requested[i].importedNames, n)
    else
      exists t0: nat, k: nat, n0: string ::
        && DemandedIn(w, m, t0, n0, steps - 1) && Follows(w, t0, k, n0, t)
        && Wants(Optional(w, t0)[k], n)
  }

  ghost predicate Demanded(w: World, m: nat, t: nat, n: string)
    requires Valid(w)
  {
    exists steps: nat :: DemandedIn(w, m, t, n, steps)
  }

  /** Module t is demanded on behalf of m. */
  ghost predicate DemandedModule(w: World, m: nat, t: nat)
    requires Valid(w)
  {
    || (exists i: nat :: Requests(w, m, i, t))
    || (exists t0: nat, k: nat, n0: string :: Demanded(w, m, t0, n0) && Follows(w, t0, k, n0, t))
  }

  lemma DemandedStep(w: World, m: nat, t0: nat, n0: string, k: nat, t: nat, n: string)
    requires Valid(w) && Demanded(w, m, t0, n0) && Follows(w, t0, k, n0, t) && Wants(Optional(w, t0)[k], n)
    ensures Demanded(w, m, t, n)
  {
    hide Valid, IsLoaded, Denotes;
    var steps: nat :| DemandedIn(w, m, t0, n0, steps);
    assert DemandedIn(w, m, t, n, steps + 1);
  }

  /** Every request still to be worked off, and everything recorded, is demanded. */
  ghost predicate Justified(w: World, m: nat, s: Lists)
    requires Valid(w)
  {
    && (forall i :: 0 <= i < |s.list| ==> DemandedModule(w, m, s.list[i]))
    && (forall t, n :: t in s.prev && Denotes(s.prev[t], n) ==> Demanded(w, m, t, n))
  }

  ghost predicate JustifiedRequest(w: World, m: nat, referrer: nat, req: ModuleRequest)
    requires Valid(w) && referrer < |w| && IsLoaded(w[referrer], req)
  {
    req.phase != SourcePhase ==>
      var t := GetImportedModule(w, referrer, req);
      DemandedModule(w, m, t) && forall n :: Denotes(req.importedNames, n) ==> Demanded(w, m, t, n)
  }

  ghost predicate JustifiedRequests(w: World, m: nat, referrer: nat, reqs: seq<ModuleRequest>)
    requires Valid(w) && Requestable(w, referrer, reqs)
  {
    forall i :: 0 <= i < |reqs| ==> JustifiedRequest(w, m, referrer, reqs[i])
  }

  /** The grouped request for an optional re-export asks only for names its selected entries ask for. */
  lemma OptionalJustified(w: World, m: nat, t: nat, names: Names)
    requires Valid(w) && t < |w| && forall n :: Denotes(names, n) ==> Demanded(w, m, t, n)
    ensures Requestable(w, t, OptionalRequests(Optional(w, t), names))
    ensures JustifiedRequests(w, m, t, OptionalRequests(Optional(w, t), names))
  {
    hide Valid, IsLoaded, OptionalRequests, Demanded, JustifiedRequest;
    var reqs := OptionalRequests(Optional(w, t), names);
    OptionalRequestsLoaded(w, t, names);
    RequestableParts(w, t, reqs);
    forall i | 0 <= i < |reqs| ensures JustifiedRequest(w, m, t, reqs[i]) {
      OptionalJustifiedAt(w, m, t, names, i);
    }
  }

  lemma OptionalJustifiedAt(w: World, m: nat, t: nat, names: Names, i: nat)
    requires Valid(w) && t < |w| && forall n :: Denotes(names, n) ==> Demanded(w, m, t, n)
    requires i < |OptionalRequests(Optional(w, t), names)| && IsLoaded(w[t], OptionalRequests(Optional(w, t), names)[i])
    ensures JustifiedRequest(w, m, t, OptionalRequests(Optional(w, t), names)[i])
  {
    hide Valid, IsLoaded, SameKey, Denotes, OptionalRequests, Demanded, NewNames, GetImportedModule;
    var entries := Optional(w, t);
    var req := OptionalRequests(entries, names)[i];
    OptionalLoaded(w, t);
    var k := RequestSource(entries, names, i);
    RequestTarget(w, t, req, entries[k].request);
    if req.phase != SourcePhase {
      var u := GetImportedModule(w, t, req);
      assert Follows(w, t, k, entries[k].exportName, u);
      forall n | Denotes(req.importedNames, n) ensures Demanded(w, m, u, n) {
        var k' := NameSource(entries, names, i, n);
        RequestTarget(w, t, req, entries[k'].request);
        DemandedStep(w, m, t, entries[k'].exportName, k', u, n);
      }
    }
  }

  lemma NameSource(entries: seq<IndirectEntry>, names: Names, i: nat, n: string) returns (k: nat)
    requires WellKeyed(entries) && i < |OptionalRequests(entries, names)|
        && Denotes(OptionalRequests(entries, names)[i].importedNames, n)
    ensures k < |entries| && Selected(entries, names, k)
        && SameSlot(OptionalRequests(entries, names)[i], entries[k].request) && Wants(entries[k], n)
  {
    hide SameSlot, Denotes, NewNames, Selected, OptionalRequests;
    OptionalRequestsGroup(entries, names);
    assert Asked(entries, names, OptionalRequests(entries, names)[i], n);
    k :| 0 <= k < |entries| && Selected(entries, names, k)
        && SameSlot(OptionalRequests(entries, names)[i], entries[k].request) && Wants(entries[k], n);
  }

  lemma NameKept(entries: seq<IndirectEntry>, names: Names, k: nat) returns (i: nat)
    requires WellKeyed(entries) && k < |entries| && Selected(entries, names, k)
    ensures i < |OptionalRequests(entries, names)| && SameSlot(OptionalRequests(entries, names)[i], entries[k].request)
    ensures forall n :: Wants(entries[k], n) ==>
              Denotes(OptionalRequests(entries, names)[i].importedNames, n)
  {
    hide SameSlot, Denotes, NewNames, Selected, OptionalRequests;
    var reqs := OptionalRequests(entries, names);
    OptionalRequestsGroup(entries, names);
    assert Present(reqs, entries[k].request);
    i :| 0 <= i < |reqs| && SameSlot(reqs[i], entries[k].request);
    forall n | Wants(entries[k], n) ensures Denotes(reqs[i].importedNames, n) {
      assert Asked(entries, names, reqs[i], n);
    }
  }

  lemma RequestTarget(w: World, t: nat, r: ModuleRequest, r': ModuleRequest)
    requires Valid(w) && t < |w| && IsLoaded(w[t], r) && IsLoaded(w[t], r') && SameSlot(r, r')
    ensures GetImportedModule(w, t, r) == GetImportedModule(w, t, r') && r.phase == r'.phase
  {
    hide Valid, FindLoaded;
    SameKeySameModule(w, t, r, r');
  }

  lemma {:induction false} BuildJustified(w: World, m: nat, s: Lists, referrer: nat, reqs: seq<ModuleRequest>)
    requires Valid(w) && Fits(w, s) && Requestable(w, referrer, reqs) && Justified(w, m, s)
        && JustifiedRequests(w, m, referrer, reqs)
    ensures Justified(w, m, Build(w, s, referrer, reqs))
    decreases Tokens(w, s.prev), |reqs|
  {
    hide Valid, IsLoaded, Demanded, DemandedModule, GetImportedModule, Requestable, Tokens, OptionalRequests, Denotes;
    RequestableParts(w, referrer, reqs);
    if reqs != [] {
      assert JustifiedRequest(w, m, referrer, reqs[0]);
      if reqs[0].phase == SourcePhase {
        BuildJustified(w, m, s, referrer, reqs[1..]);
      } else {
        var t := GetImportedModule(w, referrer, reqs[0]);
        EnterKeeps(w, s, t);
        var s1 := Enter(w, s, t);
        EnterJustified(w, m, s, t);
        if w[t].Synthetic? {
          BuildJustified(w, m, s1, referrer, reqs[1..]);
        } else {
          var extra := Exclude(reqs[0].importedNames, s1.prev[t]);
          var s2 := s1.(prev := s1.prev[t := Merge(s1.prev[t], extra)]);
          NewNamesCloseTokens(w, s1.prev, t, reqs[0].importedNames);
          OptionalJustified(w, m, t, extra);
          assert Tokens(w, s2.prev) < Tokens(w, s.prev) || Tokens(w, s2.prev) == Tokens(w, s.prev);
          BuildJustified(w, m, s2, t, OptionalRequests(Optional(w, t), extra));
          var s3 := Build(w, s2, t, OptionalRequests(Optional(w, t), extra));
          assert Tokens(w, s3.prev) < Tokens(w, s.prev) || Tokens(w, s3.prev) == Tokens(w, s.prev);
          BuildJustified(w, m, s3, referrer, reqs[1..]);
        }
      }
    }
  }

  lemma EnterJustified(w: World, m: nat, s: Lists, t: nat)
    requires Valid(w) && Fits(w, s) && Justified(w, m, s) && t < |w| && DemandedModule(w, m, t)
    ensures Justified(w, m, Enter(w, s, t))
  {
    hide Valid, Demanded, DemandedModule;
  }

  predicate Covered(s: Lists, t: nat, n: string) {
    t in s.prev && Denotes(s.prev[t], n)
  }

  ghost predicate Grows(s: Lists, s': Lists) {
    && (forall t :: t in s.list ==> t in s'.list)
    && (forall t :: t in s.prev ==> t in s'.prev)
    && (forall t, n :: Covered(s, t, n) ==> Covered(s', t, n))
  }

  /** Module t is listed, and all of `names` are recorded for it. */
  ghost predicate Served(w: World, s: Lists, t: nat, names: Names) {
    t < |w| && t in s.list && (w[t].SourceText? ==> forall n :: Denotes(names, n) ==> Covered(s, t, n))
  }

  ghost predicate Handled(w: World, s: Lists, referrer: nat, req: ModuleRequest)
    requires Valid(w) && referrer < |w| && IsLoaded(w[referrer], req)
  {
    req.phase != SourcePhase ==> Served(w, s, GetImportedModule(w, referrer, req), req.importedNames)
  }

  /** Whatever was recorded since s0 has had its optional re-exports served. */
  ghost predicate ClosedSince(w: World, s0: Lists, s: Lists)
    requires Valid(w)
  {
    forall t: nat, k: nat, n: string, u: nat :: Covered(s, t, n) && !Covered(s0, t, n) && Follows(w, t, k, n, u) ==>
      Served(w, s, u, NewNames(Optional(w, t)[k]))
  }

  lemma GrowsTrans(a: Lists, b: Lists, c: Lists)
    requires Grows(a, b) && Grows(b, c)
    ensures Grows(a, c)
  {
  }

  lemma ServedStays(w: World, a: Lists, b: Lists, t: nat, names: Names)
    requires Grows(a, b) && Served(w, a, t, names)
    ensures Served(w, b, t, names)
  {
    hide Denotes;
  }

  lemma ClosedTrans(w: World, a: Lists, b: Lists, c: Lists)
    requires Valid(w) && ClosedSince(w, a, b) && ClosedSince(w, b, c) && Grows(b, c)
    ensures ClosedSince(w, a, c)
  {
    hide Served, Grows, Valid, Covered, Denotes, IsLoaded, GetImportedModule;
    forall t: nat, k: nat, n: string, u: nat | Covered(c, t, n) && !Covered(a, t, n) && Follows(w, t, k, n, u)
      ensures Served(w, c, u, NewNames(Optional(w, t)[k]))
    {
      if Covered(b, t, n) {
        ServedStays(w, b, c, u, NewNames(Optional(w, t)[k]));
      }
    }
  }

  lemma EnterGrows(w: World, s: Lists, t: nat)
    requires Valid(w) && Fits(w, s) && t < |w|
    ensures Grows(s, Enter(w, s, t)) && ClosedSince(w, s, Enter(w, s, t))
    ensures forall x, n :: Covered(Enter(w, s, t), x, n) ==> Covered(s, x, n)
  {
    hide Valid;
  }

  /** Recording new names for t and working off the requests they select leaves t's re-exports served. */
  lemma RecordedServed(w: World, s1: Lists, s2: Lists, s3: Lists, t: nat, names: Names)
    requires Valid(w) && t < |w| && w[t].SourceText? && t in s1.prev && t in s1.list
    requires s2 == s1.(prev := s1.prev[t := Merge(s1.prev[t], Exclude(names, s1.prev[t]))])
    requires var reqs := OptionalRequests(Optional(w, t), Exclude(names, s1.prev[t]));
             Requestable(w, t, reqs) && forall i :: 0 <= i < |reqs| ==> Handled(w, s3, t, reqs[i])
    requires Grows(s2, s3) && ClosedSince(w, s2, s3)
    ensures Grows(s1, s3) && ClosedSince(w, s1, s3) && Served(w, s3, t, names)
  {
    hide Valid, IsLoaded, OptionalRequests, GetImportedModule;
    var extra := Exclude(names, s1.prev[t]);
    assert Grows(s1, s2);
    assert forall n :: Denotes(names, n) ==> Covered(s2, t, n);
    forall x: nat, k: nat, n: string, u: nat | Covered(s3, x, n) && !Covered(s1, x, n) && Follows(w, x, k, n, u)
      ensures Served(w, s3, u, NewNames(Optional(w, x)[k]))
    {
      if Covered(s2, x, n) {
        assert x == t && Denotes(extra, n);
        EntryServed(w, s3, t, extra, k, n, u);
      }
    }
  }

  lemma EntryServed(w: World, s3: Lists, t: nat, extra: Names, k: nat, n: string, u: nat)
    requires Valid(w) && t < |w| && Denotes(extra, n) && Follows(w, t, k, n, u)
    requires var reqs := OptionalRequests(Optional(w, t), extra);
             Requestable(w, t, reqs) && forall i :: 0 <= i < |reqs| ==> Handled(w, s3, t, reqs[i])
    ensures Served(w, s3, u, NewNames(Optional(w, t)[k]))
  {
    hide Valid, IsLoaded, OptionalRequests, GetImportedModule, Denotes, NewNames;
    OptionalLoaded(w, t);
    var reqs := OptionalRequests(Optional(w, t), extra);
    var i := NameKept(Optional(w, t), extra, k);
    RequestTarget(w, t, reqs[i], Optional(w, t)[k].request);
    assert Handled(w, s3, t, reqs[i]);
  }

  lemma {:induction false} BuildComplete(w: World, s: Lists, referrer: nat, reqs: seq<ModuleRequest>)
    requires Valid(w) && Fits(w, s) && Requestable(w, referrer, reqs)
    ensures var r := Build(w, s, referrer, reqs);
            Grows(s, r) && ClosedSince(w, s, r) && forall i :: 0 <= i < |reqs| ==> Handled(w, r, referrer, reqs[i])
    decreases Tokens(w, s.prev), |reqs|
  {
    hide Valid, IsLoaded, GetImportedModule, Requestable, Tokens, OptionalRequests, Denotes, ClosedSince, Grows,
        Served, Exclude;
    RequestableParts(w, referrer, reqs);
    var r := Build(w, s, referrer, reqs);
    if reqs == [] {
      BuildRefl(w, s);
    } else if reqs[0].phase == SourcePhase {
      BuildComplete(w, s, referrer, reqs[1..]);
    } else {
      var t := GetImportedModule(w, referrer, reqs[0]);
      EnterKeeps(w, s, t);
      EnterGrows(w, s, t);
      var s1 := Enter(w, s, t);
      if w[t].Synthetic? {
        BuildComplete(w, s1, referrer, reqs[1..]);
        SyntheticServed(w, s1, t, reqs[0].importedNames);
        ServedStays(w, s1, r, t, reqs[0].importedNames);
        GrowsTrans(s, s1, r);
        ClosedTrans(w, s, s1, r);
      } else {
        var extra := Exclude(reqs[0].importedNames, s1.prev[t]);
        var s2 := s1.(prev := s1.prev[t := Merge(s1.prev[t], extra)]);
        NewNamesCloseTokens(w, s1.prev, t, reqs[0].importedNames);
        OptionalRequestsLoaded(w, t, extra);
        assert Tokens(w, s2.prev) < Tokens(w, s.prev) || Tokens(w, s2.prev) == Tokens(w, s.prev);
        BuildComplete(w, s2, t, OptionalRequests(Optional(w, t), extra));
        var s3 := Build(w, s2, t, OptionalRequests(Optional(w, t), extra));
        RecordedServed(w, s1, s2, s3, t, reqs[0].importedNames);
        assert Tokens(w, s3.prev) < Tokens(w, s.prev) || Tokens(w, s3.prev) == Tokens(w, s.prev);
        BuildComplete(w, s3, referrer, reqs[1..]);
        ServedStays(w, s3, r, t, reqs[0].importedNames);
        GrowsTrans(s, s1, s3);
        GrowsTrans(s, s3, r);
        ClosedTrans(w, s, s1, s3);
        ClosedTrans(w, s, s3, r);
      }
      forall i | 0 <= i < |reqs| ensures Handled(w, r, referrer, reqs[i]) {
        if i > 0 {
          assert reqs[i] == reqs[1..][i - 1];
        }
      }
    }
  }

  lemma BuildRefl(w: World, s: Lists)
    requires Valid(w)
    ensures Grows(s, s) && ClosedSince(w, s, s)
  {
    hide Valid;
  }

  lemma SyntheticServed(w: World, s: Lists, t: nat, names: Names)
    requires t < |w| && w[t].Synthetic? && t in s.list
    ensures Served(w, s, t, names)
  {
  }

  /** The linking list of m is exactly what m demands. */
  lemma LinkingListExact(w: World, m: nat, t: nat)
    requires Valid(w) && m < |w| && w[m].SourceText?
    ensures t in LinkingListOf(w, m) <==> DemandedModule(w, m, t)
  {
    hide Valid, IsLoaded, GetImportedModule, Denotes, DemandedIn;
    var s := Lists([], map[]);
    AllRequestable(w, m);
    var r := Build(w, s, m, w[m].requested);
    SeedsJustified(w, m);
    BuildJustified(w, m, s, m, w[m].requested);
    BuildComplete(w, s, m, w[m].requested);
    if DemandedModule(w, m, t) {
      if i: nat :| Requests(w, m, i, t) {
        assert Handled(w, r, m, w[m].requested[i]);
      } else {
        var t0: nat, k: nat, n0: string :| Demanded(w, m, t0, n0) && Follows(w, t0, k, n0, t);
        var steps: nat :| DemandedIn(w, m, t0, n0, steps);
        DemandedServed(w, m, s, r, t0, n0, steps);
      }
    }
  }

  lemma SeedsJustified(w: World, m: nat)
    requires Valid(w) && m < |w| && w[m].SourceText?
    ensures Requestable(w, m, w[m].requested) && JustifiedRequests(w, m, m, w[m].requested)
  {
    hide Valid, IsLoaded, GetImportedModule, Denotes;
    AllRequestable(w, m);
    forall i | 0 <= i < |w[m].requested| ensures JustifiedRequest(w, m, m, w[m].requested[i]) {
      var req := w[m].requested[i];
      if req.phase != SourcePhase {
        var t := GetImportedModule(w, m, req);
        assert Requests(w, m, i, t);
        forall n | Denotes(req.importedNames, n) ensures Demanded(w, m, t, n) {
          assert DemandedIn(w, m, t, n, 0);
        }
      }
    }
  }

  lemma {:induction false} DemandedServed(w: World, m: nat, s: Lists, r: Lists, t: nat, n: string, steps: nat)
    requires Valid(w) && m < |w| && w[m].SourceText? && s == Lists([], map[]) && ClosedSince(w, s, r)
    requires Requestable(w, m, w[m].requested) && forall i :: 0 <= i < |w[m].requested| ==>
                                        Handled(w, r, m, w[m].requested[i])
    requires DemandedIn(w, m, t, n, steps)
    ensures t < |w| && t in r.list && (w[t].SourceText? ==> Covered(r, t, n))
    decreases steps
  {
    hide Valid, IsLoaded, GetImportedModule, Denotes;
    if steps == 0 {
      var i: nat :| Requests(w, m, i, t) && Denotes(w[m].requested[i].importedNames, n);
      assert Handled(w, r, m, w[m].requested[i]);
    } else {
      var t0: nat, k: nat, n0: string :| DemandedIn(w, m, t0, n0, steps - 1) && Follows(w, t0, k, n0, t)
          && Wants(Optional(w, t0)[k], n);
      DemandedServed(w, m, s, r, t0, n0, steps - 1);
      assert Served(w, r, t, NewNames(Optional(w, t0)[k]));
    }
  }

  /** The list names no module twice. */
  lemma {:induction false} BuildDistinct(w: World, s: Lists, referrer: nat, reqs: seq<ModuleRequest>)
    requires Valid(w) && Fits(w, s) && Requestable(w, referrer, reqs) && Distinct(s.list)
    ensures Distinct(Build(w, s, referrer, reqs).list)
    decreases Tokens(w, s.prev), |reqs|
  {
    hide Valid, IsLoaded, GetImportedModule, Requestable, Tokens, OptionalRequests, Denotes, Exclude;
    RequestableParts(w, referrer, reqs);
    if reqs != [] {
      if reqs[0].phase == SourcePhase {
        BuildDistinct(w, s, referrer, reqs[1..]);
      } else {
        var t := GetImportedModule(w, referrer, reqs[0]);
        EnterKeeps(w, s, t);
        var s1 := Enter(w, s, t);
        if w[t].Synthetic? {
          BuildDistinct(w, s1, referrer, reqs[1..]);
        } else {
          var extra := Exclude(reqs[0].importedNames, s1.prev[t]);
          var s2 := s1.(prev := s1.prev[t := Merge(s1.prev[t], extra)]);
          NewNamesCloseTokens(w, s1.prev, t, reqs[0].importedNames);
          OptionalRequestsLoaded(w, t, extra);
          assert Tokens(w, s2.prev) < Tokens(w, s.prev) || Tokens(w, s2.prev) == Tokens(w, s.prev);
          BuildDistinct(w, s2, t, OptionalRequests(Optional(w, t), extra));
          var s3 := Build(w, s2, t, OptionalRequests(Optional(w, t), extra));
          assert Tokens(w, s3.prev) < Tokens(w, s.prev) || Tokens(w, s3.prev) == Tokens(w, s.prev);
          BuildDistinct(w, s3, referrer, reqs[1..]);
        }
      }
    }
  }

  // --- The order of the list ---

  /** The lists after one request. */
  function AfterFirst(w: World, s: Lists, referrer: nat, req: ModuleRequest): (r: Lists)
    requires Valid(w) && Fits(w, s) && referrer < |w| && IsLoaded(w[referrer], req)
    ensures Fits(w, r)
  {
    if req.phase == SourcePhase then s
    else
      var t := GetImportedModule(w, referrer, req);
      EnterKeeps(w, s, t);
      var s1 := Enter(w, s, t);
      if w[t].Synthetic? then s1
      else
        var extra := Exclude(req.importedNames, s1.prev[t]);
        OptionalRequestsLoaded(w, t, extra);
        Build(w, s1.(prev := s1.prev[t := Merge(s1.prev[t], extra)]), t, OptionalRequests(Optional(w, t), extra))
  }

  lemma BuildFirst(w: World, s: Lists, referrer: nat, reqs: seq<ModuleRequest>)
    requires Valid(w) && Fits(w, s) && Requestable(w, referrer, reqs) && reqs != []
    ensures IsLoaded(w[referrer], reqs[0]) && Requestable(w, referrer, reqs[1..])
    ensures Build(w, s, referrer, reqs) == Build(w, AfterFirst(w, s, referrer, reqs[0]), referrer, reqs[1..])
  {
    hide Valid, IsLoaded, GetImportedModule, OptionalRequests, Exclude;
  }

  /** Building keeps what is on the list, and its order. */
  lemma {:induction false} AddsToBack(w: World, s: Lists, referrer: nat, reqs: seq<ModuleRequest>)
    requires Valid(w) && Fits(w, s) && Requestable(w, referrer, reqs)
    ensures s.list <= Build(w, s, referrer, reqs).list
    decreases Tokens(w, s.prev), |reqs|
  {
    hide Valid, IsLoaded, GetImportedModule, Requestable, Tokens, OptionalRequests, Denotes, Exclude, Merge, Optional;
    RequestableParts(w, referrer, reqs);
    if reqs != [] {
      if reqs[0].phase == SourcePhase {
        AddsToBack(w, s, referrer, reqs[1..]);
      } else {
        var t := GetImportedModule(w, referrer, reqs[0]);
        EnterKeeps(w, s, t);
        var s1 := Enter(w, s, t);
        if w[t].Synthetic? {
          AddsToBack(w, s1, referrer, reqs[1..]);
        } else {
          var extra := Exclude(reqs[0].importedNames, s1.prev[t]);
          var s2 := s1.(prev := s1.prev[t := Merge(s1.prev[t], extra)]);
          NewNamesCloseTokens(w, s1.prev, t, reqs[0].importedNames);
          OptionalRequestsLoaded(w, t, extra);
          assert Tokens(w, s2.prev) < Tokens(w, s.prev) || Tokens(w, s2.prev) == Tokens(w, s.prev);
          AddsToBack(w, s2, t, OptionalRequests(Optional(w, t), extra));
          var s3 := Build(w, s2, t, OptionalRequests(Optional(w, t), extra));
          assert Tokens(w, s3.prev) < Tokens(w, s.prev) || Tokens(w, s3.prev) == Tokens(w, s.prev);
          AddsToBack(w, s3, referrer, reqs[1..]);
        }
      }
    }
  }

  /** Requests are worked off from the first to the last. */
  lemma {:induction false} BuildInTwo(w: World, s: Lists, referrer: nat, reqs: seq<ModuleRequest>, i: nat)
    requires Valid(w) && Fits(w, s) && Requestable(w, referrer, reqs) && i <= |reqs|
    ensures Requestable(w, referrer, reqs[..i]) && Requestable(w, referrer, reqs[i..])
    ensures Build(w, Build(w, s, referrer, reqs[..i]), referrer, reqs[i..]) == Build(w, s, referrer, reqs)
    decreases i
  {
    hide Valid, IsLoaded, AfterFirst;
    if i == 0 {
      assert reqs[..0] == [] && reqs[0..] == reqs;
    } else {
      hide Build;
      assert reqs[..i][1..] == reqs[1..][..i - 1] && reqs[1..][i - 1..] == reqs[i..] && reqs[..i][0] == reqs[0];
      BuildFirst(w, s, referrer, reqs);
      BuildFirst(w, s, referrer, reqs[..i]);
      BuildInTwo(w, AfterFirst(w, s, referrer, reqs[0]), referrer, reqs[1..], i - 1);
    }
  }

  lemma FirstTargetListed(w: World, s: Lists, referrer: nat, reqs: seq<ModuleRequest>)
    requires Valid(w) && Fits(w, s) && Requestable(w, referrer, reqs) && reqs != []
    requires IsLoaded(w[referrer], reqs[0]) && reqs[0].phase != SourcePhase
    ensures var t := GetImportedModule(w, referrer, reqs[0]);
            (if t in s.list then s.list else s.list + [t]) <= Build(w, s, referrer, reqs).list
  {
    hide Valid, IsLoaded, GetImportedModule, Requestable, Tokens, OptionalRequests, Denotes, Exclude, Build;
    RequestableParts(w, referrer, reqs);
    var t := GetImportedModule(w, referrer, reqs[0]);
    EnterKeeps(w, s, t);
    var s1 := Enter(w, s, t);
    BuildFirst(w, s, referrer, reqs);
    AddsToBack(w, AfterFirst(w, s, referrer, reqs[0]), referrer, reqs[1..]);
    if w[t].SourceText? {
      var extra := Exclude(reqs[0].importedNames, s1.prev[t]);
      OptionalRequestsLoaded(w, t, extra);
      AddsToBack(w, s1.(prev := s1.prev[t := Merge(s1.prev[t], extra)]), t, OptionalRequests(Optional(w, t), extra));
    }
  }

  /** The list for the first i requests, and after it the module of the next one, if that is not listed yet,
      come first in the linking list. */
  lemma LinkedInOrder(w: World, m: nat, i: nat)
    requires Valid(w) && m < |w| && w[m].SourceText?
    requires i < |w[m].requested| && w[m].requested[i].phase != SourcePhase
    ensures Requestable(w, m, w[m].requested[..i]) && IsLoaded(w[m], w[m].requested[i])
    ensures var pre := Build(w, Lists([], map[]), m, w[m].requested[..i]).list;
            var t := GetImportedModule(w, m, w[m].requested[i]);
            (if t in pre then pre else pre + [t]) <= LinkingListOf(w, m)
  {
    hide Valid, IsLoaded, Build, GetImportedModule;
    AllRequestable(w, m);
    var reqs := w[m].requested;
    var s := Lists([], map[]);
    BuildInTwo(w, s, m, reqs, i);
    FirstTargetListed(w, Build(w, s, m, reqs[..i]), m, reqs[i..]);
  }
}
