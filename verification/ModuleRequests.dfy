/** Module requests, their keys, and the grouping of optional re-exports into requests. */
module ModuleRequests {
  import opened ImportedNames

  datatype Attribute = Attribute(key: string, value: string)

  datatype Phase = SourcePhase | DeferPhase | EvaluationPhase

  datatype ModuleRequest = ModuleRequest(specifier: string, attributes: seq<Attribute>, phase: Phase,
      importedNames: Names)

  /** What an indirect export takes from its target. */
  datatype ImportName = ImportNamespace | ImportSource | ImportString(name: string)

  datatype IndirectEntry = IndirectEntry(request: ModuleRequest, importName: ImportName, exportName: string)

  predicate DistinctAttributes(a: seq<Attribute>) {
    forall i, j :: 0 <= i < j < |a| ==> a[i] != a[j]
  }

  predicate ModuleRequestsKeyEqual(left: ModuleRequest, right: ModuleRequest) {
    && left.specifier == right.specifier
    && |left.attributes| == |right.attributes|
    && forall i :: 0 <= i < |left.attributes| ==> left.attributes[i] in right.attributes
  }

  /** Same specifier and same set of attributes. */
  ghost predicate SameKey(left: ModuleRequest, right: ModuleRequest) {
    && left.specifier == right.specifier
    && (set a | a in left.attributes) == (set a | a in right.attributes)
  }

  lemma {:induction false} DistinctSize(a: seq<Attribute>)
    requires DistinctAttributes(a)
    ensures |(set x | x in a)| == |a|
  {
    if a != [] {
      var n := |a| - 1;
      DistinctSize(a[..n]);
      assert a == a[..n] + [a[n]];
      assert (set x | x in a) == (set x | x in a[..n]) + {a[n]};
    }
  }

  lemma SubsetSameSize<T>(a: set<T>, b: set<T>)
    requires a <= b && |a| == |b|
    ensures a == b
  {
    if a != b {
      var x :| x in b && x !in a;
      assert a <= b - {x};
      SubsetSize(a, b - {x});
    }
  }

  lemma {:induction false} SubsetSize<T>(a: set<T>, b: set<T>)
    requires a <= b
    ensures |a| <= |b|
  {
    if a != {} {
      var x :| x in a;
      SubsetSize(a - {x}, b - {x});
    }
  }

  /** The loop over one side's attributes decides equality of the two keys, because a request
      never repeats an attribute. */
  lemma KeyEqualIffSameKey(left: ModuleRequest, right: ModuleRequest)
    requires DistinctAttributes(left.attributes) && DistinctAttributes(right.attributes)
    ensures ModuleRequestsKeyEqual(left, right) <==> SameKey(left, right)
  {
    var l, r := set a | a in left.attributes, set a | a in right.attributes;
    DistinctSize(left.attributes);
    DistinctSize(right.attributes);
    if ModuleRequestsKeyEqual(left, right) {
      assert l <= r;
      SubsetSameSize(l, r);
    }
    if SameKey(left, right) {
      forall i | 0 <= i < |left.attributes| ensures left.attributes[i] in right.attributes {
        assert left.attributes[i] in l;
      }
    }
  }

  predicate Matches(r: ModuleRequest, next: ModuleRequest) {
    ModuleRequestsKeyEqual(r, next) && r.phase == next.phase
  }

  ghost predicate SameSlot(r: ModuleRequest, next: ModuleRequest) {
    SameKey(r, next) && r.phase == next.phase
  }

  /** A re-export of one name needs that name of its target; one of the namespace or of the source
      needs every name. */
  predicate Wants(e: IndirectEntry, n: string) {
    match e.importName
    case ImportString(name) => n == name
    case ImportNamespace => true
    case ImportSource => true
  }

  function NewNames(e: IndirectEntry): (r: Names)
    ensures forall n :: Denotes(r, n) <==> Wants(e, n)
  {
    if e.importName.ImportString? then List([e.importName.name]) else All
  }

  function Find(requests: seq<ModuleRequest>, next: ModuleRequest): (i: nat)
    ensures i <= |requests|
    ensures i < |requests| ==> Matches(requests[i], next)
    ensures forall j :: 0 <= j < i ==> !Matches(requests[j], next)
  {
    if requests == [] then 0
    else if Matches(requests[0], next) then 0
    else 1 + Find(requests[1..], next)
  }

  function AddRequest(requests: seq<ModuleRequest>, e: IndirectEntry): seq<ModuleRequest> {
    var i := Find(requests, e.request);
    if i < |requests| then
      requests[i := requests[i].(importedNames := Merge(requests[i].importedNames, NewNames(e)))]
    else requests + [e.request.(importedNames := NewNames(e))]
  }

  function AddRequests(requests: seq<ModuleRequest>, entries: seq<IndirectEntry>, names: Names): seq<ModuleRequest>
    decreases |entries|
  {
    if entries == [] then requests
    else if Denotes(names, entries[0].exportName) then
      AddRequests(AddRequest(requests, entries[0]), entries[1..], names)
    else AddRequests(requests, entries[1..], names)
  }

  /** The optional re-exports of a module that `names` asks for, one request per key and phase. */
  function OptionalRequests(entries: seq<IndirectEntry>, names: Names): seq<ModuleRequest> {
    AddRequests([], entries, names)
  }

  method GetOptionalIndirectExportsModuleRequests(entries: seq<IndirectEntry>,
      importedNames: Names) returns (requests: seq<ModuleRequest>)
    ensures requests == OptionalRequests(entries, importedNames)
  {
    requests := [];
    for k := 0 to |entries|
      invariant AddRequests(requests, entries[k..], importedNames) == OptionalRequests(entries, importedNames)
    {
      var oie := entries[k];
      assert entries[k..][0] == oie && entries[k..][1..] == entries[k + 1..];
      var included := match importedNames
        case All => true
        case AllButDefault => oie.exportName != DEFAULT
        case List(l) => oie.exportName in l;
      if included {
        var nextRequest := oie.request;
        var existing := |requests|;
        for i := 0 to |requests|
          invariant existing == (if Find(requests, nextRequest) < i then Find(requests, nextRequest) else |requests|)
        {
          if existing == |requests| && ModuleRequestsKeyEqual(requests[i], nextRequest)
              && requests[i].phase == nextRequest.phase {
            existing := i;
          }
        }
        var newImportedNames := All;
        if oie.importName.ImportString? {
          newImportedNames := List([oie.importName.name]);
        }
        if existing == |requests| {
          requests := requests + [ModuleRequest(nextRequest.specifier, nextRequest.attributes, nextRequest.phase,
              newImportedNames)];
        } else {
          var merged := MergeImportedNames(requests[existing].importedNames, newImportedNames);
          requests := requests[existing := requests[existing].(importedNames := merged)];
        }
      }
    }
  }

  predicate WellKeyed(entries: seq<IndirectEntry>) {
    forall i :: 0 <= i < |entries| ==> DistinctAttributes(entries[i].request.attributes)
  }

  predicate Selected(entries: seq<IndirectEntry>, names: Names, k: nat) {
    k < |entries| && Denotes(names, entries[k].exportName)
  }

  /** n is asked of r's module by one of the selected entries. */
  ghost predicate Asked(entries: seq<IndirectEntry>, names: Names, r: ModuleRequest, n: string) {
    exists k :: 0 <= k < |entries| && Selected(entries, names, k) && SameSlot(r, entries[k].request)
        && Wants(entries[k], n)
  }

  ghost predicate Present(requests: seq<ModuleRequest>, next: ModuleRequest) {
    exists i :: 0 <= i < |requests| && SameSlot(requests[i], next)
  }

  ghost predicate Wanted(entries: seq<IndirectEntry>, names: Names, r: ModuleRequest) {
    exists k :: 0 <= k < |entries| && Selected(entries, names, k) && SameSlot(r, entries[k].request)
  }

  /** What the grouping promises of the requests gathered so far. */
  ghost predicate Grouped(requests: seq<ModuleRequest>, entries: seq<IndirectEntry>, names: Names) {
    && (forall i :: 0 <= i < |requests| ==> DistinctAttributes(requests[i].attributes))
    && (forall i, j :: 0 <= i < j < |requests| ==> !SameSlot(requests[i], requests[j]))
    && (forall i, n :: 0 <= i < |requests| ==>
          (Denotes(requests[i].importedNames, n) <==> Asked(entries, names, requests[i], n)))
    && (forall k :: 0 <= k < |entries| && Selected(entries, names, k) ==> Present(requests, entries[k].request))
    && (forall i :: 0 <= i < |requests| ==> Wanted(entries, names, requests[i]))
  }

  /** Grouping loses and invents nothing: the requests have pairwise distinct key and phase, and
      each asks for exactly the union of what its selected entries ask for. */
  lemma OptionalRequestsGroup(entries: seq<IndirectEntry>, names: Names)
    requires WellKeyed(entries)
    ensures Grouped(OptionalRequests(entries, names), entries, names)
  {
    AddRequestsGroup([], [], entries, names);
    assert [] + entries == entries;
  }

  lemma {:induction false} AddRequestsGroup(requests: seq<ModuleRequest>, past: seq<IndirectEntry>,
      entries: seq<IndirectEntry>, names: Names)
    requires WellKeyed(past + entries) && Grouped(requests, past, names)
    ensures Grouped(AddRequests(requests, entries, names), past + entries, names)
    decreases |entries|
  {
    hide Grouped, SameSlot;
    if entries == [] {
      assert past + entries == past;
    } else {
      var e := entries[0];
      assert (past + [e]) + entries[1..] == past + entries;
      assert (past + entries)[|past|] == e;
      if Denotes(names, e.exportName) {
        AddRequestGroup(requests, past, e, names);
        AddRequestsGroup(AddRequest(requests, e), past + [e], entries[1..], names);
      } else {
        SkipGroup(requests, past, e, names);
        AddRequestsGroup(requests, past + [e], entries[1..], names);
      }
    }
  }

  lemma AskedOneMore(past: seq<IndirectEntry>, e: IndirectEntry, names: Names, r: ModuleRequest, n: string)
    ensures Asked(past + [e], names, r, n) <==>
            Asked(past, names, r, n) || (Denotes(names, e.exportName) && SameSlot(r, e.request)
                && Wants(e, n))
  {
    hide SameSlot, Denotes, NewNames;
    var all := past + [e];
    if Asked(past, names, r, n) {
      var k :| 0 <= k < |past| && Selected(past, names, k) && SameSlot(r, past[k].request)
          && Wants(past[k], n);
      assert Selected(all, names, k) && all[k] == past[k];
    }
    if Denotes(names, e.exportName) && SameSlot(r, e.request) && Wants(e, n) {
      assert Selected(all, names, |past|) && all[|past|] == e;
    }
    if Asked(all, names, r, n) {
      var k :| 0 <= k < |all| && Selected(all, names, k) && SameSlot(r, all[k].request) && Wants(all[k], n);
      if k < |past| {
        assert Selected(past, names, k);
      }
    }
  }

  lemma WantedOneMore(past: seq<IndirectEntry>, e: IndirectEntry, names: Names, r: ModuleRequest)
    ensures Wanted(past + [e], names, r) <==>
              Wanted(past, names, r) || (Denotes(names, e.exportName) && SameSlot(r, e.request))
  {
    hide SameSlot, Denotes;
    var all := past + [e];
    if Wanted(past, names, r) {
      var k :| 0 <= k < |past| && Selected(past, names, k) && SameSlot(r, past[k].request);
      assert Selected(all, names, k) && all[k] == past[k];
    }
    if Denotes(names, e.exportName) && SameSlot(r, e.request) {
      assert Selected(all, names, |past|) && all[|past|] == e;
    }
    if Wanted(all, names, r) {
      var k :| 0 <= k < |all| && Selected(all, names, k) && SameSlot(r, all[k].request);
      if k < |past| {
        assert Selected(past, names, k);
      }
    }
  }

  lemma SkipGroup(requests: seq<ModuleRequest>, past: seq<IndirectEntry>, e: IndirectEntry, names: Names)
    requires Grouped(requests, past, names) && !Denotes(names, e.exportName)
    ensures Grouped(requests, past + [e], names)
  {
    hide SameSlot, Denotes, NewNames, Asked, Wanted, Present;
    var all := past + [e];
    forall i, n | 0 <= i < |requests| ensures Denotes(requests[i].importedNames, n) <==>
      Asked(all, names, requests[i], n) {
      AskedOneMore(past, e, names, requests[i], n);
    }
    forall i | 0 <= i < |requests| ensures Wanted(all, names, requests[i]) {
      WantedOneMore(past, e, names, requests[i]);
    }
    forall k | 0 <= k < |all| && Selected(all, names, k) ensures Present(requests, all[k].request) {
      assert Selected(past, names, k);
    }
  }

  lemma MatchesIffSameSlot(r: ModuleRequest, next: ModuleRequest)
    requires DistinctAttributes(r.attributes) && DistinctAttributes(next.attributes)
    ensures Matches(r, next) <==> SameSlot(r, next)
  {
    KeyEqualIffSameKey(r, next);
  }

  lemma AddRequestGroup(requests: seq<ModuleRequest>, past: seq<IndirectEntry>, e: IndirectEntry, names: Names)
    requires Grouped(requests, past, names) && Denotes(names, e.exportName) && DistinctAttributes(e.request.attributes)
    ensures Grouped(AddRequest(requests, e), past + [e], names)
  {
    hide SameSlot, Denotes, NewNames, Asked, Wanted, Matches, Present;
    var out, all := AddRequest(requests, e), past + [e];
    var f := Find(requests, e.request);
    forall i | 0 <= i < |requests| ensures Matches(requests[i], e.request) <==> SameSlot(requests[i], e.request) {
      MatchesIffSameSlot(requests[i], e.request);
    }
    SlotFacts(requests, e);
    forall i, n | 0 <= i < |out| ensures Denotes(out[i].importedNames, n) <==> Asked(all, names, out[i], n) {
      AskedOneMore(past, e, names, out[i], n);
      if i < |requests| {
        AskedSlot(past, names, requests[i], out[i], n);
      } else if Asked(past, names, out[i], n) {
        AskedMeansPresent(requests, past, names, e.request, out[i], n);
      }
    }
    forall k | 0 <= k < |all| && Selected(all, names, k) ensures Present(out, all[k].request) {
      if k < |past| {
        assert Selected(past, names, k);
        PresentStays(requests, out, past[k].request);
      } else {
        PresentAt(out, f, e.request);
      }
    }
    forall i | 0 <= i < |out| ensures Wanted(all, names, out[i]) {
      WantedOneMore(past, e, names, out[i]);
      if i < |requests| {
        WantedSlot(past, names, requests[i], out[i]);
      }
    }
  }

  lemma PresentAt(requests: seq<ModuleRequest>, i: nat, next: ModuleRequest)
    requires i < |requests| && SameSlot(requests[i], next)
    ensures Present(requests, next)
  {
  }

  lemma PresentStays(requests: seq<ModuleRequest>, out: seq<ModuleRequest>, next: ModuleRequest)
    requires Present(requests, next) && |requests| <= |out|
    requires forall i, next :: 0 <= i < |requests| ==> (SameSlot(out[i], next) <==> SameSlot(requests[i], next))
    ensures Present(out, next)
  {
    hide SameSlot;
    var i :| 0 <= i < |requests| && SameSlot(requests[i], next);
    assert SameSlot(out[i], next);
  }

  lemma AskedSlot(entries: seq<IndirectEntry>, names: Names, r: ModuleRequest, r': ModuleRequest, n: string)
    requires r' == r.(importedNames := r'.importedNames)
    ensures Asked(entries, names, r, n) <==> Asked(entries, names, r', n)
  {
    hide Denotes, NewNames;
    assert forall next :: SameSlot(r, next) <==> SameSlot(r', next);
  }

  lemma WantedSlot(entries: seq<IndirectEntry>, names: Names, r: ModuleRequest, r': ModuleRequest)
    requires r' == r.(importedNames := r'.importedNames)
    ensures Wanted(entries, names, r) <==> Wanted(entries, names, r')
  {
    hide Denotes;
    assert forall next :: SameSlot(r, next) <==> SameSlot(r', next);
  }

  lemma SlotTrans(a: ModuleRequest, b: ModuleRequest, c: ModuleRequest)
    requires SameSlot(a, c) && SameSlot(b, c)
    ensures SameSlot(a, b)
  {
  }

  lemma AskedMeansPresent(requests: seq<ModuleRequest>, past: seq<IndirectEntry>, names: Names,
      next: ModuleRequest, r: ModuleRequest, n: string)
    requires Grouped(requests, past, names) && SameSlot(r, next) && Asked(past, names, r, n)
    ensures exists i :: 0 <= i < |requests| && SameSlot(requests[i], next)
  {
    hide Denotes, NewNames, SameSlot, Wanted;
    var k :| 0 <= k < |past| && Selected(past, names, k) && SameSlot(r, past[k].request)
        && Wants(past[k], n);
    var i :| 0 <= i < |requests| && SameSlot(requests[i], past[k].request);
    SlotTrans(requests[i], r, past[k].request);
    SlotTrans'(requests[i], r, next);
  }

  lemma SlotTrans'(a: ModuleRequest, b: ModuleRequest, c: ModuleRequest)
    requires SameSlot(a, b) && SameSlot(b, c)
    ensures SameSlot(a, c)
  {
  }

  lemma SlotFacts(requests: seq<ModuleRequest>, e: IndirectEntry)
    requires forall i, j :: 0 <= i < j < |requests| ==> !SameSlot(requests[i], requests[j])
    requires forall i :: 0 <= i < |requests| ==> (Matches(requests[i], e.request) <==> SameSlot(requests[i], e.request))
    ensures var out, f := AddRequest(requests, e), Find(requests, e.request);
            && (forall i, j :: 0 <= i < j < |out| ==> !SameSlot(out[i], out[j]))
            && |out| == (if f < |requests| then |requests| else |requests| + 1)
            && SameSlot(out[f], e.request)
            && (forall i, next :: 0 <= i < |requests| ==> (SameSlot(out[i], next) <==> SameSlot(requests[i], next)))
            && (forall i :: 0 <= i < |requests| ==> out[i] == requests[i].(importedNames := out[i].importedNames))
            && (forall i :: 0 <= i < |requests| && i != f ==>
                  out[i] == requests[i] && !SameSlot(requests[i], e.request))
  {
    hide Denotes, NewNames, ModuleRequestsKeyEqual;
  }

  /** Every request goes back to a selected entry. */
  lemma RequestSource(entries: seq<IndirectEntry>, names: Names, i: nat) returns (k: nat)
    requires WellKeyed(entries) && i < |OptionalRequests(entries, names)|
    ensures k < |entries| && Selected(entries, names, k)
        && SameSlot(OptionalRequests(entries, names)[i], entries[k].request)
    ensures DistinctAttributes(OptionalRequests(entries, names)[i].attributes)
  {
    hide SameSlot, Denotes, NewNames, Asked, Selected;
    OptionalRequestsGroup(entries, names);
    assert Wanted(entries, names, OptionalRequests(entries, names)[i]);
    k :| 0 <= k < |entries| && Selected(entries, names, k)
        && SameSlot(OptionalRequests(entries, names)[i], entries[k].request);
  }

  // --- The order of the requests ---

  /** Before every entry that r' stands for, there is one that r stands for. */
  ghost predicate Precedes(entries: seq<IndirectEntry>, names: Names, r: ModuleRequest, r': ModuleRequest) {
    forall k' :: 0 <= k' < |entries| && Selected(entries, names, k') && SameSlot(r', entries[k'].request) ==>
      EarlierFor(entries, names, r, k')
  }

  ghost predicate EarlierFor(entries: seq<IndirectEntry>, names: Names, r: ModuleRequest, bound: int) {
    exists k :: 0 <= k < bound && k < |entries| && Selected(entries, names, k) && SameSlot(r, entries[k].request)
  }

  ghost predicate InEntryOrder(requests: seq<ModuleRequest>, entries: seq<IndirectEntry>, names: Names) {
    forall i, j :: 0 <= i < j < |requests| ==> Precedes(entries, names, requests[i], requests[j])
  }

  /** The requests come in the order of the first entries that ask for them. */
  lemma OptionalRequestsInOrder(entries: seq<IndirectEntry>, names: Names)
    requires WellKeyed(entries)
    ensures InEntryOrder(OptionalRequests(entries, names), entries, names)
  {
    AddRequestsInOrder([], [], entries, names);
    assert [] + entries == entries;
  }

  lemma {:induction false} AddRequestsInOrder(requests: seq<ModuleRequest>, past: seq<IndirectEntry>,
      entries: seq<IndirectEntry>, names: Names)
    requires WellKeyed(past + entries) && Grouped(requests, past, names) && InEntryOrder(requests, past, names)
    ensures InEntryOrder(AddRequests(requests, entries, names), past + entries, names)
    decreases |entries|
  {
    hide Grouped, SameSlot, InEntryOrder;
    if entries == [] {
      assert past + entries == past;
    } else {
      var e := entries[0];
      assert (past + [e]) + entries[1..] == past + entries;
      assert (past + entries)[|past|] == e;
      if Denotes(names, e.exportName) {
        AddRequestGroup(requests, past, e, names);
        AddRequestInOrder(requests, past, e, names);
        AddRequestsInOrder(AddRequest(requests, e), past + [e], entries[1..], names);
      } else {
        SkipGroup(requests, past, e, names);
        SkipInOrder(requests, past, e, names);
        AddRequestsInOrder(requests, past + [e], entries[1..], names);
      }
    }
  }

  lemma EarlierStays(past: seq<IndirectEntry>, e: IndirectEntry, names: Names, r: ModuleRequest, bound: int)
    requires EarlierFor(past, names, r, bound)
    ensures EarlierFor(past + [e], names, r, bound)
  {
    hide SameSlot, Denotes;
    var k :| 0 <= k < bound && k < |past| && Selected(past, names, k) && SameSlot(r, past[k].request);
    assert (past + [e])[k] == past[k] && Selected(past + [e], names, k);
  }

  lemma SkipInOrder(requests: seq<ModuleRequest>, past: seq<IndirectEntry>, e: IndirectEntry, names: Names)
    requires InEntryOrder(requests, past, names) && !Denotes(names, e.exportName)
    ensures InEntryOrder(requests, past + [e], names)
  {
    hide SameSlot, Denotes, EarlierFor;
    var all := past + [e];
    forall i, j, k' | 0 <= i < j < |requests| && 0 <= k' < |all| && Selected(all, names, k')
        && SameSlot(requests[j], all[k'].request)
      ensures EarlierFor(all, names, requests[i], k')
    {
      assert Selected(past, names, k') && all[k'] == past[k'];
      assert Precedes(past, names, requests[i], requests[j]);
      EarlierStays(past, e, names, requests[i], k');
    }
  }

  lemma AddRequestInOrder(requests: seq<ModuleRequest>, past: seq<IndirectEntry>, e: IndirectEntry, names: Names)
    requires Grouped(requests, past, names) && InEntryOrder(requests, past, names)
    requires Denotes(names, e.exportName) && DistinctAttributes(e.request.attributes)
    ensures InEntryOrder(AddRequest(requests, e), past + [e], names)
  {
    hide SameSlot, Denotes, NewNames, Asked, Wanted, Matches, EarlierFor;
    var out, all := AddRequest(requests, e), past + [e];
    forall i | 0 <= i < |requests| ensures Matches(requests[i], e.request) <==> SameSlot(requests[i], e.request) {
      MatchesIffSameSlot(requests[i], e.request);
    }
    SlotFacts(requests, e);
    forall i, j, k' | 0 <= i < j < |out| && 0 <= k' < |all| && Selected(all, names, k')
        && SameSlot(out[j], all[k'].request)
      ensures EarlierFor(all, names, out[i], k')
    {
      if k' == |past| {
        WantedIsEarlier(past, e, names, requests[i], out[i]);
      } else if j < |requests| {
        assert Selected(past, names, k') && all[k'] == past[k'];
        assert Precedes(past, names, requests[i], requests[j]);
        EarlierStays(past, e, names, requests[i], k');
        EarlierSlot(all, names, requests[i], out[i], k');
      } else {
        assert Selected(past, names, k') && all[k'] == past[k'];
        NewSlotIsNew(requests, out[j], e.request, past[k'].request);
        assert false;
      }
    }
  }

  lemma EarlierSlot(entries: seq<IndirectEntry>, names: Names, r: ModuleRequest, r': ModuleRequest, bound: int)
    requires r' == r.(importedNames := r'.importedNames) && EarlierFor(entries, names, r, bound)
    ensures EarlierFor(entries, names, r', bound)
  {
    hide Denotes;
    assert forall next :: SameSlot(r, next) <==> SameSlot(r', next);
  }

  lemma WantedIsEarlier(past: seq<IndirectEntry>, e: IndirectEntry, names: Names, r: ModuleRequest, r': ModuleRequest)
    requires r' == r.(importedNames := r'.importedNames) && Wanted(past, names, r)
    ensures EarlierFor(past + [e], names, r', |past|)
  {
    hide Denotes, SameSlot;
    var k :| 0 <= k < |past| && Selected(past, names, k) && SameSlot(r, past[k].request);
    assert EarlierFor(past, names, r, |past|);
    EarlierStays(past, e, names, r, |past|);
    EarlierSlot(past + [e], names, r, r', |past|);
  }

  /** A request for a slot that is not there yet does not stand for an entry whose slot is. */
  lemma NewSlotIsNew(requests: seq<ModuleRequest>, r: ModuleRequest, next: ModuleRequest, other: ModuleRequest)
    requires forall i :: 0 <= i < |requests| ==> !SameSlot(requests[i], next)
    requires SameSlot(r, next) && SameSlot(r, other)
    ensures !Present(requests, other)
  {
    hide SameKey;
    if Present(requests, other) {
      var i :| 0 <= i < |requests| && SameSlot(requests[i], other);
      SlotTrans(requests[i], r, other);
      SlotTrans'(requests[i], r, next);
      assert false;
    }
  }
}
