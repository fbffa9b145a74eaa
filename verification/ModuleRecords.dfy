/** The immutable part of the module records of a loaded module graph. */
module ModuleRecords {
  import opened ImportedNames
  import opened ModuleRequests

  datatype LoadedModule = LoadedModule(specifier: string, attributes: seq<Attribute>, target: nat)

  datatype LocalEntry = LocalEntry(localName: string, exportName: string)

  datatype ModuleInfo =
    | SourceText(requested: seq<ModuleRequest>, loaded: seq<LoadedModule>, local: seq<LocalEntry>,
                 indirect: seq<IndirectEntry>, star: seq<ModuleRequest>, optional: seq<IndirectEntry>)
    | Synthetic(exportNames: seq<string>)

  /** All module records, named by their position. */
  type World = seq<ModuleInfo>

  function KeyOf(l: LoadedModule): ModuleRequest {
    ModuleRequest(l.specifier, l.attributes, EvaluationPhase, All)
  }

  function FindLoaded(loaded: seq<LoadedModule>, req: ModuleRequest): (i: nat)
    ensures i <= |loaded|
  {
    if loaded == [] then 0
    else if ModuleRequestsKeyEqual(KeyOf(loaded[0]), req) then 0
    else 1 + FindLoaded(loaded[1..], req)
  }

  predicate IsLoaded(info: ModuleInfo, req: ModuleRequest) {
    info.SourceText? && FindLoaded(info.loaded, req) < |info.loaded| && DistinctAttributes(req.attributes)
  }

  predicate AllLoaded(info: ModuleInfo, entries: seq<IndirectEntry>) {
    forall i :: 0 <= i < |entries| ==> IsLoaded(info, entries[i].request)
  }

  /** What loading establishes: every request of every entry has a loaded module, and no request
      repeats an attribute. */
  predicate ValidInfo(info: ModuleInfo, size: nat) {
    info.SourceText? ==>
      && (forall i :: 0 <= i < |info.loaded| ==>
            info.loaded[i].target < size && DistinctAttributes(info.loaded[i].attributes))
      && (forall i :: 0 <= i < |info.requested| ==> IsLoaded(info, info.requested[i]))
      && (forall i :: 0 <= i < |info.star| ==> IsLoaded(info, info.star[i]))
      && AllLoaded(info, info.indirect)
      && AllLoaded(info, info.optional)
  }

  predicate Valid(w: World) {
    forall m :: 0 <= m < |w| ==> ValidInfo(w[m], |w|)
  }

  function GetImportedModule(w: World, m: nat, req: ModuleRequest): (t: nat)
    requires Valid(w) && m < |w| && IsLoaded(w[m], req)
    ensures t < |w|
  {
    w[m].loaded[FindLoaded(w[m].loaded, req)].target
  }

  /** Which record a request finds: the first of its key, and none exactly when there is none. */
  lemma {:induction false} FoundIsFirst(loaded: seq<LoadedModule>, req: ModuleRequest)
    requires forall i :: 0 <= i < |loaded| ==> DistinctAttributes(loaded[i].attributes)
    requires DistinctAttributes(req.attributes)
    ensures var i := FindLoaded(loaded, req);
            && (i < |loaded| ==> SameKey(KeyOf(loaded[i]), req))
            && forall j :: 0 <= j < i ==> !SameKey(KeyOf(loaded[j]), req)
    decreases loaded
  {
    hide SameKey, ModuleRequestsKeyEqual;
    if loaded != [] {
      KeyEqualIffSameKey(KeyOf(loaded[0]), req);
      assert forall j :: 0 < j < |loaded| ==> loaded[j] == loaded[1..][j - 1];
      FoundIsFirst(loaded[1..], req);
    }
  }

  /** The imported module is the one loaded for a record with the request's key, and no earlier
      record has that key. With one record for a key at most, it is the one of any record with the key. */
  lemma ImportedIsLoadedOne(w: World, m: nat, req: ModuleRequest)
    requires Valid(w) && m < |w| && IsLoaded(w[m], req)
    ensures exists i :: 0 <= i < |w[m].loaded| && SameKey(KeyOf(w[m].loaded[i]), req)
              && w[m].loaded[i].target == GetImportedModule(w, m, req)
              && forall j :: 0 <= j < i ==> !SameKey(KeyOf(w[m].loaded[j]), req)
    ensures OnePerKey(w[m].loaded) ==>
              forall i :: 0 <= i < |w[m].loaded| && SameKey(KeyOf(w[m].loaded[i]), req) ==>
                w[m].loaded[i].target == GetImportedModule(w, m, req)
  {
    hide FindLoaded;
    var loaded := w[m].loaded;
    assert ValidInfo(w[m], |w|);
    FoundIsFirst(loaded, req);
    var i := FindLoaded(loaded, req);
    assert SameKey(KeyOf(loaded[i]), req);
    forall j | 0 <= j < |loaded| && SameKey(KeyOf(loaded[j]), req) ensures SameKey(KeyOf(loaded[i]), KeyOf(loaded[j])) {
    }
  }

  ghost predicate OnePerKey(loaded: seq<LoadedModule>) {
    forall i, j :: 0 <= i < j < |loaded| ==> !SameKey(KeyOf(loaded[i]), KeyOf(loaded[j]))
  }

  /** Requests with the same key are served by the same module. */
  lemma SameKeySameModule(w: World, m: nat, req: ModuleRequest, req': ModuleRequest)
    requires Valid(w) && m < |w| && IsLoaded(w[m], req) && SameKey(req, req') && DistinctAttributes(req'.attributes)
    ensures IsLoaded(w[m], req') && GetImportedModule(w, m, req') == GetImportedModule(w, m, req)
  {
    SameKeySameFind(w[m].loaded, req, req');
  }

  lemma {:induction false} SameKeySameFind(loaded: seq<LoadedModule>, req: ModuleRequest, req': ModuleRequest)
    requires forall i :: 0 <= i < |loaded| ==> DistinctAttributes(loaded[i].attributes)
    requires SameKey(req, req') && DistinctAttributes(req.attributes) && DistinctAttributes(req'.attributes)
    ensures FindLoaded(loaded, req) == FindLoaded(loaded, req')
  {
    if loaded != [] {
      KeyEqualIffSameKey(KeyOf(loaded[0]), req);
      KeyEqualIffSameKey(KeyOf(loaded[0]), req');
      SameKeySameFind(loaded[1..], req, req');
    }
  }

  function Optional(w: World, m: nat): seq<IndirectEntry>
    requires m < |w|
  {
    if w[m].SourceText? then w[m].optional else []
  }

  lemma OptionalLoaded(w: World, m: nat)
    requires Valid(w) && m < |w|
    ensures WellKeyed(Optional(w, m))
    ensures forall k :: 0 <= k < |Optional(w, m)| ==> IsLoaded(w[m], Optional(w, m)[k].request)
  {
    hide FindLoaded;
    assert ValidInfo(w[m], |w|);
  }
}
