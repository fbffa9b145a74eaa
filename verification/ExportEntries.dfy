/** How ParseModule sorts export entries, and why ResolveExport does not notice. */
module ExportEntries {
  import opened Wrappers
  import opened ModuleRequests
  import opened ModuleRecords
  import opened Exports
  import opened ExportsExact

  datatype ImportEntry = ImportEntry(request: ModuleRequest, importName: ImportName, localName: string)

  /** One export clause, as written: of a local name, of a name of another module, or of all names
      of another module. */
  datatype ExportEntry =
    | ExportLocal(localName: string, exportName: string)
    | ExportFrom(from: IndirectEntry)
    | ExportAll(request: ModuleRequest)

  datatype Lists = Lists(local: seq<LocalEntry>, indirect: seq<IndirectEntry>, star: seq<ModuleRequest>)

  function FindImport(imports: seq<ImportEntry>, l: string): (i: nat)
    ensures i <= |imports|
    ensures i < |imports| ==> imports[i].localName == l
    ensures forall j :: 0 <= j < i ==> imports[j].localName != l
  {
    if imports == [] || imports[0].localName == l then 0 else 1 + FindImport(imports[1..], l)
  }

  function Reexport(ie: ImportEntry, exportName: string): IndirectEntry {
    IndirectEntry(ie.request, ie.importName, exportName)
  }

  function Classify(entries: seq<ExportEntry>, imports: seq<ImportEntry>): Lists {
    if entries == [] then Lists([], [], [])
    else
      var l := |entries| - 1;
      Add(Classify(entries[..l], imports), entries[l], imports)
  }

  function Add(s: Lists, ee: ExportEntry, imports: seq<ImportEntry>): Lists {
    match ee
    case ExportLocal(l, e) =>
      var i := FindImport(imports, l);
      if i == |imports| then s.(local := s.local + [LocalEntry(l, e)])
      else s.(indirect := s.indirect + [Reexport(imports[i], e)])
    case ExportAll(request) => s.(star := s.star + [request])
    case ExportFrom(from) => s.(indirect := s.indirect + [from])
  }

  method ClassifyExportEntries(exportEntries: seq<ExportEntry>, importEntries: seq<ImportEntry>)
    returns (localExportEntries: seq<LocalEntry>, indirectExportEntries: seq<IndirectEntry>,
        starExportEntries: seq<ModuleRequest>)
    ensures Lists(localExportEntries, indirectExportEntries, starExportEntries)
         == Classify(exportEntries, importEntries)
  {
    var importedBoundNames := set i | 0 <= i < |importEntries| :: importEntries[i].localName;
    indirectExportEntries, localExportEntries, starExportEntries := [], [], [];
    for k := 0 to |exportEntries|
      invariant Lists(localExportEntries, indirectExportEntries, starExportEntries)
             == Classify(exportEntries[..k], importEntries)
    {
      var ee := exportEntries[k];
      assert exportEntries[..k + 1][..k] == exportEntries[..k];
      match ee
      case ExportLocal(l, e) =>
        if l !in importedBoundNames {
          localExportEntries := localExportEntries + [LocalEntry(l, e)];
        } else {
          var i := FindImport(importEntries, l);
          assert i < |importEntries| by {
            var j :| 0 <= j < |importEntries| && importEntries[j].localName == l;
          }
          var ie := importEntries[i];
          indirectExportEntries := indirectExportEntries + [IndirectEntry(ie.request, ie.importName, e)];
        }
      case ExportAll(request) =>
        starExportEntries := starExportEntries + [request];
      case ExportFrom(from) =>
        indirectExportEntries := indirectExportEntries + [from];
    }
    assert exportEntries[..|exportEntries|] == exportEntries;
  }

  /** A module as parsed, before its exports are sorted. */
  datatype ParsedModule =
    | ParsedText(requested: seq<ModuleRequest>, loaded: seq<LoadedModule>, imports: seq<ImportEntry>,
                 exports: seq<ExportEntry>, optional: seq<IndirectEntry>)
    | ParsedSynthetic(exportNames: seq<string>)

  function Sorted(p: ParsedModule): ModuleInfo {
    match p
    case ParsedSynthetic(names) => Synthetic(names)
    case ParsedText(requested, loaded, imports, exports, optional) =>
      var s := Classify(exports, imports);
      SourceText(requested, loaded, s.local, s.indirect, s.star, optional)
  }

  function SortedWorld(ps: seq<ParsedModule>): (w: World)
    ensures |w| == |ps| && forall m :: 0 <= m < |ps| ==> w[m] == Sorted(ps[m])
  {
    seq(|ps|, i requires 0 <= i < |ps| => Sorted(ps[i]))
  }

  /** Does the clause export exactly the name n? */
  predicate Names(ee: ExportEntry, n: string) {
    match ee
    case ExportLocal(_, e) => e == n
    case ExportFrom(from) => from.exportName == n
    case ExportAll(_) => false
  }

  /** The clause k is the only one that exports n: the early errors for modules rule out a second. */
  predicate OnlyAt(entries: seq<ExportEntry>, n: string, k: nat) {
    k < |entries| && Names(entries[k], n) && forall j :: 0 <= j < |entries| && j != k ==> !Names(entries[j], n)
  }

  predicate NoneIndirect(entries: seq<IndirectEntry>, n: string) {
    forall i :: 0 <= i < |entries| ==> entries[i].exportName != n
  }

  predicate NoneLocal(entries: seq<LocalEntry>, n: string) {
    forall i :: 0 <= i < |entries| ==> entries[i].exportName != n
  }

  predicate JustIndirect(entries: seq<IndirectEntry>, n: string, e: IndirectEntry) {
    e in entries && forall i :: 0 <= i < |entries| && entries[i].exportName == n ==> entries[i] == e
  }

  predicate JustLocal(entries: seq<LocalEntry>, n: string, e: LocalEntry) {
    e in entries && forall i :: 0 <= i < |entries| && entries[i].exportName == n ==> entries[i] == e
  }

  /** The indirect entry that stands for a clause, if it is an indirect export. */
  function Indirectly(ee: ExportEntry, imports: seq<ImportEntry>): Option<IndirectEntry> {
    match ee
    case ExportLocal(l, e) =>
      var i := FindImport(imports, l);
      if i == |imports| then None else Some(Reexport(imports[i], e))
    case ExportFrom(from) => Some(from)
    case ExportAll(_) => None
  }

  lemma {:induction false} ClassifyNoneNamed(entries: seq<ExportEntry>, imports: seq<ImportEntry>, n: string)
    requires forall k :: 0 <= k < |entries| ==> !Names(entries[k], n)
    ensures NoneLocal(Classify(entries, imports).local, n) && NoneIndirect(Classify(entries, imports).indirect, n)
  {
    if entries != [] {
      ClassifyNoneNamed(entries[..|entries| - 1], imports, n);
    }
  }

  /** The clause ee, which exports n, is found in exactly one of the lists, rewritten as it should be. */
  predicate Placed(s: Lists, ee: ExportEntry, imports: seq<ImportEntry>, n: string) {
    match Indirectly(ee, imports)
    case Some(e) => e.exportName == n && NoneLocal(s.local, n) && JustIndirect(s.indirect, n, e)
    case None =>
      ee.ExportLocal? && NoneIndirect(s.indirect, n) && JustLocal(s.local, n, LocalEntry(ee.localName, n))
  }

  lemma AddPlaces(s: Lists, ee: ExportEntry, imports: seq<ImportEntry>, n: string)
    requires NoneLocal(s.local, n) && NoneIndirect(s.indirect, n) && Names(ee, n)
    ensures Placed(Add(s, ee, imports), ee, imports, n)
  {
  }

  lemma AddKeepsPlaced(s: Lists, ee: ExportEntry, other: ExportEntry, imports: seq<ImportEntry>, n: string)
    requires Placed(s, ee, imports, n) && !Names(other, n)
    ensures Placed(Add(s, other, imports), ee, imports, n)
  {
  }

  /** The clause that exports n is placed. */
  lemma {:induction false} ClassifyPlaces(entries: seq<ExportEntry>, imports: seq<ImportEntry>, n: string, k: nat)
    requires OnlyAt(entries, n, k)
    ensures Placed(Classify(entries, imports), entries[k], imports, n)
  {
    hide Placed, Add;
    var l := |entries| - 1;
    if k == l {
      ClassifyNoneNamed(entries[..l], imports, n);
      AddPlaces(Classify(entries[..l], imports), entries[k], imports, n);
    } else {
      assert entries[..l][k] == entries[k];
      ClassifyPlaces(entries[..l], imports, n, k);
      AddKeepsPlaced(Classify(entries[..l], imports), entries[k], entries[l], imports, n);
    }
  }

  function Join(x: Lists, y: Lists): Lists {
    Lists(x.local + y.local, x.indirect + y.indirect, x.star + y.star)
  }

  lemma AddToJoin(x: Lists, y: Lists, ee: ExportEntry, imports: seq<ImportEntry>)
    ensures Add(Join(x, y), ee, imports) == Join(x, Add(y, ee, imports))
  {
  }

  /** Sorting keeps source order: it takes a concatenation of clauses to the concatenations of the
      three lists, and every clause adds exactly one entry. */
  lemma {:induction false} ClassifyConcat(a: seq<ExportEntry>, b: seq<ExportEntry>, imports: seq<ImportEntry>)
    ensures Classify(a + b, imports) == Join(Classify(a, imports), Classify(b, imports))
    decreases |b|
  {
    hide Add, Join;
    if b == [] {
      assert a + b == a;
      JoinNothing(Classify(a, imports));
    } else {
      var l := |b| - 1;
      assert (a + b)[..|a + b| - 1] == a + b[..l];
      ClassifyConcat(a, b[..l], imports);
      AddToJoin(Classify(a, imports), Classify(b[..l], imports), b[l], imports);
    }
  }

  lemma JoinNothing(x: Lists)
    ensures Join(x, Lists([], [], [])) == x
  {
  }

  lemma {:induction false} ClassifyKeepsEveryClause(a: seq<ExportEntry>, imports: seq<ImportEntry>)
    ensures var s := Classify(a, imports); |s.local| + |s.indirect| + |s.star| == |a|
  {
    if a != [] {
      ClassifyKeepsEveryClause(a[..|a| - 1], imports);
    }
  }

  /** What following the import entry of a re-exported name finds. */
  function Follow(w: World, m: nat, e: IndirectEntry): Lookup
    requires Valid(w) && m < |w| && IsLoaded(w[m], e.request)
  {
    var t := GetImportedModule(w, m, e.request);
    match e.importName
    case ImportNamespace => Found(Binding(t,
        if e.request.phase == DeferPhase then DeferredNamespaceBinding else NamespaceBinding))
    case ImportSource => Found(Binding(t, SourceBinding))
    case ImportString(x) => Redirect((t, x))
  }

  lemma JustIndirectFound(es: seq<IndirectEntry>, n: string, e: IndirectEntry)
    requires JustIndirect(es, n, e) && e.exportName == n
    ensures FindIndirect(es, n) < |es| && es[FindIndirect(es, n)] == e
  {
  }

  lemma JustLocalFound(es: seq<LocalEntry>, n: string, e: LocalEntry)
    requires JustLocal(es, n, e) && e.exportName == n
    ensures FindLocal(es, n) < |es| && es[FindLocal(es, n)] == e
  {
  }

  /** Looking n up in the sorted module does what the clause that exports n says: a local name is
      bound here, an imported name is followed through its import entry. */
  lemma LookUpFollowsClause(ps: seq<ParsedModule>, m: nat, n: string, k: nat)
    requires Valid(SortedWorld(ps)) && m < |ps| && ps[m].ParsedText?
    requires OnlyAt(ps[m].exports, n, k) && NoneIndirect(ps[m].optional, n)
    ensures var w := SortedWorld(ps);
            match Indirectly(ps[m].exports[k], ps[m].imports)
            case None => LookUp(w, m, n) == Found(Binding(m, NameBinding(ps[m].exports[k].localName)))
            case Some(e) => IsLoaded(w[m], e.request) && LookUp(w, m, n) == Follow(w, m, e)
  {
    hide Valid, IsLoaded, GetImportedModule, ImportNames, Classify;
    var w := SortedWorld(ps);
    ClassifyPlaces(ps[m].exports, ps[m].imports, n, k);
    match Indirectly(ps[m].exports[k], ps[m].imports)
    case None =>
      JustLocalFound(w[m].local, n, LocalEntry(ps[m].exports[k].localName, n));
    case Some(e) =>
      assert JustIndirect(AllIndirect(w[m]), n, e);
      JustIndirectFound(AllIndirect(w[m]), n, e);
      AllIndirectLoaded(w, m, FindIndirect(AllIndirect(w[m]), n));
  }

  /** A name that redirects answers what its target answers, from an empty resolve set. */
  lemma RedirectResolves(w: World, m: nat, n: string, p: Pair)
    requires Valid(w) && m < |w| && LookUp(w, m, n) == Redirect(p)
    ensures p.0 < |w| && ResolveExportOf(w, m, n) == ResolveExportOf(w, p.0, p.1)
  {
    hide Valid, LookUp, Hop, Bound;
    assert p.0 < |w|;
    LookUpLeads(w, (m, n), p);
    forall b ensures Provides(w, (m, n), b) <==> Provides(w, p, b) {
      if Provides(w, p, b) {
        ProvidesHop(w, (m, n), p, b);
      }
      if Provides(w, (m, n), b) {
        var q: Pair, k: nat :| LeadsIn(w, (m, n), q, k) && q.0 < |w| && Bound(w, q, b);
        LookUpBinds(w, q, b);
        assert k > 0;
        var r: Pair :| Hop(w, (m, n), r) && r.0 < |w| && LeadsIn(w, r, q, k - 1);
        LookUpLeads(w, (m, n), r);
      }
    }
    SameProvidesSameAnswer(w, (m, n), w, p);
  }

  lemma SameProvidesSameAnswer(w: World, p: Pair, w': World, q: Pair)
    requires Valid(w) && Valid(w') && p.0 < |w| && q.0 < |w'| && forall b :: Provides(w, p, b) <==> Provides(w', q, b)
    ensures ResolveExportOf(w, p.0, p.1) == ResolveExportOf(w', q.0, q.1)
  {
    hide Valid, Provides;
    ResolveExportExact(w, p.0, p.1);
    ResolveExportExact(w', q.0, q.1);
    var r, r' := ResolveExportOf(w, p.0, p.1), ResolveExportOf(w', q.0, q.1);
    if r.Resolved? {
      assert Provides(w, p, r.b) && forall b' :: Provides(w, p, b') ==> b' == r.b;
      assert Provides(w', q, r.b);
      assert r' == Resolved(r.b);
    } else if r.Ambiguous? {
      var b, b' :| b != b' && Provides(w, p, b) && Provides(w, p, b');
      assert Provides(w', q, b) && Provides(w', q, b');
    }
  }

  /** import { x } from T; export { x as y }: resolving y here is resolving x in T. */
  lemma ReexportResolvesInTarget(ps: seq<ParsedModule>, m: nat, n: string, k: nat)
    requires Valid(SortedWorld(ps)) && m < |ps| && ps[m].ParsedText?
    requires OnlyAt(ps[m].exports, n, k) && NoneIndirect(ps[m].optional, n)
    requires var e := Indirectly(ps[m].exports[k], ps[m].imports); e.Some? && e.value.importName.ImportString?
    ensures var w := SortedWorld(ps); var e := Indirectly(ps[m].exports[k], ps[m].imports).value;
            && IsLoaded(w[m], e.request)
            && ResolveExportOf(w, m, n) == ResolveExportOf(w, GetImportedModule(w, m, e.request), e.importName.name)
  {
    hide Valid, IsLoaded, GetImportedModule, LookUp, Classify;
    var w := SortedWorld(ps);
    var e := Indirectly(ps[m].exports[k], ps[m].imports).value;
    LookUpFollowsClause(ps, m, n, k);
    RedirectResolves(w, m, n, (GetImportedModule(w, m, e.request), e.importName.name));
  }

  /** The worlds differ at most in the order of star exports. */
  predicate SameButStarOrder(w: World, w': World) {
    && |w| == |w'|
    && forall m :: 0 <= m < |w| ==>
         if w[m].SourceText? && w'[m].SourceText? then
           w'[m] == w[m].(star := w'[m].star) && multiset(w[m].star) == multiset(w'[m].star)
         else w[m] == w'[m]
  }

  lemma StarOrderHops(w: World, w': World, p: Pair, q: Pair)
    requires Valid(w) && Valid(w') && SameButStarOrder(w, w') && p.0 < |w|
    ensures LookUp(w, p.0, p.1) == LookUp(w', p.0, p.1)
    ensures Hop(w, p, q) ==> Hop(w', p, q)
  {
    hide Valid, FindLoaded, ImportNames, Hop;
    LookUpLeads(w, p, q);
    LookUpLeads(w', p, q);
    if Hop(w, p, q) && LookUp(w, p.0, p.1).TryStars? {
      var i: nat :| StarTarget(w, p.0, i, q.0);
      assert w[p.0].star[i] in multiset(w[p.0].star);
      assert w[p.0].star[i] in w'[p.0].star;
      var j: nat :| j < |w'[p.0].star| && w'[p.0].star[j] == w[p.0].star[i];
      StarLoaded(w', p.0, j);
      assert StarTarget(w', p.0, j, q.0);
    }
  }

  lemma {:induction false} StarOrderLeads(w: World, w': World, p: Pair, q: Pair, k: nat)
    requires Valid(w) && Valid(w') && SameButStarOrder(w, w') && p.0 < |w| && LeadsIn(w, p, q, k)
    ensures LeadsIn(w', p, q, k)
    decreases k
  {
    hide Valid, LookUp, Hop;
    if k > 0 {
      var r: Pair :| Hop(w, p, r) && r.0 < |w| && LeadsIn(w, r, q, k - 1);
      StarOrderHops(w, w', p, r);
      StarOrderLeads(w, w', r, q, k - 1);
    }
  }

  lemma StarOrderProvides(w: World, w': World, p: Pair, b: Binding)
    requires Valid(w) && Valid(w') && SameButStarOrder(w, w') && p.0 < |w| && Provides(w, p, b)
    ensures Provides(w', p, b)
  {
    hide Valid, LookUp, LeadsIn, Bound, Hop;
    var q: Pair, k: nat :| LeadsIn(w, p, q, k) && q.0 < |w| && Bound(w, q, b);
    LookUpBinds(w, q, b);
    StarOrderLeads(w, w', p, q, k);
    StarOrderHops(w, w', q, q);
    LookUpBinds(w', q, b);
  }

  /** ResolveExport does not depend on the order of any module's star exports. */
  lemma StarOrderIrrelevant(w: World, w': World, m: nat, n: string)
    requires Valid(w) && Valid(w') && SameButStarOrder(w, w') && m < |w|
    ensures ResolveExportOf(w, m, n) == ResolveExportOf(w', m, n)
  {
    hide Valid, Provides;
    forall b ensures Provides(w, (m, n), b) <==> Provides(w', (m, n), b) {
      if Provides(w, (m, n), b) { StarOrderProvides(w, w', (m, n), b); }
      if Provides(w', (m, n), b) { StarOrderProvides(w', w, (m, n), b); }
    }
    SameProvidesSameAnswer(w, (m, n), w', (m, n));
  }
}
