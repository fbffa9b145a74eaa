/** ResolveExport: which binding an exported name denotes. */
module Exports {
  import opened ImportedNames
  import opened ModuleRequests
  import opened ModuleRecords

  datatype BindingName = NamespaceBinding | DeferredNamespaceBinding | SourceBinding | NameBinding(name: string)

  datatype Binding = Binding(mod: nat, name: BindingName)

  datatype Resolution = Null | Ambiguous | Resolved(b: Binding)

  /** A module and the name asked of it. */
  type Pair = (nat, string)

  /** What a module says about a name before looking anywhere else. */
  datatype Lookup = Found(b: Binding) | Redirect(p: Pair) | TryStars | Absent

  function FindLocal(entries: seq<LocalEntry>, n: string): (i: nat)
    ensures i <= |entries|
    ensures i < |entries| ==> entries[i].exportName == n
    ensures forall j :: 0 <= j < i ==> entries[j].exportName != n
  {
    if entries == [] || entries[0].exportName == n then 0 else 1 + FindLocal(entries[1..], n)
  }

  function FindIndirect(entries: seq<IndirectEntry>, n: string): (i: nat)
    ensures i <= |entries|
    ensures i < |entries| ==> entries[i].exportName == n
    ensures forall j :: 0 <= j < i ==> entries[j].exportName != n
  {
    if entries == [] || entries[0].exportName == n then 0 else 1 + FindIndirect(entries[1..], n)
  }

  /** The indirect entries followed by the optional ones. */
  function AllIndirect(info: ModuleInfo): seq<IndirectEntry>
    requires info.SourceText?
  {
    info.indirect + info.optional
  }

  lemma AllIndirectLoaded(w: World, m: nat, i: nat)
    requires Valid(w) && m < |w| && w[m].SourceText? && i < |AllIndirect(w[m])|
    ensures IsLoaded(w[m], AllIndirect(w[m])[i].request)
  {
    hide FindLoaded;
    assert ValidInfo(w[m], |w|);
  }

  lemma StarLoaded(w: World, m: nat, i: nat)
    requires Valid(w) && m < |w| && w[m].SourceText? && i < |w[m].star|
    ensures IsLoaded(w[m], w[m].star[i])
  {
    hide FindLoaded;
    assert ValidInfo(w[m], |w|);
  }

  function LookUp(w: World, m: nat, n: string): (r: Lookup)
    requires Valid(w) && m < |w|
    ensures r.Redirect? ==> r.p.0 < |w| && r.p.1 in ImportNames(w)
    ensures w[m].Synthetic? ==> r.Found? || r.Absent?
    ensures r.TryStars? ==> n != DEFAULT
  {
    if w[m].Synthetic? then
      if n in w[m].exportNames then Found(Binding(m, NameBinding(n))) else Absent
    else
      var l := FindLocal(w[m].local, n);
      if l < |w[m].local| then Found(Binding(m, NameBinding(w[m].local[l].localName)))
      else
        var es := AllIndirect(w[m]);
        var i := FindIndirect(es, n);
        if i < |es| then
          AllIndirectLoaded(w, m, i);
          var t := GetImportedModule(w, m, es[i].request);
          match es[i].importName
          case ImportNamespace => Found(Binding(t,
              if es[i].request.phase == DeferPhase then DeferredNamespaceBinding else NamespaceBinding))
          case ImportSource => Found(Binding(t, SourceBinding))
          case ImportString(x) => assert es[i] in AllIndirect(w[m]); Redirect((t, x))
        else if n == DEFAULT then Absent
        else TryStars
  }

  /** Every name that some indirect entry imports. */
  function ImportNames(w: World): set<string> {
    set m, i | 0 <= m < |w| && w[m].SourceText? && 0 <= i < |AllIndirect(w[m])|
        && AllIndirect(w[m])[i].importName.ImportString? ::
      AllIndirect(w[m])[i].importName.name
  }

  /** The pairs not visited yet, out of the finitely many that can come up. */
  function Unseen(w: World, names: set<string>, seen: seq<Pair>): set<Pair> {
    set m, n | 0 <= m < |w| && n in names && (m, n) !in seen :: (m, n)
  }

  predicate Askable(w: World, names: set<string>, m: nat, n: string) {
    m < |w| && n in names && ImportNames(w) <= names
  }

  /** ResolveExport with the resolve set `seen`, which the recursion shares and grows; `names` only
      bounds the recursion. */
  function Resolve(w: World, ghost names: set<string>, seen: seq<Pair>, m: nat, n: string): (r: (Resolution, seq<Pair>))
    requires Valid(w) && Askable(w, names, m, n)
    ensures seen <= r.1
    decreases Unseen(w, names, seen), 0
  {
    if w[m].Synthetic? then
      (if n in w[m].exportNames then Resolved(Binding(m, NameBinding(n))) else Null, seen)
    else if (m, n) in seen then (Null, seen)
    else
      var seen1 := seen + [(m, n)];
      assert (m, n) in Unseen(w, names, seen) && (m, n) !in Unseen(w, names, seen1);
      match LookUp(w, m, n)
      case Found(b) => (Resolved(b), seen1)
      case Redirect(p) => Resolve(w, names, seen1, p.0, p.1)
      case Absent => (Null, seen1)
      case TryStars => ResolveStars(w, names, seen1, m, n, 0, Null)
  }

  function ResolveStars(w: World, ghost names: set<string>, seen: seq<Pair>, m: nat, n: string, k: nat,
      star: Resolution): (r: (Resolution, seq<Pair>))
    requires Valid(w) && Askable(w, names, m, n) && w[m].SourceText? && k <= |w[m].star|
    ensures seen <= r.1
    decreases Unseen(w, names, seen), 1 + |w[m].star| - k
  {
    if k == |w[m].star| then (star, seen)
    else
      StarLoaded(w, m, k);
      var r := Resolve(w, names, seen, GetImportedModule(w, m, w[m].star[k]), n);
      assert Unseen(w, names, r.1) < Unseen(w, names, seen)
          || Unseen(w, names, r.1) == Unseen(w, names, seen) by { UnseenShrinks(w, names, seen, r.1); }
      if r.0.Ambiguous? then r
      else if r.0.Null? then ResolveStars(w, names, r.1, m, n, k + 1, star)
      else if star.Null? then ResolveStars(w, names, r.1, m, n, k + 1, r.0)
      else if r.0 != star then (Ambiguous, r.1)
      else ResolveStars(w, names, r.1, m, n, k + 1, star)
  }

  lemma UnseenShrinks(w: World, names: set<string>, seen: seq<Pair>, seen': seq<Pair>)
    requires seen <= seen'
    ensures Unseen(w, names, seen') <= Unseen(w, names, seen)
  {
    assert forall p :: p in seen ==> p in seen';
  }

  /** ResolveExport called from outside: the resolve set is empty. */
  function ResolveExportOf(w: World, m: nat, n: string): Resolution
    requires Valid(w) && m < |w|
  {
    Resolve(w, ImportNames(w) + {n}, [], m, n).0
  }

  // --- What the answer means ---

  /** The i-th of the indirect entries and, after them, the optional ones. */
  function EntryAt(info: ModuleInfo, i: nat): IndirectEntry
    requires info.SourceText? && i < |info.indirect| + |info.optional|
  {
    if i < |info.indirect| then info.indirect[i] else info.optional[i - |info.indirect|]
  }

  predicate HasLocal(info: ModuleInfo, n: string)
    requires info.SourceText?
  {
    exists i :: 0 <= i < |info.local| && info.local[i].exportName == n
  }

  /** The i-th local entry is the first for n. */
  predicate LocalFor(info: ModuleInfo, n: string, i: nat)
    requires info.SourceText?
  {
    && i < |info.local| && info.local[i].exportName == n
    && forall j :: 0 <= j < i ==> info.local[j].exportName != n
  }

  /** No local entry is for n, and the i-th of the others is the first for it. */
  predicate IndirectFor(info: ModuleInfo, n: string, i: nat)
    requires info.SourceText?
  {
    && !HasLocal(info, n)
    && i < |info.indirect| + |info.optional| && EntryAt(info, i).exportName == n
    && forall j: nat :: j < i ==> EntryAt(info, j).exportName != n
  }

  /** The module has no entry of its own for n. */
  predicate NoEntry(info: ModuleInfo, n: string)
    requires info.SourceText?
  {
    !HasLocal(info, n) && forall i: nat :: i < |info.indirect| + |info.optional| ==> EntryAt(info, i).exportName != n
  }

  predicate TargetOf(w: World, m: nat, req: ModuleRequest, t: nat)
    requires Valid(w) && m < |w|
  {
    IsLoaded(w[m], req) && GetImportedModule(w, m, req) == t
  }

  /** What an entry that is no re-export of a name binds. */
  predicate EntryBinds(w: World, m: nat, e: IndirectEntry, b: Binding)
    requires Valid(w) && m < |w|
  {
    && TargetOf(w, m, e.request, b.mod)
    && match e.importName
       case ImportNamespace =>
         b.name == if e.request.phase == DeferPhase then DeferredNamespaceBinding else NamespaceBinding
       case ImportSource => b.name == SourceBinding
       case ImportString(_) => false
  }

  /** The entries of p's module for p's name bind b. */
  ghost predicate Bound(w: World, p: Pair, b: Binding)
    requires Valid(w) && p.0 < |w|
  {
    var info := w[p.0];
    match info
    case Synthetic(names) => p.1 in names && b == Binding(p.0, NameBinding(p.1))
    case SourceText(_, _, local, _, _, _) =>
      || (exists i: nat :: LocalFor(info, p.1, i) && b == Binding(p.0, NameBinding(local[i].localName)))
      || (exists i: nat :: IndirectFor(info, p.1, i) && EntryBinds(w, p.0, EntryAt(info, i), b))
  }

  /** Asking p leads to asking q: an entry for p's name re-exports q's name of q's module; or there is none,
      and q is the same name in a module of a star export. */
  ghost predicate Hop(w: World, p: Pair, q: Pair)
    requires Valid(w) && p.0 < |w|
  {
    var info := w[p.0];
    && info.SourceText?
    && (|| (exists i: nat :: IndirectFor(info, p.1, i) && EntryAt(info, i).importName == ImportString(q.1)
                             && TargetOf(w, p.0, EntryAt(info, i).request, q.0))
        || (NoEntry(info, p.1) && p.1 != DEFAULT && q.1 == p.1 && exists i: nat :: StarTarget(w, p.0, i, q.0)))
  }

  predicate StarTarget(w: World, m: nat, i: nat, t: nat)
    requires Valid(w) && m < |w|
  {
    w[m].SourceText? && i < |w[m].star| && IsLoaded(w[m], w[m].star[i]) && GetImportedModule(w, m, w[m].star[i]) == t
  }

  /** q comes up, after k steps, when p is asked. */
  ghost predicate LeadsIn(w: World, p: Pair, q: Pair, k: nat)
    requires Valid(w) && p.0 < |w|
    decreases k
  {
    if k == 0 then p == q
    else exists r: Pair :: Hop(w, p, r) && r.0 < |w| && LeadsIn(w, r, q, k - 1)
  }

  /** b is a direct, namespace or source binding that asking p can come to. */
  ghost predicate Provides(w: World, p: Pair, b: Binding)
    requires Valid(w) && p.0 < |w|
  {
    exists q: Pair, k: nat :: LeadsIn(w, p, q, k) && q.0 < |w| && Bound(w, q, b)
  }

  /** LookUp finds exactly what the entries bind. */
  lemma LookUpBinds(w: World, p: Pair, b: Binding)
    requires Valid(w) && p.0 < |w|
    ensures LookUp(w, p.0, p.1) == Found(b) <==> Bound(w, p, b)
  {
    hide Valid, FindLoaded;
    if w[p.0].SourceText? {
      FirstEntries(w, p);
    }
  }

  /** LookUp redirects, or goes on to the star exports, exactly where the entries say so. */
  lemma LookUpLeads(w: World, p: Pair, q: Pair)
    requires Valid(w) && p.0 < |w|
    ensures Hop(w, p, q) <==>
              var r := LookUp(w, p.0, p.1);
              || r == Redirect(q)
              || (r.TryStars? && q.1 == p.1 && exists i: nat :: StarTarget(w, p.0, i, q.0))
  {
    hide Valid, FindLoaded;
    if w[p.0].SourceText? {
      FirstEntries(w, p);
    }
  }

  /** The first entries for a name, as the loops find them. */
  lemma FirstEntries(w: World, p: Pair)
    requires Valid(w) && p.0 < |w| && w[p.0].SourceText?
    ensures var info := w[p.0]; var es := AllIndirect(info);
            var l := FindLocal(info.local, p.1); var k := FindIndirect(es, p.1);
            && |es| == |info.indirect| + |info.optional|
            && (forall i: nat :: i < |es| ==> es[i] == EntryAt(info, i) && IsLoaded(info, es[i].request))
            && (l < |info.local| <==> HasLocal(info, p.1))
            && (forall i: nat :: LocalFor(info, p.1, i) <==> i == l < |info.local|)
            && (forall i: nat :: IndirectFor(info, p.1, i) <==> l == |info.local| && i == k < |es|)
            && (NoEntry(info, p.1) <==> l == |info.local| && k == |es|)
  {
    hide Valid, IsLoaded;
    var info := w[p.0];
    var es := AllIndirect(info);
    forall i: nat | i < |es| ensures es[i] == EntryAt(info, i) && IsLoaded(info, es[i].request) {
      AllIndirectLoaded(w, p.0, i);
    }
    var k := FindIndirect(es, p.1);
    forall j: nat | j < k ensures EntryAt(info, j).exportName != p.1 {
      assert es[j] == EntryAt(info, j);
    }
    if k < |es| {
      assert EntryAt(info, k) == es[k];
    }
  }

  lemma ProvidesHere(w: World, p: Pair, b: Binding)
    requires Valid(w) && p.0 < |w| && Bound(w, p, b)
    ensures Provides(w, p, b)
  {
    hide Valid, Bound;
    assert LeadsIn(w, p, p, 0);
  }

  lemma ProvidesHop(w: World, p: Pair, r: Pair, b: Binding)
    requires Valid(w) && p.0 < |w| && r.0 < |w| && Hop(w, p, r) && Provides(w, r, b)
    ensures Provides(w, p, b)
  {
    hide Valid, Bound, Hop;
    var q: Pair, k: nat :| LeadsIn(w, r, q, k) && q.0 < |w| && Bound(w, q, b);
    assert LeadsIn(w, p, q, k + 1);
  }

  /** The answer r tells about the pair q itself. */
  ghost predicate Tells(w: World, r: Resolution, q: Pair)
    requires Valid(w)
  {
    q.0 < |w| && (LookUp(w, q.0, q.1).Found? ==> r == Resolved(LookUp(w, q.0, q.1).b))
  }

  ghost predicate Reached(w: World, seen: seq<Pair>, r: Resolution, q: Pair)
    requires Valid(w)
  {
    q in seen || (q.0 < |w| && w[q.0].Synthetic? && Tells(w, r, q))
  }

  /** Everything visited since `seen` is told by r and leads only to visited pairs. */
  ghost predicate Explored(w: World, seen: seq<Pair>, seen': seq<Pair>, r: Resolution)
    requires Valid(w)
  {
    forall q :: q in seen' && q !in seen ==> Tells(w, r, q) && forall q' :: Hop(w, q, q') ==> Reached(w, seen', r, q')
  }

  ghost predicate Supported(w: World, p: Pair, r: Resolution)
    requires Valid(w) && p.0 < |w|
  {
    match r
    case Null => true
    case Resolved(b) => Provides(w, p, b)
    case Ambiguous => exists b, b' :: b != b' && Provides(w, p, b) && Provides(w, p, b')
  }

  /** Where asking p leads on, p's module is a Source Text Module Record. */
  lemma HopIsSource(w: World, p: Pair, q: Pair)
    requires Valid(w) && p.0 < |w| && Hop(w, p, q)
    ensures w[p.0].SourceText?
  {
  }

  /** A pair without an entry of its own leads on over star exports only. */
  lemma LeadsOverStars(w: World, p: Pair, q: Pair)
    requires Valid(w) && p.0 < |w| && Hop(w, p, q) && w[p.0].SourceText? && NoEntry(w[p.0], p.1)
    ensures p.1 != DEFAULT && q.1 == p.1 && exists i: nat :: StarTarget(w, p.0, i, q.0)
  {
    hide Valid, StarTarget, TargetOf;
  }
}
