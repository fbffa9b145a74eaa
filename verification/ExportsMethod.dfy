/** ResolveExport as the engine runs it: one resolve set, shared and grown in place. */
module ExportsMethod {
  import opened Wrappers
  import opened ImportedNames
  import opened ModuleRequests
  import opened ModuleRecords
  import opened Exports

  class ResolveSet {
    var items: seq<Pair>

    constructor ()
      ensures items == []
    {
      items := [];
    }
  }

  /** The local binding a module exports under n, if any. */
  method ResolveLocal(w: World, m: nat, n: string) returns (b: Option<Binding>)
    requires m < |w| && w[m].SourceText?
    ensures var i := FindLocal(w[m].local, n);
            b == if i < |w[m].local| then Some(Binding(m, NameBinding(w[m].local[i].localName))) else None
  {
    for i := 0 to |w[m].local|
      invariant forall j :: 0 <= j < i ==> w[m].local[j].exportName != n
    {
      if w[m].local[i].exportName == n {
        return Some(Binding(m, NameBinding(w[m].local[i].localName)));
      }
    }
    return None;
  }

  method FindIndirectEntry(es: seq<IndirectEntry>, n: string) returns (i: nat)
    ensures i == FindIndirect(es, n)
  {
    for k := 0 to |es|
      invariant forall j :: 0 <= j < k ==> es[j].exportName != n
    {
      if es[k].exportName == n {
        return k;
      }
    }
    return |es|;
  }

  method ResolveExport(w: World, m: nat, n: string, resolveSet: ResolveSet,
      ghost names: set<string>) returns (r: Resolution)
    requires Valid(w) && Askable(w, names, m, n)
    modifies resolveSet
    ensures (r, resolveSet.items) == Resolve(w, names, old(resolveSet.items), m, n)
    decreases Unseen(w, names, resolveSet.items), 0
  {
    hide Valid, IsLoaded, GetImportedModule, ImportNames;
    ghost var seen := resolveSet.items;
    if w[m].Synthetic? {
      return if n in w[m].exportNames then Resolved(Binding(m, NameBinding(n))) else Null;
    }
    for i := 0 to |resolveSet.items|
      invariant resolveSet.items == seen && forall j :: 0 <= j < i ==> seen[j] != (m, n)
    {
      if resolveSet.items[i] == (m, n) {
        assert (m, n) in seen;
        return Null;
      }
    }
    resolveSet.items := resolveSet.items + [(m, n)];
    assert (m, n) in Unseen(w, names, seen) && (m, n) !in Unseen(w, names, resolveSet.items);
    UnseenShrinks(w, names, seen, resolveSet.items);
    var b := ResolveLocal(w, m, n);
    if b.Some? {
      return Resolved(b.value);
    }
    var allIndirectEntries := AllIndirect(w[m]);
    var i := FindIndirectEntry(allIndirectEntries, n);
    if i < |allIndirectEntries| {
      var e := allIndirectEntries[i];
      AllIndirectLoaded(w, m, i);
      var importedModule := GetImportedModule(w, m, e.request);
      match e.importName
      case ImportNamespace =>
        return Resolved(Binding(importedModule,
            if e.request.phase == DeferPhase then DeferredNamespaceBinding else NamespaceBinding));
      case ImportSource =>
        return Resolved(Binding(importedModule, SourceBinding));
      case ImportString(x) =>
        RedirectNamed(w, m, n, i);
        r := ResolveExport(w, importedModule, x, resolveSet, names);
        return;
    }
    if n == DEFAULT {
      return Null;
    }
    r := ResolveStarExports(w, m, n, resolveSet, names);
  }

  lemma RedirectNamed(w: World, m: nat, n: string, i: nat)
    requires Valid(w) && m < |w| && w[m].SourceText? && i < |AllIndirect(w[m])|
        && AllIndirect(w[m])[i].importName.ImportString?
    ensures AllIndirect(w[m])[i].importName.name in ImportNames(w)
  {
    hide Valid;
  }

  /** Resolve through every star export; two different bindings make the name ambiguous. */
  method ResolveStarExports(w: World, m: nat, n: string, resolveSet: ResolveSet,
      ghost names: set<string>) returns (r: Resolution)
    requires Valid(w) && Askable(w, names, m, n) && w[m].SourceText?
    modifies resolveSet
    ensures (r, resolveSet.items) == ResolveStars(w, names, old(resolveSet.items), m, n, 0, Null)
    decreases Unseen(w, names, resolveSet.items), 1
  {
    hide Valid, IsLoaded, GetImportedModule, ImportNames;
    ghost var seen := resolveSet.items;
    r := Null;
    for k := 0 to |w[m].star|
      invariant seen <= resolveSet.items && !r.Ambiguous?
      invariant ResolveStars(w, names, resolveSet.items, m, n, k, r) == ResolveStars(w, names, seen, m, n, 0, Null)
    {
      StarLoaded(w, m, k);
      UnseenShrinks(w, names, seen, resolveSet.items);
      assert Unseen(w, names, resolveSet.items) < Unseen(w, names, seen)
          || Unseen(w, names, resolveSet.items) == Unseen(w, names, seen);
      AskableTarget(w, names, m, n, k);
      var resolution := ResolveExport(w, GetImportedModule(w, m, w[m].star[k]), n, resolveSet, names);
      if resolution == Ambiguous {
        return Ambiguous;
      }
      if resolution != Null {
        if r == Null {
          r := resolution;
        } else if resolution.b.mod != r.b.mod || resolution.b.name != r.b.name {
          return Ambiguous;
        }
      }
    }
  }

  lemma AskableTarget(w: World, names: set<string>, m: nat, n: string, k: nat)
    requires Valid(w) && Askable(w, names, m, n) && w[m].SourceText? && k < |w[m].star| && IsLoaded(w[m], w[m].star[k])
    ensures Askable(w, names, GetImportedModule(w, m, w[m].star[k]), n)
  {
    hide Valid, IsLoaded;
  }
}
