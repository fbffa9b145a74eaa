/** GetExportedNames, its exactness, and its agreement with ResolveExport. */
module ExportedNames {
  import opened ImportedNames
  import opened ModuleRequests
  import opened ModuleRecords
  import opened Exports
  import opened ExportsExact

  function LocalNames(entries: seq<LocalEntry>): (r: seq<string>)
    ensures forall n :: n in r <==> exists i :: 0 <= i < |entries| && entries[i].exportName == n
  {
    if entries == [] then []
    else
      var l := |entries| - 1;
      assert forall i :: 0 <= i < l ==> entries[..l][i] == entries[i];
      LocalNames(entries[..l]) + [entries[l].exportName]
  }

  function IndirectNames(entries: seq<IndirectEntry>): (r: seq<string>)
    ensures forall n :: n in r <==> exists i :: 0 <= i < |entries| && entries[i].exportName == n
  {
    if entries == [] then []
    else
      var l := |entries| - 1;
      assert forall i :: 0 <= i < l ==> entries[..l][i] == entries[i];
      IndirectNames(entries[..l]) + [entries[l].exportName]
  }

  /** The names a module exports itself. */
  function OwnNames(info: ModuleInfo): seq<string> {
    match info
    case Synthetic(names) => names
    case SourceText(_, _, local, _, _, _) => LocalNames(local) + IndirectNames(AllIndirect(info))
  }

  function AddStarNames(names: seq<string>, starNames: seq<string>): (r: seq<string>)
    ensures forall n :: n in r <==> n in names || (n in starNames && n != DEFAULT)
    decreases |starNames|
  {
    if starNames == [] then names
    else AddStarNames(if starNames[0] != DEFAULT
        && starNames[0] !in names then names + [starNames[0]] else names, starNames[1..])
  }

  function Unvisited(w: World, visited: seq<nat>): set<nat> {
    set m | 0 <= m < |w| && m !in visited
  }

  lemma UnvisitedShrinks(w: World, visited: seq<nat>, visited': seq<nat>)
    requires visited <= visited'
    ensures Unvisited(w, visited') <= Unvisited(w, visited)
  {
    assert forall m :: m in visited ==> m in visited';
  }

  /** GetExportedNames with the visited list that the recursion shares and grows. */
  function NamesOf(w: World, visited: seq<nat>, m: nat): (r: (seq<string>, seq<nat>))
    requires Valid(w) && m < |w|
    ensures visited <= r.1
    decreases Unvisited(w, visited), 0
  {
    if w[m].Synthetic? then (w[m].exportNames, visited)
    else if m in visited then ([], visited)
    else
      var visited1 := visited + [m];
      assert m in Unvisited(w, visited) && m !in Unvisited(w, visited1);
      StarNames(w, visited1, m, 0, OwnNames(w[m]))
  }

  function StarNames(w: World, visited: seq<nat>, m: nat, k: nat, names: seq<string>): (r: (seq<string>, seq<nat>))
    requires Valid(w) && m < |w| && w[m].SourceText? && k <= |w[m].star|
    ensures visited <= r.1
    decreases Unvisited(w, visited), 1 + |w[m].star| - k
  {
    if k == |w[m].star| then (names, visited)
    else
      StarLoaded(w, m, k);
      var r := NamesOf(w, visited, GetImportedModule(w, m, w[m].star[k]));
      UnvisitedShrinks(w, visited, r.1);
      assert Unvisited(w, r.1) < Unvisited(w, visited) || Unvisited(w, r.1) == Unvisited(w, visited);
      StarNames(w, r.1, m, k + 1, AddStarNames(names, r.0))
  }

  function ExportedNamesOf(w: World, m: nat): seq<string>
    requires Valid(w) && m < |w|
  {
    NamesOf(w, [], m).0
  }

  /** x is reached from m through k star exports. */
  ghost predicate StarReach(w: World, m: nat, x: nat, k: nat)
    requires Valid(w) && m < |w|
    decreases k
  {
    if k == 0 then m == x
    else exists i: nat, t: nat :: StarTarget(w, m, i, t) && t < |w| && StarReach(w, t, x, k - 1)
  }

  /** The module has an entry of its own for n. */
  predicate ExportsItself(info: ModuleInfo, n: string) {
    match info
    case Synthetic(names) => n in names
    case SourceText(_, _, _, _, _, _) => !NoEntry(info, n)
  }

  lemma OwnNamesAre(info: ModuleInfo, n: string)
    ensures n in OwnNames(info) <==> ExportsItself(info, n)
  {
    if info.SourceText? {
      var es := AllIndirect(info);
      assert forall i: nat :: i < |es| ==> es[i] == EntryAt(info, i);
    }
  }

  /** n is exported by m: m's own name, or a name other than default of a module behind star exports. */
  ghost predicate Exported(w: World, m: nat, n: string)
    requires Valid(w) && m < |w|
  {
    || ExportsItself(w[m], n)
    || (n != DEFAULT && exists x: nat, k: nat :: StarReach(w, m, x, k) && x < |w| && ExportsItself(w[x], n))
  }

  lemma ExportedThroughStar(w: World, m: nat, i: nat, t: nat, n: string)
    requires Valid(w) && m < |w| && t < |w| && StarTarget(w, m, i, t) && n != DEFAULT && Exported(w, t, n)
    ensures Exported(w, m, n)
  {
    hide Valid, StarTarget, ExportsItself;
    if ExportsItself(w[t], n) {
      assert StarReach(w, t, t, 0);
      assert StarReach(w, m, t, 1);
    } else {
      var x: nat, k: nat :| StarReach(w, t, x, k) && x < |w| && ExportsItself(w[x], n);
      assert StarReach(w, m, x, k + 1);
    }
  }

  /** Whatever was visited since has its own names, except default, in `names`, and its star
      targets visited or, if synthetic, likewise taken in. */
  ghost predicate Gathered(w: World, names: seq<string>, visited: seq<nat>, x: nat)
    requires Valid(w)
  {
    x < |w| && (forall n :: n in OwnNames(w[x]) && n != DEFAULT ==> n in names)
  }

  ghost predicate Taken(w: World, names: seq<string>, visited: seq<nat>, x: nat)
    requires Valid(w)
  {
    x in visited || (x < |w| && w[x].Synthetic? && Gathered(w, names, visited, x))
  }

  ghost predicate AllGathered(w: World, names: seq<string>, visited: seq<nat>, visited': seq<nat>)
    requires Valid(w)
  {
    forall x: nat :: x in visited' && x !in visited ==>
      Gathered(w, names, visited', x) && forall i: nat, t: nat :: StarTarget(w, x, i, t) ==>
                                        Taken(w, names, visited', t)
  }

  ghost predicate Includes(names: seq<string>, names': seq<string>) {
    forall n :: n in names && n != DEFAULT ==> n in names'
  }

  lemma GatheredMono(w: World, a: seq<nat>, b: seq<nat>, c: seq<nat>, names: seq<string>, names': seq<string>)
    requires Valid(w) && AllGathered(w, names, a, b) && Includes(names, names') && AllGathered(w, names', b, c)
        && b <= c
    ensures AllGathered(w, names', a, c)
  {
    hide Valid, OwnNames, StarTarget;
    assert forall x :: x in b ==> x in c;
    forall x: nat | x in c && x !in a
      ensures Gathered(w, names', c, x) && forall i: nat, t: nat :: StarTarget(w, x, i, t) ==> Taken(w, names', c, t)
    {
      if x in b {
        assert Gathered(w, names, b, x);
        forall i: nat, t: nat | StarTarget(w, x, i, t) ensures Taken(w, names', c, t) {
          assert Taken(w, names, b, t);
        }
      }
    }
  }

  lemma {:induction false} NamesOfSound(w: World, visited: seq<nat>, m: nat, n: string)
    requires Valid(w) && m < |w| && n in NamesOf(w, visited, m).0
    ensures Exported(w, m, n)
    decreases Unvisited(w, visited), 0
  {
    hide Valid, StarTarget, IsLoaded, GetImportedModule;
    OwnNamesAre(w[m], n);
    if w[m].SourceText? && m !in visited {
      var visited1 := visited + [m];
      assert m in Unvisited(w, visited) && m !in Unvisited(w, visited1);
      UnvisitedShrinks(w, visited, visited1);
      StarNamesSound(w, visited1, m, 0, OwnNames(w[m]), n);
    }
  }

  lemma {:induction false} StarNamesSound(w: World, visited: seq<nat>, m: nat, k: nat, names: seq<string>, n: string)
    requires Valid(w) && m < |w| && w[m].SourceText? && k <= |w[m].star|
    requires n in StarNames(w, visited, m, k, names).0
    ensures n in names || Exported(w, m, n)
    decreases Unvisited(w, visited), 1 + |w[m].star| - k
  {
    hide Valid, IsLoaded, GetImportedModule, Exported, OwnNames;
    if k < |w[m].star| {
      StarLoaded(w, m, k);
      var t := GetImportedModule(w, m, w[m].star[k]);
      var r := NamesOf(w, visited, t);
      UnvisitedShrinks(w, visited, r.1);
      assert Unvisited(w, r.1) < Unvisited(w, visited) || Unvisited(w, r.1) == Unvisited(w, visited);
      StarNamesSound(w, r.1, m, k + 1, AddStarNames(names, r.0), n);
      if n in r.0 && n != DEFAULT {
        NamesOfSound(w, visited, t, n);
        ExportedThroughStar(w, m, k, t, n);
      }
    }
  }

  lemma {:induction false} NamesOfComplete(w: World, visited: seq<nat>, m: nat)
    requires Valid(w) && m < |w|
    ensures var r := NamesOf(w, visited, m);
            AllGathered(w, r.0, visited, r.1) && Taken(w, r.0, r.1, m) && (m !in visited ==>
                                        forall n :: n in OwnNames(w[m]) ==> n in r.0)
    decreases Unvisited(w, visited), 0
  {
    hide Valid, StarTarget, IsLoaded, GetImportedModule;
    if w[m].SourceText? && m !in visited {
      var visited1 := visited + [m];
      assert m in Unvisited(w, visited) && m !in Unvisited(w, visited1);
      UnvisitedShrinks(w, visited, visited1);
      StarNamesComplete(w, visited1, m, 0, OwnNames(w[m]));
      var r := NamesOf(w, visited, m);
      assert m in visited1;
      assert forall x :: x in visited1 ==> x in r.1;
    }
  }

  lemma {:induction false} StarNamesComplete(w: World, visited: seq<nat>, m: nat, k: nat, names: seq<string>)
    requires Valid(w) && m < |w| && w[m].SourceText? && k <= |w[m].star|
    ensures var r := StarNames(w, visited, m, k, names);
            && AllGathered(w, r.0, visited, r.1)
            && (forall n :: n in names ==> n in r.0)
            && (forall i: nat, t: nat :: k <= i && StarTarget(w, m, i, t) ==> Taken(w, r.0, r.1, t))
    decreases Unvisited(w, visited), 1 + |w[m].star| - k
  {
    hide Valid, IsLoaded, GetImportedModule, OwnNames, AllGathered;
    var r := StarNames(w, visited, m, k, names);
    if k == |w[m].star| {
      NothingGathered(w, names, visited);
    } else {
      StarLoaded(w, m, k);
      var t := GetImportedModule(w, m, w[m].star[k]);
      var r1 := NamesOf(w, visited, t);
      UnvisitedShrinks(w, visited, r1.1);
      assert Unvisited(w, r1.1) < Unvisited(w, visited) || Unvisited(w, r1.1) == Unvisited(w, visited);
      NamesOfComplete(w, visited, t);
      StarNamesComplete(w, r1.1, m, k + 1, AddStarNames(names, r1.0));
      GatheredMono(w, visited, r1.1, r.1, r1.0, r.0);
      assert forall x :: x in r1.1 ==> x in r.1;
    }
  }

  lemma NothingGathered(w: World, names: seq<string>, visited: seq<nat>)
    requires Valid(w)
    ensures AllGathered(w, names, visited, visited)
  {
    hide Valid, OwnNames;
  }

  lemma {:induction false} AllStarsGathered(w: World, names: seq<string>, visited: seq<nat>, m: nat, x: nat, k: nat)
    requires Valid(w) && m < |w| && AllGathered(w, names, [], visited) && Taken(w, names, visited, m)
        && StarReach(w, m, x, k)
    ensures Gathered(w, names, visited, x)
    decreases k
  {
    hide Valid, OwnNames;
    if k > 0 {
      var i: nat, t: nat :| StarTarget(w, m, i, t) && t < |w| && StarReach(w, t, x, k - 1);
      assert Taken(w, names, visited, t);
      AllStarsGathered(w, names, visited, t, x, k - 1);
    }
  }

  /** GetExportedNames lists exactly the exported names. */
  lemma ExportedNamesExact(w: World, m: nat, n: string)
    requires Valid(w) && m < |w|
    ensures n in ExportedNamesOf(w, m) <==> Exported(w, m, n)
  {
    hide Valid, OwnNames, StarReach, ExportsItself;
    NamesOfComplete(w, [], m);
    var r := NamesOf(w, [], m);
    OwnNamesAre(w[m], n);
    if n in r.0 {
      NamesOfSound(w, [], m, n);
    }
    if Exported(w, m, n) && !ExportsItself(w[m], n) {
      var x: nat, k: nat :| StarReach(w, m, x, k) && x < |w| && ExportsItself(w[x], n);
      OwnNamesAre(w[x], n);
      AllStarsGathered(w, r.0, r.1, m, x, k);
    }
  }

  lemma {:induction false} ProvidedIsExported(w: World, m: nat, n: string, q: Pair, b: Binding, k: nat)
    requires Valid(w) && m < |w| && LeadsIn(w, (m, n), q, k) && q.0 < |w| && Bound(w, q, b)
    ensures Exported(w, m, n)
    decreases k
  {
    hide Valid, Hop, Bound, StarTarget, StarReach, NoEntry;
    if k == 0 {
      BoundItself(w, q, b);
    } else {
      var r: Pair :| Hop(w, (m, n), r) && r.0 < |w| && LeadsIn(w, r, q, k - 1);
      HopIsSource(w, (m, n), r);
      if NoEntry(w[m], n) {
        LeadsOverStars(w, (m, n), r);
        var i: nat :| StarTarget(w, m, i, r.0);
        ProvidedIsExported(w, r.0, n, q, b, k - 1);
        ExportedThroughStar(w, m, i, r.0, n);
      }
    }
  }

  lemma BoundItself(w: World, p: Pair, b: Binding)
    requires Valid(w) && p.0 < |w| && Bound(w, p, b)
    ensures ExportsItself(w[p.0], p.1)
  {
    hide Valid, EntryBinds;
  }

  /** Every name that resolves, even ambiguously, is among the exported names. */
  lemma ResolvedNamesAreExported(w: World, m: nat, n: string)
    requires Valid(w) && m < |w| && !ResolveExportOf(w, m, n).Null?
    ensures n in ExportedNamesOf(w, m)
  {
    hide Valid, Bound, Exported, LeadsIn, ResolveExportOf;
    ResolveExportExact(w, m, n);
    var b :| Provides(w, (m, n), b);
    var q: Pair, k: nat :| LeadsIn(w, (m, n), q, k) && q.0 < |w| && Bound(w, q, b);
    ProvidedIsExported(w, m, n, q, b, k);
    ExportedNamesExact(w, m, n);
  }

  /** t is reached from m through k star exports of modules without an entry of their own for n. */
  ghost predicate FreeStars(w: World, m: nat, n: string, t: nat, k: nat)
    requires Valid(w) && m < |w|
    decreases k
  {
    if k == 0 then m == t
    else
      && w[m].SourceText? && NoEntry(w[m], n)
      && exists i: nat, u: nat :: StarTarget(w, m, i, u) && u < |w| && FreeStars(w, u, n, t, k - 1)
  }

  lemma {:induction false} FreeStarsProvide(w: World, m: nat, n: string, t: nat, k: nat, b: Binding)
    requires Valid(w) && m < |w| && t < |w| && n != DEFAULT && FreeStars(w, m, n, t, k) && Provides(w, (t, n), b)
    ensures Provides(w, (m, n), b)
    decreases k
  {
    hide Valid, Provides, StarTarget;
    if k > 0 {
      var i: nat, u: nat :| StarTarget(w, m, i, u) && u < |w| && FreeStars(w, u, n, t, k - 1);
      FreeStarsProvide(w, u, n, t, k - 1, b);
      assert Hop(w, (m, n), (u, n));
      ProvidesHop(w, (m, n), (u, n), b);
    }
  }

  /** A name other than default that a module binds itself is not answered null of any module from which
      star exports lead there through modules with no entry of their own for it. */
  lemma StarNamesResolve(w: World, m: nat, n: string, t: nat, k: nat, b: Binding)
    requires Valid(w) && m < |w| && t < |w| && n != DEFAULT && FreeStars(w, m, n, t, k) && Bound(w, (t, n), b)
    ensures !ResolveExportOf(w, m, n).Null? && n in ExportedNamesOf(w, m)
  {
    hide Valid, Bound, FreeStars, ResolveExportOf;
    ProvidesHere(w, (t, n), b);
    FreeStarsProvide(w, m, n, t, k, b);
    ResolveExportExact(w, m, n);
    ResolvedNamesAreExported(w, m, n);
  }

  class ExportStarSet {
    var items: seq<nat>

    constructor ()
      ensures items == []
    {
      items := [];
    }
  }

  method GetExportedNames(w: World, m: nat, exportStarSet: ExportStarSet) returns (exportedNames: seq<string>)
    requires Valid(w) && m < |w|
    modifies exportStarSet
    ensures (exportedNames, exportStarSet.items) == NamesOf(w, old(exportStarSet.items), m)
    decreases Unvisited(w, exportStarSet.items), 0
  {
    hide Valid, IsLoaded, GetImportedModule;
    ghost var visited := exportStarSet.items;
    if w[m].Synthetic? {
      return w[m].exportNames;
    }
    if m in exportStarSet.items {
      return [];
    }
    exportStarSet.items := exportStarSet.items + [m];
    assert m in Unvisited(w, visited) && m !in Unvisited(w, exportStarSet.items);
    UnvisitedShrinks(w, visited, exportStarSet.items);
    exportedNames := CollectOwnNames(w, m);
    ghost var visited1 := exportStarSet.items;
    for k := 0 to |w[m].star|
      invariant visited1 <= exportStarSet.items
      invariant StarNames(w, exportStarSet.items, m, k, exportedNames) == StarNames(w, visited1, m, 0, OwnNames(w[m]))
    {
      StarLoaded(w, m, k);
      UnvisitedShrinks(w, visited1, exportStarSet.items);
      var starNames := GetExportedNames(w, GetImportedModule(w, m, w[m].star[k]), exportStarSet);
      exportedNames := AppendStarNames(exportedNames, starNames);
    }
  }

  method CollectOwnNames(w: World, m: nat) returns (names: seq<string>)
    requires m < |w| && w[m].SourceText?
    ensures names == OwnNames(w[m])
  {
    var local, indirect := w[m].local, AllIndirect(w[m]);
    names := [];
    for i := 0 to |local|
      invariant names == LocalNames(local[..i])
    {
      assert local[..i + 1][..i] == local[..i];
      names := names + [local[i].exportName];
    }
    assert local[..|local|] == local;
    ghost var start := names;
    for i := 0 to |indirect|
      invariant names == start + IndirectNames(indirect[..i])
    {
      assert indirect[..i + 1][..i] == indirect[..i];
      names := names + [indirect[i].exportName];
    }
    assert indirect[..|indirect|] == indirect;
  }

  method AppendStarNames(names: seq<string>, starNames: seq<string>) returns (r: seq<string>)
    ensures r == AddStarNames(names, starNames)
  {
    r := names;
    for i := 0 to |starNames|
      invariant AddStarNames(r, starNames[i..]) == AddStarNames(names, starNames)
    {
      assert starNames[i..][0] == starNames[i] && starNames[i..][1..] == starNames[i + 1..];
      if starNames[i] != DEFAULT && starNames[i] !in r {
        r := r + [starNames[i]];
      }
    }
  }
}
