/** The order of the names that GetExportedNames lists: the module's own ones, and then, once each,
    those of the modules behind its star exports, in the order of the exports. */
module ExportedNamesOrder {
  import opened ImportedNames
  import opened ModuleRequests
  import opened ModuleRecords
  import opened Exports
  import opened ExportedNames

  // --- Reference: the own names, the modules, and the first occurrences ---

  /** The names a module exports itself, in the order of its entries. */
  function EntryNames(info: ModuleInfo): seq<string> {
    match info
    case Synthetic(names) => names
    case SourceText(_, _, local, _, _, _) =>
      var indirect := AllIndirect(info);
      seq(|local|, i requires 0 <= i < |local| => local[i].exportName) +
      seq(|indirect|, i requires 0 <= i < |indirect| => indirect[i].exportName)
  }

  function TargetAt(w: World, m: nat, i: nat): (t: nat)
    requires Valid(w) && m < |w| && w[m].SourceText? && i < |w[m].star|
    ensures t < |w|
  {
    StarLoaded(w, m, i);
    GetImportedModule(w, m, w[m].star[i])
  }

  predicate InWorld(w: World, list: seq<nat>) {
    forall i :: 0 <= i < |list| ==> list[i] < |w|
  }

  function Left(w: World, visited: set<nat>): set<nat> {
    set x | 0 <= x < |w| && x !in visited
  }

  /** The targets of the star exports from the k-th on. */
  function Targets(w: World, m: nat, k: nat): (r: seq<nat>)
    requires Valid(w) && m < |w| && w[m].SourceText? && k <= |w[m].star|
    ensures |r| == |w[m].star| - k && InWorld(w, r)
    ensures forall i :: 0 <= i < |r| ==> r[i] == TargetAt(w, m, k + i)
    decreases |w[m].star| - k
  {
    if k == |w[m].star| then [] else [TargetAt(w, m, k)] + Targets(w, m, k + 1)
  }

  /** The modules behind a list of star exports: depth first, each source text module once. */
  function StarOrder(w: World, visited: set<nat>, list: seq<nat>): (r: seq<nat>)
    requires Valid(w) && InWorld(w, list)
    ensures InWorld(w, r)
    decreases Left(w, visited), |list|
  {
    if list == [] then []
    else
      var t, rest := list[0], list[1..];
      if w[t].Synthetic? then [t] + StarOrder(w, visited, rest)
      else if t in visited then StarOrder(w, visited, rest)
      else
        assert t in Left(w, visited) && t !in Left(w, visited + {t});
        [t] + StarOrder(w, visited + {t}, Targets(w, t, 0) + rest)
  }

  function AllNames(w: World, order: seq<nat>): seq<string>
    requires InWorld(w, order)
  {
    if order == [] then [] else EntryNames(w[order[0]]) + AllNames(w, order[1..])
  }

  /** What comes up for the first time in `all`, other than default and the names in `own`. */
  function FirstNew(own: seq<string>, all: seq<string>): seq<string> {
    if all == [] then []
    else
      var l := |all| - 1;
      FirstNew(own, all[..l]) + if all[l] != DEFAULT && all[l] !in own && all[l] !in all[..l] then [all[l]] else []
  }

  // --- Appending names ---

  lemma NothingAdded(names: seq<string>)
    ensures AddStarNames(names, []) == names
  {
  }

  lemma AddOne(names: seq<string>, more: seq<string>)
    requires more != []
    ensures more[0] != DEFAULT && more[0] !in names
            ==> AddStarNames(names, more) == AddStarNames(names + [more[0]], more[1..])
    ensures more[0] == DEFAULT || more[0] in names ==> AddStarNames(names, more) == AddStarNames(names, more[1..])
  {
  }

  lemma {:induction false} AddTwice(names: seq<string>, a: seq<string>, b: seq<string>)
    ensures AddStarNames(names, a + b) == AddStarNames(AddStarNames(names, a), b)
    decreases |a|
  {
    if a == [] {
      assert a + b == b;
    } else {
      assert (a + b)[0] == a[0] && (a + b)[1..] == a[1..] + b;
      AddTwice(if a[0] != DEFAULT && a[0] !in names then names + [a[0]] else names, a[1..], b);
    }
  }

  /** Names that were already appended to others may be appended as they were. */
  lemma {:induction false} AddAdded(names: seq<string>, a: seq<string>, b: seq<string>)
    ensures AddStarNames(names, AddStarNames(a, b)) == AddStarNames(names, a + b)
    decreases |b|
  {
    if b == [] { NothingAdded(a); }
    hide AddStarNames;
    if b == [] {
      assert a + b == a;
    } else {
      AddOne(a, b);
      if b[0] != DEFAULT && b[0] !in a {
        AddAdded(names, a + [b[0]], b[1..]);
        assert a + [b[0]] + b[1..] == a + b;
      } else {
        AddAdded(names, a, b[1..]);
        AddTwice(names, a, b[1..]);
        AddTwice(names, a, b);
        AddOne(AddStarNames(names, a), b);
      }
    }
  }

  lemma {:induction false} AddedAreFirstNew(names: seq<string>, all: seq<string>)
    ensures AddStarNames(names, all) == names + FirstNew(names, all)
    decreases |all|
  {
    if all == [] {
      assert names + [] == names;
    } else {
      var l := |all| - 1;
      AddedAreFirstNew(names, all[..l]);
      AddTwice(names, all[..l], [all[l]]);
      assert all == all[..l] + [all[l]] && [all[l]][1..] == [];
    }
  }

  // --- The recursion lists the modules in this order ---

  lemma {:induction false} OwnNamesAreEntryNames(info: ModuleInfo)
    ensures OwnNames(info) == EntryNames(info)
  {
    if info.SourceText? {
      LocalNamesAre(info.local);
      IndirectNamesAre(AllIndirect(info));
    }
  }

  lemma {:induction false} LocalNamesAre(entries: seq<LocalEntry>)
    ensures LocalNames(entries) == seq(|entries|, i requires 0 <= i < |entries| => entries[i].exportName)
  {
    if entries != [] { LocalNamesAre(entries[..|entries| - 1]); }
  }

  lemma {:induction false} IndirectNamesAre(entries: seq<IndirectEntry>)
    ensures IndirectNames(entries) == seq(|entries|, i requires 0 <= i < |entries| => entries[i].exportName)
  {
    if entries != [] { IndirectNamesAre(entries[..|entries| - 1]); }
  }

  function Items(visited: seq<nat>): set<nat> { set x | x in visited }

  lemma {:induction false} AllNamesConcat(w: World, a: seq<nat>, b: seq<nat>)
    requires InWorld(w, a) && InWorld(w, b)
    ensures AllNames(w, a + b) == AllNames(w, a) + AllNames(w, b)
  {
    if a == [] {
      assert a + b == b;
    } else {
      assert (a + b)[0] == a[0] && (a + b)[1..] == a[1..] + b;
      AllNamesConcat(w, a[1..], b);
    }
  }

  /** Below, `order` is what a call contributes to the order of modules. */
  ghost predicate Contributes(w: World, visited: seq<nat>, list: seq<nat>, order: seq<nat>, visited': seq<nat>,
      rest: seq<nat>)
    requires Valid(w) && InWorld(w, list) && InWorld(w, rest)
  {
    && InWorld(w, order)
    && StarOrder(w, Items(visited), list + rest) == order + StarOrder(w, Items(visited'), rest)
  }

  lemma {:induction false} NamesOfInOrder(w: World, visited: seq<nat>, t: nat, rest: seq<nat>) returns (order: seq<nat>)
    requires Valid(w) && t < |w| && InWorld(w, rest)
    ensures var r := NamesOf(w, visited, t);
            && Contributes(w, visited, [t], order, r.1, rest)
            && forall names :: AddStarNames(names, r.0) == AddStarNames(names, AllNames(w, order))
    decreases Unvisited(w, visited), 0
  {
    hide Valid, AllNames, AddStarNames;
    OwnNamesAreEntryNames(w[t]);
    assert ([t] + rest)[0] == t && ([t] + rest)[1..] == rest;
    if w[t].Synthetic? {
      order := [t];
      OneModule(w, t);
    } else if t in visited {
      order := [];
      NoModule(w);
    } else {
      var visited1 := visited + [t];
      assert t in Unvisited(w, visited) && t !in Unvisited(w, visited1);
      UnvisitedShrinks(w, visited, visited1);
      var inner := StarNamesInOrder(w, visited1, t, 0, OwnNames(w[t]), rest);
      order := [t] + inner;
      assert Items(visited1) == Items(visited) + {t};
      AllNamesConcat(w, [t], inner);
      OneModule(w, t);
      forall names ensures AddStarNames(names, NamesOf(w, visited, t).0) == AddStarNames(names, AllNames(w, order)) {
        AddAdded(names, OwnNames(w[t]), AllNames(w, inner));
      }
    }
  }

  lemma NoModule(w: World)
    ensures AllNames(w, []) == []
  {
  }

  lemma OneModule(w: World, t: nat)
    requires t < |w|
    ensures AllNames(w, [t]) == EntryNames(w[t])
  {
    assert [t][1..] == [];
    assert AllNames(w, []) == [];
  }

  lemma {:induction false} StarNamesInOrder(w: World, visited: seq<nat>, m: nat, k: nat, names: seq<string>,
      rest: seq<nat>) returns (order: seq<nat>)
    requires Valid(w) && m < |w| && w[m].SourceText? && k <= |w[m].star| && InWorld(w, rest)
    ensures var r := StarNames(w, visited, m, k, names);
            && Contributes(w, visited, Targets(w, m, k), order, r.1, rest)
            && r.0 == AddStarNames(names, AllNames(w, order))
    decreases Unvisited(w, visited), 1 + |w[m].star| - k
  {
    hide Valid, StarOrder, AddStarNames;
    if k == |w[m].star| {
      order := [];
      assert Targets(w, m, k) + rest == rest;
      NothingAdded(names);
    } else {
      StarLoaded(w, m, k);
      var t := TargetAt(w, m, k);
      var r := NamesOf(w, visited, t);
      UnvisitedShrinks(w, visited, r.1);
      assert Unvisited(w, r.1) < Unvisited(w, visited) || Unvisited(w, r.1) == Unvisited(w, visited);
      var rest' := Targets(w, m, k + 1) + rest;
      assert [t] + rest' == Targets(w, m, k) + rest;
      var first := NamesOfInOrder(w, visited, t, rest');
      var others := StarNamesInOrder(w, r.1, m, k + 1, AddStarNames(names, r.0), rest);
      order := first + others;
      var last := StarNames(w, r.1, m, k + 1, AddStarNames(names, r.0)).1;
      assert first + (others + StarOrder(w, Items(last), rest)) == order + StarOrder(w, Items(last), rest);
      AllNamesConcat(w, first, others);
      AddTwice(names, AllNames(w, first), AllNames(w, others));
    }
  }

  /** GetExportedNames lists the module's own names in the order of its entries, and then, each once,
      the other names that come up in the modules behind its star exports. */
  lemma ExportedNamesInOrder(w: World, m: nat)
    requires Valid(w) && m < |w|
    ensures w[m].Synthetic? ==> ExportedNamesOf(w, m) == EntryNames(w[m])
    ensures w[m].SourceText? ==>
              ExportedNamesOf(w, m) ==
                EntryNames(w[m]) + FirstNew(EntryNames(w[m]), AllNames(w, StarOrder(w, {m}, Targets(w, m, 0))))
  {
    hide Valid, AllNames, AddStarNames, StarNames, FirstNew;
    OwnNamesAreEntryNames(w[m]);
    if w[m].SourceText? {
      var order := StarNamesInOrder(w, [m], m, 0, OwnNames(w[m]), []);
      assert [] + [m] == [m] && Items([m]) == {m};
      assert Targets(w, m, 0) + [] == Targets(w, m, 0);
      assert StarOrder(w, {m}, Targets(w, m, 0)) == order;
      AddedAreFirstNew(OwnNames(w[m]), AllNames(w, order));
    }
  }
}
