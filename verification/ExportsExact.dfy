/** ResolveExport is exact: although its resolve set is shared across sibling branches, it answers
    from the set of all bindings that can be reached. */
module ExportsExact {
  import opened ModuleRecords
  import opened Exports

  predicate Weaker(r: Resolution, r': Resolution) { r.Null? || r == r' }

  lemma ExploredMono(w: World, seen: seq<Pair>, seen': seq<Pair>, r: Resolution, r': Resolution)
    requires Valid(w) && Explored(w, seen, seen', r) && Weaker(r, r')
    ensures Explored(w, seen, seen', r')
  {
    hide Valid, LookUp, Hop;
    forall q | q in seen' && q !in seen ensures Tells(w, r', q) && forall q' :: Hop(w, q, q') ==>
                                        Reached(w, seen', r', q') {
      assert Tells(w, r, q);
      forall q' | Hop(w, q, q') ensures Reached(w, seen', r', q') {
        assert Reached(w, seen', r, q');
      }
    }
  }

  lemma ReachedMono(w: World, seen: seq<Pair>, seen': seq<Pair>, r: Resolution, r': Resolution, q: Pair)
    requires Valid(w) && Reached(w, seen, r, q) && Weaker(r, r') && seen <= seen'
    ensures Reached(w, seen', r', q)
  {
    hide Valid, LookUp;
    assert forall p :: p in seen ==> p in seen';
  }

  lemma ExploredTrans(w: World, a: seq<Pair>, b: seq<Pair>, c: seq<Pair>, r: Resolution)
    requires Valid(w) && Explored(w, a, b, r) && Explored(w, b, c, r) && b <= c
    ensures Explored(w, a, c, r)
  {
    hide Valid, LookUp, Hop, Reached;
    forall q | q in c && q !in a ensures Tells(w, r, q) && forall q' :: Hop(w, q, q') ==> Reached(w, c, r, q') {
      if q in b {
        assert Tells(w, r, q);
        forall q' | Hop(w, q, q') ensures Reached(w, c, r, q') {
          assert Reached(w, b, r, q');
          ReachedMono(w, b, c, r, r, q');
        }
      }
    }
  }

  /** Adding p, which is told by r and all of whose hops are reached, keeps everything explored. */
  lemma ExploredAdd(w: World, seen: seq<Pair>, p: Pair, seen': seq<Pair>, r: Resolution)
    requires Valid(w) && p.0 < |w| && Explored(w, seen + [p], seen', r) && Tells(w, r, p)
    requires forall q' :: Hop(w, p, q') ==> Reached(w, seen', r, q')
    ensures Explored(w, seen, seen', r)
  {
    hide Valid, LookUp, Hop, Tells, Reached;
  }

  lemma ExploredNothing(w: World, seen: seq<Pair>, r: Resolution)
    requires Valid(w)
    ensures Explored(w, seen, seen, r)
  {
    hide Valid, LookUp, Hop, Tells, Reached;
  }

  ghost predicate Exact(w: World, seen: seq<Pair>, p: Pair, out: (Resolution, seq<Pair>))
    requires Valid(w) && p.0 < |w|
  {
    Supported(w, p, out.0) && (!out.0.Ambiguous? ==> Explored(w, seen, out.1, out.0) && Reached(w, out.1, out.0, p))
  }

  lemma SupportedHop(w: World, p: Pair, q: Pair, r: Resolution)
    requires Valid(w) && p.0 < |w| && q.0 < |w| && Hop(w, p, q) && Supported(w, q, r)
    ensures Supported(w, p, r)
  {
    hide Valid, LookUp, Hop, Provides;
    match r
    case Null =>
    case Resolved(b) => ProvidesHop(w, p, q, b);
    case Ambiguous =>
      var b, b' :| b != b' && Provides(w, q, b) && Provides(w, q, b');
      ProvidesHop(w, p, q, b);
      ProvidesHop(w, p, q, b');
  }

  lemma {:induction false} ResolveIsExact(w: World, names: set<string>, seen: seq<Pair>, m: nat, n: string)
    requires Valid(w) && Askable(w, names, m, n)
    ensures Exact(w, seen, (m, n), Resolve(w, names, seen, m, n))
    decreases Unseen(w, names, seen), 0
  {
    hide Valid, LookUp, Provides, IsLoaded, GetImportedModule, Hop, Bound;
    var p := (m, n);
    var out := Resolve(w, names, seen, m, n);
    forall q
      ensures Hop(w, p, q) <==>
                || LookUp(w, m, n) == Redirect(q)
                || (LookUp(w, m, n).TryStars? && q.1 == n && exists i: nat :: StarTarget(w, m, i, q.0))
    {
      LookUpLeads(w, p, q);
    }
    forall b ensures LookUp(w, m, n) == Found(b) <==> Bound(w, p, b) {
      LookUpBinds(w, p, b);
    }
    if w[m].Synthetic? {
      ExploredNothing(w, seen, out.0);
      SyntheticLookUp(w, m, n);
      if out.0.Resolved? { ProvidesHere(w, p, out.0.b); }
    } else if p in seen {
      ExploredNothing(w, seen, Null);
    } else {
      var seen1 := seen + [p];
      assert p in Unseen(w, names, seen) && p !in Unseen(w, names, seen1);
      assert p in seen1;
      UnseenShrinks(w, names, seen, seen1);
      match LookUp(w, m, n)
      case Found(b) =>
        ProvidesHere(w, p, b);
        ExploredNothing(w, seen1, out.0);
        ExploredAdd(w, seen, p, seen1, out.0);
      case Absent =>
        ExploredNothing(w, seen1, out.0);
        ExploredAdd(w, seen, p, seen1, out.0);
      case Redirect(q) =>
        ResolveIsExact(w, names, seen1, q.0, q.1);
        assert Hop(w, p, q);
        SupportedHop(w, p, q, out.0);
        if !out.0.Ambiguous? {
          ExploredAdd(w, seen, p, out.1, out.0);
        }
      case TryStars =>
        StarsAreExact(w, names, seen1, m, n, 0, Null);
        if !out.0.Ambiguous? {
          forall q' | Hop(w, p, q') ensures Reached(w, out.1, out.0, q') {
            var i: nat :| StarTarget(w, m, i, q'.0);
          }
          ExploredAdd(w, seen, p, out.1, out.0);
        }
    }
  }

  lemma SyntheticLookUp(w: World, m: nat, n: string)
    requires Valid(w) && m < |w| && w[m].Synthetic?
    ensures LookUp(w, m, n) == if n in w[m].exportNames then Found(Binding(m, NameBinding(n))) else Absent
  {
  }

  lemma {:induction false} StarsAreExact(w: World, names: set<string>, seen: seq<Pair>, m: nat, n: string, k: nat,
      star: Resolution)
    requires Valid(w) && Askable(w, names, m, n) && w[m].SourceText? && k <= |w[m].star| && LookUp(w, m, n).TryStars?
    requires !star.Ambiguous? && Supported(w, (m, n), star)
    ensures var out := ResolveStars(w, names, seen, m, n, k, star);
            && Supported(w, (m, n), out.0)
            && (!out.0.Ambiguous? ==> Explored(w, seen, out.1, out.0) && Weaker(star, out.0)
                                      && forall i: nat, t: nat :: k <= i && StarTarget(w, m, i, t) ==>
                                        Reached(w, out.1, out.0, (t, n)))
    decreases Unseen(w, names, seen), 1 + |w[m].star| - k
  {
    hide Valid, LookUp, Provides, IsLoaded, GetImportedModule, Explored, Reached, Unseen, ImportNames, Hop;
    var p := (m, n);
    var out := ResolveStars(w, names, seen, m, n, k, star);
    if k == |w[m].star| {
      ExploredNothing(w, seen, star);
    } else {
      StarLoaded(w, m, k);
      var t := GetImportedModule(w, m, w[m].star[k]);
      var q := (t, n);
      ResolveIsExact(w, names, seen, t, n);
      var r := Resolve(w, names, seen, t, n);
      assert StarTarget(w, m, k, t);
      LookUpLeads(w, p, q);
      SupportedHop(w, p, q, r.0);
      UnseenShrinks(w, names, seen, r.1);
      assert Unseen(w, names, r.1) < Unseen(w, names, seen) || Unseen(w, names, r.1) == Unseen(w, names, seen);
      if !r.0.Ambiguous? && (r.0.Null? || star.Null? || r.0 == star) {
        var star' := if r.0.Null? then star else r.0;
        StarsAreExact(w, names, r.1, m, n, k + 1, star');
        if !out.0.Ambiguous? {
          ExploredMono(w, seen, r.1, r.0, out.0);
          ExploredTrans(w, seen, r.1, out.1, out.0);
          ReachedMono(w, r.1, out.1, r.0, out.0, q);
        }
      }
    }
  }

  /** From an empty resolve set, whatever can be asked has been told. */
  lemma {:induction false} AllTold(w: World, seen: seq<Pair>, r: Resolution, p: Pair, q: Pair, k: nat)
    requires Valid(w) && Explored(w, [], seen, r) && p.0 < |w| && Reached(w, seen, r, p) && LeadsIn(w, p, q, k)
    ensures Tells(w, r, q)
    decreases k
  {
    hide Valid, Hop;
    if p !in seen {
      SyntheticLookUp(w, p.0, p.1);
    }
    if k > 0 {
      var x: Pair :| Hop(w, p, x) && x.0 < |w| && LeadsIn(w, x, q, k - 1);
      HopIsSource(w, p, x);
      assert p in seen;
      AllTold(w, seen, r, x, q, k - 1);
    }
  }

  /** ResolveExport answers null, one binding or ambiguous exactly as none, one or several distinct
      bindings can be reached. */
  lemma ResolveExportExact(w: World, m: nat, n: string)
    requires Valid(w) && m < |w|
    ensures var r := ResolveExportOf(w, m, n); var p := (m, n);
            && (r.Null? <==> forall b :: !Provides(w, p, b))
            && (forall b :: r == Resolved(b) <==> Provides(w, p, b) && forall b' :: Provides(w, p, b') ==> b' == b)
            && (r.Ambiguous? <==> exists b, b' :: b != b' && Provides(w, p, b) && Provides(w, p, b'))
  {
    hide Valid, LookUp, Tells, Bound;
    var names := ImportNames(w) + {n};
    var p := (m, n);
    ResolveIsExact(w, names, [], m, n);
    var out := Resolve(w, names, [], m, n);
    var r := out.0;
    if !r.Ambiguous? {
      forall b | Provides(w, p, b) ensures r == Resolved(b) {
        var q: Pair, k: nat :| LeadsIn(w, p, q, k) && q.0 < |w| && Bound(w, q, b);
        LookUpBinds(w, q, b);
        AllTold(w, out.1, r, p, q, k);
        assert Tells(w, r, q);
        TellsBinding(w, r, q, b);
      }
    }
  }

  lemma TellsBinding(w: World, r: Resolution, q: Pair, b: Binding)
    requires Valid(w) && Tells(w, r, q) && LookUp(w, q.0, q.1) == Found(b)
    ensures r == Resolved(b)
  {
    hide LookUp, Valid;
  }
}
