/** What a failed walk leaves: everything still on the stack depends on the module whose body failed,
    and everything else that was entered has run and is finished. */
module ModuleFailure {
  import opened Wrappers
  import opened Graphs
  import opened ModuleDfs
  import opened ModuleSuccess
  import opened ModuleScc
  import opened ModuleOrder
  import ModuleHistory
  import Sequences

  /** x is f, or some module that x reaches has f on its list. */
  ghost predicate DependsOn(g: Graph, x: nat, f: nat) {
    Reach(g, x, f) || exists y: nat :: Reach(g, x, y) && y < g.Size() && f in g.deps[y]
  }

  lemma DependsTrans(g: Graph, x: nat, y: nat, f: nat)
    requires Reach(g, x, y) && DependsOn(g, y, f)
    ensures DependsOn(g, x, f)
  {
    hide Reach;
    if Reach(g, y, f) {
      ReachTrans(g, x, y, f);
    } else {
      var z: nat :| Reach(g, y, z) && z < g.Size() && f in g.deps[z];
      ReachTrans(g, x, y, z);
    }
  }

  ghost predicate AllDepend(g: Graph, stack: seq<nat>, f: nat) {
    forall i :: 0 <= i < |stack| ==> DependsOn(g, stack[i], f)
  }

  /** Every stacked module reaches one whose dependency loop is still running. */
  lemma {:induction false} StackDepends(g: Graph, w: Walk, idx: seq<nat>, act: set<nat>, index: nat, f: nat, i: nat)
    requires InRange(g, w) && Low(g, w, idx, act, index) && i < |w.stack|
    requires forall a :: a in act ==> DependsOn(g, a, f)
    ensures DependsOn(g, w.stack[i], f)
    decreases i
  {
    hide Reach, DependsOn;
    if w.stack[i] !in act {
      assert Settled(g, w, idx, i) && LowLink(g, w, idx, i);
      var j :| 0 <= j <= i && idx[j] == w.nodes[w.stack[i]].anc && Reach(g, w.stack[i], w.stack[j]);
      assert j < i;
      StackDepends(g, w, idx, act, index, f, j);
      DependsTrans(g, w.stack[i], w.stack[j], f);
    }
  }

  /** If the modules in their dependency loops reach m, and m depends on f, the whole stack does. */
  lemma AllStackDepends(g: Graph, w: Walk, idx: seq<nat>, act: set<nat>, index: nat, m: nat, f: nat)
    requires InRange(g, w) && Low(g, w, idx, act, index) && DependsOn(g, m, f)
    requires forall a :: a in act ==> Reach(g, a, m)
    ensures AllDepend(g, w.stack, f)
  {
    hide Reach, DependsOn, Low;
    forall a | a in act ensures DependsOn(g, a, f) {
      DependsTrans(g, a, m, f);
    }
    forall i | 0 <= i < |w.stack| ensures DependsOn(g, w.stack[i], f) {
      StackDepends(g, w, idx, act, index, f, i);
    }
  }

  /** The module of the last event, whose body failed. */
  predicate Culprit(w: Walk, r: Outcome, f: nat) {
    r.Failed? && |w.log| < |r.w.log| && r.w.log[|r.w.log| - 1] == Event(f, Some(r.error))
  }

  /** f's recorded error, or that of its body, is the one the walk fails with. */
  ghost predicate Blames(g: Graph, w: Walk, r: Outcome, f: nat) {
    && r.Failed? && f < g.Size() && f < |g.cyclic|
    && if f in FailedOf(g, w) then r.error == FailedOf(g, w)[f]
       else Culprit(w, r, f) && (g.cyclic[f] ==> f in r.w.stack)
  }

  /** When a walk fails, every module on the stack depends on the one it fails with. */
  lemma {:induction false} FailureDepends(g: Graph, body: Body, w: Walk, m: nat, index: nat, idx: seq<nat>,
      act: set<nat>) returns (f: nat)
    requires g.Valid() && Base(g, w) && Low(g, w, idx, act, index) && m < g.Size() && Regular(g, w)
    requires g.cyclic[m] ==> Active(g, w, act, m)
    requires forall a :: a in act ==> DependsOn(g, a, m)
    requires Visit(g, body, w, m, index).Failed?
    ensures var r := Visit(g, body, w, m, index); Blames(g, w, r, f) && AllDepend(g, r.w.stack, f)
    decreases Whites(w), 0
  {
    hide Reach, DependsOn, DepSettled, Settled, LowLink, Low, Above, Continues, Base, Active, Finish, AllDepend;
    BaseInRange(g, w);
    if !g.cyclic[m] || w.nodes[m].color != White {
      f := m;
      LeafDepends(g, body, w, m, index, idx, act);
    } else {
      PushRegular(g, w, m, index);
      var w1 := Push(w, m, index);
      PushKeeps(g, w, m, index, idx, act);
      assert m in Whites(w) && m !in Whites(w1);
      assert g.deps[m][0..] == g.deps[m];
      LowLength(g, w, idx, act, index);
      assert w1.stack[|w.stack|] == m && w1.log == w.log;
      var r := VisitAll(g, body, w1, m, g.deps[m], index + 1);
      if r.Failed? {
        f := LoopFailureDepends(g, body, w1, m, 0, index + 1, idx + [index], act + {m}, |w.stack|);
      } else {
        var idx' := VisitAllKeeps(g, body, w1, m, 0, index + 1, idx + [index], act + {m}, |w.stack|);
        f := m;
        FreshModule(g, w, m);
        FinishDepends(g, body, w, w1, m, index, r, idx', act + {m});
      }
    }
  }

  lemma LeafDepends(g: Graph, body: Body, w: Walk, m: nat, index: nat, idx: seq<nat>, act: set<nat>)
    requires g.Valid() && Base(g, w) && Low(g, w, idx, act, index) && m < g.Size()
    requires !g.cyclic[m] || w.nodes[m].color != White
    requires forall a :: a in act ==> DependsOn(g, a, m)
    requires InRange(g, w) && Visit(g, body, w, m, index).Failed?
    ensures var r := Visit(g, body, w, m, index); Blames(g, w, r, m) && AllDepend(g, r.w.stack, m)
  {
    hide Reach, DependsOn, Low, Base;
    forall i | 0 <= i < |w.stack| ensures DependsOn(g, w.stack[i], m) {
      StackDepends(g, w, idx, act, index, m, i);
    }
  }

  lemma FinishDepends(g: Graph, body: Body, w: Walk, w1: Walk, m: nat, index: nat, r: Outcome, idx: seq<nat>,
      act: set<nat>)
    requires g.Valid() && m < g.Size() && r.Done? && Base(g, r.w) && Low(g, r.w, idx, act, r.index) && InRange(g, r.w)
    requires w1.log == w.log && Continues(w1, r.w, {m}) && Active(g, w1, act, m)
    requires Finish(g, body, r.w, m, index, r.index).Failed? && m in w1.stack && m !in FailedOf(g, w)
    ensures var q := Finish(g, body, r.w, m, index, r.index); Blames(g, w, q, m) && AllDepend(g, q.w.stack, m)
  {
    hide Reach, Low, Base;
    ReachRefl(g, m);
    AllStackDepends(g, r.w, idx, act, r.index, m, m);
  }

  lemma {:induction false} LoopFailureDepends(g: Graph, body: Body, w: Walk, m: nat, k: nat, index: nat,
      idx: seq<nat>, act: set<nat>, p: nat) returns (f: nat)
    requires g.Valid() && Base(g, w) && Low(g, w, idx, act, index) && Active(g, w, act, m) && m < g.Size()
        && g.cyclic[m] && Regular(g, w)
    requires k <= |g.deps[m]| && p < |w.stack| && w.stack[p] == m && m in act && Above(g, w, p, m)
    requires forall j :: 0 <= j < k && g.cyclic[g.deps[m][j]] ==> DepSettled(g, w, idx, m, g.deps[m][j])
    requires InRange(g, w) && VisitAll(g, body, w, m, g.deps[m][k..], index).Failed?
    ensures var r := VisitAll(g, body, w, m, g.deps[m][k..], index); Blames(g, w, r, f) && AllDepend(g, r.w.stack, f)
    decreases Whites(w), 1 + |g.deps[m]| - k
  {
    hide Reach, DependsOn, DepSettled, Settled, LowLink, Low, Above, Continues, Base, Active, Visit, AllDepend;
    var ds := g.deps[m];
    LowLength(g, w, idx, act, index);
    LoopEnds(g, body, w, m, k, index);
    if k < |ds| {
      var d := ds[k];
      assert ds[k..][0] == d && ds[k..][1..] == ds[k + 1..];
      DepDepends(g, w, act, m, d);
      var r := Visit(g, body, w, d, index);
      if r.Failed? {
        f := FailureDepends(g, body, w, d, index, idx, act);
      } else {
        var idx1 := VisitKeeps(g, body, w, d, index, idx, act);
        DepKeeps(g, w, r.w, m, k, r.index, idx, idx1, act, p);
        var s := AfterDep(g, r.w, m, d, r.index);
        VisitInOrder(g, body, w, d, index);
        NotFailed(g, body, w, d, index);
        AfterDepRegular(g, r.w, m, d, r.index);
        assert Whites(s.w) < Whites(w) || Whites(s.w) == Whites(w);
        AfterDepStack(g, w, s.w, m, act, p);
        BaseInRange(g, s.w);
        f := LoopFailureDepends(g, body, s.w, m, k + 1, s.index, idx1, act, p);
        LogGrows(w, s.w, {m});
      }
    }
  }

  lemma LoopEnds(g: Graph, body: Body, w: Walk, m: nat, k: nat, index: nat)
    requires g.Valid() && InRange(g, w) && m < g.Size() && k <= |g.deps[m]|
    ensures k == |g.deps[m]| ==> VisitAll(g, body, w, m, g.deps[m][k..], index).Done?
  {
  }

  lemma DepDepends(g: Graph, w: Walk, act: set<nat>, m: nat, d: nat)
    requires g.Valid() && Active(g, w, act, m) && m < g.Size() && g.cyclic[m] && d < g.Size() && d in g.deps[m]
    ensures forall a :: a in act ==> DependsOn(g, a, d)
    ensures g.cyclic[d] ==> Active(g, w, act, d)
  {
    hide Reach;
    if g.cyclic[d] {
      ActiveForDep(g, w, act, m, d);
    }
  }

  lemma LogGrows(w: Walk, w1: Walk, but: set<nat>)
    requires Continues(w, w1, but)
    ensures |w.log| <= |w1.log|
  {
  }

  // --- What has been entered has run, or is still on the stack ---

  /** x was entered since w. */
  predicate EnteredSince(g: Graph, w: Walk, w': Walk, x: nat) {
    && x < |w.nodes| && x < |w'.nodes| && x < |g.cyclic| && g.cyclic[x]
    && w.nodes[x].color == White && w'.nodes[x].color != White
  }

  /** The body of x has run without error since w. */
  predicate RanSince(w: Walk, w': Walk, x: nat) {
    exists k :: |w.log| <= k < |w'.log| && w'.log[k] == Event(x, None)
  }

  /** What was entered since w has run, except for what is still on the stack of a failed walk; what ran
      was entered. */
  ghost predicate Accounted(g: Graph, w: Walk, r: Outcome) {
    && |w.nodes| == |r.w.nodes| && w.log <= r.w.log && StackVisited(r.w)
    && (forall x: nat :: EnteredSince(g, w, r.w, x) ==> RanSince(w, r.w, x) || (r.Failed? && x in r.w.stack))
    && (forall x: nat :: x < |w.nodes| && w.nodes[x].color != White ==> r.w.nodes[x].color != White)
    && (forall x: nat :: x < |g.cyclic| && g.cyclic[x] && x < |w.nodes| && RanSince(w, r.w, x) ==>
          r.w.nodes[x].color != White)
  }

  lemma RanLonger(w: Walk, v: Walk, u: Walk, x: nat)
    requires w.log <= v.log && v.log <= u.log
    ensures RanSince(w, v, x) || RanSince(v, u, x) <==> RanSince(w, u, x)
  {
    if RanSince(w, v, x) {
      var k :| |w.log| <= k < |v.log| && v.log[k] == Event(x, None);
      assert u.log[k] == Event(x, None);
    }
    if RanSince(v, u, x) {
      var k :| |v.log| <= k < |u.log| && u.log[k] == Event(x, None);
    }
    if RanSince(w, u, x) {
      var k :| |w.log| <= k < |u.log| && u.log[k] == Event(x, None);
      assert k < |v.log| ==> v.log[k] == Event(x, None);
    }
  }

  lemma AccountedThen(g: Graph, w: Walk, r: Outcome, s: Walk, q: Outcome)
    requires Accounted(g, w, r) && r.Done? && Accounted(g, s, q)
    requires s.log == r.w.log && |s.nodes| == |r.w.nodes|
        && forall i :: 0 <= i < |s.nodes| ==> s.nodes[i].color == r.w.nodes[i].color
    ensures Accounted(g, w, q)
  {
    hide RanSince;
    forall x: nat ensures RanSince(w, r.w, x) || RanSince(s, q.w, x) <==> RanSince(w, q.w, x) {
      RanLonger(w, s, q.w, x);
      SameLog(w, r.w, s, x);
    }
    forall x: nat | EnteredSince(g, w, q.w, x) ensures RanSince(w, q.w, x) || (q.Failed? && x in q.w.stack) {
      assert EnteredSince(g, w, r.w, x) || EnteredSince(g, s, q.w, x);
    }
  }

  lemma SameLog(w: Walk, v: Walk, s: Walk, x: nat)
    requires v.log == s.log
    ensures RanSince(w, v, x) <==> RanSince(w, s, x)
  {
  }

  lemma {:induction false} VisitAccounted(g: Graph, body: Body, w: Walk, m: nat, index: nat)
    requires g.Valid() && InRange(g, w) && m < g.Size() && StackVisited(w)
    ensures Accounted(g, w, Visit(g, body, w, m, index))
    decreases Whites(w), 0
  {
    hide Finish, Accounted;
    if !g.cyclic[m] || w.nodes[m].color != White {
      NothingEntered(g, body, w, m, index);
    } else {
      var w1 := Push(w, m, index);
      assert m in Whites(w) && m !in Whites(w1);
      VisitAllAccounted(g, body, w1, m, g.deps[m], index + 1);
      VisitAllStack(g, body, w1, m, g.deps[m], index + 1);
      var r := VisitAll(g, body, w1, m, g.deps[m], index + 1);
      assert w1.stack[|w.stack|] == m;
      if r.Failed? {
        LoopFailed(g, w, w1, m, index, r);
      } else {
        FinishAccounted(g, body, w, w1, m, index, r);
      }
    }
  }

  lemma NothingEntered(g: Graph, body: Body, w: Walk, m: nat, index: nat)
    requires g.Valid() && InRange(g, w) && m < g.Size() && StackVisited(w)
    requires !g.cyclic[m] || w.nodes[m].color != White
    ensures Accounted(g, w, Visit(g, body, w, m, index))
  {
  }

  lemma LoopFailed(g: Graph, w: Walk, w1: Walk, m: nat, index: nat, r: Outcome)
    requires g.Valid() && InRange(g, w) && m < g.Size() && g.cyclic[m] && w.nodes[m].color == White
    requires w1 == Push(w, m, index) && Accounted(g, w1, r) && r.Failed? && m in r.w.stack
    ensures Accounted(g, w, r)
  {
    hide RanSince;
    forall x: nat ensures RanSince(w, r.w, x) <==> RanSince(w1, r.w, x) {
      RanFrom(w, w1, r.w, x);
    }
    forall x: nat | EnteredSince(g, w, r.w, x) ensures RanSince(w, r.w, x) || x in r.w.stack {
      assert x == m || EnteredSince(g, w1, r.w, x);
    }
  }

  lemma RanFromLog(w: Walk, v: Walk, u: Walk, x: nat)
    requires v.log == u.log
    ensures RanSince(w, v, x) <==> RanSince(w, u, x)
  {
  }

  lemma RanFrom(w: Walk, w1: Walk, v: Walk, x: nat)
    requires w.log == w1.log
    ensures RanSince(w, v, x) <==> RanSince(w1, v, x)
  {
  }

  lemma FinishAccounted(g: Graph, body: Body, w: Walk, w1: Walk, m: nat, index: nat, r: Outcome)
    requires g.Valid() && InRange(g, w) && m < g.Size() && g.cyclic[m] && w.nodes[m].color == White
    requires w1 == Push(w, m, index) && Accounted(g, w1, r) && r.Done? && InRange(g, r.w) && m in r.w.stack
    ensures Accounted(g, w, Finish(g, body, r.w, m, index, r.index))
  {
    hide RanSince;
    var q := Finish(g, body, r.w, m, index, r.index);
    var w3 := Record(r.w, m, body(m, |r.w.log|));
    PopToVisited(w3, m);
    assert q.w.log == r.w.log + [Event(m, body(m, |r.w.log|))];
    assert q.Done? ==> RanSince(r.w, q.w, m) by { LastRan(r.w, q.w, m); }
    forall x: nat ensures RanSince(w, r.w, x) || RanSince(r.w, q.w, x) <==> RanSince(w, q.w, x) {
      RanLonger(w, r.w, q.w, x);
    }
    forall x: nat ensures RanSince(w, r.w, x) <==> RanSince(w1, r.w, x) {
      RanFrom(w, w1, r.w, x);
    }
    forall x: nat | RanSince(r.w, q.w, x) ensures x == m {
      OnlyLast(r.w, q.w, m, x);
    }
    forall x: nat | EnteredSince(g, w, q.w, x) ensures RanSince(w, q.w, x) || (q.Failed? && x in q.w.stack) {
      assert x == m || EnteredSince(g, w1, r.w, x);
    }
  }

  lemma LastRan(v: Walk, u: Walk, m: nat)
    requires |u.log| == |v.log| + 1 && u.log[|v.log|].id == m
    ensures u.log[|v.log|].error.None? ==> RanSince(v, u, m)
  {
    assert u.log[|v.log|].error.None? ==> u.log[|v.log|] == Event(m, None);
  }

  lemma OnlyLast(v: Walk, u: Walk, m: nat, x: nat)
    requires |u.log| == |v.log| + 1 && u.log[|v.log|].id == m && RanSince(v, u, x)
    ensures x == m
  {
  }

  lemma {:induction false} VisitAllAccounted(g: Graph, body: Body, w: Walk, m: nat, ds: seq<nat>, index: nat)
    requires g.Valid() && InRange(g, w) && m < g.Size() && Sequences.Below(ds, g.Size()) && StackVisited(w)
    ensures Accounted(g, w, VisitAll(g, body, w, m, ds, index))
    decreases Whites(w), 1 + |ds|
  {
    hide Accounted, Visit, AfterDep;
    if ds == [] {
      NothingAccounted(g, w, Done(w, index));
    } else {
      VisitAccounted(g, body, w, ds[0], index);
      var r := Visit(g, body, w, ds[0], index);
      if r.Done? {
        var s := AfterDep(g, r.w, m, ds[0], r.index);
        SameColors(g, w, r, m, ds[0]);
        if s.Done? {
          assert Whites(s.w) < Whites(w) || Whites(s.w) == Whites(w);
          VisitAllAccounted(g, body, s.w, m, ds[1..], s.index);
          AccountedThen(g, w, r, s.w, VisitAll(g, body, s.w, m, ds[1..], s.index));
        } else {
          NothingAccounted(g, s.w, s);
          AccountedThen(g, w, r, s.w, s);
        }
      }
    }
  }

  lemma NothingAccounted(g: Graph, w: Walk, r: Outcome)
    requires r.w == w && StackVisited(w)
    ensures Accounted(g, w, r)
  {
  }

  lemma SameColors(g: Graph, w: Walk, r: Outcome, m: nat, d: nat)
    requires g.Valid() && InRange(g, r.w) && m < g.Size() && d < g.Size() && Accounted(g, w, r) && r.Done?
    ensures var s := AfterDep(g, r.w, m, d, r.index);
            && s.w.log == r.w.log && |s.w.nodes| == |r.w.nodes| && StackVisited(s.w)
            && forall i :: 0 <= i < |r.w.nodes| ==> s.w.nodes[i].color == r.w.nodes[i].color
  {
  }

  // --- Together ---

  /** A failed walk from a state between two calls blames one module f: of the modules that it entered,
      one is finished if its body has run and it does not depend on f, and, where f is a Cyclic Module
      Record, only then; all others are on the stack, and depend on f. */
  lemma FailedWalkExact(g: Graph, body: Body, w: Walk, m: nat) returns (f: nat)
    requires g.Valid() && Base(g, w) && w.stack == [] && Regular(g, w) && m < g.Size() && InRange(g, w)
    requires Visit(g, body, w, m, 0).Failed?
    ensures Blames(g, w, Visit(g, body, w, m, 0), f)
    ensures forall x: nat :: x < g.Size() && g.cyclic[x] && w.nodes[x].color == White ==>
              LeftBehind(g, w, Visit(g, body, w, m, 0).w, f, x)
  {
    hide Reach, DependsOn, Visit, Blames;
    var r := Visit(g, body, w, m, 0);
    StartLow(g, w, m);
    f := FailureDepends(g, body, w, m, 0, [], {});
    var idx := VisitKeeps(g, body, w, m, 0, [], {});
    VisitInOrder(g, body, w, m, 0);
    VisitAccounted(g, body, w, m, 0);
    forall x: nat | x < g.Size() && g.cyclic[x] && w.nodes[x].color == White ensures LeftBehind(g, w, r.w, f, x) {
      WhereIs(g, w, r, f, x);
      if r.w.nodes[x].color == Black && f < |g.cyclic| && g.cyclic[f] {
        FailedApart(g, w, r, x, f);
      }
    }
  }

  /** What became of the entered module x in a walk that fails with f. */
  ghost predicate LeftBehind(g: Graph, w: Walk, w': Walk, f: nat, x: nat)
    requires x < |w'.nodes|
  {
    && (RanSince(w, w', x) && !DependsOn(g, x, f) ==> w'.nodes[x].color == Black)
    && (w'.nodes[x].color == Black ==> RanSince(w, w', x))
    && (w'.nodes[x].color == Black && f < |g.cyclic| && g.cyclic[f] ==> !DependsOn(g, x, f))
    && (w'.nodes[x].color == Grey ==> DependsOn(g, x, f))
  }

  lemma StartLow(g: Graph, w: Walk, m: nat)
    requires InRange(g, w) && w.stack == []
    ensures Low(g, w, [], {}, 0) && Active(g, w, {}, m)
  {
  }

  lemma WhereIs(g: Graph, w: Walk, r: Outcome, f: nat, x: nat)
    requires Base(g, r.w) && Accounted(g, w, r) && r.Failed? && AllDepend(g, r.w.stack, f) && g.Valid()
    requires x < g.Size() && g.cyclic[x] && |w.nodes| == g.Size() && w.nodes[x].color == White
    ensures RanSince(w, r.w, x) && !DependsOn(g, x, f) ==> r.w.nodes[x].color == Black
    ensures r.w.nodes[x].color == Black ==> RanSince(w, r.w, x)
    ensures r.w.nodes[x].color == Grey ==> DependsOn(g, x, f)
  {
    hide RanSince, DependsOn, OkClosed;
    if r.w.nodes[x].color != White {
      assert EnteredSince(g, w, r.w, x);
    }
  }

  lemma FailedApart(g: Graph, w: Walk, r: Outcome, x: nat, f: nat)
    requires g.Valid() && Base(g, r.w) && Continues(w, r.w, {}) && Blames(g, w, r, f) && Regular(g, w)
    requires |w.nodes| == g.Size() && FailedOf(g, r.w) == FailedOf(g, w)
    requires x < g.Size() && g.cyclic[x] && w.nodes[x].color == White && r.w.nodes[x].color == Black && g.cyclic[f]
    ensures !DependsOn(g, x, f)
  {
    hide DependsOn, OkClosed;
    FinishedApart(g, r.w, x, f);
  }

  lemma FinishedApart(g: Graph, w: Walk, x: nat, f: nat)
    requires g.Valid() && Base(g, w) && x < g.Size() && Ok(g, w, x) && f < g.Size() && g.cyclic[f] && !Ok(g, w, f)
    ensures !DependsOn(g, x, f)
  {
    hide Reach;
    if Reach(g, x, f) {
      ModuleHistory.OkReaches(g, w, x, f);
    }
    if y: nat :| Reach(g, x, y) && y < g.Size() && f in g.deps[y] {
      ModuleHistory.OkReaches(g, w, x, y);
      OkEdge(g, w, y, f);
    }
  }

  lemma OkEdge(g: Graph, w: Walk, y: nat, f: nat)
    requires g.Valid() && Base(g, w) && Ok(g, w, y) && f < g.Size() && g.cyclic[f] && f in g.deps[y]
    ensures Ok(g, w, f)
  {
    assert g.Edge(y, f);
  }
}
