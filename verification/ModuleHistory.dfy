/** What a walk leaves behind: cycle roots that name the strongly connected components, and a log
    of body executions in dependency order. */
module ModuleHistory {
  import opened Sequences
  import opened Wrappers
  import opened Graphs
  import opened ModuleDfs
  import opened ModuleScc

  ghost predicate RootOk(g: Graph, w: Walk, a: nat) {
    Ok(g, w, a) ==> Ok(g, w, w.nodes[a].root) && SameScc(g, a, w.nodes[a].root)
  }

  ghost predicate SameRoot(g: Graph, w: Walk, a: nat, b: nat) {
    Ok(g, w, a) && Ok(g, w, b) && SameScc(g, a, b) ==> w.nodes[a].root == w.nodes[b].root
  }

  /** Among the modules that finished without error, the cycle roots name the components. */
  ghost predicate Roots(g: Graph, w: Walk) {
    && (forall a: nat :: RootOk(g, w, a))
    && (forall a: nat, b: nat :: SameRoot(g, w, a, b))
  }

  predicate Ran(log: seq<Event>, m: nat) {
    exists k :: 0 <= k < |log| && log[k].id == m
  }

  /** Every dependency of m outside m's own component has finished without error in `log`. */
  ghost predicate DepsRan(g: Graph, log: seq<Event>, m: nat)
    requires g.Valid() && m < g.Size()
  {
    forall j :: 0 <= j < |g.deps[m]| ==> DepRan(g, log, m, g.deps[m][j])
  }

  ghost predicate DepRan(g: Graph, log: seq<Event>, m: nat, d: nat)
    requires g.Valid() && m < g.Size() && d < g.Size()
  {
    Event(d, None) in log || (g.cyclic[d] && SameScc(g, m, d))
  }

  /** No Cyclic Module Record's body ran twice. */
  predicate AtMostOnce(g: Graph, log: seq<Event>) {
    forall i, j :: 0 <= i < j < |log| && log[i].id < |g.cyclic| && g.cyclic[log[i].id] ==> log[i].id != log[j].id
  }

  ghost predicate InOrder(g: Graph, log: seq<Event>)
    requires g.Valid()
  {
    forall k :: 0 <= k < |log| && log[k].id < g.Size() && g.cyclic[log[k].id] ==> DepsRan(g, log[..k], log[k].id)
  }

  ghost predicate LogFits(g: Graph, w: Walk)
    requires InRange(g, w) && g.Valid()
  {
    && AtMostOnce(g, w.log)
    && InOrder(g, w.log)
    && (forall m :: 0 <= m < g.Size() && g.cyclic[m] && w.nodes[m].color == White ==> !Ran(w.log, m))
    && (forall m :: Ok(g, w, m) ==> Event(m, None) in w.log)
  }

  ghost predicate LogOfStack(g: Graph, w: Walk, act: set<nat>) {
    && (forall m :: m in act ==> !Ran(w.log, m))
    && (forall m :: IsGrey(w, m) && m !in act ==> Event(m, None) in w.log)
  }

  lemma RanAppend(log: seq<Event>, e: Event, m: nat)
    ensures Ran(log + [e], m) <==> Ran(log, m) || e.id == m
  {
    var l := log + [e];
    if Ran(log, m) {
      var k :| 0 <= k < |log| && log[k].id == m;
      assert l[k].id == m;
    }
    if e.id == m {
      assert l[|log|].id == m;
    }
  }

  /** A module on the stack reaches a module whose dependency loop is still running. */
  lemma {:induction false} StackReachesActive(g: Graph, w: Walk, idx: seq<nat>, act: set<nat>, index: nat,
      i: nat) returns (a: nat)
    requires InRange(g, w) && Low(g, w, idx, act, index) && i < |idx|
    ensures a in act && Reach(g, w.stack[i], a)
  {
    hide Reach;
    var v := w.stack[i];
    if v in act {
      ReachRefl(g, v);
      a := v;
    } else {
      assert LowLink(g, w, idx, i) && Settled(g, w, idx, i);
      var j :| 0 <= j <= i && idx[j] == w.nodes[v].anc && Reach(g, v, w.stack[j]);
      a := StackReachesActive(g, w, idx, act, index, j);
      ReachTrans(g, v, w.stack[j], a);
    }
  }

  /** The walk ends with an empty stack: a module left on it would have to reach a module whose
      loop is still running. */
  lemma StackEmpties(g: Graph, w: Walk, idx: seq<nat>, index: nat)
    requires InRange(g, w) && Low(g, w, idx, {}, index)
    ensures w.stack == []
  {
    hide Reach, LowLink, Settled;
    if w.stack != [] {
      var a := StackReachesActive(g, w, idx, {}, index, 0);
    }
  }

  /** When m's body runs, its dependencies outside its component have finished. */
  lemma DepsRanAtBody(g: Graph, w: Walk, m: nat, idx: seq<nat>, act: set<nat>, index: nat)
    requires g.Valid() && Base(g, w) && Low(g, w, idx, act + {m}, index) && m < g.Size() && g.cyclic[m]
    requires forall a :: a in act ==> Reach(g, a, m)
    requires forall d :: g.Edge(m, d) ==> DepSettled(g, w, idx, m, d)
    requires LogFits(g, w)
    requires forall j :: 0 <= j < |g.deps[m]| && !g.cyclic[g.deps[m][j]] ==> Event(g.deps[m][j], None) in w.log
    ensures DepsRan(g, w.log, m)
  {
    hide Reach, AtMostOnce, InOrder;
    forall j | 0 <= j < |g.deps[m]| ensures DepRan(g, w.log, m, g.deps[m][j]) {
      var d := g.deps[m][j];
      if g.cyclic[d] && !Ok(g, w, d) {
        assert DepSettled(g, w, idx, m, d);
        var i :| 0 <= i < |w.stack| && w.stack[i] == d;
        var a := StackReachesActive(g, w, idx, act + {m}, index, i);
        ReachRefl(g, m);
        ReachTrans(g, d, a, m);
        ReachEdge(g, m, d);
      }
    }
  }

  lemma LogAppend(g: Graph, w: Walk, m: nat, e: Option<Error>)
    requires g.Valid() && InRange(g, w) && LogFits(g, w) && m < g.Size()
    requires g.cyclic[m] ==> !Ran(w.log, m) && DepsRan(g, w.log, m) && w.nodes[m].color != White
    ensures LogFits(g, Record(w, m, e))
  {
    hide DepsRan, Ran;
    var w' := Record(w, m, e);
    assert forall x :: Ok(g, w', x) ==> Ok(g, w, x);
    forall k | 0 <= k < |w'.log| && w'.log[k].id < g.Size()
        && g.cyclic[w'.log[k].id] ensures DepsRan(g, w'.log[..k], w'.log[k].id) {
      if k < |w.log| {
        assert w'.log[..k] == w.log[..k];
      } else {
        assert w'.log[..k] == w.log;
      }
    }
    forall x | 0 <= x < g.Size() && g.cyclic[x] && w'.nodes[x].color == White ensures !Ran(w'.log, x) {
      RanAppend(w.log, Event(m, e), x);
    }
    AtMostOnceAppend(g, w.log, Event(m, e));
  }

  lemma AtMostOnceAppend(g: Graph, log: seq<Event>, e: Event)
    requires AtMostOnce(g, log) && (e.id < |g.cyclic| && g.cyclic[e.id] ==> !Ran(log, e.id))
    ensures AtMostOnce(g, log + [e])
  {
  }

  /** Every module of m's segment reaches m. */
  lemma {:induction false} SegmentReachesRoot(g: Graph, w: Walk, m: nat, idx: seq<nat>, act: set<nat>, index: nat,
      p: nat, i: nat)
    requires InRange(g, w) && Low(g, w, idx, act + {m}, index) && p <= i < |w.stack| && w.stack[p] == m
    requires w.nodes[m].anc == idx[p] && Above(g, w, p, m) && forall k :: p <= k < |w.stack| ==> w.stack[k] !in act
    requires Distinct(w.stack)
    ensures Reach(g, w.stack[i], m)
    decreases i
  {
    hide Reach;
    if i == p {
      ReachRefl(g, m);
    } else {
      assert w.stack[i] !in act + {m};
      assert LowLink(g, w, idx, i) && Settled(g, w, idx, i);
      var j :| 0 <= j <= i && idx[j] == w.nodes[w.stack[i]].anc && Reach(g, w.stack[i], w.stack[j]);
      assert p <= j < i;
      SegmentReachesRoot(g, w, m, idx, act, index, p, j);
      ReachTrans(g, w.stack[i], w.stack[j], m);
    }
  }

  lemma OkReaches(g: Graph, w: Walk, a: nat, b: nat)
    requires OkClosed(g, w) && Ok(g, w, a) && Reach(g, a, b)
    ensures Ok(g, w, b)
  {
    var s := set x | 0 <= x < |w.nodes| && Ok(g, w, x);
    ReachStaysInside(g, s, a, b);
  }

  /** m's segment lies in m's component, and is not finished yet. */
  lemma SegmentOneScc(g: Graph, w: Walk, m: nat, idx: seq<nat>, act: set<nat>, index: nat, p: nat)
    requires g.Valid() && Base(g, w) && Low(g, w, idx, act + {m}, index)
    requires p < |w.stack| && w.stack[p] == m && w.nodes[m].anc == idx[p]
    requires Above(g, w, p, m) && forall k :: p <= k < |w.stack| ==> w.stack[k] !in act
    ensures m in w.stack[p..] && |PopTo(w, m).nodes| == |w.nodes|
    ensures forall a :: a in w.stack[p..] ==>
              a < g.Size() && SameScc(g, a, m) && PopTo(w, m).nodes[a].root == m && !Ok(g, w, a)
    ensures forall a :: 0 <= a < |w.nodes| && a !in w.stack[p..] ==> PopTo(w, m).nodes[a] == w.nodes[a]
  {
    hide Reach, LowLink, Settled, PopTo, OkClosed;
    PopToSegment(w, m, p);
    assert w.stack[p..][0] == m;
    forall a | a in w.stack[p..] ensures a < g.Size() && SameScc(g, a, m) && PopTo(w, m).nodes[a].root == m
        && !Ok(g, w, a) {
      InSegment(w.stack, p, a);
      var i :| p <= i < |w.stack| && w.stack[i] == a;
      SegmentReachesRoot(g, w, m, idx, act, index, p, i);
    }
  }

  /** The pop of m's segment gives a whole component the root m. */
  lemma PopRoots(g: Graph, w: Walk, m: nat, idx: seq<nat>, act: set<nat>, index: nat, p: nat)
    requires g.Valid() && Base(g, w) && Low(g, w, idx, act + {m}, index) && Roots(g, w)
    requires p < |w.stack| && w.stack[p] == m && w.nodes[m].anc == idx[p]
    requires Above(g, w, p, m) && forall k :: p <= k < |w.stack| ==> w.stack[k] !in act
    requires forall d :: g.Edge(m, d) ==> DepSettled(g, w, idx, m, d)
    ensures Roots(g, PopTo(w, m))
  {
    hide Reach, LowLink, Settled, DepSettled, PopTo, StackIsGrey, Low, Above;
    var w' := PopTo(w, m);
    PopBase(g, w, idx, act, m, p, index);
    SegmentOneScc(g, w, m, idx, act, index, p);
    forall a: nat ensures RootOk(g, w', a) {
      assert RootOk(g, w, a);
    }
    forall a: nat, b: nat ensures SameRoot(g, w', a, b) {
      assert SameRoot(g, w, a, b);
      if Ok(g, w, a) && SameScc(g, a, b) { OkReaches(g, w, a, b); }
      if Ok(g, w, b) && SameScc(g, a, b) { OkReaches(g, w, b, a); }
    }
  }

  ghost predicate History(g: Graph, w: Walk)
    requires g.Valid() && InRange(g, w)
  {
    Roots(g, w) && LogFits(g, w)
  }

  lemma RootsSame(g: Graph, w: Walk, w': Walk)
    requires Roots(g, w) && |w.nodes| == |w'.nodes|
    requires forall a :: 0 <= a < |w.nodes| && w.nodes[a].color == Black ==> w'.nodes[a] == w.nodes[a]
    requires forall a :: Ok(g, w', a) ==> Ok(g, w, a)
    ensures Roots(g, w')
  {
    hide SameScc;
    forall a: nat ensures RootOk(g, w', a) { assert RootOk(g, w, a); }
    forall a: nat, b: nat ensures SameRoot(g, w', a, b) { assert SameRoot(g, w, a, b); }
  }

  /** m's body has run. */
  lemma BodyHistory(g: Graph, w: Walk, w2: Walk, m: nat, e: Option<Error>, index: nat, idx: seq<nat>,
      idx2: seq<nat>, act: set<nat>, index2: nat)
    requires Entered(g, w, w2, m, index, idx, idx2, act, index2) && Active(g, w, act, m)
    requires History(g, w2) && LogOfStack(g, w2, act + {m})
    requires forall j :: 0 <= j < |g.deps[m]| && !g.cyclic[g.deps[m][j]] ==> Event(g.deps[m][j], None) in w2.log
    ensures var w3 := Record(w2, m, e);
            History(g, w3) && (e.None? ==> LogOfStack(g, w3, act)) && m !in act
  {
    hide Reach, LowLink, Settled, DepSettled, Roots, LogFits, Ran, Low, Above, OkClosed;
    var w3 := Record(w2, m, e);
    DepsRanAtBody(g, w2, m, idx2, act, index2);
    assert w2.stack[|w.stack|] == m;
    LogAppend(g, w2, m, e);
    RootsSame(g, w2, w3);
    assert m !in w.stack;
    forall x | x in act ensures !Ran(w3.log, x) {
      RanAppend(w2.log, Event(m, e), x);
    }
  }

  lemma FinishHistory(g: Graph, body: Body, w: Walk, w2: Walk, m: nat, index: nat, idx: seq<nat>, idx2: seq<nat>,
      act: set<nat>, index2: nat)
    requires Entered(g, w, w2, m, index, idx, idx2, act, index2) && Active(g, w, act, m)
    requires History(g, w2) && LogOfStack(g, w2, act + {m})
    requires forall j :: 0 <= j < |g.deps[m]| && !g.cyclic[g.deps[m][j]] ==> Event(g.deps[m][j], None) in w2.log
    ensures var r := Finish(g, body, w2, m, index, index2);
            && History(g, r.w) && (r.Done? ==> LogOfStack(g, r.w, act))
  {
    hide Reach, LowLink, Settled, DepSettled, PopTo, Roots, LogFits, Low, Above, LogOfStack, OkClosed;
    var e := body(m, |w2.log|);
    var w3 := Record(w2, m, e);
    BodyHistory(g, w, w2, m, e, index, idx, idx2, act, index2);
    EnteredRecord(g, w, w2, w3, m, index, idx, idx2, act, index2);
    if e.None? && w3.nodes[m].anc == index {
      var p := |w.stack|;
      assert m !in w.stack && w3.stack[p] == m;
      ActiveBelow(g, w, w3, m, act);
      PopRoots(g, w3, m, idx2, act, index2, p);
      assert act + {m} - {m} == act;
      PopLogFits(g, w3, m, idx2, act, index2, p);
    }
  }

  lemma PopLogFits(g: Graph, w: Walk, m: nat, idx: seq<nat>, act: set<nat>, index: nat, p: nat)
    requires g.Valid() && Base(g, w) && Low(g, w, idx, act + {m}, index)
    requires p < |w.stack| && w.stack[p] == m && w.nodes[m].anc == idx[p]
    requires Above(g, w, p, m) && forall k :: p <= k < |w.stack| ==> w.stack[k] !in act
    requires forall d :: g.Edge(m, d) ==> DepSettled(g, w, idx, m, d)
    requires LogFits(g, w) && LogOfStack(g, w, act + {m} - {m}) && m !in act
    ensures InRange(g, PopTo(w, m)) && LogFits(g, PopTo(w, m)) && LogOfStack(g, PopTo(w, m), act)
  {
    hide Reach, LowLink, Settled, DepSettled, PopTo, AtMostOnce, InOrder, Ran;
    var w' := PopTo(w, m);
    assert act + {m} - {m} == act;
    PopBase(g, w, idx, act, m, p, index);
    PopToSegment(w, m, p);
    forall v | v in w.stack[p..] ensures Event(v, None) in w.log {
      var i :| 0 <= i < |w.stack| - p && w.stack[p..][i] == v;
      assert w.stack[p + i] == v;
    }
    forall v | IsGrey(w', v) ensures IsGrey(w, v) {
    }
    forall v | 0 <= v < g.Size() && g.cyclic[v] && w'.nodes[v].color == White ensures !Ran(w'.log, v) {
      assert w.nodes[v].color == White;
    }
  }

  lemma {:induction false} VisitHistory(g: Graph, body: Body, w: Walk, m: nat, index: nat, idx: seq<nat>, act: set<nat>)
    requires g.Valid() && Base(g, w) && Low(g, w, idx, act, index) && m < g.Size() && (g.cyclic[m] ==>
                                        Active(g, w, act, m))
    requires History(g, w) && LogOfStack(g, w, act) && forall a :: a in act ==> a in w.stack
    ensures var r := Visit(g, body, w, m, index);
            && History(g, r.w)
            && (r.Done? ==> LogOfStack(g, r.w, act) && (!g.cyclic[m] ==> Event(m, None) in r.w.log))
    decreases Whites(w), 0
  {
    hide Reach, LowLink, Settled, DepSettled, Roots, LogFits, Ran;
    if !g.cyclic[m] {
      var e := body(m, |w.log|);
      LogAppend(g, w, m, e);
      RootsSame(g, w, Record(w, m, e));
      forall x | x in act ensures !Ran(Record(w, m, e).log, x) {
        RanAppend(w.log, Event(m, e), x);
        assert x in w.stack;
      }
    } else if w.nodes[m].color == White {
      var w1 := Push(w, m, index);
      PushKeeps(g, w, m, index, idx, act);
      PushHistory(g, w, m, index, act);
      assert m in Whites(w) && m !in Whites(w1);
      assert g.deps[m][0..] == g.deps[m];
      VisitAllHistory(g, body, w1, m, 0, index + 1, idx + [index], act + {m}, |w.stack|);
      var idx2 := VisitAllKeeps(g, body, w1, m, 0, index + 1, idx + [index], act + {m}, |w.stack|);
      var r := VisitAll(g, body, w1, m, g.deps[m], index + 1);
      if r.Done? {
        assert Entered(g, w, r.w, m, index, idx, idx2, act, r.index);
        FinishHistory(g, body, w, r.w, m, index, idx, idx2, act, r.index);
      }
    }
  }

  lemma PushHistory(g: Graph, w: Walk, m: nat, index: nat, act: set<nat>)
    requires g.Valid() && InRange(g, w) && m < g.Size() && g.cyclic[m] && w.nodes[m].color == White
    requires History(g, w) && LogOfStack(g, w, act)
    ensures History(g, Push(w, m, index)) && LogOfStack(g, Push(w, m, index), act + {m})
  {
    hide Reach, Ran, AtMostOnce, InOrder;
    var w1 := Push(w, m, index);
    assert forall a :: Ok(g, w1, a) ==> Ok(g, w, a);
    RootsSame(g, w, w1);
  }

  lemma {:induction false} VisitAllHistory(g: Graph, body: Body, w: Walk, m: nat, k: nat, index: nat,
      idx: seq<nat>, act: set<nat>, p: nat)
    requires g.Valid() && Base(g, w) && Low(g, w, idx, act, index) && Active(g, w, act, m) && m < g.Size()
        && g.cyclic[m]
    requires k <= |g.deps[m]| && p < |w.stack| && w.stack[p] == m && m in act && Above(g, w, p, m)
    requires forall j :: 0 <= j < k && g.cyclic[g.deps[m][j]] ==> DepSettled(g, w, idx, m, g.deps[m][j])
    requires History(g, w) && LogOfStack(g, w, act)
    requires forall j :: 0 <= j < k && !g.cyclic[g.deps[m][j]] ==> Event(g.deps[m][j], None) in w.log
    ensures var r := VisitAll(g, body, w, m, g.deps[m][k..], index);
            && History(g, r.w)
            && (r.Done? ==> LogOfStack(g, r.w, act)
                            && forall j :: 0 <= j < |g.deps[m]| && !g.cyclic[g.deps[m][j]] ==>
                                 Event(g.deps[m][j], None) in r.w.log)
    decreases Whites(w), 1 + |g.deps[m]| - k
  {
    hide Reach, LowLink, Settled, DepSettled, Above, Continues, OkClosed, Roots, LogFits, Ran;
    var ds := g.deps[m];
    if k < |ds| {
      var d := ds[k];
      assert ds[k..][0] == d && ds[k..][1..] == ds[k + 1..];
      if g.cyclic[d] {
        ActiveForDep(g, w, act, m, d);
      }
      VisitHistory(g, body, w, d, index, idx, act);
      var idx1 := VisitKeeps(g, body, w, d, index, idx, act);
      var r := Visit(g, body, w, d, index);
      if r.Done? {
        DepKeeps(g, w, r.w, m, k, r.index, idx, idx1, act, p);
        var s := AfterDep(g, r.w, m, d, r.index);
        if s.Done? {
          GreyStays(w, r.w, m);
          LowerHistory(g, r.w, s.w, m, d, act);
          assert Whites(s.w) < Whites(w) || Whites(s.w) == Whites(w);
          AfterDepStack(g, w, s.w, m, act, p);
          assert w.log <= r.w.log by { ContinuesLog(w, r.w, {}); }
          VisitAllHistory(g, body, s.w, m, k + 1, s.index, idx1, act, p);
        }
      }
    } else {
      assert ds[k..] == [];
    }
  }

  lemma GreyStays(w: Walk, w': Walk, m: nat)
    requires Continues(w, w', {}) && IsGrey(w, m)
    ensures IsGrey(w', m)
  {
  }

  lemma ContinuesLog(w: Walk, w': Walk, but: set<nat>)
    requires Continues(w, w', but)
    ensures w.log <= w'.log
  {
  }

  lemma LowerHistory(g: Graph, w: Walk, w1: Walk, m: nat, d: nat, act: set<nat>)
    requires g.Valid() && InRange(g, w) && InRange(g, w1) && m < g.Size() && d < g.Size() && IsGrey(w, m)
    requires History(g, w) && LogOfStack(g, w, act) && (w1 == w || w1 == Lower(w, m, d))
    ensures History(g, w1) && LogOfStack(g, w1, act)
  {
    hide Reach, Ran, AtMostOnce, InOrder;
    assert forall a :: Ok(g, w1, a) ==> Ok(g, w, a);
    RootsSame(g, w, w1);
  }
}
