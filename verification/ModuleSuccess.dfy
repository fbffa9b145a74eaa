/** When a walk succeeds. */
module ModuleSuccess {
  import opened Wrappers
  import opened Sequences
  import opened Graphs
  import opened ModuleDfs

  predicate Clean(w: Walk) {
    forall i :: 0 <= i < |w.nodes| ==> w.nodes[i].error.None?
  }

  /** No body fails. */
  function Succeeds(): Body { (m, k) => None }

  /** The body can only fail for Cyclic Module Records that `top` does not reach. */
  ghost predicate Benign(g: Graph, body: Body, top: nat) {
    forall x: nat, k: nat :: x < g.Size() && x < |g.cyclic| && (!g.cyclic[x] || Reach(g, top, x)) ==> body(x, k).None?
  }

  ghost predicate OnlyReached(g: Graph, w: Walk, w': Walk, top: nat) {
    && |w'.nodes| == |w.nodes|
    && forall v :: 0 <= v < |w.nodes| && w'.nodes[v].color != w.nodes[v].color && w.nodes[v].color == White ==>
         Reach(g, top, v)
  }

  predicate StackVisited(w: Walk) {
    forall i :: 0 <= i < |w.stack| ==> w.stack[i] < |w.nodes| && w.nodes[w.stack[i]].color != White
  }

  lemma PopToVisited(w: Walk, m: nat)
    requires Below(w.stack, |w.nodes|) && StackVisited(w)
    ensures var r := PopTo(w, m);
            && StackVisited(r)
            && forall i :: 0 <= i < |w.nodes| ==>
                 r.nodes[i].error == w.nodes[i].error && (r.nodes[i].color == White <==> w.nodes[i].color == White)
  {
    PopToKeeps(w, m);
  }

  /** A walk whose bodies cannot fail for what it reaches succeeds, and touches only what it reaches. */
  lemma {:induction false} VisitSucceeds(g: Graph, body: Body, w: Walk, m: nat, index: nat, top: nat)
    requires g.Valid() && InRange(g, w) && m < g.Size() && Clean(w) && Benign(g, body, top) && StackVisited(w)
    requires g.cyclic[m] ==> Reach(g, top, m)
    ensures var r := Visit(g, body, w, m, index);
            && r.Done? && Clean(r.w) && OnlyReached(g, w, r.w, top) && StackVisited(r.w)
    decreases Whites(w), 0
  {
    hide Reach;
    if g.cyclic[m] && w.nodes[m].color == White {
      var w1 := Push(w, m, index);
      assert m in Whites(w) && m !in Whites(w1);
      assert g.deps[m][0..] == g.deps[m];
      AllSucceed(g, body, w1, m, 0, index + 1, top);
      var r := VisitAll(g, body, w1, m, g.deps[m], index + 1);
      var w2 := Record(r.w, m, None);
      PopToVisited(w2, m);
    }
  }

  lemma {:induction false} AllSucceed(g: Graph, body: Body, w: Walk, m: nat, k: nat, index: nat, top: nat)
    requires g.Valid() && InRange(g, w) && m < g.Size() && Clean(w) && Benign(g, body, top) && StackVisited(w)
    requires g.cyclic[m] && Reach(g, top, m) && k <= |g.deps[m]| && w.nodes[m].color != White
    ensures var r := VisitAll(g, body, w, m, g.deps[m][k..], index);
            && r.Done? && Clean(r.w) && OnlyReached(g, w, r.w, top) && StackVisited(r.w)
    decreases Whites(w), 1 + |g.deps[m]| - k
  {
    hide Reach, Benign;
    var ds := g.deps[m];
    if k < |ds| {
      var d := ds[k];
      assert ds[k..][0] == d && ds[k..][1..] == ds[k + 1..];
      if g.cyclic[d] {
        ReachEdge(g, m, d);
        ReachTrans(g, top, m, d);
      }
      VisitSucceeds(g, body, w, d, index, top);
      var r := Visit(g, body, w, d, index);
      var s := AfterDep(g, r.w, m, d, r.index);
      assert m !in Whites(w) && m !in Whites(r.w);
      assert Whites(s.w) < Whites(w) || Whites(s.w) == Whites(w);
      AllSucceed(g, body, s.w, m, k + 1, s.index, top);
    } else {
      assert ds[k..] == [];
    }
  }

  /** A visit whose own body fails does not succeed. */
  lemma VisitFails(g: Graph, body: Body, w: Walk, m: nat, index: nat)
    requires g.Valid() && InRange(g, w) && m < g.Size() && g.cyclic[m] && w.nodes[m].color == White
    requires forall k: nat :: body(m, k).Some?
    ensures Visit(g, body, w, m, index).Failed?
  {
  }
}
