/** Finite module graphs: which nodes are Cyclic Module Records, and, for each node, the
    ordered list of the modules its traversal visits. */
module Graphs {
  import opened Sequences

  datatype Graph = Graph(cyclic: seq<bool>, deps: seq<seq<nat>>) {
    function Size(): nat { |deps| }

    predicate Valid() {
      && |cyclic| == |deps|
      && forall m :: 0 <= m < |deps| ==> Below(deps[m], |deps|)
    }

    /** A dependency between two Cyclic Module Records. */
    predicate Edge(a: nat, b: nat) {
      a < |deps| && b < |deps| && |cyclic| == |deps| && cyclic[a] && cyclic[b] && b in deps[a]
    }
  }

  ghost predicate IsPath(g: Graph, p: seq<nat>) {
    |p| > 0 && forall i :: 0 <= i < |p| - 1 ==> g.Edge(p[i], p[i + 1])
  }

  ghost predicate Reach(g: Graph, a: nat, b: nat) {
    exists p :: IsPath(g, p) && p[0] == a && p[|p| - 1] == b
  }

  /** a and b lie on a common cycle (or are equal). */
  ghost predicate SameScc(g: Graph, a: nat, b: nat) {
    Reach(g, a, b) && Reach(g, b, a)
  }

  lemma ReachRefl(g: Graph, a: nat)
    ensures Reach(g, a, a)
  {
    assert IsPath(g, [a]);
  }

  lemma ReachEdge(g: Graph, a: nat, b: nat)
    requires g.Edge(a, b)
    ensures Reach(g, a, b)
  {
    var p := [a, b];
    assert IsPath(g, p) && p[0] == a && p[|p| - 1] == b;
  }

  lemma ReachTrans(g: Graph, a: nat, b: nat, c: nat)
    requires Reach(g, a, b) && Reach(g, b, c)
    ensures Reach(g, a, c)
  {
    var p :| IsPath(g, p) && p[0] == a && p[|p| - 1] == b;
    var q :| IsPath(g, q) && q[0] == b && q[|q| - 1] == c;
    var r := p + q[1..];
    assert forall i :: 0 <= i < |r| - 1 ==> g.Edge(r[i], r[i + 1]) by {
      forall i | 0 <= i < |r| - 1 ensures g.Edge(r[i], r[i + 1]) {
        if i < |p| - 1 {
          assert g.Edge(p[i], p[i + 1]);
        } else {
          var j := i - (|p| - 1);
          assert g.Edge(q[j], q[j + 1]);
        }
      }
    }
    assert IsPath(g, r) && r[0] == a && r[|r| - 1] == c;
  }

  ghost predicate ClosedUnder(g: Graph, s: set<nat>) {
    forall a, b :: a in s && g.Edge(a, b) ==> b in s
  }

  /** A set closed under dependencies keeps everything reachable from it. */
  lemma ReachStaysInside(g: Graph, s: set<nat>, a: nat, b: nat)
    requires ClosedUnder(g, s) && a in s && Reach(g, a, b)
    ensures b in s
  {
    var p :| IsPath(g, p) && p[0] == a && p[|p| - 1] == b;
    PathStaysInside(g, s, p, |p| - 1);
  }

  lemma {:induction false} PathStaysInside(g: Graph, s: set<nat>, p: seq<nat>, k: nat)
    requires ClosedUnder(g, s) && IsPath(g, p) && k < |p| && p[0] in s
    ensures p[k] in s
  {
    if k > 0 {
      PathStaysInside(g, s, p, k - 1);
      assert g.Edge(p[k - 1], p[k]);
    }
  }
}
