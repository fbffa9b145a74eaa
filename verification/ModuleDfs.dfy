/** The depth-first walk that InnerModuleLinking and InnerModuleEvaluation share.

    A node is White before it is visited (unlinked / linked), Grey while it is on the stack
    (linking / evaluating) and Black afterwards (linked or later / evaluated).  `body` decides
    what InitializeEnvironment (for linking) or ExecuteModule (for evaluation) does: it sees the
    module and the number of earlier such events of the walk, so that every pattern of successes
    and failures is some `body`. */
module ModuleDfs {
  import opened Sequences
  import opened Wrappers
  import opened Graphs

  type Error = nat

  type Body = (nat, nat) -> Option<Error>

  datatype Color = White | Grey | Black

  datatype Node = Node(color: Color, anc: nat, root: nat, error: Option<Error>)

  datatype Event = Event(id: nat, error: Option<Error>)

  datatype Walk = Walk(nodes: seq<Node>, stack: seq<nat>, log: seq<Event>)

  datatype Outcome = Done(w: Walk, index: nat) | Failed(w: Walk, error: Error)

  predicate InRange(g: Graph, w: Walk) {
    && |w.nodes| == g.Size()
    && Below(w.stack, g.Size())
    && (forall i :: 0 <= i < |w.nodes| ==> w.nodes[i].root < g.Size())
  }

  function Whites(w: Walk): set<nat> {
    set i | 0 <= i < |w.nodes| && w.nodes[i].color == White
  }

  function Min(a: nat, b: nat): nat { if a <= b then a else b }

  function Push(w: Walk, m: nat, index: nat): Walk
    requires m < |w.nodes|
  {
    w.(nodes := w.nodes[m := w.nodes[m].(color := Grey, anc := index)], stack := w.stack + [m])
  }

  function Lower(w: Walk, m: nat, d: nat): Walk
    requires m < |w.nodes| && d < |w.nodes|
  {
    w.(nodes := w.nodes[m := w.nodes[m].(anc := Min(w.nodes[m].anc, w.nodes[d].anc))])
  }

  function Record(w: Walk, m: nat, e: Option<Error>): Walk {
    w.(log := w.log + [Event(m, e)])
  }

  /** Pop one module, which is finished with cycle root m. */
  function PopOne(w: Walk, m: nat): Walk
    requires Below(w.stack, |w.nodes|) && w.stack != []
  {
    var top := w.stack[|w.stack| - 1];
    w.(nodes := w.nodes[top := w.nodes[top].(color := Black, root := m)], stack := w.stack[..|w.stack| - 1])
  }

  /** Pop the stack until m has been popped; every popped module is finished with cycle root m. */
  function PopTo(w: Walk, m: nat): (r: Walk)
    requires Below(w.stack, |w.nodes|)
    ensures |r.nodes| == |w.nodes| && r.log == w.log
    decreases |w.stack|
  {
    if w.stack == [] then w
    else
      if w.stack[|w.stack| - 1] == m then PopOne(w, m) else PopTo(PopOne(w, m), m)
  }

  lemma {:induction false} PopToFrame(g: Graph, w: Walk, m: nat)
    requires InRange(g, w) && m < g.Size()
    ensures InRange(g, PopTo(w, m)) && Whites(PopTo(w, m)) <= Whites(w)
    decreases |w.stack|
  {
    if w.stack != [] {
      if w.stack[|w.stack| - 1] != m {
        PopToFrame(g, PopOne(w, m), m);
      }
    }
  }

  /** Close m's visit after all its dependencies: run its body, then pop its component if m is
      the first visited module of it. */
  function Finish(g: Graph, body: Body, w: Walk, m: nat, moduleIndex: nat, index: nat): (r: Outcome)
    requires InRange(g, w) && m < g.Size()
    ensures InRange(g, r.w) && Whites(r.w) <= Whites(w)
  {
    var e := body(m, |w.log|);
    var w1 := Record(w, m, e);
    if e.Some? then Failed(w1, e.value)
    else if w1.nodes[m].anc == moduleIndex then
      PopToFrame(g, w1, m);
      Done(PopTo(w1, m), index)
    else Done(w1, index)
  }

  function Visit(g: Graph, body: Body, w: Walk, m: nat, index: nat): (r: Outcome)
    requires g.Valid() && InRange(g, w) && m < g.Size()
    ensures InRange(g, r.w) && Whites(r.w) <= Whites(w)
    decreases Whites(w), 0
  {
    if !g.cyclic[m] then
      var e := body(m, |w.log|);
      if e.Some? then Failed(Record(w, m, e), e.value) else Done(Record(w, m, e), index)
    else if w.nodes[m].color == Black && w.nodes[m].error.Some? then
      Failed(w, w.nodes[m].error.value)
    else if w.nodes[m].color != White then Done(w, index)
    else
      var w1 := Push(w, m, index);
      assert m in Whites(w) && m !in Whites(w1);
      var r := VisitAll(g, body, w1, m, g.deps[m], index + 1);
      if r.Failed? then r else Finish(g, body, r.w, m, index, r.index)
  }

  function VisitAll(g: Graph, body: Body, w: Walk, m: nat, ds: seq<nat>, index: nat): (r: Outcome)
    requires g.Valid() && InRange(g, w) && m < g.Size() && Below(ds, g.Size())
    ensures InRange(g, r.w) && Whites(r.w) <= Whites(w)
    decreases Whites(w), 1 + |ds|
  {
    if ds == [] then Done(w, index)
    else
      var r := Visit(g, body, w, ds[0], index);
      if r.Failed? then r
      else
        var s := AfterDep(g, r.w, m, ds[0], r.index);
        if s.Failed? then s
        else
          assert Whites(s.w) < Whites(w) || Whites(s.w) == Whites(w);
          VisitAll(g, body, s.w, m, ds[1..], s.index)
  }

  /** What a module does with a dependency once its visit returned. */
  function AfterDep(g: Graph, w: Walk, m: nat, d: nat, index: nat): (r: Outcome)
    requires g.Valid() && InRange(g, w) && m < g.Size() && d < g.Size()
    ensures InRange(g, r.w) && Whites(r.w) == Whites(w)
  {
    if !g.cyclic[d] then Done(w, index)
    else if w.nodes[d].color == Grey then Done(Lower(w, m, d), index)
    else
      var e := w.nodes[w.nodes[d].root].error;
      if e.Some? then Failed(w, e.value) else Done(w, index)
  }

  /** One round of popping down to m. */
  lemma PopToStep(w: Walk, m: nat)
    requires Below(w.stack, |w.nodes|) && m in w.stack
    ensures var v := PopOne(w, m); var top := w.stack[|w.stack| - 1];
            && |v.nodes| == |w.nodes| && w.stack == v.stack + [top]
            && if top == m then PopTo(w, m) == v else m in v.stack && PopTo(w, m) == PopTo(v, m)
  {
  }

  /** Only modules on the stack are popped. */
  lemma {:induction false} PopToKeeps(w: Walk, m: nat)
    requires Below(w.stack, |w.nodes|)
    ensures var r := PopTo(w, m);
            && r.stack <= w.stack
            && forall i :: 0 <= i < |w.nodes| ==>
                 r.nodes[i] == w.nodes[i] || (i in w.stack && r.nodes[i] == w.nodes[i].(color := Black, root := m))
    decreases |w.stack|
  {
    if w.stack != [] && w.stack[|w.stack| - 1] != m {
      PopToKeeps(PopOne(w, m), m);
    }
  }

  lemma {:induction false} PopToPrefix(w: Walk, m: nat, p: seq<nat>)
    requires Below(w.stack, |w.nodes|) && p + [m] <= w.stack
    ensures p <= PopTo(w, m).stack
    decreases |w.stack|
  {
    assert w.stack[|p|] == m;
    if w.stack[|w.stack| - 1] != m {
      PopToPrefix(PopOne(w, m), m, p);
    }
  }

  /** A visit never pops below where it started. */
  lemma {:induction false} VisitStack(g: Graph, body: Body, w: Walk, m: nat, index: nat)
    requires g.Valid() && InRange(g, w) && m < g.Size()
    ensures w.stack <= Visit(g, body, w, m, index).w.stack
    decreases Whites(w), 0
  {
    if g.cyclic[m] && w.nodes[m].color == White {
      var w1 := Push(w, m, index);
      assert m in Whites(w) && m !in Whites(w1);
      VisitAllStack(g, body, w1, m, g.deps[m], index + 1);
      var r := VisitAll(g, body, w1, m, g.deps[m], index + 1);
      if r.Done? {
        PopToPrefix(Record(r.w, m, None), m, w.stack);
      }
    }
  }

  lemma {:induction false} VisitAllStack(g: Graph, body: Body, w: Walk, m: nat, ds: seq<nat>, index: nat)
    requires g.Valid() && InRange(g, w) && m < g.Size() && Below(ds, g.Size())
    ensures w.stack <= VisitAll(g, body, w, m, ds, index).w.stack
    decreases Whites(w), 1 + |ds|
  {
    if ds != [] {
      VisitStack(g, body, w, ds[0], index);
      var r := Visit(g, body, w, ds[0], index);
      if r.Done? {
        var s := AfterDep(g, r.w, m, ds[0], r.index);
        if s.Done? {
          assert Whites(s.w) < Whites(w) || Whites(s.w) == Whites(w);
          VisitAllStack(g, body, s.w, m, ds[1..], s.index);
        }
      }
    }
  }

  lemma VisitLeavesWhite(g: Graph, body: Body, w: Walk, m: nat, index: nat)
    requires g.Valid() && InRange(g, w) && m < g.Size()
    ensures g.cyclic[m] ==> m !in Whites(Visit(g, body, w, m, index).w)
  {
    if g.cyclic[m] && w.nodes[m].color == White {
      var w1 := Push(w, m, index);
      assert m !in Whites(w1);
    }
  }
}
