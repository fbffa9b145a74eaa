/** The promises that Evaluate hands out, all settled when a synchronous graph returns. */
module Promises {
  import opened Wrappers

  /** `id` is the promise's identity; `rejected` its error, if it was rejected. */
  datatype Promise = Promise(id: nat, rejected: Option<nat>)
}

/** Evaluate, for graphs whose modules are all synchronous.  `g` lists, for every module, the
    modules its evaluation visits; `body` is what executing the bodies yields. */
module Evaluation {
  import opened Sequences
  import opened Wrappers
  import opened Graphs
  import opened ModuleDfs
  import opened ModuleScc
  import opened ModuleHistory
  import opened Promises

  /** caps[m] is m's [[TopLevelCapability]]; issued counts the promises made so far. */
  datatype EvalState = EvalState(nodes: seq<Node>, caps: seq<Option<Promise>>, log: seq<Event>, issued: nat)

  function Idle(s: EvalState): Walk { Walk(s.nodes, [], s.log) }

  predicate Sized(g: Graph, s: EvalState) {
    InRange(g, Idle(s)) && |s.caps| == g.Size()
  }

  /** The modules left on the stack all fail with e, each as its own cycle root. */
  function FailStack(nodes: seq<Node>, stack: seq<nat>, e: Error): (r: seq<Node>)
    requires Below(stack, |nodes|)
    ensures |r| == |nodes|
    ensures forall i :: 0 <= i < |nodes| ==>
              r[i] == if i in stack then nodes[i].(color := Black, error := Some(e), root := i) else nodes[i]
    decreases |stack|
  {
    if stack == [] then nodes
    else
      var m := stack[0];
      FailStack(nodes[m := nodes[m].(color := Black, error := Some(e), root := m)], stack[1..], e)
  }

  /** Some earlier call already answers for m. */
  predicate Answered(s: EvalState, m: nat)
    requires m < |s.nodes| && s.nodes[m].root < |s.caps|
  {
    s.nodes[m].color == Black && s.caps[s.nodes[m].root].Some?
  }

  function Evaluate(g: Graph, body: Body, s: EvalState, m: nat): (r: (EvalState, Promise))
    requires g.Valid() && Sized(g, s) && m < g.Size() && g.cyclic[m]
    ensures Sized(g, r.0)
  {
    if Answered(s, m) then (s, s.caps[s.nodes[m].root].value)
    else
      var r := Visit(g, body, Idle(s), m, 0);
      var p := Promise(s.issued, if r.Failed? then Some(r.error) else None);
      var nodes := if r.Failed? then FailStack(r.w.nodes, r.w.stack, r.error) else r.w.nodes;
      (EvalState(nodes, s.caps[m := Some(p)], r.w.log, s.issued + 1), p)
  }

  predicate CapOk(s: EvalState, m: nat)
    requires m < |s.nodes| && m < |s.caps|
  {
    s.caps[m].Some? ==>
      && s.nodes[m].color == Black
      && s.caps[m].value.rejected == s.nodes[m].error
      && s.caps[m].value.id < s.issued
  }

  ghost predicate EvalInv(g: Graph, s: EvalState)
    requires g.Valid()
  {
    && Sized(g, s) && Base(g, Idle(s)) && History(g, Idle(s))
    && (forall m :: 0 <= m < g.Size() ==> CapOk(s, m))
    && (forall m, n :: 0 <= m < n < g.Size() && s.caps[m].Some? && s.caps[n].Some? ==>
          s.caps[m].value.id != s.caps[n].value.id)
    && (forall m :: 0 <= m < g.Size() && s.nodes[m].color == Black && s.nodes[m].error.Some? ==> s.nodes[m].root == m)
  }

  /** Finished modules are left alone, and the log only grows. */
  predicate OnlyAdds(s: EvalState, s': EvalState) {
    && |s'.nodes| == |s.nodes| && |s'.caps| == |s.caps|
    && s.log <= s'.log && s.issued <= s'.issued
    && (forall i :: 0 <= i < |s.nodes| && s.nodes[i].color == Black ==> s'.nodes[i] == s.nodes[i])
  }

  lemma FailStackKeeps(g: Graph, i: Walk, w: Walk, e: Error)
    requires g.Valid() && Base(g, w) && History(g, w) && Continues(i, w, {}) && StackIsGrey(g, i)
        && |i.nodes| == |w.nodes|
    requires i.stack == []
    requires forall m :: 0 <= m < |i.nodes| && i.nodes[m].color == Black && i.nodes[m].error.Some? ==>
               i.nodes[m].root == m
    ensures var w' := Walk(FailStack(w.nodes, w.stack, e), [], w.log);
            && InRange(g, w') && Base(g, w') && History(g, w')
            && (forall k :: 0 <= k < |i.nodes| && i.nodes[k].color == Black ==> w'.nodes[k] == i.nodes[k])
            && (forall m :: 0 <= m < |w.nodes| && w'.nodes[m].color == Black && w'.nodes[m].error.Some? ==>
                  w'.nodes[m].root == m)
  {
    hide Reach, AtMostOnce, InOrder, Ran;
    var w' := Walk(FailStack(w.nodes, w.stack, e), [], w.log);
    assert forall a :: Ok(g, w', a) ==> Ok(g, w, a);
    assert forall a :: Ok(g, w, a) ==> Ok(g, w', a);
    RootsSame(g, w, w');
    assert OkClosed(g, w');
  }

  lemma EvaluateWalk(g: Graph, body: Body, s: EvalState, m: nat)
    requires g.Valid() && EvalInv(g, s) && m < g.Size() && g.cyclic[m]
    ensures var r := Visit(g, body, Idle(s), m, 0);
            && Base(g, r.w) && History(g, r.w) && Continues(Idle(s), r.w, {})
            && (r.Done? ==> r.w.stack == [] && Ok(g, r.w, m))
            && (r.Failed? ==>
                  || m in r.w.stack
                  || (r.w.nodes[m].color == Black && r.w.nodes[m].error == Some(r.error) && m !in r.w.stack))
  {
    hide Reach, LowLink, Settled, Roots, LogFits;
    var i := Idle(s);
    var idx := VisitKeeps(g, body, i, m, 0, [], {});
    VisitHistory(g, body, i, m, 0, [], {});
    var r := Visit(g, body, i, m, 0);
    if r.Done? {
      StackEmpties(g, r.w, idx, r.index);
    } else if s.nodes[m].color == White {
      assert r.w.stack[0] == m;
    }
  }

  /** One call: the invariant is kept, the promise tells exactly m's recorded outcome. */
  lemma EvaluateKeeps(g: Graph, body: Body, s: EvalState, m: nat)
    requires g.Valid() && EvalInv(g, s) && m < g.Size() && g.cyclic[m]
    ensures var (s', p) := Evaluate(g, body, s, m);
            && EvalInv(g, s') && OnlyAdds(s, s')
            && s'.nodes[m].color == Black
            && p.rejected == s'.nodes[m].error
            && p.id < s'.issued
  {
    hide Reach, Roots, LogFits, OkClosed;
    if Answered(s, m) {
      AnsweredOutcome(g, s, m);
    } else {
      EvaluateWalk(g, body, s, m);
      var r := Visit(g, body, Idle(s), m, 0);
      var (s', p) := Evaluate(g, body, s, m);
      if r.Done? {
        assert Idle(s') == r.w;
        DoneKeeps(g, s, r.w);
      } else {
        FailStackKeeps(g, Idle(s), r.w, r.error);
        assert Idle(s') == Walk(FailStack(r.w.nodes, r.w.stack, r.error), [], r.w.log);
      }
      CapsKept(g, s, s', m, p);
    }
  }

  lemma AnsweredOutcome(g: Graph, s: EvalState, m: nat)
    requires g.Valid() && EvalInv(g, s) && m < g.Size() && g.cyclic[m] && Answered(s, m)
    ensures s.caps[s.nodes[m].root].value.rejected == s.nodes[m].error && s.caps[s.nodes[m].root].value.id < s.issued
  {
    hide Reach;
    assert CapOk(s, s.nodes[m].root);
    assert RootOk(g, Idle(s), m);
  }

  lemma DoneKeeps(g: Graph, s: EvalState, w: Walk)
    requires g.Valid() && EvalInv(g, s) && Base(g, w) && Continues(Idle(s), w, {}) && w.stack == []
    ensures forall k :: 0 <= k < |s.nodes| && s.nodes[k].color == Black ==> w.nodes[k] == s.nodes[k]
    ensures forall m :: 0 <= m < |w.nodes| && w.nodes[m].color == Black && w.nodes[m].error.Some? ==>
              w.nodes[m].root == m
  {
    hide Reach, Roots, LogFits, OkClosed;
  }

  lemma CapsKept(g: Graph, s: EvalState, s': EvalState, m: nat, p: Promise)
    requires g.Valid() && EvalInv(g, s) && |s'.nodes| == |s.nodes| && m < g.Size()
    requires forall k :: 0 <= k < |s.nodes| && s.nodes[k].color == Black ==> s'.nodes[k] == s.nodes[k]
    requires s'.caps == s.caps[m := Some(p)] && s'.issued == s.issued + 1 && p.id == s.issued
    requires s'.nodes[m].color == Black && p.rejected == s'.nodes[m].error
    ensures forall k :: 0 <= k < g.Size() ==> CapOk(s', k)
    ensures forall a, b :: 0 <= a < b < g.Size() && s'.caps[a].Some? && s'.caps[b].Some? ==>
              s'.caps[a].value.id != s'.caps[b].value.id
  {
    hide Reach, Roots, LogFits, OkClosed;
    forall k | 0 <= k < g.Size() ensures CapOk(s', k) {
      assert CapOk(s, k);
    }
    forall a, b | 0 <= a < b < g.Size() && s'.caps[a].Some?
        && s'.caps[b].Some? ensures s'.caps[a].value.id != s'.caps[b].value.id {
      assert CapOk(s, a) && CapOk(s, b);
    }
  }
}
