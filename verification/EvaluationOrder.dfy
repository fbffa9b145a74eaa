/** What one call of Evaluate runs, and in which order; and what a failing call leaves. */
module EvaluationOrder {
  import opened Wrappers
  import opened Graphs
  import opened ModuleDfs
  import opened ModuleScc
  import opened ModuleHistory
  import opened ModuleOrder
  import opened ModuleFailure
  import opened Evaluation
  import EP = EvaluationProperties

  /** Only modules whose evaluation is over have an error. */
  predicate Unfailed(g: Graph, s: EvalState) {
    forall m :: 0 <= m < |s.nodes| && m < |g.cyclic| && g.cyclic[m] && s.nodes[m].color != Black ==>
      s.nodes[m].error.None?
  }

  lemma RegularState(g: Graph, s: EvalState)
    requires g.Valid() && EvalInv(g, s) && Unfailed(g, s)
    ensures Sized(g, s) && Regular(g, Idle(s))
  {
    hide Reach, LogFits, OkClosed;
    forall m | 0 <= m < |s.nodes| && g.cyclic[m] && s.nodes[m].color == Black && s.nodes[m].error.None?
      ensures s.nodes[s.nodes[m].root].error.None?
    {
      assert RootOk(g, Idle(s), m) && Ok(g, Idle(s), m);
    }
  }

  /** The bodies that evaluating m is to run from here. */
  ghost function Planned(g: Graph, s: EvalState, m: nat): Order
    requires g.Valid() && m < g.Size()
  {
    PostOrder(g, FailedOf(g, Idle(s)), m, EnteredOf(g, Idle(s)))
  }

  /** One call runs the bodies in post-order up to the first that throws, and its promise is rejected
      with what that body threw, or with the recorded error that ends the order. */
  lemma EvaluateInOrder(g: Graph, body: Body, s: EvalState, m: nat)
    requires g.Valid() && EvalInv(g, s) && Unfailed(g, s) && m < g.Size() && g.cyclic[m]
    ensures var (s', p) := Evaluate(g, body, s, m);
            var o := Planned(g, s, m);
            var (events, error) := Execute(body, o.ids, |s.log|);
            && s'.log == s.log + events
            && p.rejected == (if error.Some? then error else o.stop)
            && (p.rejected.None? ==>
                  EnteredOf(g, Idle(s')) == o.entered && FailedOf(g, Idle(s')) == FailedOf(g, Idle(s)))
            && EvalInv(g, s') && Unfailed(g, s')
  {
    hide EvalInv, FailedOf, EnteredOf, Visit, Regular, FailStack;
    RegularState(g, s);
    EvaluateKeeps(g, body, s, m);
    if Answered(s, m) {
      AnsweredOrder(g, body, s, m);
    } else {
      VisitInOrder(g, body, Idle(s), m, 0);
      UnfailedKept(g, body, s, m);
      SameEntered(g, body, s, m);
    }
  }

  lemma AnsweredOrder(g: Graph, body: Body, s: EvalState, m: nat)
    requires g.Valid() && EvalInv(g, s) && m < g.Size() && g.cyclic[m] && Sized(g, s) && Answered(s, m)
    ensures Execute(body, Planned(g, s, m).ids, |s.log|) == ([], None) && s.log + [] == s.log
    ensures Planned(g, s, m).stop == s.caps[s.nodes[m].root].value.rejected
    ensures Planned(g, s, m).stop.None? ==> Planned(g, s, m).entered == EnteredOf(g, Idle(s))
  {
    hide EvalInv;
    AnsweredOutcome(g, s, m);
  }

  lemma SameEntered(g: Graph, body: Body, s: EvalState, m: nat)
    requires g.Valid() && m < g.Size() && g.cyclic[m] && Sized(g, s) && !Answered(s, m)
    ensures var r := Visit(g, body, Idle(s), m, 0);
            r.Done? ==>
              && EnteredOf(g, Idle(Evaluate(g, body, s, m).0)) == EnteredOf(g, r.w)
              && FailedOf(g, Idle(Evaluate(g, body, s, m).0)) == FailedOf(g, r.w)
  {
    hide Visit;
  }

  lemma UnfailedKept(g: Graph, body: Body, s: EvalState, m: nat)
    requires g.Valid() && EvalInv(g, s) && Unfailed(g, s) && m < g.Size() && g.cyclic[m] && Sized(g, s)
    requires !Answered(s, m)
    ensures Unfailed(g, Evaluate(g, body, s, m).0)
  {
    hide Reach, Visit, Roots, LogFits, OkClosed, Settled, LowLink;
    var i := Idle(s);
    StartLow(g, i, m);
    var idx := VisitKeeps(g, body, i, m, 0, [], {});
    var r := Visit(g, body, i, m, 0);
    if r.Done? {
      VisitHistory(g, body, i, m, 0, [], {});
      StackEmpties(g, r.w, idx, r.index);
    }
  }

  /** From a linked graph, a successful first call runs exactly the post-order of its module. */
  lemma FirstCallInOrder(g: Graph, body: Body, m: nat)
    requires g.Valid() && m < g.Size() && g.cyclic[m] && Sized(g, EP.Fresh(g))
    ensures var (s', p) := Evaluate(g, body, EP.Fresh(g), m);
            var ids := PostOrder(g, map[], m, {}).ids;
            && |s'.log| <= |ids|
            && (forall k :: 0 <= k < |s'.log| ==> s'.log[k] == Event(ids[k], body(ids[k], k)))
            && (p.rejected.None? <==> |s'.log| == |ids| && forall k :: 0 <= k < |ids| ==> s'.log[k].error.None?)
  {
    hide EvalInv, Evaluate;
    EP.FreshInv(g);
    EvaluateInOrder(g, body, EP.Fresh(g), m);
    assert FailedOf(g, Idle(EP.Fresh(g))) == map[] && EnteredOf(g, Idle(EP.Fresh(g))) == {};
    var ids := PostOrder(g, map[], m, {}).ids;
    NeverStops(g, m, {});
    ExecutePrefix(body, ids, 0);
    assert [] + Execute(body, ids, 0).0 == Execute(body, ids, 0).0;
  }

  /** A call that fails blames one module f: of the modules that it entered, exactly those that depend on f
      end with the error, if f is a Cyclic Module Record; all others have run and have none. */
  lemma FailureSpreads(g: Graph, body: Body, s: EvalState, m: nat) returns (f: nat)
    requires g.Valid() && EvalInv(g, s) && Unfailed(g, s) && m < g.Size() && g.cyclic[m] && Sized(g, s)
    requires !Answered(s, m) && Evaluate(g, body, s, m).1.rejected.Some?
    ensures Blames(g, Idle(s), Visit(g, body, Idle(s), m, 0), f)
    ensures forall x: nat :: x < g.Size() && g.cyclic[x] && s.nodes[x].color == White ==>
              Spread(g, s, Evaluate(g, body, s, m).0, Evaluate(g, body, s, m).1.rejected, f, x)
  {
    hide Reach, DependsOn, Visit, Blames, EvalInv, Regular, LeftBehind;
    RegularState(g, s);
    BaseState(g, s);
    f := FailedWalkExact(g, body, Idle(s), m);
    var r := Visit(g, body, Idle(s), m, 0);
    EvaluateWalk(g, body, s, m);
    forall x: nat | x < g.Size() && g.cyclic[x] && s.nodes[x].color == White
      ensures Spread(g, s, Evaluate(g, body, s, m).0, Some(r.error), f, x)
    {
      SpreadAt(g, s, r, Evaluate(g, body, s, m).0, f, x);
    }
  }

  lemma BaseState(g: Graph, s: EvalState)
    requires g.Valid() && EvalInv(g, s)
    ensures Base(g, Idle(s))
  {
  }

  /** What became of the module x, not evaluated in s, in a call that is rejected with `error`, for f. */
  ghost predicate Spread(g: Graph, s: EvalState, s': EvalState, error: Option<Error>, f: nat, x: nat)
    requires x < |s'.nodes|
  {
    var ran := RanSince(Idle(s), Idle(s'), x);
    && (s'.nodes[x].color == Black ==> s'.nodes[x].error.None? || s'.nodes[x].error == error)
    && (s'.nodes[x].color == Black && s'.nodes[x].error.None? ==> ran)
    && (ran && !DependsOn(g, x, f) ==> s'.nodes[x].color == Black && s'.nodes[x].error.None?)
    && (s'.nodes[x].color == Black && s'.nodes[x].error.Some? ==> DependsOn(g, x, f))
    && (s'.nodes[x].color == Black && s'.nodes[x].error.None? && f < |g.cyclic| && g.cyclic[f] ==>
          !DependsOn(g, x, f))
  }

  lemma SpreadAt(g: Graph, s: EvalState, r: Outcome, s': EvalState, f: nat, x: nat)
    requires g.Valid() && Sized(g, s) && x < g.Size() && s.nodes[x].color == White && g.cyclic[x]
    requires r.Failed? && InRange(g, r.w) && Base(g, r.w) && Continues(Idle(s), r.w, {}) && Unfailed(g, s)
    requires LeftBehind(g, Idle(s), r.w, f, x)
    requires s'.nodes == FailStack(r.w.nodes, r.w.stack, r.error) && s'.log == r.w.log
    ensures Spread(g, s, s', Some(r.error), f, x)
  {
    hide DependsOn, OkClosed;
    assert RanSince(Idle(s), Idle(s'), x) <==> RanSince(Idle(s), r.w, x) by { RanFromLog(Idle(s), r.w, Idle(s'), x); }
  }

  /** Any sequence of calls from a linked graph leaves a state to which the above applies. */
  lemma {:induction false} SequenceUnfailed(g: Graph, s: EvalState, calls: seq<EP.EvalCall>)
    requires g.Valid() && EvalInv(g, s) && Unfailed(g, s) && EP.CallsOk(g, calls) && Sized(g, s)
    ensures var s' := EP.EvaluateAll(g, s, calls); EvalInv(g, s') && Unfailed(g, s')
    decreases |calls|
  {
    hide EvalInv, Unfailed, Evaluate;
    if calls != [] {
      EvaluateInOrder(g, calls[0].body, s, calls[0].m);
      SequenceUnfailed(g, Evaluate(g, calls[0].body, s, calls[0].m).0, calls[1..]);
    }
  }

  /** After any sequence of calls, the next one runs the bodies in post-order of what is left. */
  lemma NextCallInOrder(g: Graph, calls: seq<EP.EvalCall>, body: Body, m: nat)
    requires g.Valid() && EP.CallsOk(g, calls) && m < g.Size() && g.cyclic[m] && Sized(g, EP.Fresh(g))
    ensures var s := EP.EvaluateAll(g, EP.Fresh(g), calls);
            var (s', p) := Evaluate(g, body, s, m);
            var (events, error) := Execute(body, Planned(g, s, m).ids, |s.log|);
            s'.log == s.log + events && p.rejected == (if error.Some? then error else Planned(g, s, m).stop)
  {
    hide EvalInv, Evaluate;
    EP.FreshInv(g);
    SequenceUnfailed(g, EP.Fresh(g), calls);
    EvaluateInOrder(g, body, EP.EvaluateAll(g, EP.Fresh(g), calls), m);
  }
}
