/** What Evaluate promises, over single calls and over every sequence of calls. */
module EvaluationProperties {
  import opened Sequences
  import opened Wrappers
  import opened Graphs
  import opened ModuleDfs
  import opened ModuleScc
  import opened ModuleHistory
  import opened ModuleSuccess
  import opened Evaluation

  datatype EvalCall = EvalCall(body: Body, m: nat)

  predicate CallsOk(g: Graph, calls: seq<EvalCall>)
    requires g.Valid()
  {
    forall i :: 0 <= i < |calls| ==> calls[i].m < g.Size() && g.cyclic[calls[i].m]
  }

  function EvaluateAll(g: Graph, s: EvalState, calls: seq<EvalCall>): (r: EvalState)
    requires g.Valid() && Sized(g, s) && CallsOk(g, calls)
    ensures Sized(g, r)
    decreases |calls|
  {
    if calls == [] then s else EvaluateAll(g, Evaluate(g, calls[0].body, s, calls[0].m).0, calls[1..])
  }

  /** Every module is linked and none has been evaluated. */
  function Fresh(g: Graph): EvalState {
    EvalState(seq(g.Size(), i => Node(White, 0, 0, None)), seq(g.Size(), i => None), [], 0)
  }

  lemma FreshInv(g: Graph)
    requires g.Valid() && g.Size() > 0
    ensures EvalInv(g, Fresh(g))
  {
    var w := Idle(Fresh(g));
    assert forall m :: 0 <= m < g.Size() ==> w.nodes[m] == Node(White, 0, 0, None);
  }

  lemma {:induction false} EvaluateAllKeeps(g: Graph, s: EvalState, calls: seq<EvalCall>)
    requires g.Valid() && EvalInv(g, s) && CallsOk(g, calls)
    ensures EvalInv(g, EvaluateAll(g, s, calls)) && OnlyAdds(s, EvaluateAll(g, s, calls))
    decreases |calls|
  {
    hide EvalInv;
    SizedOf(g, s);
    if calls != [] {
      EvaluateKeeps(g, calls[0].body, s, calls[0].m);
      EvaluateAllKeeps(g, Evaluate(g, calls[0].body, s, calls[0].m).0, calls[1..]);
    }
  }

  lemma SizedOf(g: Graph, s: EvalState)
    requires g.Valid() && EvalInv(g, s)
    ensures Sized(g, s)
  {
  }

  /** Over every sequence of Evaluate calls, each module body runs at most once, and when it runs,
      every dependency outside its own strongly connected component has run without error. */
  lemma BodiesRunOnceInOrder(g: Graph, calls: seq<EvalCall>)
    requires g.Valid() && g.Size() > 0 && CallsOk(g, calls)
    ensures var log := EvaluateAll(g, Fresh(g), calls).log;
            AtMostOnce(g, log) && InOrder(g, log)
  {
    hide Reach, DepsRan;
    FreshInv(g);
    EvaluateAllKeeps(g, Fresh(g), calls);
  }

  /** Over every such sequence, the cycle roots of the modules that finished without error name
      the strongly connected components. */
  lemma CycleRootsNameSccs(g: Graph, calls: seq<EvalCall>, a: nat, b: nat)
    requires g.Valid() && g.Size() > 0 && CallsOk(g, calls)
    requires var s := EvaluateAll(g, Fresh(g), calls); Ok(g, Idle(s), a) && Ok(g, Idle(s), b)
    ensures var s := EvaluateAll(g, Fresh(g), calls);
            s.nodes[a].root == s.nodes[b].root <==> SameScc(g, a, b)
  {
    hide Reach, LogFits, OkClosed;
    FreshInv(g);
    EvaluateAllKeeps(g, Fresh(g), calls);
    var s := EvaluateAll(g, Fresh(g), calls);
    assert RootOk(g, Idle(s), a) && RootOk(g, Idle(s), b) && SameRoot(g, Idle(s), a, b);
    if s.nodes[a].root == s.nodes[b].root {
      ReachTrans(g, a, s.nodes[a].root, b);
      ReachTrans(g, b, s.nodes[a].root, a);
    }
  }

  /** A fulfilled promise means that everything the module depends on finished without error. */
  lemma FulfilledReachesAll(g: Graph, body: Body, s: EvalState, m: nat, d: nat)
    requires g.Valid() && EvalInv(g, s) && m < g.Size() && g.cyclic[m] && Reach(g, m, d)
    requires Evaluate(g, body, s, m).1.rejected.None?
    ensures Ok(g, Idle(Evaluate(g, body, s, m).0), d)
  {
    hide Reach, Roots, LogFits;
    EvaluateKeeps(g, body, s, m);
    OkReaches(g, Idle(Evaluate(g, body, s, m).0), m, d);
  }

  /** e was recorded before, or the last body that ran threw it. */
  predicate Sourced(w: Walk, w': Walk, e: Error) {
    || (exists v :: 0 <= v < |w.nodes| && w.nodes[v].error == Some(e))
    || (|w'.log| > |w.log| && w'.log[|w'.log| - 1].error == Some(e))
  }

  predicate SameErrors(w: Walk, w': Walk) {
    |w.nodes| == |w'.nodes| && |w.log| <= |w'.log| && forall i :: 0 <= i < |w.nodes| ==>
                                        w'.nodes[i].error == w.nodes[i].error
  }

  lemma {:induction false} VisitErrorSource(g: Graph, body: Body, w: Walk, m: nat, index: nat)
    requires g.Valid() && InRange(g, w) && m < g.Size()
    ensures var r := Visit(g, body, w, m, index);
            SameErrors(w, r.w) && (r.Failed? ==> Sourced(w, r.w, r.error))
    decreases Whites(w), 0
  {
    if g.cyclic[m] && w.nodes[m].color == White {
      var w1 := Push(w, m, index);
      assert m in Whites(w) && m !in Whites(w1);
      VisitAllErrorSource(g, body, w1, m, g.deps[m], index + 1);
      var r := VisitAll(g, body, w1, m, g.deps[m], index + 1);
      if r.Done? {
        PopToKeeps(Record(r.w, m, None), m);
      }
    }
  }

  lemma {:induction false} VisitAllErrorSource(g: Graph, body: Body, w: Walk, m: nat, ds: seq<nat>, index: nat)
    requires g.Valid() && InRange(g, w) && m < g.Size() && Below(ds, g.Size())
    ensures var r := VisitAll(g, body, w, m, ds, index);
            SameErrors(w, r.w) && (r.Failed? ==> Sourced(w, r.w, r.error))
    decreases Whites(w), 1 + |ds|
  {
    if ds != [] {
      VisitErrorSource(g, body, w, ds[0], index);
      var r := Visit(g, body, w, ds[0], index);
      if r.Done? {
        var s := AfterDep(g, r.w, m, ds[0], r.index);
        if s.Done? {
          assert Whites(s.w) < Whites(w) || Whites(s.w) == Whites(w);
          VisitAllErrorSource(g, body, s.w, m, ds[1..], s.index);
        }
      }
    }
  }

  /** Errors are sticky: whatever is called in between, evaluating a failed module again answers
      with its recorded error and runs nothing. */
  lemma FailedStaysFailed(g: Graph, s: EvalState, calls: seq<EvalCall>, body: Body, f: nat)
    requires g.Valid() && EvalInv(g, s) && CallsOk(g, calls) && f < g.Size() && g.cyclic[f]
    requires s.nodes[f].color == Black && s.nodes[f].error.Some?
    ensures var s1 := EvaluateAll(g, s, calls); var (s2, p) := Evaluate(g, body, s1, f);
            p.rejected == s.nodes[f].error && s2.log == s1.log && s2.nodes == s1.nodes
  {
    hide Reach, Roots, LogFits, OkClosed;
    EvaluateAllKeeps(g, s, calls);
    var s1 := EvaluateAll(g, s, calls);
    EvaluateKeeps(g, body, s1, f);
  }

  /** A module that depends on a failed module cannot be evaluated: its promise is rejected, with a
      recorded error or with one thrown by a body that this very call ran. */
  lemma DependentsOfFailedFail(g: Graph, s: EvalState, calls: seq<EvalCall>, body: Body, f: nat, u: nat)
    requires g.Valid() && EvalInv(g, s) && CallsOk(g, calls) && f < g.Size() && g.cyclic[f] && u < g.Size()
        && g.cyclic[u]
    requires s.nodes[f].color == Black && s.nodes[f].error.Some? && Reach(g, u, f)
    ensures var s1 := EvaluateAll(g, s, calls); var (s2, p) := Evaluate(g, body, s1, u);
            p.rejected.Some? && (p.rejected == s1.nodes[u].error || Sourced(Idle(s1), Idle(s2), p.rejected.value))
  {
    hide Reach, Roots, LogFits, OkClosed;
    EvaluateAllKeeps(g, s, calls);
    var s1 := EvaluateAll(g, s, calls);
    EvaluateKeeps(g, body, s1, u);
    var (s2, p) := Evaluate(g, body, s1, u);
    if p.rejected.None? {
      FulfilledReachesAll(g, body, s1, u, f);
    }
    if !Answered(s1, u) {
      VisitErrorSource(g, body, Idle(s1), u, 0);
    } else {
      AnsweredOutcome(g, s1, u);
    }
  }

  /** After the first call, m's cycle root answers for m. */
  predicate RootAnswers(s: EvalState, m: nat)
    requires m < |s.nodes| && s.nodes[m].root < |s.caps|
  {
    s.nodes[m].color != Black || s.nodes[m].root == m || s.caps[s.nodes[m].root].Some?
  }

  lemma EntryIsItsOwnRoot(g: Graph, body: Body, s: EvalState, m: nat)
    requires g.Valid() && EvalInv(g, s) && m < g.Size() && g.cyclic[m] && s.nodes[m].color == White
    ensures Evaluate(g, body, s, m).0.nodes[m].root == m
  {
    hide Reach, Roots, LogFits, OkClosed;
    EvaluateKeeps(g, body, s, m);
    EvaluateWalk(g, body, s, m);
    var r := Visit(g, body, Idle(s), m, 0);
    if r.Done? {
      var w1 := Push(Idle(s), m, 0);
      var r1 := VisitAll(g, body, w1, m, g.deps[m], 1);
      var w2 := Record(r1.w, m, None);
      VisitAllKeepsEntryGrey(g, body, s, m);
      PopToKeeps(w2, m);
    }
  }

  lemma VisitAllKeepsEntryGrey(g: Graph, body: Body, s: EvalState, m: nat)
    requires g.Valid() && EvalInv(g, s) && m < g.Size() && g.cyclic[m] && s.nodes[m].color == White
    ensures IsGrey(VisitAll(g, body, Push(Idle(s), m, 0), m, g.deps[m], 1).w, m)
  {
    hide Reach, History, CapOk, LowLink, Settled, DepSettled, VisitAll, OkClosed;
    var i := Idle(s);
    PushKeeps(g, i, m, 0, [], {});
    assert g.deps[m][0..] == g.deps[m];
    assert [] + [0] == [0];
    assert {} + {m} == {m};
    var idx := VisitAllKeeps(g, body, Push(i, m, 0), m, 0, 1, [0], {m}, 0);
  }

  /** Calling Evaluate twice on a module gives the same promise exactly when, before the first call,
      the module was unevaluated, its own cycle root, or had a cycle root that was an entry itself. */
  lemma SamePromise(g: Graph, body: Body, body': Body, s: EvalState, m: nat)
    requires g.Valid() && EvalInv(g, s) && m < g.Size() && g.cyclic[m]
    ensures var (s1, p1) := Evaluate(g, body, s, m); var (s2, p2) := Evaluate(g, body', s1, m);
            p1.id == p2.id <==> RootAnswers(s, m)
  {
    hide Reach, Roots, LogFits, OkClosed;
    EvaluateKeeps(g, body, s, m);
    if s.nodes[m].color == White {
      EntryIsItsOwnRoot(g, body, s, m);
    }
  }

  // --- A graph on which the two promises differ ---

  /** Module 0 requests 1, and 1 and 2 request each other. */
  const ENTRY_AND_CYCLE := Graph([true, true, true], [[1], [2], [1]])

  /** After module 0 was evaluated, one of 1 and 2 is evaluated, is not its own cycle root, and has a
      cycle root without a promise: two calls of Evaluate on it give different promises. */
  lemma PromisesDiffer(body: Body, body': Body) returns (m: nat)
    ensures m == 1 || m == 2
    ensures var g := ENTRY_AND_CYCLE;
            g.Valid() && EvalInv(g, Evaluate(g, Succeeds(), Fresh(g), 0).0)
    ensures var g := ENTRY_AND_CYCLE;
            var s := Evaluate(g, Succeeds(), Fresh(g), 0).0;
            var (s1, p1) := Evaluate(g, body, s, m); var (s2, p2) := Evaluate(g, body', s1, m);
            !RootAnswers(s, m) && p1.id != p2.id
  {
    hide Visit, Reach;
    var g := ENTRY_AND_CYCLE;
    FreshInv(g);
    EvaluateKeeps(g, Succeeds(), Fresh(g), 0);
    var s := Evaluate(g, Succeeds(), Fresh(g), 0).0;
    EntryCycleEvaluated();
    CycleApart();
    assert s.caps[1].None? && s.caps[2].None?;
    assert RootOk(g, Idle(s), 1) && RootOk(g, Idle(s), 2) && SameRoot(g, Idle(s), 1, 2);
    m := if s.nodes[1].root == 1 then 2 else 1;
    SamePromise(g, body, body', s, m);
  }

  lemma EntryCycleEvaluated()
    ensures var g := ENTRY_AND_CYCLE;
            && g.Valid() && Sized(g, Fresh(g))
            && var w := Idle(Evaluate(g, Succeeds(), Fresh(g), 0).0);
               Ok(g, w, 1) && Ok(g, w, 2)
  {
    hide Visit;
    var g := ENTRY_AND_CYCLE;
    FreshInv(g);
    assert g.Edge(0, 1) && g.Edge(1, 2);
    ReachRefl(g, 0);
    ReachEdge(g, 0, 1);
    ReachEdge(g, 1, 2);
    ReachTrans(g, 0, 1, 2);
    assert Benign(g, Succeeds(), 0);
    VisitSucceeds(g, Succeeds(), Idle(Fresh(g)), 0, 0, 0);
    FulfilledReachesAll(g, Succeeds(), Fresh(g), 0, 1);
    FulfilledReachesAll(g, Succeeds(), Fresh(g), 0, 2);
  }

  /** Module 0 is not on the cycle of 1 and 2. */
  lemma CycleApart()
    ensures var g := ENTRY_AND_CYCLE;
            SameScc(g, 1, 2) && !SameScc(g, 1, 0) && !SameScc(g, 2, 0)
  {
    var g := ENTRY_AND_CYCLE;
    assert g.Edge(1, 2) && g.Edge(2, 1);
    ReachEdge(g, 1, 2);
    ReachEdge(g, 2, 1);
    if Reach(g, 1, 0) { ReachStaysInside(g, {1, 2}, 1, 0); }
    if Reach(g, 2, 0) { ReachStaysInside(g, {1, 2}, 2, 0); }
  }
}
