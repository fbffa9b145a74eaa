/** In which order a walk runs the bodies: the post-order of the dependency lists, from the first
    dependency to the last, up to the first failure. */
module ModuleOrder {
  import opened Sequences
  import opened Wrappers
  import opened Graphs
  import opened ModuleDfs
  import opened ModuleSuccess

  /** The bodies to run, the modules entered by then, and the recorded error that ends it, if any. */
  datatype Order = Order(ids: seq<nat>, entered: set<nat>, stop: Option<Error>)

  function Left(g: Graph, entered: set<nat>): set<nat> {
    set m | 0 <= m < g.Size() && m !in entered
  }

  /** Each module comes after its dependencies, in the order of its list; a Cyclic Module Record comes
      once, and one that has failed ends the order with its recorded error. */
  ghost function PostOrder(g: Graph, failed: map<nat, Error>, m: nat, entered: set<nat>): (r: Order)
    requires g.Valid() && m < g.Size()
    ensures entered <= r.entered
    decreases Left(g, entered), 0
  {
    if !g.cyclic[m] then Order([m], entered, None)
    else if m in failed then Order([], entered, Some(failed[m]))
    else if m in entered then Order([], entered, None)
    else
      assert m in Left(g, entered) && m !in Left(g, entered + {m});
      var r := PostOrderAll(g, failed, g.deps[m], entered + {m});
      if r.stop.Some? then r else r.(ids := r.ids + [m])
  }

  ghost function PostOrderAll(g: Graph, failed: map<nat, Error>, ds: seq<nat>, entered: set<nat>): (r: Order)
    requires g.Valid() && Below(ds, g.Size())
    ensures entered <= r.entered
    decreases Left(g, entered), 1 + |ds|
  {
    if ds == [] then Order([], entered, None)
    else
      var first := PostOrder(g, failed, ds[0], entered);
      if first.stop.Some? then first
      else
        assert Left(g, first.entered) < Left(g, entered) || Left(g, first.entered) == Left(g, entered);
        var rest := PostOrderAll(g, failed, ds[1..], first.entered);
        rest.(ids := first.ids + rest.ids)
  }

  /** Running the bodies in this order, the first as the n-th of the run, until one fails. */
  function Execute(body: Body, ids: seq<nat>, n: nat): (r: (seq<Event>, Option<Error>))
    ensures |r.0| <= |ids|
  {
    if ids == [] then ([], None)
    else
      var e := body(ids[0], n);
      if e.Some? then ([Event(ids[0], e)], e)
      else
        var rest := Execute(body, ids[1..], n + 1);
        ([Event(ids[0], None)] + rest.0, rest.1)
  }

  /** The bodies that ran are a prefix of the order, the whole of it unless one failed, and only the
      last can have failed. */
  lemma {:induction false} ExecutePrefix(body: Body, ids: seq<nat>, n: nat)
    ensures var (events, error) := Execute(body, ids, n);
            && (forall k :: 0 <= k < |events| ==>
                  events[k] == Event(ids[k], body(ids[k], n + k)) && (k < |events| - 1 ==> events[k].error.None?))
            && (error.None? ==> |events| == |ids| && forall k :: 0 <= k < |events| ==> events[k].error.None?)
            && (error.Some? ==> |events| > 0 && events[|events| - 1].error == error)
    decreases ids
  {
    if ids != [] && body(ids[0], n).None? {
      ExecutePrefix(body, ids[1..], n + 1);
    }
  }

  lemma {:induction false} ExecuteConcat(body: Body, a: seq<nat>, b: seq<nat>, n: nat)
    ensures var (events, error) := Execute(body, a, n);
            Execute(body, a + b, n) ==
            if error.Some? then (events, error)
            else
              var rest := Execute(body, b, n + |events|);
              (events + rest.0, rest.1)
    decreases a
  {
    if a == [] {
      assert a + b == b;
      assert [] + Execute(body, b, n).0 == Execute(body, b, n).0;
    } else {
      assert (a + b)[1..] == a[1..] + b;
      if body(a[0], n).None? {
        ExecuteConcat(body, a[1..], b, n + 1);
        var rest := Execute(body, a[1..], n + 1);
        if rest.1.None? {
          assert [Event(a[0], None)] + (rest.0 + Execute(body, b, n + 1 + |rest.0|).0)
              == ([Event(a[0], None)] + rest.0) + Execute(body, b, n + 1 + |rest.0|).0;
        }
      }
    }
  }

  function EnteredOf(g: Graph, w: Walk): set<nat> {
    set m | 0 <= m < |w.nodes| && m < |g.cyclic| && g.cyclic[m] && w.nodes[m].color != White
  }

  function FailedOf(g: Graph, w: Walk): map<nat, Error> {
    map m | 0 <= m < |w.nodes| && m < |g.cyclic| && g.cyclic[m] && w.nodes[m].color == Black
        && w.nodes[m].error.Some? :: w.nodes[m].error.value
  }

  /** Only finished modules have an error, and those without one have a cycle root without one. */
  predicate ErrorsSettled(g: Graph, w: Walk) {
    forall m :: 0 <= m < |w.nodes| && m < |g.cyclic| && g.cyclic[m] ==>
      && (w.nodes[m].color != Black ==> w.nodes[m].error.None?)
      && (w.nodes[m].color == Black && w.nodes[m].error.None? && w.nodes[m].root < |w.nodes| ==>
            w.nodes[w.nodes[m].root].error.None?)
  }

  predicate Regular(g: Graph, w: Walk) {
    Below(w.stack, |w.nodes|) && StackVisited(w) && ErrorsSettled(g, w)
  }

  /** What a visit makes of the log, and when and with what it fails. */
  ghost predicate RunsInOrder(g: Graph, body: Body, w: Walk, o: Order, r: Outcome) {
    var (events, error) := Execute(body, o.ids, |w.log|);
    && r.w.log == w.log + events
    && (r.Done? <==> error.None? && o.stop.None?)
    && (r.Failed? ==> Some(r.error) == if error.Some? then error else o.stop)
    && (r.Done? ==> EnteredOf(g, r.w) == o.entered)
    && Regular(g, r.w) && FailedOf(g, r.w) == FailedOf(g, w)
  }

  lemma PushRegular(g: Graph, w: Walk, m: nat, index: nat)
    requires g.Valid() && InRange(g, w) && m < g.Size() && g.cyclic[m] && w.nodes[m].color == White && Regular(g, w)
    ensures var w1 := Push(w, m, index);
            && Regular(g, w1) && FailedOf(g, w1) == FailedOf(g, w) && EnteredOf(g, w1) == EnteredOf(g, w) + {m}
            && w1.nodes[m].error.None?
  {
  }

  lemma FinishRegular(g: Graph, body: Body, w: Walk, m: nat, moduleIndex: nat, index: nat)
    requires g.Valid() && InRange(g, w) && m < g.Size() && Regular(g, w) && w.nodes[m].error.None?
    ensures var r := Finish(g, body, w, m, moduleIndex, index);
            && Regular(g, r.w) && FailedOf(g, r.w) == FailedOf(g, w) && EnteredOf(g, r.w) == EnteredOf(g, w)
            && r.w.log == w.log + [Event(m, body(m, |w.log|))]
            && r.Failed? == body(m, |w.log|).Some? && (r.Failed? ==> Some(r.error) == body(m, |w.log|))
  {
    hide PopTo;
    var w1 := Record(w, m, body(m, |w.log|));
    PopToVisited(w1, m);
    PopToKeeps(w1, m);
  }

  lemma AfterDepRegular(g: Graph, w: Walk, m: nat, d: nat, index: nat)
    requires g.Valid() && InRange(g, w) && m < g.Size() && d < g.Size() && Regular(g, w)
    requires g.cyclic[d] ==> w.nodes[d].color != White && w.nodes[d].error.None?
    ensures var s := AfterDep(g, w, m, d, index);
            s.Done? && s.w.log == w.log && Regular(g, s.w) && FailedOf(g, s.w) == FailedOf(g, w)
            && EnteredOf(g, s.w) == EnteredOf(g, w)
            && (forall i :: 0 <= i < |w.nodes| ==> s.w.nodes[i].error == w.nodes[i].error)
  {
  }

  /** A visit runs the bodies in post-order, from any point of a walk. */
  lemma {:induction false} VisitInOrder(g: Graph, body: Body, w: Walk, m: nat, index: nat)
    requires g.Valid() && InRange(g, w) && m < g.Size() && Regular(g, w)
    ensures RunsInOrder(g, body, w, PostOrder(g, FailedOf(g, w), m, EnteredOf(g, w)), Visit(g, body, w, m, index))
    decreases Whites(w), 0
  {
    hide FailedOf, EnteredOf, Regular, Finish;
    if !g.cyclic[m] {
      OneBody(g, body, w, m, index);
    } else if w.nodes[m].color != White {
      NoBody(g, body, w, m, index);
    } else {
      var w1 := Push(w, m, index);
      assert m in Whites(w) && m !in Whites(w1);
      PushRegular(g, w, m, index);
      VisitAllInOrder(g, body, w1, m, 0, index + 1);
      assert g.deps[m][0..] == g.deps[m];
      FreshModule(g, w, m);
      var r := VisitAll(g, body, w1, m, g.deps[m], index + 1);
      var o := PostOrderAll(g, FailedOf(g, w1), g.deps[m], EnteredOf(g, w1));
      if r.Done? {
        StaysClean(g, r.w, m, w1);
        FinishRegular(g, body, r.w, m, index, r.index);
        ThenBody(g, body, w, o, m, r, index);
      } else {
        FailsBefore(body, o, m, |w.log|);
      }
    }
  }

  lemma OneBody(g: Graph, body: Body, w: Walk, m: nat, index: nat)
    requires g.Valid() && InRange(g, w) && m < g.Size() && Regular(g, w) && !g.cyclic[m]
    ensures RunsInOrder(g, body, w, Order([m], EnteredOf(g, w), None), Visit(g, body, w, m, index))
  {
    assert [m][1..] == [];
    assert Execute(body, [], |w.log| + 1) == ([], None);
  }

  lemma NoBody(g: Graph, body: Body, w: Walk, m: nat, index: nat)
    requires g.Valid() && InRange(g, w) && m < g.Size() && Regular(g, w) && g.cyclic[m] && w.nodes[m].color != White
    ensures RunsInOrder(g, body, w, PostOrder(g, FailedOf(g, w), m, EnteredOf(g, w)), Visit(g, body, w, m, index))
  {
    assert w.log + [] == w.log;
  }

  lemma FreshModule(g: Graph, w: Walk, m: nat)
    requires InRange(g, w) && m < g.Size() && g.Valid() && w.nodes[m].color == White
    ensures m !in FailedOf(g, w) && m !in EnteredOf(g, w)
  {
  }

  /** A module that had not failed before a part of the walk has no error after it. */
  lemma StaysClean(g: Graph, r: Walk, m: nat, w: Walk)
    requires Regular(g, r) && FailedOf(g, r) == FailedOf(g, w) && m < |w.nodes| == |r.nodes|
    requires m < |g.cyclic| && g.cyclic[m] && w.nodes[m].error.None?
    ensures r.nodes[m].error.None?
  {
    assert m !in FailedOf(g, w);
  }

  lemma ThenBody(g: Graph, body: Body, w: Walk, o: Order, m: nat, r: Outcome, index: nat)
    requires g.Valid() && InRange(g, r.w) && m < g.Size() && r.Done?
    requires var (events, error) := Execute(body, o.ids, |w.log|); r.w.log == w.log + events && error.None?
    requires o.stop.None? && EnteredOf(g, r.w) == o.entered && FailedOf(g, r.w) == FailedOf(g, w)
    requires var f := Finish(g, body, r.w, m, index, r.index);
             && Regular(g, f.w) && FailedOf(g, f.w) == FailedOf(g, r.w) && EnteredOf(g, f.w) == EnteredOf(g, r.w)
             && f.w.log == r.w.log + [Event(m, body(m, |r.w.log|))]
             && f.Failed? == body(m, |r.w.log|).Some? && (f.Failed? ==> Some(f.error) == body(m, |r.w.log|))
    ensures RunsInOrder(g, body, w, o.(ids := o.ids + [m]), Finish(g, body, r.w, m, index, r.index))
  {
    hide Regular, FailedOf, EnteredOf, Finish;
    var events := Execute(body, o.ids, |w.log|).0;
    ExecuteConcat(body, o.ids, [m], |w.log|);
    assert [m][1..] == [] && Execute(body, [], |w.log| + |events| + 1) == ([], None);
    var e := body(m, |r.w.log|);
    assert (w.log + events) + [Event(m, e)] == w.log + (events + [Event(m, e)]);
  }

  /** What fails before m's body fails the same way with it. */
  lemma FailsBefore(body: Body, o: Order, m: nat, n: nat)
    requires Execute(body, o.ids, n).1.Some? || o.stop.Some?
    ensures o.stop.None? ==> Execute(body, o.ids + [m], n) == Execute(body, o.ids, n)
  {
    ExecuteConcat(body, o.ids, [m], n);
  }

  lemma {:induction false} VisitAllInOrder(g: Graph, body: Body, w: Walk, m: nat, k: nat, index: nat)
    requires g.Valid() && InRange(g, w) && m < g.Size() && Regular(g, w) && g.cyclic[m] && k <= |g.deps[m]|
    ensures Below(g.deps[m][k..], g.Size())
    ensures RunsInOrder(g, body, w, PostOrderAll(g, FailedOf(g, w), g.deps[m][k..], EnteredOf(g, w)),
              VisitAll(g, body, w, m, g.deps[m][k..], index))
    decreases Whites(w), 1 + |g.deps[m]| - k
  {
    hide FailedOf, EnteredOf, Regular, AfterDep, Visit;
    var ds := g.deps[m][k..];
    if ds == [] {
      assert w.log + [] == w.log;
    } else {
      var d := ds[0];
      assert ds[1..] == g.deps[m][k + 1..];
      VisitInOrder(g, body, w, d, index);
      var r := Visit(g, body, w, d, index);
      var first := PostOrder(g, FailedOf(g, w), d, EnteredOf(g, w));
      if r.Done? {
        NotFailed(g, body, w, d, index);
        AfterDepRegular(g, r.w, m, d, r.index);
        var s := AfterDep(g, r.w, m, d, r.index);
        assert Whites(s.w) < Whites(w) || Whites(s.w) == Whites(w);
        VisitAllInOrder(g, body, s.w, m, k + 1, s.index);
        var rest := PostOrderAll(g, FailedOf(g, w), ds[1..], first.entered);
        ThenRest(g, body, w, first, rest, s.w, VisitAll(g, body, s.w, m, ds[1..], s.index));
      } else if first.stop.None? {
        var rest := PostOrderAll(g, FailedOf(g, w), ds[1..], first.entered);
        ExecuteConcat(body, first.ids, rest.ids, |w.log|);
        FailedFirst(g, body, w, first, rest, r);
      }
    }
  }

  lemma NotFailed(g: Graph, body: Body, w: Walk, d: nat, index: nat)
    requires g.Valid() && InRange(g, w) && d < g.Size() && Regular(g, w) && Visit(g, body, w, d, index).Done?
    requires var r := Visit(g, body, w, d, index); Regular(g, r.w) && FailedOf(g, r.w) == FailedOf(g, w)
    ensures var r := Visit(g, body, w, d, index);
            g.cyclic[d] ==> r.w.nodes[d].color != White && r.w.nodes[d].error.None?
  {
    VisitLeavesWhite(g, body, w, d, index);
    var r := Visit(g, body, w, d, index);
    if g.cyclic[d] {
      assert d !in Whites(r.w);
      assert d !in FailedOf(g, w);
    }
  }

  lemma ThenRest(g: Graph, body: Body, w: Walk, first: Order, rest: Order, v: Walk, r: Outcome)
    requires var (events, error) := Execute(body, first.ids, |w.log|); v.log == w.log + events && error.None?
    requires first.stop.None? && FailedOf(g, v) == FailedOf(g, w) && RunsInOrder(g, body, v, rest, r)
    ensures RunsInOrder(g, body, w, rest.(ids := first.ids + rest.ids), r)
  {
    hide Regular, FailedOf, EnteredOf;
    var events := Execute(body, first.ids, |w.log|).0;
    ExecuteConcat(body, first.ids, rest.ids, |w.log|);
    var more := Execute(body, rest.ids, |v.log|).0;
    assert (w.log + events) + more == w.log + (events + more);
  }

  lemma FailedFirst(g: Graph, body: Body, w: Walk, first: Order, rest: Order, r: Outcome)
    requires RunsInOrder(g, body, w, first, r) && r.Failed? && first.stop.None?
    ensures RunsInOrder(g, body, w, rest.(ids := first.ids + rest.ids), r)
  {
    hide Regular, FailedOf, EnteredOf;
    ExecuteConcat(body, first.ids, rest.ids, |w.log|);
  }

  /** Without recorded errors nothing ends the order early. */
  lemma {:induction false} NeverStops(g: Graph, m: nat, entered: set<nat>)
    requires g.Valid() && m < g.Size()
    ensures PostOrder(g, map[], m, entered).stop.None?
    decreases Left(g, entered), 0
  {
    if g.cyclic[m] && m !in entered {
      assert m in Left(g, entered) && m !in Left(g, entered + {m});
      NoneStops(g, g.deps[m], entered + {m});
    }
  }

  lemma {:induction false} NoneStops(g: Graph, ds: seq<nat>, entered: set<nat>)
    requires g.Valid() && Below(ds, g.Size())
    ensures PostOrderAll(g, map[], ds, entered).stop.None?
    decreases Left(g, entered), 1 + |ds|
  {
    if ds != [] {
      NeverStops(g, ds[0], entered);
      var first := PostOrder(g, map[], ds[0], entered);
      assert Left(g, first.entered) < Left(g, entered) || Left(g, first.entered) == Left(g, entered);
      NoneStops(g, ds[1..], first.entered);
    }
  }
}
