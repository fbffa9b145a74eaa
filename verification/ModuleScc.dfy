/** Invariants of the walk of ModuleDfs: every pop removes exactly one strongly connected
    component, and finished modules only ever depend on finished modules. */
module ModuleScc {
  import opened Sequences
  import opened Graphs
  import opened ModuleDfs

  /** A Cyclic Module Record that finished without error. */
  predicate Ok(g: Graph, w: Walk, a: nat) {
    a < |w.nodes| && a < |g.cyclic| && g.cyclic[a] && w.nodes[a].color == Black && w.nodes[a].error.None?
  }

  predicate IsGrey(w: Walk, a: nat) {
    a < |w.nodes| && w.nodes[a].color == Grey
  }

  /** The stack is exactly the modules in progress. */
  predicate StackIsGrey(g: Graph, w: Walk) {
    && Distinct(w.stack)
    && (forall i :: 0 <= i < |w.stack| ==> IsGrey(w, w.stack[i]) && w.stack[i] < |g.cyclic| && g.cyclic[w.stack[i]])
    && (forall m :: 0 <= m < |w.nodes| && w.nodes[m].color == Grey ==> m in w.stack)
    && (forall m :: 0 <= m < |w.nodes| && w.nodes[m].color != Black ==> w.nodes[m].error.None?)
  }

  ghost predicate OkClosed(g: Graph, w: Walk) {
    forall a: nat, b: nat :: Ok(g, w, a) && g.Edge(a, b) ==> Ok(g, w, b)
  }

  ghost predicate Base(g: Graph, w: Walk) {
    InRange(g, w) && |g.cyclic| == g.Size() && StackIsGrey(g, w) && OkClosed(g, w)
  }

  /** The dependency d of the stacked module v is finished, or is on the stack no lower than the
      position that v's ancestor index names. */
  predicate DepSettled(g: Graph, w: Walk, idx: seq<nat>, v: nat, d: nat)
    requires v < |w.nodes| && |idx| == |w.stack|
  {
    Ok(g, w, d) || (IsGrey(w, d) && forall j :: 0 <= j < |w.stack| && w.stack[j] == d ==> w.nodes[v].anc <= idx[j])
  }

  /** idx[i] is the index with which the walk entered stack[i]; act are the modules whose
      dependency loop is still running. */
  ghost predicate LowLink(g: Graph, w: Walk, idx: seq<nat>, i: nat)
    requires InRange(g, w) && |idx| == |w.stack| && i < |idx|
  {
    exists j :: 0 <= j <= i && idx[j] == w.nodes[w.stack[i]].anc && Reach(g, w.stack[i], w.stack[j])
  }

  ghost predicate Settled(g: Graph, w: Walk, idx: seq<nat>, i: nat)
    requires InRange(g, w) && |idx| == |w.stack| && i < |idx|
  {
    && w.nodes[w.stack[i]].anc < idx[i]
    && forall d :: g.Edge(w.stack[i], d) ==> DepSettled(g, w, idx, w.stack[i], d)
  }

  ghost predicate Low(g: Graph, w: Walk, idx: seq<nat>, act: set<nat>, index: nat)
    requires InRange(g, w)
  {
    && |idx| == |w.stack|
    && (forall i, j :: 0 <= i < j < |idx| ==> idx[i] < idx[j])
    && (forall i :: 0 <= i < |idx| ==> idx[i] < index)
    && (forall i :: 0 <= i < |idx| ==> LowLink(g, w, idx, i))
    && (forall i :: 0 <= i < |idx| && w.stack[i] !in act ==> Settled(g, w, idx, i))
  }

  /** Every module still in its dependency loop is below, and reaches, the current module. */
  ghost predicate Active(g: Graph, w: Walk, act: set<nat>, m: nat) {
    forall a :: a in act ==> a in w.stack && Reach(g, a, m)
  }

  /** From position k on, the stack is a subtree of m. */
  ghost predicate Above(g: Graph, w: Walk, k: nat, m: nat)
    requires InRange(g, w)
  {
    forall i :: k <= i < |w.stack| ==>
      IsGrey(w, m) && Reach(g, m, w.stack[i]) && w.nodes[m].anc <= w.nodes[w.stack[i]].anc
  }

  /** w' continues w: the stack and finished modules of w are as they were, except that `but`
      may have a lower ancestor index. */
  predicate Continues(w: Walk, w': Walk, but: set<nat>) {
    && |w.nodes| == |w'.nodes|
    && w.stack <= w'.stack
    && w.log <= w'.log
    && (forall v :: 0 <= v < |w.nodes| && w.nodes[v].color != White && v !in but ==> w'.nodes[v] == w.nodes[v])
    && (forall v :: 0 <= v < |w.nodes| && v in but && w.nodes[v].color != White ==>
          w'.nodes[v] == w.nodes[v].(anc := w'.nodes[v].anc) && w'.nodes[v].anc <= w.nodes[v].anc)
    && (forall v :: 0 <= v < |w.nodes| ==> w'.nodes[v].error == w.nodes[v].error)
  }

  lemma PushBase(g: Graph, w: Walk, m: nat, index: nat)
    requires g.Valid() && Base(g, w)
    requires m < g.Size() && g.cyclic[m] && w.nodes[m].color == White
    ensures Base(g, Push(w, m, index))
  {
    var w' := Push(w, m, index);
    assert m !in w.stack;
    assert forall a :: Ok(g, w', a) ==> Ok(g, w, a);
    assert forall a :: Ok(g, w, a) ==> Ok(g, w', a);
    assert InRange(g, w');
    assert OkClosed(g, w');
  }

  lemma LowLinkStays(g: Graph, w: Walk, w': Walk, idx: seq<nat>, idx': seq<nat>, i: nat)
    requires InRange(g, w) && InRange(g, w') && |idx| == |w.stack| && |idx'| == |w'.stack| && idx <= idx'
        && w.stack <= w'.stack
    requires i < |idx| && LowLink(g, w, idx, i) && w'.nodes[w.stack[i]].anc == w.nodes[w.stack[i]].anc
    ensures LowLink(g, w', idx', i)
  {
    hide Reach;
    var j :| 0 <= j <= i && idx[j] == w.nodes[w.stack[i]].anc && Reach(g, w.stack[i], w.stack[j]);
    assert idx'[j] == w'.nodes[w'.stack[i]].anc && Reach(g, w'.stack[i], w'.stack[j]);
  }

  lemma LowLinkSelf(g: Graph, w: Walk, idx: seq<nat>, i: nat)
    requires InRange(g, w) && |idx| == |w.stack| && i < |idx| && w.nodes[w.stack[i]].anc == idx[i]
    ensures LowLink(g, w, idx, i)
  {
    ReachRefl(g, w.stack[i]);
  }

  lemma SettledStays(g: Graph, w: Walk, w': Walk, idx: seq<nat>, idx': seq<nat>, but: set<nat>, i: nat)
    requires Base(g, w) && Base(g, w') && Continues(w, w', but)
    requires |idx| == |w.stack| && |idx'| == |w'.stack| && idx <= idx'
    requires i < |idx| && w.stack[i] !in but && Settled(g, w, idx, i)
    ensures Settled(g, w', idx', i)
  {
    forall d | g.Edge(w.stack[i], d) ensures DepSettled(g, w', idx', w.stack[i], d) {
      DepStays(g, w, w', idx, idx', but, w.stack[i], d);
    }
  }

  lemma LowStays(g: Graph, w: Walk, w': Walk, idx: seq<nat>, idx': seq<nat>, but: set<nat>, act: set<nat>, index: nat)
    requires Base(g, w) && Base(g, w') && Continues(w, w', but) && Low(g, w, idx, act, index) && but <= act
    requires |idx'| == |w'.stack| && idx <= idx'
    ensures forall i :: 0 <= i < |idx| && w.stack[i] !in act ==> Settled(g, w', idx', i)
    ensures forall i :: 0 <= i < |idx| && w.stack[i] !in but ==> LowLink(g, w', idx', i)
  {
    hide Reach;
    forall i | 0 <= i < |idx| && w.stack[i] !in act ensures Settled(g, w', idx', i) {
      SettledStays(g, w, w', idx, idx', but, i);
    }
    forall i | 0 <= i < |idx| && w.stack[i] !in but ensures LowLink(g, w', idx', i) {
      LowLinkStays(g, w, w', idx, idx', i);
    }
  }

  lemma PushLow(g: Graph, w: Walk, m: nat, index: nat, idx: seq<nat>, act: set<nat>)
    requires g.Valid() && Base(g, w) && Low(g, w, idx, act, index)
    requires m < g.Size() && w.nodes[m].color == White && Base(g, Push(w, m, index))
        && Continues(w, Push(w, m, index), {})
    ensures Low(g, Push(w, m, index), idx + [index], act + {m}, index + 1)
  {
    hide Reach, LowLink, Settled, StackIsGrey, OkClosed, Continues;
    var w' := Push(w, m, index);
    var idx' := idx + [index];
    LowStays(g, w, w', idx, idx', {}, act, index);
    LowLinkSelf(g, w', idx', |idx|);
    forall i | 0 <= i < |idx'| ensures LowLink(g, w', idx', i) {
      assert i < |idx| ==> w.stack[i] !in {};
    }
    forall i | 0 <= i < |idx'| && w'.stack[i] !in act + {m} ensures Settled(g, w', idx', i) {
      assert w.stack[i] !in act;
    }
  }

  lemma PushContinues(g: Graph, w: Walk, m: nat, index: nat)
    requires g.Valid() && InRange(g, w) && m < g.Size() && w.nodes[m].color == White
    ensures Continues(w, Push(w, m, index), {})
  {
    var w' := Push(w, m, index);
    assert w'.stack == w.stack + [m] && w'.log == w.log;
    assert forall v :: 0 <= v < |w.nodes| && v != m ==> w'.nodes[v] == w.nodes[v];
  }

  lemma PushKeeps(g: Graph, w: Walk, m: nat, index: nat, idx: seq<nat>, act: set<nat>)
    requires g.Valid() && Base(g, w) && Low(g, w, idx, act, index) && Active(g, w, act, m)
    requires m < g.Size() && g.cyclic[m] && w.nodes[m].color == White
    ensures var w' := Push(w, m, index);
            && Base(g, w') && Low(g, w', idx + [index], act + {m}, index + 1)
            && Active(g, w', act + {m}, m) && Above(g, w', |w.stack|, m) && Continues(w, w', {})
  {
    hide Reach, LowLink, Settled, StackIsGrey, OkClosed, Low, Continues;
    PushBase(g, w, m, index);
    PushContinues(g, w, m, index);
    PushLow(g, w, m, index, idx, act);
    ReachRefl(g, m);
    BaseInRange(g, Push(w, m, index));
    AboveTop(g, Push(w, m, index), |w.stack|, m);
  }

  lemma AboveTop(g: Graph, w: Walk, k: nat, m: nat)
    requires InRange(g, w) && |w.stack| == k + 1 && w.stack[k] == m && IsGrey(w, m)
    ensures Above(g, w, k, m)
  {
    ReachRefl(g, m);
  }

  lemma LowerBase(g: Graph, w: Walk, m: nat, d: nat)
    requires Base(g, w) && IsGrey(w, m) && IsGrey(w, d)
    ensures Base(g, Lower(w, m, d)) && Continues(w, Lower(w, m, d), {m})
  {
    var w' := Lower(w, m, d);
    assert forall a :: Ok(g, w', a) ==> Ok(g, w, a);
    assert forall a :: Ok(g, w, a) ==> Ok(g, w', a);
    assert OkClosed(g, w');
  }

  lemma LowerLink(g: Graph, w: Walk, m: nat, d: nat, index: nat, idx: seq<nat>, act: set<nat>, p: nat)
    requires Base(g, w) && Low(g, w, idx, act, index)
    requires p < |w.stack| && w.stack[p] == m && g.Edge(m, d) && IsGrey(w, d)
    ensures LowLink(g, Lower(w, m, d), idx, p)
  {
    hide Reach;
    var w' := Lower(w, m, d);
    if w.nodes[m].anc <= w.nodes[d].anc {
      assert LowLink(g, w, idx, p);
      LowLinkStays(g, w, w', idx, idx, p);
    } else {
      var k :| 0 <= k < |w.stack| && w.stack[k] == d;
      assert LowLink(g, w, idx, k) && LowLink(g, w, idx, p);
      var j :| 0 <= j <= k && idx[j] == w.nodes[d].anc && Reach(g, d, w.stack[j]);
      var j0 :| 0 <= j0 <= p && idx[j0] == w.nodes[m].anc && Reach(g, m, w.stack[j0]);
      assert j < j0;
      ReachEdge(g, m, d);
      ReachTrans(g, m, d, w.stack[j]);
      assert idx[j] == w'.nodes[w'.stack[p]].anc && Reach(g, w'.stack[p], w'.stack[j]);
    }
  }

  lemma AncAtMostIdx(g: Graph, w: Walk, idx: seq<nat>, act: set<nat>, index: nat, i: nat)
    requires InRange(g, w) && Low(g, w, idx, act, index) && i < |idx|
    ensures w.nodes[w.stack[i]].anc <= idx[i]
  {
    hide Reach;
    assert LowLink(g, w, idx, i);
    var j :| 0 <= j <= i && idx[j] == w.nodes[w.stack[i]].anc && Reach(g, w.stack[i], w.stack[j]);
  }

  lemma LowerKeeps(g: Graph, w: Walk, m: nat, d: nat, index: nat, idx: seq<nat>, act: set<nat>, p: nat)
    requires g.Valid() && Base(g, w) && Low(g, w, idx, act, index)
    requires p < |w.stack| && w.stack[p] == m && m in act && g.Edge(m, d) && IsGrey(w, d)
    ensures var w' := Lower(w, m, d);
            && Base(g, w') && Low(g, w', idx, act, index)
            && Continues(w, w', {m}) && DepSettled(g, w', idx, m, d)
  {
    hide Reach;
    var w' := Lower(w, m, d);
    LowerBase(g, w, m, d);
    LowStays(g, w, w', idx, idx, {m}, act, index);
    LowerLink(g, w, m, d, index, idx, act, p);
    forall i | 0 <= i < |idx| ensures LowLink(g, w', idx, i) {
    }
    forall j | 0 <= j < |w'.stack| && w'.stack[j] == d ensures w'.nodes[m].anc <= idx[j] {
      AncAtMostIdx(g, w, idx, act, index, j);
    }
  }

  /** What is settled stays settled while the walk continues. */
  lemma DepStays(g: Graph, w: Walk, w': Walk, idx: seq<nat>, idx': seq<nat>, but: set<nat>, v: nat, d: nat)
    requires Base(g, w) && Base(g, w') && Continues(w, w', but)
    requires |idx| == |w.stack| && |idx'| == |w'.stack| && idx <= idx'
    requires v < |w.nodes| && w.nodes[v].color != White && DepSettled(g, w, idx, v, d)
    ensures DepSettled(g, w', idx', v, d)
  {
    assert w'.nodes[v].anc <= w.nodes[v].anc;
    if Ok(g, w, d) {
      assert w'.nodes[d].color == Black;
    } else {
      forall j | 0 <= j < |w'.stack| && w'.stack[j] == d ensures w'.nodes[v].anc <= idx'[j] {
        var j0 :| 0 <= j0 < |w.stack| && w.stack[j0] == d;
        assert w'.stack[j0] == d;
        assert j == j0;
      }
    }
  }

  /** w' is w without the stack from position p on, whose modules finished with root m. */
  predicate Popped(w: Walk, w': Walk, m: nat, p: nat)
    requires p <= |w.stack|
  {
    && |w'.nodes| == |w.nodes| && w'.stack == w.stack[..p]
    && forall v :: 0 <= v < |w.nodes| ==>
         w'.nodes[v] == if v in w.stack[p..] then w.nodes[v].(color := Black, root := m) else w.nodes[v]
  }

  /** PopTo removes the stack from m's position on. */
  lemma {:induction false} PopToSegment(w: Walk, m: nat, p: nat)
    requires Below(w.stack, |w.nodes|) && Distinct(w.stack) && p < |w.stack| && w.stack[p] == m
    ensures Popped(w, PopTo(w, m), m, p)
    decreases |w.stack|
  {
    var n := |w.stack| - 1;
    var w1 := PopOne(w, m);
    assert PopTo(w, m) == if w.stack[n] == m then w1 else PopTo(w1, m);
    hide PopTo;
    if w.stack[n] == m {
      assert p == n;
      PoppedOne(w, m);
    } else {
      PopToSegment(w1, m, p);
      PoppedMore(w, PopTo(w1, m), m, p);
    }
  }

  lemma PoppedOne(w: Walk, m: nat)
    requires Below(w.stack, |w.nodes|) && w.stack != []
    ensures Popped(w, PopOne(w, m), m, |w.stack| - 1)
  {
    assert w.stack[|w.stack| - 1..] == [w.stack[|w.stack| - 1]];
  }

  lemma PoppedMore(w: Walk, w': Walk, m: nat, p: nat)
    requires Below(w.stack, |w.nodes|) && Distinct(w.stack) && p < |w.stack| - 1
    requires Popped(PopOne(w, m), w', m, p)
    ensures Popped(w, w', m, p)
  {
    var n := |w.stack| - 1;
    var w1 := PopOne(w, m);
    SegmentLast(w.stack, p);
    assert w1.stack[p..] == w.stack[p..n] && w1.stack[..p] == w.stack[..p];
    forall v | 0 <= v < |w.nodes|
      ensures w'.nodes[v] == if v in w.stack[p..] then w.nodes[v].(color := Black, root := m) else w.nodes[v]
    {
      if v == w.stack[n] { assert v !in w1.stack[p..]; }
    }
  }

  lemma SegmentLast(s: seq<nat>, p: nat)
    requires Distinct(s) && p < |s|
    ensures var n := |s| - 1;
            && (forall v :: v in s[p..] <==> v in s[p..n] || v == s[n])
            && s[n] !in s[p..n]
            && (s[p] == s[n] ==> p == n && s[p..n] == [])
  {
    assert s[p..] == s[p..|s| - 1] + [s[|s| - 1]];
  }

  /** No module of m's segment depends on a module below it. */
  lemma SegmentClosed(g: Graph, w: Walk, idx: seq<nat>, act: set<nat>, m: nat, p: nat, index: nat, i: nat, d: nat)
    requires Base(g, w) && Low(g, w, idx, act + {m}, index)
    requires p <= i < |w.stack| && w.stack[p] == m && w.nodes[m].anc == idx[p]
    requires Above(g, w, p, m) && forall k :: p <= k < |w.stack| ==> w.stack[k] !in act
    requires forall d :: g.Edge(m, d) ==> DepSettled(g, w, idx, m, d)
    requires g.Edge(w.stack[i], d)
    ensures Ok(g, w, d) || d in w.stack[p..]
  {
    hide Reach;
    var v := w.stack[i];
    if v != m {
      assert v !in act + {m};
      assert Settled(g, w, idx, i);
    }
    assert DepSettled(g, w, idx, v, d);
    if !Ok(g, w, d) {
      var j :| 0 <= j < |w.stack| && w.stack[j] == d;
      assert idx[p] <= w.nodes[v].anc <= idx[j];
      assert p <= j;
      assert w.stack[p..][j - p] == d;
    }
  }

  /** After the pop, exactly m's segment has been added to the finished modules. */
  lemma PopOk(g: Graph, w: Walk, m: nat, p: nat)
    requires g.Valid() && InRange(g, w) && |g.cyclic| == g.Size() && StackIsGrey(g, w) && p < |w.stack|
        && w.stack[p] == m
    ensures InRange(g, PopTo(w, m)) && PopTo(w, m).stack == w.stack[..p] && StackIsGrey(g, PopTo(w, m))
    ensures forall v :: Ok(g, PopTo(w, m), v) <==> Ok(g, w, v) || v in w.stack[p..]
  {
    var w' := PopTo(w, m);
    PopToFrame(g, w, m);
    PopToSegment(w, m, p);
    StackAfterPop(g, w, w', p);
    forall v | v in w.stack[p..] ensures Ok(g, w', v) {
      InSegment(w.stack, p, v);
    }
  }

  lemma InSegment(s: seq<nat>, p: nat, v: nat)
    requires p <= |s| && v in s[p..]
    ensures exists i :: p <= i < |s| && s[i] == v
  {
    var i :| 0 <= i < |s| - p && s[p..][i] == v;
    assert s[p + i] == v;
  }

  lemma PopBase(g: Graph, w: Walk, idx: seq<nat>, act: set<nat>, m: nat, p: nat, index: nat)
    requires g.Valid() && Base(g, w) && Low(g, w, idx, act + {m}, index)
    requires p < |w.stack| && w.stack[p] == m && w.nodes[m].anc == idx[p]
    requires Above(g, w, p, m) && forall k :: p <= k < |w.stack| ==> w.stack[k] !in act
    requires forall d :: g.Edge(m, d) ==> DepSettled(g, w, idx, m, d)
    ensures Base(g, PopTo(w, m)) && PopTo(w, m).stack == w.stack[..p]
    ensures forall v :: Ok(g, PopTo(w, m), v) <==> Ok(g, w, v) || v in w.stack[p..]
  {
    hide Reach, StackIsGrey, LowLink, Settled, DepSettled, PopTo, Above, Low, Ok;
    var w' := PopTo(w, m);
    PopOk(g, w, m, p);
    forall a: nat, b: nat | Ok(g, w', a) && g.Edge(a, b) ensures Ok(g, w', b) {
      if !Ok(g, w, a) {
        InSegment(w.stack, p, a);
        var i :| p <= i < |w.stack| && w.stack[i] == a;
        SegmentClosed(g, w, idx, act, m, p, index, i, b);
      }
    }
  }

  lemma LowerPartDistinct(s: seq<nat>, p: nat)
    requires Distinct(s) && p <= |s|
    ensures forall i :: 0 <= i < p ==> s[i] !in s[p..]
  {
  }

  lemma StackAfterPop(g: Graph, w: Walk, w': Walk, p: nat)
    requires InRange(g, w) && InRange(g, w') && StackIsGrey(g, w) && p < |w.stack| && w'.stack == w.stack[..p]
    requires forall v :: 0 <= v < |w.nodes| && v !in w.stack[p..] ==> w'.nodes[v] == w.nodes[v]
    requires forall v :: 0 <= v < |w.nodes| && v in w.stack[p..] ==> w'.nodes[v].color == Black
    ensures StackIsGrey(g, w')
  {
    LowerPartDistinct(w.stack, p);
    forall m | 0 <= m < |w'.nodes| && w'.nodes[m].color == Grey ensures m in w'.stack {
      assert m in w.stack;
      assert w.stack == w.stack[..p] + w.stack[p..];
    }
  }

  /** Dropping everything from p on keeps what Low says of the rest. */
  lemma PopLow(g: Graph, w: Walk, w': Walk, idx: seq<nat>, act: set<nat>, m: nat, p: nat, index: nat)
    requires Base(g, w) && Base(g, w') && Low(g, w, idx, act + {m}, index)
    requires p < |w.stack| && w.stack[p] == m && w'.stack == w.stack[..p]
    requires forall i :: 0 <= i < p ==> w'.nodes[w.stack[i]] == w.nodes[w.stack[i]]
    requires forall v :: Ok(g, w, v) ==> Ok(g, w', v)
    requires forall i :: p <= i < |w.stack| ==> Ok(g, w', w.stack[i])
    ensures Low(g, w', idx[..p], act, index)
  {
    hide Reach, LowLink, DepSettled, OkClosed;
    var idx' := idx[..p];
    forall i | 0 <= i < p ensures LowLink(g, w', idx', i) {
      LowLinkBelow(g, w, w', idx, p, i);
    }
    forall i | 0 <= i < p && w'.stack[i] !in act ensures Settled(g, w', idx', i) {
      assert Settled(g, w, idx, i);
      forall d | g.Edge(w'.stack[i], d) ensures DepSettled(g, w', idx', w'.stack[i], d) {
        SettledBelow(g, w, w', idx, p, w.stack[i], d);
      }
    }
  }

  lemma LowLinkBelow(g: Graph, w: Walk, w': Walk, idx: seq<nat>, p: nat, i: nat)
    requires InRange(g, w) && InRange(g, w') && |idx| == |w.stack| && p <= |w.stack| && w'.stack == w.stack[..p]
    requires i < p && LowLink(g, w, idx, i) && w'.nodes[w.stack[i]] == w.nodes[w.stack[i]]
    ensures LowLink(g, w', idx[..p], i)
  {
    hide Reach;
    var idx' := idx[..p];
    var j :| 0 <= j <= i && idx[j] == w.nodes[w.stack[i]].anc && Reach(g, w.stack[i], w.stack[j]);
    assert idx'[j] == w'.nodes[w'.stack[i]].anc && Reach(g, w'.stack[i], w'.stack[j]);
  }

  lemma SettledBelow(g: Graph, w: Walk, w': Walk, idx: seq<nat>, p: nat, v: nat, d: nat)
    requires InRange(g, w) && InRange(g, w') && StackIsGrey(g, w) && |idx| == |w.stack| && p <= |w.stack|
        && w'.stack == w.stack[..p]
    requires forall i :: 0 <= i < p ==> w'.nodes[w.stack[i]] == w.nodes[w.stack[i]]
    requires forall v :: Ok(g, w, v) ==> Ok(g, w', v)
    requires forall i :: p <= i < |w.stack| ==> Ok(g, w', w.stack[i])
    requires v < |w.nodes| && w'.nodes[v] == w.nodes[v] && DepSettled(g, w, idx, v, d)
    ensures DepSettled(g, w', idx[..p], v, d)
  {
    if !Ok(g, w, d) {
      var j :| 0 <= j < |w.stack| && w.stack[j] == d;
      if j < p {
        assert IsGrey(w', d);
      }
    }
  }

  lemma FinishPop(g: Graph, w: Walk, m: nat, index: nat, idx: seq<nat>, act: set<nat>, p: nat)
    requires g.Valid() && Base(g, w) && Low(g, w, idx, act + {m}, index)
    requires p < |w.stack| && w.stack[p] == m && w.nodes[m].anc == idx[p]
    requires Above(g, w, p, m) && forall k :: p <= k < |w.stack| ==> w.stack[k] !in act
    requires forall d :: g.Edge(m, d) ==> DepSettled(g, w, idx, m, d)
    ensures var w' := PopTo(w, m);
            && Base(g, w') && Low(g, w', idx[..p], act, index) && w'.stack == w.stack[..p] && Ok(g, w', m)
            && (forall v :: 0 <= v < |w.nodes| && v !in w.stack[p..] ==> w'.nodes[v] == w.nodes[v])
            && (forall v :: 0 <= v < |w.nodes| ==> w'.nodes[v].error == w.nodes[v].error)
  {
    hide Reach, Above, Low, DepSettled, PopTo, OkClosed;
    var w' := PopTo(w, m);
    PopBase(g, w, idx, act, m, p, index);
    PopToSegment(w, m, p);
    forall i | p <= i < |w.stack| ensures w.stack[i] in w.stack[p..] {
      assert w.stack[i] == w.stack[p..][i - p];
    }
    LowerPartDistinct(w.stack, p);
    PopLow(g, w, w', idx, act, m, p, index);
  }

  /** A module that is not the first of its component joins the settled part of the stack. */
  lemma FinishStay(g: Graph, w: Walk, m: nat, index: nat, idx: seq<nat>, act: set<nat>, p: nat)
    requires InRange(g, w) && Low(g, w, idx, act + {m}, index) && Distinct(w.stack)
    requires p < |w.stack| && w.stack[p] == m && w.nodes[m].anc != idx[p]
    requires forall d :: g.Edge(m, d) ==> DepSettled(g, w, idx, m, d)
    ensures Low(g, w, idx, act, index)
  {
    hide Reach, DepSettled;
    AncAtMostIdx(g, w, idx, act + {m}, index, p);
    forall i | 0 <= i < |idx| && w.stack[i] !in act ensures Settled(g, w, idx, i) {
      if i != p {
        assert w.stack[i] !in act + {m};
      }
    }
  }

  /** The log is no part of the invariant. */
  lemma LogKeeps(g: Graph, w: Walk, w1: Walk, idx: seq<nat>, act: set<nat>, index: nat)
    requires Base(g, w) && Low(g, w, idx, act, index) && w1 == w.(log := w1.log)
    ensures Base(g, w1) && Low(g, w1, idx, act, index)
    ensures forall v, d :: 0 <= v < |w.nodes| && DepSettled(g, w, idx, v, d) ==> DepSettled(g, w1, idx, v, d)
  {
    hide Reach;
    assert forall a :: Ok(g, w, a) ==> Ok(g, w1, a);
    assert forall a :: Ok(g, w1, a) ==> Ok(g, w, a);
    assert forall a :: IsGrey(w, a) <==> IsGrey(w1, a);
    assert OkClosed(g, w1);
    forall v, d | 0 <= v < |w.nodes| && DepSettled(g, w, idx, v, d) ensures DepSettled(g, w1, idx, v, d) {
    }
    forall i | 0 <= i < |idx| ensures LowLink(g, w1, idx, i) {
      LowLinkStays(g, w, w1, idx, idx, i);
    }
    forall i | 0 <= i < |idx| && w1.stack[i] !in act ensures Settled(g, w1, idx, i) {
      assert Settled(g, w, idx, i);
    }
  }

  /** The visit of m was entered in w, pushed m (w1), went through m's dependencies (w2) and now
      finishes. */
  ghost predicate Entered(g: Graph, w: Walk, w2: Walk, m: nat, index: nat, idx: seq<nat>, idx2: seq<nat>,
      act: set<nat>, index2: nat) {
    && g.Valid() && m < g.Size() && g.cyclic[m] && Base(g, w) && w.nodes[m].color == White && |idx| == |w.stack|
    && (forall a :: a in act ==> a in w.stack)
    && Base(g, w2) && Continues(Push(w, m, index), w2, {m})
    && Low(g, w2, idx2, act + {m}, index2) && idx + [index] <= idx2
    && Above(g, w2, |w.stack|, m)
    && (forall d :: g.Edge(m, d) ==> DepSettled(g, w2, idx2, m, d))
  }

  lemma ActiveBelow(g: Graph, w: Walk, w2: Walk, m: nat, act: set<nat>)
    requires StackIsGrey(g, w2) && w.stack + [m] <= w2.stack && forall a :: a in act ==> a in w.stack
    requires m !in w.stack
    ensures forall k :: |w.stack| <= k < |w2.stack| ==> w2.stack[k] !in act
  {
    assert w2.stack[|w.stack|] == m;
    forall k | |w.stack| <= k < |w2.stack| ensures w2.stack[k] !in act {
      assert forall i :: 0 <= i < |w.stack| ==> w.stack[i] == w2.stack[i];
    }
  }

  lemma FinishKeeps(g: Graph, body: Body, w: Walk, w2: Walk, m: nat, index: nat, idx: seq<nat>, idx2: seq<nat>,
      act: set<nat>, index2: nat)
    returns (idx': seq<nat>)
    requires Entered(g, w, w2, m, index, idx, idx2, act, index2)
    ensures var r := Finish(g, body, w2, m, index, index2);
            && Base(g, r.w) && Continues(w, r.w, {})
            && (r.Done? ==> Low(g, r.w, idx', act, r.index) && idx <= idx' && Above(g, r.w, |w.stack|, m)
                            && (IsGrey(r.w, m) || Ok(g, r.w, m)))
  {
    hide Reach, LowLink, Settled, DepSettled, Low, Above, StackIsGrey, OkClosed, PopTo;
    var e := body(m, |w2.log|);
    var w3 := Record(w2, m, e);
    idx' := idx2;
    EnteredRecord(g, w, w2, w3, m, index, idx, idx2, act, index2);
    if e.None? {
      if w3.nodes[m].anc == index {
        idx' := idx2[..|w.stack|];
        FinishPopKeeps(g, w, w3, m, index, idx, idx2, act, index2);
      } else {
        FinishStayKeeps(g, w, w3, m, index, idx, idx2, act, index2);
      }
    }
  }

  lemma EnteredRecord(g: Graph, w: Walk, w2: Walk, w3: Walk, m: nat, index: nat, idx: seq<nat>, idx2: seq<nat>,
      act: set<nat>, index2: nat)
    requires Entered(g, w, w2, m, index, idx, idx2, act, index2) && w3 == w2.(log := w3.log) && w2.log <= w3.log
    ensures Entered(g, w, w3, m, index, idx, idx2, act, index2) && Continues(w, w3, {})
  {
    hide Reach, LowLink, Settled, DepSettled;
    LogKeeps(g, w2, w3, idx2, act + {m}, index2);
  }

  lemma FinishPopKeeps(g: Graph, w: Walk, w3: Walk, m: nat, index: nat, idx: seq<nat>, idx2: seq<nat>,
      act: set<nat>, index2: nat)
    requires Entered(g, w, w3, m, index, idx, idx2, act, index2) && w3.nodes[m].anc == index
    ensures var w' := PopTo(w3, m); var idx' := idx2[..|w.stack|];
            && Base(g, w') && Continues(w, w', {})
            && Low(g, w', idx', act, index2) && idx <= idx' && Above(g, w', |w.stack|, m) && Ok(g, w', m)
  {
    hide Reach, LowLink, Settled, DepSettled, PopTo, OkClosed;
    var p := |w.stack|;
    assert m !in w.stack;
    assert w3.stack[p] == m && idx2[p] == index;
    ActiveBelow(g, w, w3, m, act);
    FinishPop(g, w3, m, index2, idx2, act, p);
    PopToFrame(g, w3, m);
    FinishPopContinues(w, w3, PopTo(w3, m), m, index);
    var w' := PopTo(w3, m);
    assert |w'.stack| == p;
    assert Above(g, w', p, m);
    assert idx2[..p] == idx;
  }

  lemma FinishStayKeeps(g: Graph, w: Walk, w3: Walk, m: nat, index: nat, idx: seq<nat>, idx2: seq<nat>,
      act: set<nat>, index2: nat)
    requires Entered(g, w, w3, m, index, idx, idx2, act, index2) && w3.nodes[m].anc != index
    ensures Low(g, w3, idx2, act, index2) && idx <= idx2 && Above(g, w3, |w.stack|, m) && IsGrey(w3, m)
  {
    hide Reach, LowLink, Settled, DepSettled;
    var p := |w.stack|;
    assert w3.stack[p] == m && idx2[p] == index;
    FinishStay(g, w3, m, index2, idx2, act, p);
  }

  lemma FinishPopContinues(w: Walk, w2: Walk, w': Walk, m: nat, index: nat)
    requires m < |w.nodes| && w.nodes[m].color == White && Continues(Push(w, m, index), w2, {m})
    requires Distinct(w2.stack) && (forall i :: 0 <= i < |w2.stack| ==> IsGrey(w2, w2.stack[i]))
    requires forall v :: 0 <= v < |w.nodes| && w.nodes[v].color == Grey ==> v in w.stack
    requires |w'.nodes| == |w2.nodes| && w'.stack == w2.stack[..|w.stack|] && w2.log <= w'.log
    requires forall v :: 0 <= v < |w2.nodes| && v !in w2.stack[|w.stack|..] ==> w'.nodes[v] == w2.nodes[v]
    requires forall v :: 0 <= v < |w2.nodes| ==> w'.nodes[v].error == w2.nodes[v].error
    ensures Continues(w, w', {})
  {
    LowerPartDistinct(w2.stack, |w.stack|);
    forall v | 0 <= v < |w.nodes| && w.nodes[v].color != White ensures w'.nodes[v] == w.nodes[v] {
      assert w2.nodes[v] == w.nodes[v];
      if w.nodes[v].color == Grey {
        var i :| 0 <= i < |w.stack| && w.stack[i] == v;
        assert w2.stack[i] == v;
      }
    }
  }

  /** The invariant is kept by the visit of one module. */
  lemma {:induction false} VisitKeeps(g: Graph, body: Body, w: Walk, m: nat, index: nat, idx: seq<nat>, act: set<nat>)
    returns (idx': seq<nat>)
    requires g.Valid() && Base(g, w) && Low(g, w, idx, act, index) && m < g.Size() && (g.cyclic[m] ==>
                                        Active(g, w, act, m))
    ensures var r := Visit(g, body, w, m, index);
            && Base(g, r.w) && Continues(w, r.w, {})
            && (r.Failed? && g.cyclic[m] && w.nodes[m].color == White ==> w.stack + [m] <= r.w.stack)
            && (r.Done? ==> Low(g, r.w, idx', act, r.index) && idx <= idx' && Above(g, r.w, |w.stack|, m)
                            && (g.cyclic[m] ==> IsGrey(r.w, m) || Ok(g, r.w, m)))
    decreases Whites(w), 0
  {
    hide Reach, DepSettled, Settled, LowLink, Low, Above, Continues, Base;
    idx' := idx;
    BaseInRange(g, w);
    if g.cyclic[m] && w.nodes[m].color == White {
      var w1 := Push(w, m, index);
      PushKeeps(g, w, m, index, idx, act);
      assert m in Whites(w) && m !in Whites(w1);
      assert g.deps[m][0..] == g.deps[m];
      LowLength(g, w, idx, act, index);
      assert w1.stack[|w.stack|] == m;
      idx' := VisitAllKeeps(g, body, w1, m, 0, index + 1, idx + [index], act + {m}, |w.stack|);
      var r := VisitAll(g, body, w1, m, g.deps[m], index + 1);
      if r.Done? {
        MakeEntered(g, w, r.w, m, index, idx, idx', act, r.index);
        idx' := FinishKeeps(g, body, w, r.w, m, index, idx, idx', act, r.index);
      }
      PushedContinues(w, r.w, m, index);
      VisitFailStack(g, body, w, w1, m, index, r);
    } else {
      VisitNothing(g, body, w, m, index, idx, act);
    }
  }

  lemma PushedContinues(w: Walk, w2: Walk, m: nat, index: nat)
    requires m < |w.nodes| && w.nodes[m].color == White && Continues(Push(w, m, index), w2, {m})
    ensures Continues(w, w2, {})
  {
    var w1 := Push(w, m, index);
    assert w.stack <= w1.stack;
  }

  lemma BaseInRange(g: Graph, w: Walk)
    requires Base(g, w)
    ensures InRange(g, w)
  {
  }

  lemma LowLength(g: Graph, w: Walk, idx: seq<nat>, act: set<nat>, index: nat)
    requires InRange(g, w) && Low(g, w, idx, act, index)
    ensures |idx| == |w.stack|
  {
  }

  lemma MakeEntered(g: Graph, w: Walk, w2: Walk, m: nat, index: nat, idx: seq<nat>, idx2: seq<nat>, act: set<nat>,
      index2: nat)
    requires g.Valid() && m < g.Size() && g.cyclic[m] && Base(g, w) && w.nodes[m].color == White && |idx| == |w.stack|
    requires Active(g, w, act, m) && Base(g, w2) && Continues(Push(w, m, index), w2, {m})
    requires Low(g, w2, idx2, act + {m}, index2) && idx + [index] <= idx2 && Above(g, w2, |w.stack|, m)
    requires forall j :: 0 <= j < |g.deps[m]| && g.cyclic[g.deps[m][j]] ==> DepSettled(g, w2, idx2, m, g.deps[m][j])
    ensures Entered(g, w, w2, m, index, idx, idx2, act, index2)
  {
    hide Reach, DepSettled, Settled, LowLink, Above, Continues;
  }

  /** If the dependency loop fails, m is still on the stack, above everything it found there. */
  lemma VisitFailStack(g: Graph, body: Body, w: Walk, w1: Walk, m: nat, index: nat, r: Outcome)
    requires g.Valid() && InRange(g, w) && m < g.Size() && g.cyclic[m] && w.nodes[m].color == White
        && w1 == Push(w, m, index)
    requires r == VisitAll(g, body, w1, m, g.deps[m], index + 1)
    ensures Visit(g, body, w, m, index).Failed? ==> w.stack + [m] <= Visit(g, body, w, m, index).w.stack
  {
    VisitAllStack(g, body, w1, m, g.deps[m], index + 1);
    assert w1.stack == w.stack + [m] && w1.stack <= r.w.stack;
  }

  /** The visits that return at once. */
  lemma VisitNothing(g: Graph, body: Body, w: Walk, m: nat, index: nat, idx: seq<nat>, act: set<nat>)
    requires g.Valid() && Base(g, w) && Low(g, w, idx, act, index) && m < g.Size()
        && (!g.cyclic[m] || w.nodes[m].color != White)
    ensures var r := Visit(g, body, w, m, index);
            && Base(g, r.w) && Continues(w, r.w, {})
            && (r.Done? ==> Low(g, r.w, idx, act, r.index) && Above(g, r.w, |w.stack|, m)
                            && (g.cyclic[m] ==> IsGrey(r.w, m) || Ok(g, r.w, m)))
  {
    hide Reach, DepSettled, Settled, LowLink, OkClosed;
    if !g.cyclic[m] {
      var w1 := Record(w, m, body(m, |w.log|));
      LogKeeps(g, w, w1, idx, act, index);
      assert w.log <= w1.log && w1.stack == w.stack && w1.nodes == w.nodes;
    }
  }

  lemma {:induction false} VisitAllKeeps(g: Graph, body: Body, w: Walk, m: nat, k: nat, index: nat, idx: seq<nat>,
      act: set<nat>, p: nat)
    returns (idx': seq<nat>)
    requires g.Valid() && Base(g, w) && Low(g, w, idx, act, index) && Active(g, w, act, m) && m < g.Size()
        && g.cyclic[m]
    requires k <= |g.deps[m]| && p < |w.stack| && w.stack[p] == m && m in act && Above(g, w, p, m)
    requires forall j :: 0 <= j < k && g.cyclic[g.deps[m][j]] ==> DepSettled(g, w, idx, m, g.deps[m][j])
    ensures var r := VisitAll(g, body, w, m, g.deps[m][k..], index);
            && Base(g, r.w) && Continues(w, r.w, {m})
            && (r.Done? ==> Low(g, r.w, idx', act, r.index) && idx <= idx' && Above(g, r.w, p, m)
                            && forall j :: 0 <= j < |g.deps[m]| && g.cyclic[g.deps[m][j]] ==>
                                 DepSettled(g, r.w, idx', m, g.deps[m][j]))
    decreases Whites(w), 1 + |g.deps[m]| - k
  {
    hide Reach, DepSettled, Settled, LowLink, Low, Above, Continues, Base, Active;
    var ds := g.deps[m];
    idx' := idx;
    BaseInRange(g, w);
    LowLength(g, w, idx, act, index);
    if k < |ds| {
      var d := ds[k];
      assert ds[k..][0] == d && ds[k..][1..] == ds[k + 1..];
      if g.cyclic[d] {
        ActiveForDep(g, w, act, m, d);
      }
      idx' := VisitKeeps(g, body, w, d, index, idx, act);
      var r := Visit(g, body, w, d, index);
      if r.Done? {
        DepKeeps(g, w, r.w, m, k, r.index, idx, idx', act, p);
        var s := AfterDep(g, r.w, m, d, r.index);
        if s.Done? {
          assert Whites(s.w) < Whites(w) || Whites(s.w) == Whites(w);
          var idx1 := idx';
          AfterDepStack(g, w, s.w, m, act, p);
          idx' := VisitAllKeeps(g, body, s.w, m, k + 1, s.index, idx1, act, p);
          var t := VisitAll(g, body, s.w, m, ds[k + 1..], s.index);
          GreyAt(g, w, p);
          ContinuesTrans(w, s.w, t.w, {m}, {m});
          assert {m} + {m} == {m};
        }
      } else {
        ContinuesMore(w, r.w, m);
      }
    } else {
      assert ds[k..] == [];
      ContinuesRefl(w, m);
    }
  }

  lemma GreyAt(g: Graph, w: Walk, p: nat)
    requires Base(g, w) && p < |w.stack|
    ensures IsGrey(w, w.stack[p])
  {
  }

  /** After a dependency was visited and compared, the stack above m is still m's subtree. */
  lemma AboveAfterDep(g: Graph, w: Walk, w1: Walk, w2: Walk, m: nat, d: nat, p: nat)
    requires Base(g, w) && Base(g, w1) && InRange(g, w2) && Continues(w, w1, {}) && IsGrey(w, m) && m < g.Size()
        && g.cyclic[m]
    requires p <= |w.stack| && Above(g, w, p, m) && Above(g, w1, |w.stack|, d)
    requires d < g.Size() && d in g.deps[m]
    requires w2 == if IsGrey(w1, d) then Lower(w1, m, d) else w1
    ensures Above(g, w2, p, m)
  {
    hide Reach;
    forall i | p <= i < |w2.stack| ensures Reach(g, m, w2.stack[i]) && w2.nodes[m].anc <= w2.nodes[w2.stack[i]].anc {
      if i < |w.stack| {
        assert w2.stack[i] == w.stack[i];
      } else {
        var k :| 0 <= k < |w1.stack| && w1.stack[k] == d;
        ReachEdge(g, m, d);
        ReachTrans(g, m, d, w2.stack[i]);
      }
    }
  }

  lemma ActiveForDep(g: Graph, w: Walk, act: set<nat>, m: nat, d: nat)
    requires Active(g, w, act, m) && g.Edge(m, d)
    ensures Active(g, w, act, d)
  {
    hide Reach;
    ReachEdge(g, m, d);
    forall a | a in act ensures Reach(g, a, d) {
      ReachTrans(g, a, m, d);
    }
  }

  lemma ContinuesTrans(w: Walk, w1: Walk, w2: Walk, but: set<nat>, but': set<nat>)
    requires Continues(w, w1, but) && Continues(w1, w2, but')
    requires forall v :: v in but + but' && v < |w.nodes| ==> w.nodes[v].color != White
    ensures Continues(w, w2, but + but')
  {
  }

  /** One round of the dependency loop. */
  lemma DepKeeps(g: Graph, w: Walk, w1: Walk, m: nat, k: nat, index: nat, idx: seq<nat>, idx1: seq<nat>,
      act: set<nat>, p: nat)
    requires g.Valid() && Base(g, w) && m < g.Size() && g.cyclic[m] && |idx| == |w.stack|
    requires k < |g.deps[m]| && p < |w.stack| && w.stack[p] == m && m in act && Above(g, w, p, m)
    requires forall j :: 0 <= j < k && g.cyclic[g.deps[m][j]] ==> DepSettled(g, w, idx, m, g.deps[m][j])
    requires var d := g.deps[m][k];
             && Base(g, w1) && Continues(w, w1, {}) && Low(g, w1, idx1, act, index) && idx <= idx1
                 && Above(g, w1, |w.stack|, d)
             && (g.cyclic[d] ==> IsGrey(w1, d) || Ok(g, w1, d))
    ensures var r := AfterDep(g, w1, m, g.deps[m][k], index);
            && Base(g, r.w) && Continues(w, r.w, {m})
            && (r.Done? ==> r.index == index && Low(g, r.w, idx1, act, index) && Above(g, r.w, p, m)
                            && forall j :: 0 <= j < k + 1 && g.cyclic[g.deps[m][j]] ==>
                                 DepSettled(g, r.w, idx1, m, g.deps[m][j]))
  {
    hide Reach, LowLink, Settled, DepSettled, Above;
    var d := g.deps[m][k];
    var r := AfterDep(g, w1, m, d, index);
    assert w1.stack[p] == m;
    assert Continues(w, w1, {m});
    if g.cyclic[d] && IsGrey(w1, d) {
      LowerKeeps(g, w1, m, d, index, idx1, act, p);
      ContinuesTrans(w, w1, r.w, {m}, {m});
      assert {m} + {m} == {m};
    } else if g.cyclic[d] {
      assert DepSettled(g, w1, idx1, m, d) by { SettledByOk(g, w1, idx1, m, d); }
    } else {
      LeafNotGrey(g, w1, d);
    }
    if r.Done? {
      AboveAfterDep(g, w, w1, r.w, m, d, p);
      forall j | 0 <= j < k && g.cyclic[g.deps[m][j]] ensures DepSettled(g, r.w, idx1, m, g.deps[m][j]) {
        DepStays(g, w, r.w, idx, idx1, {m}, m, g.deps[m][j]);
      }
    }
  }

  lemma SettledByOk(g: Graph, w: Walk, idx: seq<nat>, v: nat, d: nat)
    requires v < |w.nodes| && |idx| == |w.stack| && Ok(g, w, d)
    ensures DepSettled(g, w, idx, v, d)
  {
  }

  lemma LeafNotGrey(g: Graph, w: Walk, d: nat)
    requires Base(g, w) && d < g.Size() && !g.cyclic[d]
    ensures !IsGrey(w, d)
  {
  }

  lemma AfterDepStack(g: Graph, w: Walk, w1: Walk, m: nat, act: set<nat>, p: nat)
    requires Continues(w, w1, {m}) && Active(g, w, act, m) && p < |w.stack| && w.stack[p] == m
    ensures Active(g, w1, act, m) && p < |w1.stack| && w1.stack[p] == m
  {
    hide Reach;
    assert forall v :: v in w.stack ==> v in w1.stack;
  }

  lemma ContinuesMore(w: Walk, w1: Walk, m: nat)
    requires Continues(w, w1, {})
    ensures Continues(w, w1, {m})
  {
  }

  lemma ContinuesRefl(w: Walk, m: nat)
    ensures Continues(w, w, {m})
  {
  }
}
