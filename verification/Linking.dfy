/** Link: the walk over linking lists, its rollback on failure, and the nested Link calls for
    optional re-exports.  Environment creation is an oracle (`Body`). */
module Linking {
  import opened Sequences
  import opened Graphs
  import opened ModuleDfs
  import opened ImportedNames
  import opened ModuleRequests
  import opened ModuleRecords
  import LL = LinkingList

  /** The graph that linking walks. */
  function LinkGraph(w: World): (g: Graph)
    requires Valid(w)
    ensures |g.cyclic| == |g.deps| == |w|
    ensures forall m :: 0 <= m < |w| ==> g.cyclic[m] == w[m].SourceText? && g.deps[m] == LL.LinkingListOf(w, m)
  {
    Graph(seq(|w|, i requires 0 <= i < |w| => w[i].SourceText?), seq(|w|,
        i requires 0 <= i < |w| => LL.LinkingListOf(w, i)))
  }

  lemma LinkGraphValid(w: World)
    requires Valid(w)
    ensures LinkGraph(w).Valid()
  {
    hide Valid;
    var g := LinkGraph(w);
    forall m | 0 <= m < |w| ensures Below(g.deps[m], |w|) {
      if w[m].SourceText? {
        LL.AllRequestable(w, m);
        var r := LL.Build(w, LL.Lists([], map[]), m, w[m].requested);
        assert LL.Fits(w, r);
      }
    }
  }

  function Rollback(nodes: seq<Node>, stack: seq<nat>): (r: seq<Node>)
    requires Below(stack, |nodes|)
    ensures |r| == |nodes|
    ensures forall i :: 0 <= i < |nodes| ==> r[i] == if i in stack then nodes[i].(color := White) else nodes[i]
    decreases |stack|
  {
    if stack == [] then nodes
    else Rollback(nodes[stack[0] := nodes[stack[0]].(color := White)], stack[1..])
  }

  /** The state between calls: no stack. */
  datatype State = State(nodes: seq<Node>, log: seq<Event>)

  function Idle(s: State): Walk { Walk(s.nodes, [], s.log) }

  datatype LinkResult = LinkOk(s: State) | LinkError(s: State, error: Error)

  predicate Sized(w: World, s: State)
    requires Valid(w)
  {
    InRange(LinkGraph(w), Idle(s))
  }

  /** The walk of one Link call, with the rollback of its stack if it fails. */
  function LinkGraphFrom(w: World, body: Body, s: State, m: nat): (r: LinkResult)
    requires Valid(w) && Sized(w, s) && m < |w|
    ensures Sized(w, r.s)
    ensures r.LinkOk? ==> Whites(Idle(r.s)) <= Whites(Idle(s)) && (w[m].SourceText? ==> m !in Whites(Idle(r.s)))
  {
    LinkGraphValid(w);
    var r := Visit(LinkGraph(w), body, Idle(s), m, 0);
    if r.Failed? then LinkError(State(Rollback(r.w.nodes, r.w.stack), r.w.log), r.error)
    else
      VisitLeavesWhite(LinkGraph(w), body, Idle(s), m, 0);
      assert Whites(Idle(State(r.w.nodes, r.w.log))) == Whites(r.w);
      LinkOk(State(r.w.nodes, r.w.log))
  }

  function Link(w: World, body: Body, s: State, m: nat, names: Names): (r: LinkResult)
    requires Valid(w) && Sized(w, s) && m < |w| && w[m].SourceText?
    ensures Sized(w, r.s)
    ensures r.LinkOk? ==> Whites(Idle(r.s)) <= Whites(Idle(s))
    decreases Whites(Idle(s)), if s.nodes[m].color == White then 0 else 2, 0
  {
    var r := LinkGraphFrom(w, body, s, m);
    if r.LinkError? then r
    else
      LL.OptionalRequestsLoaded(w, m, names);
      assert Whites(Idle(r.s)) < Whites(Idle(s)) || Whites(Idle(r.s)) == Whites(Idle(s));
      assert s.nodes[m].color == White ==> m in Whites(Idle(s));
      LinkNested(w, body, r.s, m, OptionalRequests(Optional(w, m), names))
  }

  /** Link the still unlinked targets of the entry module's optional re-exports. */
  function LinkNested(w: World, body: Body, s: State, m: nat, reqs: seq<ModuleRequest>): (r: LinkResult)
    requires Valid(w) && Sized(w, s) && LL.Requestable(w, m, reqs)
    ensures Sized(w, r.s)
    ensures r.LinkOk? ==> Whites(Idle(r.s)) <= Whites(Idle(s))
    decreases Whites(Idle(s)), 1, |reqs|
  {
    if reqs == [] then LinkOk(s)
    else
      var t := GetImportedModule(w, m, reqs[0]);
      if w[t].SourceText? && s.nodes[t].color == White then
        var r := Link(w, body, s, t, reqs[0].importedNames);
        if r.LinkError? then r
        else
          assert Whites(Idle(r.s)) < Whites(Idle(s)) || Whites(Idle(r.s)) == Whites(Idle(s));
          LinkNested(w, body, r.s, m, reqs[1..])
      else LinkNested(w, body, s, m, reqs[1..])
  }
}
