/** When a failed Link leaves its own module unlinked.

    The documentation of Link says that a failure leaves the module unlinked.  That is so exactly
    when no requested optional re-export leads to an unlinked module outside the module's own
    linking graph: such a module is linked by a nested call, after the module itself is linked. */
module LinkingFailure {
  import opened Wrappers
  import opened Graphs
  import opened ModuleDfs
  import opened ModuleHistory
  import opened ModuleScc
  import opened ModuleSuccess
  import opened ImportedNames
  import opened ModuleRequests
  import opened ModuleRecords
  import opened Exports
  import opened Linking
  import opened LinkingProperties
  import LL = LinkingList

  /** The i-th requested optional re-export leads to an unlinked module outside m's linking graph. */
  ghost predicate LateTarget(w: World, s: State, m: nat, reqs: seq<ModuleRequest>, i: nat)
    requires Valid(w) && Sized(w, s) && LL.Requestable(w, m, reqs)
  {
    i < |reqs| &&
    var t := GetImportedModule(w, m, reqs[i]);
    w[t].SourceText? && s.nodes[t].color == White && !Reach(LinkGraph(w), m, t)
  }

  lemma {:induction false} NestedIdle(w: World, body: Body, s: State, m: nat, reqs: seq<ModuleRequest>)
    requires Valid(w) && Sized(w, s) && LL.Requestable(w, m, reqs)
    requires forall i :: 0 <= i < |reqs| ==>
               var t := GetImportedModule(w, m, reqs[i]); w[t].Synthetic? || s.nodes[t].color != White
    ensures LinkNested(w, body, s, m, reqs) == LinkOk(s)
    decreases |reqs|
  {
    hide Valid, GetImportedModule, IsLoaded;
    if reqs != [] {
      NestedIdle(w, body, s, m, reqs[1..]);
    }
  }

  /** Without a late target, a failed Link leaves m unlinked. */
  lemma FailureKeepsUnlinked(w: World, body: Body, s: State, m: nat, names: Names)
    requires Valid(w) && LinkInv(w, s) && m < |w| && w[m].SourceText? && s.nodes[m].color == White
    requires LL.Requestable(w, m, OptionalRequests(Optional(w, m), names))
    requires forall i: nat :: !LateTarget(w, s, m, OptionalRequests(Optional(w, m), names), i)
    requires Link(w, body, s, m, names).LinkError?
    ensures Link(w, body, s, m, names).s.nodes[m].color == White
  {
    hide Valid, GetImportedModule, IsLoaded, OptionalRequests, LinkInv, Reach;
    SizedOf(w, s);
    WalkKeeps(w, body, s, m);
    var r := LinkGraphFrom(w, body, s, m);
    var reqs := OptionalRequests(Optional(w, m), names);
    if r.LinkOk? {
      forall i | 0 <= i < |reqs| ensures w[GetImportedModule(w, m, reqs[i])].Synthetic?
          || r.s.nodes[GetImportedModule(w, m, reqs[i])].color != White {
        var t := GetImportedModule(w, m, reqs[i]);
        assert !LateTarget(w, s, m, reqs, i);
        if w[t].SourceText? && s.nodes[t].color == White {
          LinkedReaches(w, r.s, m, t);
        } else if w[t].SourceText? {
          assert t !in Whites(Idle(s));
          assert t !in Whites(Idle(r.s));
        }
      }
      NestedIdle(w, body, r.s, m, reqs);
    }
  }

  lemma LinkedReaches(w: World, s: State, m: nat, t: nat)
    requires Valid(w) && LinkInv(w, s) && IsLinked(w, s, m) && Reach(LinkGraph(w), m, t)
    ensures IsLinked(w, s, t)
  {
    hide Valid, Reach;
    OkReaches(LinkGraph(w), Idle(s), m, t);
  }

  /** Environment creation fails exactly for the modules that m does not reach. */
  ghost predicate FailsOutside(w: World, body: Body, m: nat)
    requires Valid(w)
  {
    forall x: nat, k: nat ::
      body(x, k).Some? <==> x < |w| && w[x].SourceText? && !Reach(LinkGraph(w), m, x)
  }

  ghost function FailOutside(w: World, m: nat): Body
    requires Valid(w)
  {
    (x: nat, k: nat) => if x < |w| && w[x].SourceText? && !Reach(LinkGraph(w), m, x) then Some(0) else None
  }

  lemma {:induction false} NestedFails(w: World, body: Body, s: State, m: nat, reqs: seq<ModuleRequest>, i: nat)
    requires Valid(w) && LinkInv(w, s) && LL.Requestable(w, m, reqs) && IsLinked(w, s, m)
    requires LateTarget(w, s, m, reqs, i) && FailsOutside(w, body, m)
    ensures LinkNested(w, body, s, m, reqs).LinkError?
    decreases |reqs|
  {
    hide Valid, GetImportedModule, IsLoaded, Reach;
    var t := GetImportedModule(w, m, reqs[0]);
    if w[t].SourceText? && s.nodes[t].color == White {
      if Reach(LinkGraph(w), m, t) {
        LinkedReaches(w, s, m, t);
      } else {
        LinkGraphValid(w);
        VisitFails(LinkGraph(w), body, Idle(s), t, 0);
      }
    } else {
      NestedFails(w, body, s, m, reqs[1..], i - 1);
    }
  }

  /** With a late target, a failure outside m's linking graph leaves m linked. */
  lemma FailureAfterLinking(w: World, body: Body, s: State, m: nat, names: Names, i: nat)
    requires Valid(w) && LinkInv(w, s) && m < |w| && w[m].SourceText? && s.nodes[m].color == White
    requires LL.Requestable(w, m, OptionalRequests(Optional(w, m), names))
    requires LateTarget(w, s, m, OptionalRequests(Optional(w, m), names), i) && FailsOutside(w, body, m)
    ensures var r := Link(w, body, s, m, names);
            r.LinkError? && r.s.nodes[m].color == Black
  {
    hide Valid, GetImportedModule, IsLoaded, Reach, OptionalRequests;
    var g := LinkGraph(w);
    LinkGraphValid(w);
    ReachRefl(g, m);
    assert Benign(g, body, m);
    VisitSucceeds(g, body, Idle(s), m, 0, m);
    WalkKeeps(w, body, s, m);
    var r := LinkGraphFrom(w, body, s, m);
    var reqs := OptionalRequests(Optional(w, m), names);
    assert LateTarget(w, r.s, m, reqs, i);
    NestedFails(w, body, r.s, m, reqs, i);
    NestedKeeps(w, body, r.s, m, reqs);
  }

  /** Every failure leaves the module unlinked if and only if there is no late target. */
  lemma FailureStatus(w: World, s: State, m: nat, names: Names)
    requires Valid(w) && LinkInv(w, s) && m < |w| && w[m].SourceText? && s.nodes[m].color == White
    requires LL.Requestable(w, m, OptionalRequests(Optional(w, m), names))
    ensures (forall body: Body :: Link(w, body, s, m, names).LinkError? ==>
               Link(w, body, s, m, names).s.nodes[m].color == White)
            <==> !exists i: nat :: LateTarget(w, s, m, OptionalRequests(Optional(w, m), names), i)
  {
    hide Valid, GetImportedModule, IsLoaded, Reach, OptionalRequests, LinkInv, LateTarget, LinkGraphFrom, LinkNested;
    SizedOf(w, s);
    if i: nat :| LateTarget(w, s, m, OptionalRequests(Optional(w, m), names), i) {
      FailureAfterLinking(w, FailOutside(w, m), s, m, names, i);
    } else {
      forall body: Body | Link(w, body, s, m, names).LinkError?
        ensures Link(w, body, s, m, names).s.nodes[m].color == White
      {
        FailureKeepsUnlinked(w, body, s, m, names);
      }
    }
  }

  // --- A world on which a failed Link leaves its module linked ---

  const TO_A := ModuleRequest("a", [], EvaluationPhase, List(["y"]))
  const TO_B := ModuleRequest("b", [], EvaluationPhase, All)

  /** Module 0 only re-exports a name of module 1 optionally; module 1 re-exports `y` of module 0,
      which has no such export. */
  const OPTIONAL_REEXPORT: World := [
    SourceText([], [LoadedModule("b", [], 1)], [], [], [], [IndirectEntry(TO_B, ImportString("x"), "x")]),
    SourceText([TO_A], [LoadedModule("a", [], 0)], [], [IndirectEntry(TO_A, ImportString("y"), "y")], [], [])
  ]

  const UNLINKED := State([Node(White, 0, 0, None), Node(White, 0, 0, None)], [])

  /** InitializeEnvironment fails for a module with an indirect export that does not resolve. */
  function ResolveIndirectExports(w: World): Body
    requires Valid(w)
  {
    (x: nat, k: nat) =>
      if x < |w| && w[x].SourceText?
        && exists i :: 0 <= i < |w[x].indirect| && !ResolveExportOf(w, x, w[x].indirect[i].exportName).Resolved?
      then Some(0) else None
  }

  /** Linking module 0 for all names succeeds for 0 and then fails for 1, whose indirect export does
      not resolve, with 0 left linked. */
  lemma LinkFailsWithModuleLinked()
    ensures Valid(OPTIONAL_REEXPORT) && LinkInv(OPTIONAL_REEXPORT, UNLINKED)
    ensures var w := OPTIONAL_REEXPORT;
            var r := Link(w, ResolveIndirectExports(w), UNLINKED, 0, All);
            && ResolveExportOf(w, 1, "y").Null?
            && UNLINKED.nodes[0].color == White && r.LinkError? && r.s.nodes[0].color == Black
  {
    hide Valid, LinkInv, Reach, OptionalRequests, LateTarget, Link, LL.Requestable, FailsOutside;
    OptionalReexportValid();
    var i := LateTargetFound();
    UnresolvedFails();
    FailureAfterLinking(OPTIONAL_REEXPORT, ResolveIndirectExports(OPTIONAL_REEXPORT), UNLINKED, 0, All, i);
  }

  lemma OptionalReexportValid()
    ensures Valid(OPTIONAL_REEXPORT) && LinkInv(OPTIONAL_REEXPORT, UNLINKED)
  {
    hide OkClosed, StackIsGrey, LL.LinkingListOf;
    OptionalReexportLoaded();
    LinkGraphValid(OPTIONAL_REEXPORT);
    UnlinkedBase(LinkGraph(OPTIONAL_REEXPORT));
  }

  lemma UnlinkedBase(g: Graph)
    requires g.Valid() && g.Size() == 2
    ensures Base(g, Idle(UNLINKED))
  {
  }

  lemma OptionalReexportLoaded()
    ensures Valid(OPTIONAL_REEXPORT) && IsLoaded(OPTIONAL_REEXPORT[1], TO_A)
    ensures GetImportedModule(OPTIONAL_REEXPORT, 1, TO_A) == 0
  {
    var w := OPTIONAL_REEXPORT;
    assert ModuleRequestsKeyEqual(KeyOf(w[0].loaded[0]), TO_B);
    assert ModuleRequestsKeyEqual(KeyOf(w[1].loaded[0]), TO_A);
    assert FindLoaded(w[0].loaded, TO_B) == 0 && FindLoaded(w[1].loaded, TO_A) == 0;
    assert ValidInfo(w[0], 2) && ValidInfo(w[1], 2);
  }

  lemma UnresolvedFails()
    ensures var w := OPTIONAL_REEXPORT;
            Valid(w) && ResolveExportOf(w, 1, "y").Null? && FailsOutside(w, ResolveIndirectExports(w), 0)
  {
    hide Valid, Reach, IsLoaded;
    var w := OPTIONAL_REEXPORT;
    OptionalReexportLoaded();
    NothingLinkedFor0();
    ReachRefl(LinkGraph(w), 0);
    NoSuchExport();
    assert w[1].indirect[0].exportName == "y";
    forall x: nat, k: nat
      ensures ResolveIndirectExports(w)(x, k).Some? <==> x < |w| && w[x].SourceText? && !Reach(LinkGraph(w), 0, x)
    {
      assert x < |w| ==> x == 0 || x == 1;
    }
  }

  lemma NoSuchExport()
    requires Valid(OPTIONAL_REEXPORT)
    ensures ResolveExportOf(OPTIONAL_REEXPORT, 1, "y").Null?
  {
    hide Valid, IsLoaded;
    var w := OPTIONAL_REEXPORT;
    var names := ImportNames(w) + {"y"};
    OptionalReexportLoaded();
    assert FindIndirect(AllIndirect(w[1]), "y") == 0;
    assert LookUp(w, 1, "y") == Redirect((0, "y"));
    assert FindIndirect(AllIndirect(w[0]), "y") == 1;
    assert LookUp(w, 0, "y") == TryStars;
    assert ResolveStars(w, names, [(1, "y"), (0, "y")], 0, "y", 0, Null).0 == Null;
    assert Resolve(w, names, [(1, "y")], 0, "y").0 == Null;
    var none: seq<Pair> := [];
    assert none + [(1, "y")] == [(1, "y")];
    assert Resolve(w, names, none, 1, "y") == Resolve(w, names, [(1, "y")], 0, "y");
  }

  lemma LateTargetFound() returns (i: nat)
    ensures var w := OPTIONAL_REEXPORT;
            && Valid(w) && Sized(w, UNLINKED)
            && var reqs := OptionalRequests(Optional(w, 0), All);
               LL.Requestable(w, 0, reqs) && LateTarget(w, UNLINKED, 0, reqs, i)
  {
    hide LinkInv, Reach;
    var w := OPTIONAL_REEXPORT;
    OptionalReexportValid();
    SizedOf(w, UNLINKED);
    LL.OptionalRequestsLoaded(w, 0, All);
    NothingLinkedFor0();
    OptionalLoaded(w, 0);
    i := RequestFound();
    assert w[0].loaded[0].target == 1;
  }

  lemma RequestFound() returns (i: nat)
    requires WellKeyed(Optional(OPTIONAL_REEXPORT, 0))
    ensures i < |OptionalRequests(Optional(OPTIONAL_REEXPORT, 0), All)|
  {
    var entries := Optional(OPTIONAL_REEXPORT, 0);
    OptionalRequestsGroup(entries, All);
    assert Selected(entries, All, 0);
    hide OptionalRequests;
    assert Present(OptionalRequests(entries, All), TO_B);
    i :| 0 <= i < |OptionalRequests(entries, All)|;
  }

  lemma NothingLinkedFor0()
    requires Valid(OPTIONAL_REEXPORT)
    ensures !Reach(LinkGraph(OPTIONAL_REEXPORT), 0, 1)
  {
    var w := OPTIONAL_REEXPORT;
    var g := LinkGraph(w);
    assert LL.LinkingListOf(w, 0) == [];
    if Reach(g, 0, 1) { ReachStaysInside(g, {0}, 0, 1); }
  }
}
