/** The search for nodes at which a breakpoint can stop. */
module Breakpoints {
  import opened Wrappers

  /** Lines and columns of the parser count from 1, those of a location from 0. */
  datatype Position = Position(line: int, column: int)

  datatype Node = Node(start: Position, end: Position, children: seq<Node>)

  datatype Location = Location(scriptId: string, lineNumber: int, columnNumber: Option<int>)

  datatype Range = Range(fromLine: int, fromColumn: Option<int>, toLine: int, toColumn: Option<int>)

  function RangeOf(from: Location, to: Option<Location>): Range {
    Range(
      from.lineNumber + 1,
      if from.columnNumber.Some? then Some(from.columnNumber.value + 1) else None,
      if to.Some? then to.value.lineNumber + 1 else from.lineNumber + 1,
      if to.Some? && to.value.columnNumber.Some? then Some(to.value.columnNumber.value + 1) else None)
  }

  /** A column of 0 reads as no column, and so does a line of 0. */
  predicate Given(column: Option<int>) { column.Some? && column.value != 0 }

  /** The four early returns of the search. */
  predicate Pruned(node: Node, r: Range) {
    || node.end.line < r.fromLine
    || (Given(r.fromColumn) && node.end.line == r.fromLine && node.end.column < r.fromColumn.value)
    || (r.toLine != 0 &&
        (|| node.start.line > r.toLine
         || (Given(r.toColumn) && node.start.line == r.toLine && node.start.column > r.toColumn.value)))
  }

  predicate InRange(node: Node, r: Range) {
    && node.start.line >= r.fromLine
    && (Given(r.fromColumn) ==> node.start.column >= r.fromColumn.value)
    && (r.toLine != 0 ==>
         node.end.line <= r.toLine && (Given(r.toColumn) ==> node.end.column <= r.toColumn.value))
  }

  function Search(node: Node, r: Range): seq<Node>
    decreases node
  {
    if Pruned(node, r) then []
    else (if InRange(node, r) then [node] else []) + SearchAll(node.children, r)
  }

  function SearchAll(nodes: seq<Node>, r: Range): seq<Node>
    decreases nodes
  {
    if nodes == [] then [] else Search(nodes[0], r) + SearchAll(nodes[1..], r)
  }

  /** A location in an unknown script, or a range over two scripts, has no candidates. */
  function Candidates(sources: map<string, Node>, from: Location, to: Option<Location>): seq<Node> {
    if from.scriptId !in sources || (to.Some? && from.scriptId != to.value.scriptId) then []
    else Search(sources[from.scriptId], RangeOf(from, to))
  }

  /** A breakpoint goes to the first candidate. */
  function Resolve(sources: map<string, Node>, at: Location): Option<Node> {
    var candidates := Candidates(sources, at, None);
    if candidates == [] then None else Some(candidates[0])
  }

  function LocationOf(scriptId: string, node: Node): Location {
    Location(scriptId, node.start.line - 1, Some(node.start.column - 1))
  }

  // --- Reference: every node, in preorder, tested ---

  function Preorder(node: Node): (all: seq<Node>)
    ensures node in all
    decreases node
  {
    [node] + PreorderAll(node.children)
  }

  function PreorderAll(nodes: seq<Node>): seq<Node>
    decreases nodes
  {
    if nodes == [] then [] else Preorder(nodes[0]) + PreorderAll(nodes[1..])
  }

  function Filter(nodes: seq<Node>, r: Range): seq<Node> {
    if nodes == [] then []
    else (if InRange(nodes[0], r) then [nodes[0]] else []) + Filter(nodes[1..], r)
  }

  // --- Trees ---

  predicate NotAfter(a: Position, b: Position) {
    a.line < b.line || (a.line == b.line && a.column <= b.column)
  }

  /** Every node ends after it starts, and lies inside its parent. */
  predicate Nested(node: Node)
    decreases node
  {
    NotAfter(node.start, node.end) && AllNested(node.children, node.start, node.end)
  }

  predicate AllNested(nodes: seq<Node>, start: Position, end: Position)
    decreases nodes
  {
    nodes == [] ||
    (NotAfter(start, nodes[0].start) && NotAfter(nodes[0].end, end) && Nested(nodes[0]) &&
     AllNested(nodes[1..], start, end))
  }

  lemma {:induction false} DescendantsInside(node: Node, d: Node)
    requires Nested(node) && d in Preorder(node)
    ensures NotAfter(node.start, d.start) && NotAfter(d.start, d.end) && NotAfter(d.end, node.end)
    decreases node
  {
    if d in PreorderAll(node.children) {
      AllInside(node.children, node.start, node.end, d);
    }
  }

  lemma {:induction false} AllInside(nodes: seq<Node>, start: Position, end: Position, d: Node)
    requires AllNested(nodes, start, end) && d in PreorderAll(nodes)
    ensures NotAfter(start, d.start) && NotAfter(d.start, d.end) && NotAfter(d.end, end)
    decreases nodes
  {
    if d in Preorder(nodes[0]) {
      DescendantsInside(nodes[0], d);
    } else {
      AllInside(nodes[1..], start, end, d);
    }
  }

  // --- Pruning loses nothing ---

  /** No node below a pruned one is in the range. */
  lemma PrunedHasNone(node: Node, r: Range, d: Node)
    requires Nested(node) && Pruned(node, r) && d in Preorder(node)
    ensures !InRange(d, r)
  {
    DescendantsInside(node, d);
  }

  lemma {:induction false} FilterConcat(a: seq<Node>, b: seq<Node>, r: Range)
    ensures Filter(a + b, r) == Filter(a, r) + Filter(b, r)
  {
    if a == [] {
      assert a + b == b;
    } else {
      assert (a + b)[1..] == a[1..] + b;
      FilterConcat(a[1..], b, r);
    }
  }

  lemma {:induction false} FilterNone(nodes: seq<Node>, r: Range)
    requires forall d :: d in nodes ==> !InRange(d, r)
    ensures Filter(nodes, r) == []
  {
    if nodes != [] { FilterNone(nodes[1..], r); }
  }

  /** The pruned search yields the nodes that pass the range test, in preorder. */
  lemma {:induction false} SearchExact(node: Node, r: Range)
    requires Nested(node)
    ensures Search(node, r) == Filter(Preorder(node), r)
    decreases node
  {
    if Pruned(node, r) {
      forall d | d in Preorder(node) ensures !InRange(d, r) { PrunedHasNone(node, r, d); }
      FilterNone(Preorder(node), r);
    } else {
      SearchAllExact(node.children, node.start, node.end, r);
      FilterConcat([node], PreorderAll(node.children), r);
      assert [node][1..] == [] && Filter([], r) == [];
    }
  }

  lemma {:induction false} SearchAllExact(nodes: seq<Node>, start: Position, end: Position, r: Range)
    requires AllNested(nodes, start, end)
    ensures SearchAll(nodes, r) == Filter(PreorderAll(nodes), r)
    decreases nodes
  {
    if nodes != [] {
      SearchExact(nodes[0], r);
      SearchAllExact(nodes[1..], start, end, r);
      FilterConcat(Preorder(nodes[0]), PreorderAll(nodes[1..]), r);
    }
  }

  /** A child that sticks out of its parent can be lost. */
  lemma ChildOutsideIsLost(child: Node, node: Node)
    requires child == Node(Position(5, 1), Position(5, 2), [])
    requires node == Node(Position(1, 1), Position(2, 1), [child])
    ensures var r := RangeOf(Location("s", 4, None), None);
            Search(node, r) == [] && Filter(Preorder(node), r) == [child]
  {
    var r := RangeOf(Location("s", 4, None), None);
    assert [child][1..] == [] && PreorderAll([]) == [];
    assert Preorder(child) == [child];
    assert PreorderAll([child]) == [child];
    assert Preorder(node) == [node, child];
    assert [node, child][1..] == [child];
    assert Filter([child], r) == [child];
  }

  // --- The search against the order of positions ---

  predicate Between(node: Node, from: Position, to: Position) {
    NotAfter(from, node.start) && NotAfter(node.end, to)
  }

  /** Starts left of the first column on a later line, or ends right of the last column on an earlier
      line. */
  predicate SticksOut(node: Node, from: Position, to: Position) {
    || (node.start.line > from.line && node.start.column < from.column)
    || (node.end.line < to.line && node.end.column > to.column)
  }

  function FilterBetween(nodes: seq<Node>, from: Position, to: Position): seq<Node> {
    if nodes == [] then []
    else (if Between(nodes[0], from, to) then [nodes[0]] else []) + FilterBetween(nodes[1..], from, to)
  }

  /** The range with both columns given. */
  function RangeBetween(from: Position, to: Position): Range {
    Range(from.line, Some(from.column), to.line, Some(to.column))
  }

  predicate Counted(p: Position) { p.line != 0 && p.column != 0 }

  lemma RangeTestIs(node: Node, from: Position, to: Position)
    requires Counted(from) && Counted(to)
    ensures InRange(node, RangeBetween(from, to)) <==> Between(node, from, to) && !SticksOut(node, from, to)
  {
  }

  lemma {:induction false} FilterIsBetween(nodes: seq<Node>, from: Position, to: Position)
    requires Counted(from) && Counted(to)
    ensures var f, b := Filter(nodes, RangeBetween(from, to)), FilterBetween(nodes, from, to);
            && |f| <= |b|
            && (f == b <==> forall d :: d in nodes && Between(d, from, to) ==> !SticksOut(d, from, to))
  {
    if nodes != [] {
      FilterIsBetween(nodes[1..], from, to);
      RangeTestIs(nodes[0], from, to);
      var r := RangeBetween(from, to);
      var f, b := Filter(nodes[1..], r), FilterBetween(nodes[1..], from, to);
      assert [] + f == f && [] + b == b;
      assert ([nodes[0]] + f)[1..] == f && ([nodes[0]] + b)[1..] == b;
      assert forall d :: d in nodes <==> d == nodes[0] || d in nodes[1..];
      if InRange(nodes[0], r) {
        assert Filter(nodes, r) == FilterBetween(nodes, from, to) <==> f == b;
      } else if Between(nodes[0], from, to) {
        assert nodes[0] in nodes && SticksOut(nodes[0], from, to);
      }
    }
  }

  /** The search yields the nodes between the two positions, in preorder, if and only if none of them
      starts left of the first column on a later line or ends right of the last column on an earlier
      line: the columns are applied on every line. */
  lemma SearchIsBetween(root: Node, from: Position, to: Position)
    requires Nested(root) && Counted(from) && Counted(to)
    ensures Search(root, RangeBetween(from, to)) == FilterBetween(Preorder(root), from, to)
            <==> forall d :: d in Preorder(root) && Between(d, from, to) ==> !SticksOut(d, from, to)
  {
    SearchExact(root, RangeBetween(from, to));
    FilterIsBetween(Preorder(root), from, to);
  }

  /** A statement on the second line of a range that starts further right on the first line is not
      yielded. */
  lemma NodeBetweenIsMissed(child: Node, root: Node, from: Position, to: Position)
    requires child == Node(Position(2, 1), Position(2, 4), [])
    requires root == Node(Position(1, 1), Position(3, 9), [child])
    requires from == Position(1, 5) && to == Position(3, 9)
    ensures Nested(root) && child in Preorder(root) && Between(child, from, to)
    ensures child !in Search(root, RangeBetween(from, to))
  {
    var r := RangeBetween(from, to);
    assert [child][1..] == [] && PreorderAll([]) == [];
    assert Preorder(child) == [child] && PreorderAll([child]) == [child];
    assert Preorder(root) == [root, child];
    assert SearchAll([], r) == [] && SearchAll([child], r) == Search(child, r);
    assert !InRange(child, r) && !InRange(root, r);
  }

  // --- Which nodes the two locations of a request ask for ---

  /** The node as locations count, from 0: it starts at or after `from`, and ends at or before `to`.
      Columns are compared on every line. A column of -1 is no bound, nor is a last line of -1. */
  predicate Wanted(node: Node, from: Location, to: Location) {
    && node.start.line - 1 >= from.lineNumber
    && (match from.columnNumber
        case None => true
        case Some(column) => column != -1 ==> node.start.column - 1 >= column)
    && (to.lineNumber != -1 ==>
          && node.end.line - 1 <= to.lineNumber
          && match to.columnNumber
             case None => true
             case Some(column) => column != -1 ==> node.end.column - 1 <= column)
  }

  lemma {:induction false} InFilter(nodes: seq<Node>, r: Range, d: Node)
    ensures d in Filter(nodes, r) <==> d in nodes && InRange(d, r)
  {
    if nodes != [] { InFilter(nodes[1..], r, d); }
  }

  /** The candidates are the nodes of the script that lie between the two locations; without a
      second location, those that start and end on the line of the first. */
  lemma CandidatesAre(sources: map<string, Node>, from: Location, to: Option<Location>, d: Node)
    requires from.scriptId in sources ==> Nested(sources[from.scriptId])
    ensures d in Candidates(sources, from, to) <==>
              && from.scriptId in sources && d in Preorder(sources[from.scriptId])
              && match to
                 case None => Wanted(d, from, Location(from.scriptId, from.lineNumber, None))
                 case Some(last) => last.scriptId == from.scriptId && Wanted(d, from, last)
  {
    if from.scriptId in sources {
      SearchExact(sources[from.scriptId], RangeOf(from, to));
      InFilter(Preorder(sources[from.scriptId]), RangeOf(from, to), d);
    }
  }

  // --- A resolved breakpoint stays where it is ---

  predicate CountsFromOne(node: Node)
    decreases node
  {
    node.start.line >= 1 && node.start.column >= 1 && AllCountFromOne(node.children)
  }

  predicate AllCountFromOne(nodes: seq<Node>)
    decreases nodes
  {
    nodes == [] || (CountsFromOne(nodes[0]) && AllCountFromOne(nodes[1..]))
  }

  lemma {:induction false} DescendantCounts(node: Node, d: Node)
    requires CountsFromOne(node) && d in Preorder(node)
    ensures d.start.line >= 1 && d.start.column >= 1
    decreases node
  {
    if d in PreorderAll(node.children) { AllCount(node.children, d); }
  }

  lemma {:induction false} AllCount(nodes: seq<Node>, d: Node)
    requires AllCountFromOne(nodes) && d in PreorderAll(nodes)
    ensures d.start.line >= 1 && d.start.column >= 1
    decreases nodes
  {
    if d in Preorder(nodes[0]) { DescendantCounts(nodes[0], d); } else { AllCount(nodes[1..], d); }
  }

  /** Narrowing a range to one that still holds the first hit keeps the first hit. */
  lemma {:induction false} FirstHit(nodes: seq<Node>, wide: Range, narrow: Range, hit: Node)
    requires Filter(nodes, wide) != [] && Filter(nodes, wide)[0] == hit && InRange(hit, narrow)
    requires forall d :: d in nodes && InRange(d, narrow) ==> InRange(d, wide)
    ensures Filter(nodes, narrow) != [] && Filter(nodes, narrow)[0] == hit
  {
    if !InRange(nodes[0], wide) { FirstHit(nodes[1..], wide, narrow, hit); }
  }

  lemma {:induction false} FilterMember(nodes: seq<Node>, r: Range)
    requires Filter(nodes, r) != []
    ensures Filter(nodes, r)[0] in nodes && InRange(Filter(nodes, r)[0], r)
  {
    if !InRange(nodes[0], r) { FilterMember(nodes[1..], r); }
  }

  /** The location reported for a breakpoint is one that resolves to the same node again. Line -1 is
      the one the search reads as no upper bound. */
  lemma ResolvedStays(sources: map<string, Node>, at: Location)
    requires at.lineNumber != -1
    requires at.scriptId in sources ==> Nested(sources[at.scriptId]) && CountsFromOne(sources[at.scriptId])
    requires Resolve(sources, at).Some?
    ensures var node := Resolve(sources, at).value;
            Resolve(sources, LocationOf(at.scriptId, node)) == Some(node)
  {
    var root := sources[at.scriptId];
    var node := Resolve(sources, at).value;
    var wide, narrow := RangeOf(at, None), RangeOf(LocationOf(at.scriptId, node), None);
    SearchExact(root, wide);
    SearchExact(root, narrow);
    FilterMember(Preorder(root), wide);
    DescendantsInside(root, node);
    DescendantCounts(root, node);
    FirstHit(Preorder(root), wide, narrow, node);
  }
}
