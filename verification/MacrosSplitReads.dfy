/** Where a variable is read after a bare macro on it, and the read can be seen, evalQ does not give
    the early-return form. */
module MacrosSplitReads {
  import opened Completions
  import opened Macros
  import opened MacrosCorrect
  import opened MacrosBodies
  import opened MacrosRuntime

  /** What is known of x: the same wrapped value in both forms, unwrapped in the early-return form
      only, or nothing. */
  datatype Mark = Wrapped | Split | Unknown

  function Join(a: Mark, b: Mark): Mark { if a == b then a else Unknown }

  /** A host that answers every call with a normal completion. */
  function AlwaysNormal(k: nat): Host { (f, vs, trace) => NormalC(k) }

  /** The early-return form and the exception form on that host. */
  function Early(k: nat): Machine { Machine(AlwaysNormal(k), true) }

  function Throwing(k: nat): Machine { Machine(AlwaysNormal(k), false) }

  function TrackExpr(e: Expr, x: Name, mark: Mark): Mark
    decreases e
  {
    match e
    case Lit(_) => mark
    case Var(_) => mark
    case Call(_, args) => TrackArgs(args, x, mark)
    case Q(arg) =>
      if arg == Var(x) then (if mark.Wrapped? then Split else mark)
      else if arg.Var? then mark
      else TrackExpr(arg, x, mark)
    case Cond(test, thn, els) =>
      var t := TrackExpr(test, x, mark);
      Join(TrackExpr(thn, x, t), TrackExpr(els, x, t))
    case And(l, r) =>
      var t := TrackExpr(l, x, mark);
      Join(t, TrackExpr(r, x, t))
    case Same(l, r) => TrackExpr(r, x, TrackExpr(l, x, mark))
  }

  function TrackArgs(es: seq<Expr>, x: Name, mark: Mark): Mark
    decreases es
  {
    if es == [] then mark else TrackArgs(es[1..], x, TrackExpr(es[0], x, mark))
  }

  /** After y := e. A call yields a wrapped value; of other values nothing is known. */
  function TrackStore(y: Name, e: Expr, x: Name, mark: Mark): Mark {
    if y != x then TrackExpr(e, x, mark) else if e.Call? then Wrapped else Unknown
  }

  function Track(s: Stmt, x: Name, mark: Mark): Mark
    decreases s
  {
    match s
    case Let(y, e) => TrackStore(y, e, x, mark)
    case Assign(y, e) => TrackStore(y, e, x, mark)
    case Do(e) => TrackExpr(e, x, mark)
    case If(test, thn, els) =>
      var t := TrackExpr(test, x, mark);
      Join(Track(thn, x, t), Track(els, x, t))
    case Block(body) => TrackAll(body, x, mark)
    case Ret(_) => Unknown
    case While(_, _) => Unknown
    case Check(_) => Unknown
    case Declare(_) => Unknown
  }

  function TrackAll(ss: seq<Stmt>, x: Name, mark: Mark): Mark
    decreases ss
  {
    if ss == [] then mark else TrackAll(ss[1..], x, Track(ss[0], x, mark))
  }

  // --- Reads that are seen ---

  /** e makes no difference between the two forms, and cannot end abruptly. */
  predicate Calm(e: Expr, split: set<Name>) { ReadsOk(e, split) && KindsExpr(e, {}) }

  predicate CalmValue(e: Expr, split: set<Name>) { ValueOk(e, split) && KindsExpr(e, {}) }

  /** Every argument is calm or a variable. */
  predicate CalmArgs(es: seq<Expr>, split: set<Name>)
    decreases es
  {
    es == [] || ((es[0].Var? || Calm(es[0], split)) && CalmArgs(es[1..], split + Bare(es[0])))
  }

  /** x is an argument while it is split. */
  predicate PassesSplit(es: seq<Expr>, x: Name, mark: Mark)
    decreases es
  {
    es != [] && ((es[0] == Var(x) && mark.Split?) || PassesSplit(es[1..], x, TrackExpr(es[0], x, mark)))
  }

  /** Evaluating e certainly makes a call with x as an argument while x is split, and nothing before
      that tells the two forms apart. */
  predicate SeenExpr(e: Expr, x: Name, split: set<Name>, mark: Mark)
    decreases e
  {
    match e
    case Lit(_) => false
    case Var(_) => false
    case Call(_, args) =>
      SeenArgs(args, x, split, mark) || (CalmArgs(args, split) && PassesSplit(args, x, mark))
    case Q(arg) => !arg.Var? && SeenExpr(arg, x, split, mark)
    case Cond(test, thn, els) =>
      SeenExpr(test, x, split, mark) ||
      (Calm(test, split) &&
       var t := TrackExpr(test, x, mark);
       SeenExpr(thn, x, split + Bare(test), t) && SeenExpr(els, x, split + Bare(test), t))
    case And(l, _) => SeenExpr(l, x, split, mark)
    case Same(l, r) =>
      SeenExpr(l, x, split, mark) ||
      (Calm(l, split) && SeenExpr(r, x, split + Bare(l), TrackExpr(l, x, mark)))
  }

  predicate SeenArgs(es: seq<Expr>, x: Name, split: set<Name>, mark: Mark)
    decreases es
  {
    es != [] &&
    (SeenExpr(es[0], x, split, mark) ||
     (Calm(es[0], split) && SeenArgs(es[1..], x, split + Bare(es[0]), TrackExpr(es[0], x, mark))))
  }

  /** x is compared with the value it wraps. */
  predicate Compares(e: Expr, x: Name, k: nat) {
    e == Same(Var(x), Lit(Plain(k))) || e == Same(Lit(Plain(k)), Var(x))
  }

  /** s certainly passes x to a call, or returns a comparison of x, while x is split. */
  predicate Seen(s: Stmt, x: Name, k: nat, split: set<Name>, mark: Mark)
    decreases s
  {
    match s
    case Let(_, e) => SeenExpr(e, x, split, mark)
    case Assign(_, e) => SeenExpr(e, x, split, mark)
    case Do(e) => SeenExpr(e, x, split, mark)
    case Ret(e) => SeenExpr(e, x, split, mark) || (mark.Split? && Compares(e, x, k))
    case If(test, thn, els) =>
      SeenExpr(test, x, split, mark) ||
      (Calm(test, split) &&
       var t := TrackExpr(test, x, mark);
       Seen(thn, x, k, split + Bare(test), t) && Seen(els, x, k, split + Bare(test), t))
    case While(test, _) => SeenExpr(test, x, split, mark)
    case Block(body) => SeenAll(body, x, k, split, mark)
    case Check(_) => false
    case Declare(_) => false
  }

  predicate SeenAll(ss: seq<Stmt>, x: Name, k: nat, split: set<Name>, mark: Mark)
    decreases ss
  {
    ss != [] &&
    (Seen(ss[0], x, k, split, mark) ||
     (Straight(ss[0]) && Ordered(ss[0], split) && KindsBody(ss[0], {}) &&
      SeenAll(ss[1..], x, k, SplitAfter(ss[0], split), Track(ss[0], x, mark))))
  }

  // --- Before the read ---

  ghost predicate Marked(a: Env, b: Env, x: Name, k: nat, mark: Mark) {
    match mark
    case Wrapped => Get(a, x) == NormalC(k) && Get(b, x) == NormalC(k)
    case Split => Get(a, x) == Plain(k) && Get(b, x) == NormalC(k)
    case Unknown => true
  }

  /** a in the early-return form and b in the other, with no abrupt value in any variable. */
  ghost predicate Pair(a: State, b: State, x: Name, k: nat, split: set<Name>, mark: Mark) {
    UpTo(a, b, split) && KindsEnv(a.env, {}) && KindsEnv(b.env, {}) && Marked(a.env, b.env, x, k, mark)
  }

  lemma {:induction false} TrackRight(x: Name, k: nat, e: Expr, a: State, b: State, split: set<Name>, mark: Mark)
    requires Calm(e, split) && Pair(a, b, x, k, split, mark)
    ensures var r, q := Eval(Early(k), e, a), Eval(Throwing(k), e, b);
            r.Val? && q.Val? && r.v == q.v && Pair(r.st, q.st, x, k, split + Bare(e), TrackExpr(e, x, mark))
    decreases e, 1
  {
    var host := AlwaysNormal(k);
    EvalBothWays(host, e, a, b, split);
    EvalKinds(Machine(host, true), e, a, {});
    EvalKinds(Machine(host, false), e, b, {});
    TrackMark(x, k, e, a, b, split, mark);
  }

  lemma {:induction false} TrackMark(x: Name, k: nat, e: Expr, a: State, b: State, split: set<Name>, mark: Mark)
    requires Calm(e, split) && Pair(a, b, x, k, split, mark)
    ensures var r, q := Eval(Early(k), e, a), Eval(Throwing(k), e, b);
            r.Val? && q.Val? ==> Marked(r.st.env, q.st.env, x, k, TrackExpr(e, x, mark))
    decreases e, 0
  {
    hide ReadsOk, KindsEnv, UpTo;
    var m, n := Early(k), Throwing(k);
    CalmParts(e, split);
    match e
    case Lit(_) =>
    case Var(_) =>
    case Call(_, args) => TrackArgsMark(x, k, args, a, b, split, mark);
    case Q(arg) =>
      if !arg.Var? { TrackValue(x, k, arg, a, b, split, mark); }
    case Cond(test, thn, els) =>
      TrackRight(x, k, test, a, b, split, mark);
      var r, q := Eval(m, test, a), Eval(n, test, b);
      var t := TrackExpr(test, x, mark);
      TrackRight(x, k, if Truthy(r.v) then thn else els, r.st, q.st, split + Bare(test), t);
    case And(l, r) =>
      TrackRight(x, k, l, a, b, split, mark);
      TrackRight(x, k, r, Eval(m, l, a).st, Eval(n, l, b).st, split + Bare(l), TrackExpr(l, x, mark));
    case Same(l, r) =>
      TrackRight(x, k, l, a, b, split, mark);
      TrackRight(x, k, r, Eval(m, l, a).st, Eval(n, l, b).st, split + Bare(l), TrackExpr(l, x, mark));
  }

  /** The same for an expression whose value goes to a macro, where the two values may be the wrapped
      and the unwrapped form of one. */
  lemma {:induction false} TrackValue(x: Name, k: nat, e: Expr, a: State, b: State, split: set<Name>, mark: Mark)
    requires CalmValue(e, split) && Pair(a, b, x, k, split, mark)
    ensures var r, q := Eval(Early(k), e, a), Eval(Throwing(k), e, b);
            r.Val? && q.Val? && Pair(r.st, q.st, x, k, split + Bare(e), TrackExpr(e, x, mark))
    decreases e, 3
  {
    var host := AlwaysNormal(k);
    ValueBothWays(host, e, a, b, split);
    EvalKinds(Machine(host, true), e, a, {});
    EvalKinds(Machine(host, false), e, b, {});
    TrackValueMark(x, k, e, a, b, split, mark);
  }

  lemma {:induction false} TrackValueMark(x: Name, k: nat, e: Expr, a: State, b: State, split: set<Name>,
      mark: Mark)
    requires CalmValue(e, split) && Pair(a, b, x, k, split, mark)
    ensures var r, q := Eval(Early(k), e, a), Eval(Throwing(k), e, b);
            r.Val? && q.Val? ==> Marked(r.st.env, q.st.env, x, k, TrackExpr(e, x, mark))
    decreases e, 2
  {
    hide KindsEnv, UpTo;
    var m, n := Early(k), Throwing(k);
    match e
    case Var(_) =>
    case Cond(test, thn, els) =>
      TrackRight(x, k, test, a, b, split, mark);
      var r, q := Eval(m, test, a), Eval(n, test, b);
      var t := TrackExpr(test, x, mark);
      TrackValue(x, k, if Truthy(r.v) then thn else els, r.st, q.st, split + Bare(test), t);
    case And(l, r) =>
      TrackRight(x, k, l, a, b, split, mark);
      TrackValue(x, k, r, Eval(m, l, a).st, Eval(n, l, b).st, split + Bare(l), TrackExpr(l, x, mark));
    case _ => TrackMark(x, k, e, a, b, split, mark);
  }

  /** The parts of a calm expression are calm. */
  lemma CalmParts(e: Expr, split: set<Name>)
    requires Calm(e, split)
    ensures e.Call? ==> ReadsOkArgs(e.args, split) && KindsArgs(e.args, {})
    ensures e.Q? ==> CalmValue(e.arg, split)
    ensures e.Cond? ==>
      Calm(e.test, split) && Calm(e.thn, split + Bare(e.test)) && Calm(e.els, split + Bare(e.test))
    ensures e.And? || e.Same? ==> Calm(e.l, split) && Calm(e.r, split + Bare(e.l))
  {
  }

  lemma {:induction false} TrackArgsMark(x: Name, k: nat, es: seq<Expr>, a: State, b: State, split: set<Name>,
        mark: Mark)
    requires ReadsOkArgs(es, split) && KindsArgs(es, {}) && Pair(a, b, x, k, split, mark)
    ensures var r, q := EvalArgs(Early(k), es, a), EvalArgs(Throwing(k), es, b);
            r.Vals? && q.Vals? ==> Marked(r.st.env, q.st.env, x, k, TrackArgs(es, x, mark))
    decreases es, 0
  {
    hide ReadsOk, KindsEnv, UpTo;
    if es != [] {
      var m, n := Early(k), Throwing(k);
      TrackRight(x, k, es[0], a, b, split, mark);
      TrackArgsMark(x, k, es[1..], Eval(m, es[0], a).st, Eval(n, es[0], b).st, split + Bare(es[0]),
                    TrackExpr(es[0], x, mark));
    }
  }

  lemma StoreMark(x: Name, k: nat, y: Name, e: Expr, a: State, b: State, split: set<Name>, mark: Mark)
    requires Calm(e, split) && Pair(a, b, x, k, split, mark)
    ensures var r, q := Eval(Early(k), e, a), Eval(Throwing(k), e, b);
            && r.Val? && q.Val?
            && Marked(r.st.env[y := r.v], q.st.env[y := q.v], x, k, TrackStore(y, e, x, mark))
  {
    TrackRight(x, k, e, a, b, split, mark);
  }

  /** A straight statement that is ordered and calm keeps the two forms together. */
  lemma {:induction false} TrackStmt(x: Name, k: nat, s: Stmt, a: State, b: State, split: set<Name>, mark: Mark,
        fuel: nat)
    requires Straight(s) && Ordered(s, split) && KindsBody(s, {}) && Pair(a, b, x, k, split, mark)
    ensures var o, p := Run(Early(k), s, a, fuel), Run(Throwing(k), s, b, fuel);
            o.Next? && p.Next? && Pair(o.st, p.st, x, k, SplitAfter(s, split), Track(s, x, mark))
    decreases s, 1
  {
    var host := AlwaysNormal(k);
    RunBothWays(host, s, a, b, split, fuel);
    RunKinds(Machine(host, true), s, a, {}, fuel);
    RunKinds(Machine(host, false), s, b, {}, fuel);
    TrackStmtMark(x, k, s, a, b, split, mark, fuel);
  }

  lemma {:induction false} TrackStmtMark(x: Name, k: nat, s: Stmt, a: State, b: State, split: set<Name>,
        mark: Mark,
        fuel: nat)
    requires Straight(s) && Ordered(s, split) && KindsBody(s, {}) && Pair(a, b, x, k, split, mark)
    ensures var o, p := Run(Early(k), s, a, fuel), Run(Throwing(k), s, b, fuel);
            o.Next? && p.Next? && Marked(o.st.env, p.st.env, x, k, Track(s, x, mark))
    decreases s, 0
  {
    var m, n := Early(k), Throwing(k);
    match s
    case Let(y, e) => StoreMark(x, k, y, e, a, b, split, mark);
    case Assign(y, e) => StoreMark(x, k, y, e, a, b, split, mark);
    case Do(e) => TrackRight(x, k, e, a, b, split, mark);
    case If(test, thn, els) =>
      TrackRight(x, k, test, a, b, split, mark);
      var r, q := Eval(m, test, a), Eval(n, test, b);
      var t := TrackExpr(test, x, mark);
      TrackStmt(x, k, if Truthy(r.v) then thn else els, r.st, q.st, split + Bare(test), t, fuel);
    case Block(body) => TrackAllMark(x, k, body, a, b, split, mark, fuel);
  }

  lemma {:induction false} TrackAllMark(x: Name, k: nat, ss: seq<Stmt>, a: State, b: State, split: set<Name>,
        mark: Mark,
        fuel: nat)
    requires StraightAll(ss) && OrderedAll(ss, split) && KindsBodies(ss, {}) && Pair(a, b, x, k, split, mark)
    ensures var o, p := RunAll(Early(k), ss, a, fuel), RunAll(Throwing(k), ss, b, fuel);
            o.Next? && p.Next? && Marked(o.st.env, p.st.env, x, k, TrackAll(ss, x, mark))
    decreases ss, 0
  {
    if ss != [] {
      TrackStmt(x, k, ss[0], a, b, split, mark, fuel);
      var o := Run(Early(k), ss[0], a, fuel);
      var p := Run(Throwing(k), ss[0], b, fuel);
      TrackAllMark(x, k, ss[1..], o.st, p.st, SplitAfter(ss[0], split), Track(ss[0], x, mark), fuel);
    }
  }

  // --- At the read, and after it ---

  /** The calls made so far differ, and will differ whatever is called later. */
  predicate Apart(a: seq<Event>, b: seq<Event>) {
    exists i :: 0 <= i < |a| && i < |b| && a[i] != b[i]
  }

  lemma ApartStays(a: seq<Event>, b: seq<Event>, a': seq<Event>, b': seq<Event>)
    requires Apart(a, b) && a <= a' && b <= b'
    ensures Apart(a', b')
  {
    var i :| 0 <= i < |a| && i < |b| && a[i] != b[i];
    assert a'[i] != b'[i];
  }

  /** Arguments that are calm or variables are evaluated alike; x among them while split differs. */
  lemma {:induction false} PassedSplit(x: Name, k: nat, es: seq<Expr>, a: State, b: State, split: set<Name>, mark: Mark)
    requires CalmArgs(es, split) && Pair(a, b, x, k, split, mark)
    ensures var r, q := EvalArgs(Early(k), es, a), EvalArgs(Throwing(k), es, b);
            && r.Vals? && q.Vals? && r.st.trace == q.st.trace
            && (PassesSplit(es, x, mark) ==> r.vs != q.vs)
    decreases es
  {
    hide Calm, KindsEnv, Pair;
    PairFacts(a, b, x, k, split, mark);
    if es != [] {
      var m, n := Early(k), Throwing(k);
      var r, q := Eval(m, es[0], a), Eval(n, es[0], b);
      if es[0].Var? {
        assert split + Bare(es[0]) == split;
        PassedSplit(x, k, es[1..], a, b, split, mark);
      } else {
        TrackRight(x, k, es[0], a, b, split, mark);
        PassedSplit(x, k, es[1..], r.st, q.st, split + Bare(es[0]), TrackExpr(es[0], x, mark));
      }
      var rs, qs := EvalArgs(m, es[1..], r.st), EvalArgs(n, es[1..], q.st);
      assert ([r.v] + rs.vs)[1..] == rs.vs && ([q.v] + qs.vs)[1..] == qs.vs;
    }
  }

  lemma PairFacts(a: State, b: State, x: Name, k: nat, split: set<Name>, mark: Mark)
    requires Pair(a, b, x, k, split, mark)
    ensures a.trace == b.trace && (mark.Split? ==> Get(a.env, x) != Get(b.env, x))
  {
  }

  /** The read is seen in the calls made. */
  lemma {:induction false} SeenInExpr(x: Name, k: nat, e: Expr, a: State, b: State, split: set<Name>, mark: Mark)
    requires SeenExpr(e, x, split, mark) && Pair(a, b, x, k, split, mark)
    ensures Apart(Eval(Early(k), e, a).st.trace,
                  Eval(Throwing(k), e, b).st.trace)
    decreases e
  {
    hide Calm, Pair, Apart, TrackExpr;
    var m, n := Early(k), Throwing(k);
    match e
    case Call(f, args) =>
      if SeenArgs(args, x, split, mark) {
        SeenInArgs(x, k, args, a, b, split, mark);
        var r, q := EvalArgs(m, args, a), EvalArgs(n, args, b);
        ApartStays(r.st.trace, q.st.trace, Eval(m, e, a).st.trace, Eval(n, e, b).st.trace);
      } else {
        PassedSplit(x, k, args, a, b, split, mark);
        SplitCall(f, EvalArgs(m, args, a), EvalArgs(n, args, b));
      }
    case Q(arg) => SeenInExpr(x, k, arg, a, b, split, mark);
    case Cond(test, thn, els) =>
      var r, q := Eval(m, test, a), Eval(n, test, b);
      if SeenExpr(test, x, split, mark) {
        SeenInExpr(x, k, test, a, b, split, mark);
        CallsGrow(m, thn, r.st); CallsGrow(m, els, r.st); CallsGrow(n, thn, q.st); CallsGrow(n, els, q.st);
        ApartStays(r.st.trace, q.st.trace, Eval(m, e, a).st.trace, Eval(n, e, b).st.trace);
      } else {
        TrackRight(x, k, test, a, b, split, mark);
        SeenInExpr(x, k, if Truthy(r.v) then thn else els, r.st, q.st, split + Bare(test), TrackExpr(test, x, mark));
      }
    case And(l, r) =>
      SeenInExpr(x, k, l, a, b, split, mark);
      var p, q := Eval(m, l, a), Eval(n, l, b);
      CallsGrow(m, r, p.st); CallsGrow(n, r, q.st);
      ApartStays(p.st.trace, q.st.trace, Eval(m, e, a).st.trace, Eval(n, e, b).st.trace);
    case Same(l, r) =>
      var p, q := Eval(m, l, a), Eval(n, l, b);
      if SeenExpr(l, x, split, mark) {
        SeenInExpr(x, k, l, a, b, split, mark);
        CallsGrow(m, r, p.st); CallsGrow(n, r, q.st);
        ApartStays(p.st.trace, q.st.trace, Eval(m, e, a).st.trace, Eval(n, e, b).st.trace);
      } else {
        TrackRight(x, k, l, a, b, split, mark);
        SeenInExpr(x, k, r, p.st, q.st, split + Bare(l), TrackExpr(l, x, mark));
      }
  }

  lemma SplitCall(f: nat, r: ArgsRes, q: ArgsRes)
    requires r.Vals? && q.Vals? && r.st.trace == q.st.trace && r.vs != q.vs
    ensures Apart(r.st.trace + [Event(f, r.vs)], q.st.trace + [Event(f, q.vs)])
  {
    var a, b := r.st.trace + [Event(f, r.vs)], q.st.trace + [Event(f, q.vs)];
    assert a[|r.st.trace|] != b[|r.st.trace|];
  }

  lemma {:induction false} SeenInArgs(x: Name, k: nat, es: seq<Expr>, a: State, b: State, split: set<Name>, mark: Mark)
    requires SeenArgs(es, x, split, mark) && Pair(a, b, x, k, split, mark)
    ensures Apart(EvalArgs(Early(k), es, a).st.trace,
                  EvalArgs(Throwing(k), es, b).st.trace)
    decreases es
  {
    hide Calm, Pair, Apart, TrackExpr;
    var m, n := Early(k), Throwing(k);
    var r, q := Eval(m, es[0], a), Eval(n, es[0], b);
    if SeenExpr(es[0], x, split, mark) {
      SeenInExpr(x, k, es[0], a, b, split, mark);
      ArgsCallsGrow(m, es[1..], r.st);
      ArgsCallsGrow(n, es[1..], q.st);
      ApartStays(r.st.trace, q.st.trace, EvalArgs(m, es, a).st.trace, EvalArgs(n, es, b).st.trace);
    } else {
      TrackRight(x, k, es[0], a, b, split, mark);
      SeenInArgs(x, k, es[1..], r.st, q.st, split + Bare(es[0]), TrackExpr(es[0], x, mark));
    }
  }

  /** Different calls made, or different completions. */
  predicate Different(o: Out, p: Out) {
    o.Timeout? || p.Timeout? || Apart(o.st.trace, p.st.trace) ||
    (o.Returned? && p.Returned? && EnsureCompletion(o.v) != EnsureCompletion(p.v))
  }

  lemma {:induction false} SeenInStmt(x: Name, k: nat, s: Stmt, a: State, b: State, split: set<Name>, mark: Mark,
        fuel: nat)
    requires Seen(s, x, k, split, mark) && Pair(a, b, x, k, split, mark)
    ensures Different(Run(Early(k), s, a, fuel), Run(Throwing(k), s, b, fuel))
    decreases s
  {
    hide Calm, Pair, Apart, TrackExpr, SeenExpr, Eval;
    var m, n := Early(k), Throwing(k);
    match s
    case Let(_, e) => SeenInExpr(x, k, e, a, b, split, mark);
    case Assign(_, e) => SeenInExpr(x, k, e, a, b, split, mark);
    case Do(e) => SeenInExpr(x, k, e, a, b, split, mark);
    case Ret(e) =>
      if SeenExpr(e, x, split, mark) {
        SeenInExpr(x, k, e, a, b, split, mark);
      } else {
        ComparedSplit(x, k, e, a, b, split, mark);
      }
    case If(test, thn, els) =>
      var r, q := Eval(m, test, a), Eval(n, test, b);
      if SeenExpr(test, x, split, mark) {
        SeenInExpr(x, k, test, a, b, split, mark);
        RunCallsGrow(m, thn, r.st, fuel); RunCallsGrow(m, els, r.st, fuel);
        RunCallsGrow(n, thn, q.st, fuel); RunCallsGrow(n, els, q.st, fuel);
        StaysDifferent(r.st, q.st, Run(m, s, a, fuel), Run(n, s, b, fuel));
      } else {
        TrackRight(x, k, test, a, b, split, mark);
        SeenInStmt(x, k, if Truthy(r.v) then thn else els, r.st, q.st, split + Bare(test),
                   TrackExpr(test, x, mark), fuel);
      }
    case While(test, body) =>
      SeenInExpr(x, k, test, a, b, split, mark);
      WhileCallsGrow(m, test, body, a, fuel);
      WhileCallsGrow(n, test, body, b, fuel);
      StaysDifferent(Eval(m, test, a).st, Eval(n, test, b).st, Run(m, s, a, fuel), Run(n, s, b, fuel));
    case Block(body) => SeenInAll(x, k, body, a, b, split, mark, fuel);
  }

  lemma WhileCallsGrow(m: Machine, test: Expr, body: Stmt, st: State, fuel: nat)
    ensures var o := Run(m, While(test, body), st, fuel); !o.Timeout? ==> Eval(m, test, st).st.trace <= o.st.trace
  {
    var r := Eval(m, test, st);
    if fuel > 0 {
      RunCallsGrow(m, body, r.st, fuel);
      var o := Run(m, body, r.st, fuel);
      if o.Next? { RunCallsGrow(m, While(test, body), o.st, fuel - 1); }
    }
  }

  lemma StaysDifferent(r: State, q: State, o: Out, p: Out)
    requires Apart(r.trace, q.trace)
    requires (!o.Timeout? ==> r.trace <= o.st.trace) && (!p.Timeout? ==> q.trace <= p.st.trace)
    ensures Different(o, p)
  {
    if !o.Timeout? && !p.Timeout? { ApartStays(r.trace, q.trace, o.st.trace, p.st.trace); }
  }

  lemma ComparedSplit(x: Name, k: nat, e: Expr, a: State, b: State, split: set<Name>, mark: Mark)
    requires mark.Split? && Compares(e, x, k) && Pair(a, b, x, k, split, mark)
    ensures Eval(Early(k), e, a) == Val(Plain(1), a)
    ensures Eval(Throwing(k), e, b) == Val(Plain(0), b)
  {
  }

  lemma {:induction false} SeenInAll(x: Name, k: nat, ss: seq<Stmt>, a: State, b: State, split: set<Name>, mark: Mark,
        fuel: nat)
    requires SeenAll(ss, x, k, split, mark) && Pair(a, b, x, k, split, mark)
    ensures Different(RunAll(Early(k), ss, a, fuel),
                      RunAll(Throwing(k), ss, b, fuel))
    decreases ss
  {
    hide Pair, Apart, Seen, Track, Ordered, KindsBody, Straight, Run;
    var m, n := Early(k), Throwing(k);
    var o, p := Run(m, ss[0], a, fuel), Run(n, ss[0], b, fuel);
    if Seen(ss[0], x, k, split, mark) {
      SeenInStmt(x, k, ss[0], a, b, split, mark, fuel);
      if o.Next? { RunAllCallsGrow(m, ss[1..], o.st, fuel); }
      if p.Next? { RunAllCallsGrow(n, ss[1..], p.st, fuel); }
      if !o.Timeout? && !p.Timeout? && Apart(o.st.trace, p.st.trace) {
        StaysDifferent(o.st, p.st, RunAll(m, ss, a, fuel), RunAll(n, ss, b, fuel));
      }
    } else {
      TrackStmt(x, k, ss[0], a, b, split, mark, fuel);
      SeenInAll(x, k, ss[1..], o.st, p.st, SplitAfter(ss[0], split), Track(ss[0], x, mark), fuel);
    }
  }

  /** A body that certainly passes x to a call, or returns a comparison of x, after a bare macro on x
      is not treated faithfully by evalQ: with x a normal completion and a host that only makes
      those, the two forms differ whenever they finish. */
  lemma SplitReadIsSeen(body: seq<Stmt>, x: Name, k: nat, fuel: nat)
    requires SeenAll(body, x, k, {}, Wrapped)
    ensures var st := State(map[x := NormalC(k)], []);
            EvalQFaithful(AlwaysNormal(k), body, st, fuel) ==>
              RunAll(Early(k), body, st, fuel).Timeout?
  {
    var st := State(map[x := NormalC(k)], []);
    assert Pair(st, st, x, k, {}, Wrapped);
    SeenInAll(x, k, body, st, st, {}, Wrapped, fuel);
    var p := RunAll(Throwing(k), body, st, fuel);
    var o := RunAll(Early(k), body, st, fuel);
    if !o.Timeout? && !p.Timeout? && Apart(o.st.trace, p.st.trace) {
      assert o.st.trace != p.st.trace;
    }
  }

  // --- An exact condition ---

  /** Variables and values that are not abrupt. */
  predicate Atoms(es: seq<Expr>)
    decreases es
  {
    es == [] || ((es[0].Var? || (es[0].Lit? && !es[0].v.AbruptC?)) && Atoms(es[1..]))
  }

  /** A bare macro, or a call on atoms whose result may be stored. */
  predicate Flat(s: Stmt) {
    match s
    case Do(e) => (e.Q? && e.arg.Var?) || (e.Call? && Atoms(e.args))
    case Let(_, e) => e.Call? && Atoms(e.args)
    case Assign(_, e) => e.Call? && Atoms(e.args)
    case _ => false
  }

  predicate FlatAll(ss: seq<Stmt>) {
    forall i :: 0 <= i < |ss| ==> Flat(ss[i])
  }

  function MarkOf(x: Name, split: set<Name>): Mark { if x in split then Split else Wrapped }

  /** Atoms change nothing, and are calm unless one of them is split. */
  lemma {:induction false} AtomsRead(es: seq<Expr>, split: set<Name>) returns (x: Name)
    requires Atoms(es)
    ensures BareArgs(es) == {} && CalmArgs(es, split) && KindsArgs(es, {})
    ensures forall y, mark :: TrackArgs(es, y, mark) == mark
    ensures ReadsOkArgs(es, split) || (x in split && PassesSplit(es, x, Split))
    decreases es
  {
    x := Temp(0);
    if es != [] {
      var y := AtomsRead(es[1..], split);
      assert split + Bare(es[0]) == split;
      x := if es[0].Var? && es[0].x in split then es[0].x else y;
    }
  }

  lemma FlatStep(s: Stmt, x: Name, split: set<Name>)
    requires Flat(s)
    ensures Track(s, x, MarkOf(x, split)) == MarkOf(x, SplitAfter(s, split))
    ensures Straight(s) && KindsBody(s, {})
  {
    if s.e.Call? {
      var y := AtomsRead(s.e.args, split);
      assert Bare(s.e) == {} && forall mark :: TrackExpr(s.e, x, mark) == TrackArgs(s.e.args, x, mark);
    }
  }

  /** The first read of a split variable is seen. */
  lemma {:induction false} FirstSplitRead(ss: seq<Stmt>, k: nat, split: set<Name>) returns (x: Name)
    requires FlatAll(ss) && !OrderedAll(ss, split)
    ensures SeenAll(ss, x, k, split, MarkOf(x, split))
    decreases ss
  {
    var s := ss[0];
    assert s.e.Q? ==> ValueOk(s.e.arg, split);
    if !Ordered(s, split) {
      x := AtomsRead(s.e.args, split);
    } else {
      x := FirstSplitRead(ss[1..], k, SplitAfter(s, split));
      FlatStep(s, x, split);
    }
  }

  lemma {:induction false} FlatIsStraight(ss: seq<Stmt>)
    requires FlatAll(ss)
    ensures StraightAll(ss) && KindsBodies(ss, {})
    decreases ss
  {
    if ss != [] {
      FlatStep(ss[0], Temp(0), {});
      FlatIsStraight(ss[1..]);
    }
  }

  /** On flat bodies the order of reads and macros decides: evalQ is faithful for all hosts and
      variables whose abrupt results are throw completions if and only if no variable is read after
      a bare macro on it without an assignment in between. */
  lemma FlatExactlyWhenOrdered(body: seq<Stmt>)
    requires FlatAll(body)
    ensures (forall host: Host, st: State, fuel: nat ::
               KindsHost(host, THROWS) && KindsEnv(st.env, THROWS) ==> EvalQFaithful(host, body, st, fuel))
            <==> OrderedAll(body, {})
  {
    FlatIsStraight(body);
    if OrderedAll(body, {}) {
      KindsMore(body, {}, THROWS);
      forall host: Host, st: State, fuel: nat | KindsHost(host, THROWS) && KindsEnv(st.env, THROWS)
        ensures EvalQFaithful(host, body, st, fuel)
      {
        EvalQIsEarlyReturn(host, body, st, fuel);
      }
    } else {
      var x := FirstSplitRead(body, 0, {});
      SplitReadIsSeen(body, x, 0, 0);
      var st := State(map[x := NormalC(0)], []);
      StraightAllGoesOn(Machine(AlwaysNormal(0), false), body, st);
      assert KindsHost(AlwaysNormal(0), THROWS) && KindsEnv(st.env, THROWS);
      assert !EvalQFaithful(AlwaysNormal(0), body, st, 0);
    }
  }
}
