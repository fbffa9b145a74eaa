/** The exception form of the macro, Q_runtime under evalQ, against its early-return form and
    against the lowered code. */
module MacrosRuntime {
  import opened Completions
  import opened Macros
  import opened MacrosCorrect
  import opened MacrosBodies

  // --- Reads after a bare macro ---

  /** e, entered with the variables in `split` unwrapped by the early-return form only, reads none
      of them where it matters whether a normal completion is unwrapped. Evaluating e adds its bare
      variables to them. */
  predicate ReadsOk(e: Expr, split: set<Name>)
    decreases e, 0
  {
    match e
    case Lit(_) => true
    case Var(x) => x !in split
    case Call(_, args) => ReadsOkArgs(args, split)
    case Q(arg) => ValueOk(arg, split)
    case Cond(test, thn, els) =>
      ReadsOk(test, split) && ReadsOk(thn, split + Bare(test)) && ReadsOk(els, split + Bare(test))
    case And(l, r) => ReadsOk(l, split) && ReadsOk(r, split + Bare(l))
    case Same(l, r) => ReadsOk(l, split) && ReadsOk(r, split + Bare(l))
  }

  /** The same where e's value goes to a macro or is returned: a variable may be that value, since
      both take a plain value for a normal completion. */
  predicate ValueOk(e: Expr, split: set<Name>)
    decreases e, 1
  {
    match e
    case Var(_) => true
    case Cond(test, thn, els) =>
      ReadsOk(test, split) && ValueOk(thn, split + Bare(test)) && ValueOk(els, split + Bare(test))
    case And(l, r) => ReadsOk(l, split) && ValueOk(r, split + Bare(l))
    case _ => ReadsOk(e, split)
  }

  predicate ReadsOkArgs(es: seq<Expr>, split: set<Name>)
    decreases es, 0
  {
    es == [] || (ReadsOk(es[0], split) && ReadsOkArgs(es[1..], split + Bare(es[0])))
  }

  /** The variables that may be split after s, where an assignment makes both forms agree again.
      A loop is entered with what it starts with or with what a round leaves. */
  function SplitAfter(s: Stmt, split: set<Name>): set<Name>
    decreases s
  {
    match s
    case Let(x, e) => split + Bare(e) - {x}
    case Assign(x, e) => split + Bare(e) - {x}
    case Do(e) => split + Bare(e)
    case Ret(_) => {}
    case If(test, thn, els) =>
      SplitAfter(thn, split + Bare(test)) + SplitAfter(els, split + Bare(test))
    case While(test, body) => split + SplitAfter(body, split + Bare(test)) + Bare(test)
    case Block(body) => SplitAfterAll(body, split)
    case Check(_) => split
    case Declare(_) => split
  }

  function SplitAfterAll(ss: seq<Stmt>, split: set<Name>): set<Name>
    decreases ss
  {
    if ss == [] then split else SplitAfterAll(ss[1..], SplitAfter(ss[0], split))
  }

  /** No variable is read, other than to be returned or for a macro, after a bare macro on it without
      an assignment in between, counting a second round of every loop. */
  predicate Ordered(s: Stmt, split: set<Name>)
    decreases s
  {
    match s
    case Let(_, e) => ReadsOk(e, split)
    case Assign(_, e) => ReadsOk(e, split)
    case Do(e) => ReadsOk(e, split)
    case Ret(e) => ValueOk(e, split)
    case If(test, thn, els) =>
      ReadsOk(test, split) && Ordered(thn, split + Bare(test)) && Ordered(els, split + Bare(test))
    case While(test, body) =>
      var entry := split + SplitAfter(body, split + Bare(test));
      ReadsOk(test, entry) && Ordered(body, entry + Bare(test))
    case Block(body) => OrderedAll(body, split)
    case Check(_) => false
    case Declare(_) => false
  }

  predicate OrderedAll(ss: seq<Stmt>, split: set<Name>)
    decreases ss
  {
    ss == [] || (Ordered(ss[0], split) && OrderedAll(ss[1..], SplitAfter(ss[0], split)))
  }

  // --- Two rounds of a loop are enough ---

  lemma {:induction false} SplitAfterUnion(s: Stmt, a: set<Name>, b: set<Name>)
    ensures SplitAfter(s, a + b) == SplitAfter(s, a) + SplitAfter(s, b)
    decreases s
  {
    match s
    case Let(_, _) =>
    case Assign(_, _) =>
    case Do(_) =>
    case Ret(_) =>
    case If(test, thn, els) =>
      assert a + b + Bare(test) == (a + Bare(test)) + (b + Bare(test));
      SplitAfterUnion(thn, a + Bare(test), b + Bare(test));
      SplitAfterUnion(els, a + Bare(test), b + Bare(test));
    case While(test, body) =>
      assert a + b + Bare(test) == (a + Bare(test)) + (b + Bare(test));
      SplitAfterUnion(body, a + Bare(test), b + Bare(test));
    case Block(body) => SplitAfterAllUnion(body, a, b);
    case Check(_) =>
    case Declare(_) =>
  }

  lemma {:induction false} SplitAfterAllUnion(ss: seq<Stmt>, a: set<Name>, b: set<Name>)
    ensures SplitAfterAll(ss, a + b) == SplitAfterAll(ss, a) + SplitAfterAll(ss, b)
    decreases ss
  {
    if ss != [] {
      SplitAfterUnion(ss[0], a, b);
      SplitAfterAllUnion(ss[1..], SplitAfter(ss[0], a), SplitAfter(ss[0], b));
    }
  }

  /** A statement adds the same variables whatever was split before. */
  lemma {:induction false} SplitAfterAdds(s: Stmt, a: set<Name>)
    ensures SplitAfter(s, a) <= a + SplitAfter(s, {})
    decreases s
  {
    match s
    case Let(_, _) =>
    case Assign(_, _) =>
    case Do(_) =>
    case Ret(_) =>
    case If(test, thn, els) =>
      SplitAfterAdds(thn, a + Bare(test));
      SplitAfterAdds(els, a + Bare(test));
      SplitAfterUnion(thn, {}, {} + Bare(test));
      SplitAfterUnion(els, {}, {} + Bare(test));
      SplitAfterUnion(thn, a, Bare(test));
      SplitAfterUnion(els, a, Bare(test));
      SplitAfterAdds(thn, a);
      SplitAfterAdds(els, a);
    case While(test, body) =>
      SplitAfterUnion(body, a, Bare(test));
      SplitAfterUnion(body, {}, Bare(test));
      SplitAfterAdds(body, a);
    case Block(body) => SplitAfterAllAdds(body, a);
    case Check(_) =>
    case Declare(_) =>
  }

  lemma {:induction false} SplitAfterAllAdds(ss: seq<Stmt>, a: set<Name>)
    ensures SplitAfterAll(ss, a) <= a + SplitAfterAll(ss, {})
    decreases ss
  {
    if ss != [] {
      var b, none := SplitAfter(ss[0], a), SplitAfter(ss[0], {});
      SplitAfterAdds(ss[0], a);
      SplitAfterAllAdds(ss[1..], b);
      SplitAfterAllMono(ss[1..], {}, none);
      SplitAfterAllMono(ss[1..], b, a + none);
      SplitAfterAllUnion(ss[1..], a, none);
      SplitAfterAllAdds(ss[1..], a);
    }
  }

  lemma SplitAfterAllMono(ss: seq<Stmt>, a: set<Name>, b: set<Name>)
    requires a <= b
    ensures SplitAfterAll(ss, a) <= SplitAfterAll(ss, b)
  {
    assert a + b == b;
    SplitAfterAllUnion(ss, a, b);
  }

  /** What a second round of a loop can be entered with, a third round can be entered with. */
  lemma LoopSettles(test: Expr, body: Stmt, split: set<Name>)
    ensures var entry := split + SplitAfter(body, split + Bare(test));
            SplitAfter(body, entry + Bare(test)) <= entry
  {
    var start := split + Bare(test);
    var round := SplitAfter(body, start);
    assert split + round + Bare(test) == start + round;
    SplitAfterUnion(body, start, round);
    SplitAfterAdds(body, round);
    assert {} + start == start;
    SplitAfterUnion(body, {}, start);
  }

  // --- Early return against exceptions ---

  /** The early-return run may have unwrapped some of the split variables. */
  ghost predicate UpTo(a: State, b: State, split: set<Name>) {
    Unwraps(b.env, a.env, split) && a.trace == b.trace
  }

  ghost predicate SameRes(r: Res, q: Res, split: set<Name>) {
    r.v == q.v &&
    if r.Val? then q.Val? && UpTo(r.st, q.st, split)
    else q.Exit? && r.v.AbruptC? && r.st.trace == q.st.trace
  }

  ghost predicate SameArgsRes(r: ArgsRes, q: ArgsRes, split: set<Name>) {
    if r.Vals? then q.Vals? && r.vs == q.vs && UpTo(r.st, q.st, split)
    else q.ArgsExit? && r.v == q.v && r.v.AbruptC? && r.st.trace == q.st.trace
  }

  /** The same, except that one value may be the unwrapped form of the other. */
  ghost predicate SameCompletion(r: Res, q: Res, split: set<Name>) {
    EnsureCompletion(r.v) == EnsureCompletion(q.v) &&
    if r.Val? then q.Val? && UpTo(r.st, q.st, split)
    else r.v == q.v && q.Exit? && r.v.AbruptC? && r.st.trace == q.st.trace
  }

  lemma {:induction false} EvalBothWays(host: Host, e: Expr, a: State, b: State, split: set<Name>)
    requires ReadsOk(e, split) && UpTo(a, b, split)
    ensures SameRes(Eval(Machine(host, true), e, a), Eval(Machine(host, false), e, b), split + Bare(e))
    decreases e, 0
  {
    var m, k := Machine(host, true), Machine(host, false);
    match e
    case Lit(_) =>
    case Var(x) => assert Get(a.env, x) == Get(b.env, x);
    case Call(_, args) => EvalArgsBothWays(host, args, a, b, split);
    case Q(arg) =>
      if arg.Var? {
        assert Get(a.env, arg.x) == Get(b.env, arg.x) || Get(a.env, arg.x) == Unwrap(Get(b.env, arg.x));
      } else {
        ValueBothWays(host, arg, a, b, split);
      }
    case Cond(test, thn, els) =>
      EvalBothWays(host, test, a, b, split);
      var r, q := Eval(m, test, a), Eval(k, test, b);
      if r.Val? { EvalBothWays(host, if Truthy(r.v) then thn else els, r.st, q.st, split + Bare(test)); }
    case And(l, r) =>
      EvalBothWays(host, l, a, b, split);
      var p, q := Eval(m, l, a), Eval(k, l, b);
      if p.Val? { EvalBothWays(host, r, p.st, q.st, split + Bare(l)); }
    case Same(l, r) =>
      EvalBothWays(host, l, a, b, split);
      var p, q := Eval(m, l, a), Eval(k, l, b);
      if p.Val? { EvalBothWays(host, r, p.st, q.st, split + Bare(l)); }
  }

  lemma {:induction false} ValueBothWays(host: Host, e: Expr, a: State, b: State, split: set<Name>)
    requires ValueOk(e, split) && UpTo(a, b, split)
    ensures SameCompletion(Eval(Machine(host, true), e, a), Eval(Machine(host, false), e, b), split + Bare(e))
    decreases e, 1
  {
    var m, k := Machine(host, true), Machine(host, false);
    match e
    case Var(x) =>
      assert Get(a.env, x) == Get(b.env, x) || Get(a.env, x) == Unwrap(Get(b.env, x));
    case Cond(test, thn, els) =>
      EvalBothWays(host, test, a, b, split);
      var r, q := Eval(m, test, a), Eval(k, test, b);
      if r.Val? { ValueBothWays(host, if Truthy(r.v) then thn else els, r.st, q.st, split + Bare(test)); }
    case And(l, r) =>
      EvalBothWays(host, l, a, b, split);
      var p, q := Eval(m, l, a), Eval(k, l, b);
      if p.Val? { ValueBothWays(host, r, p.st, q.st, split + Bare(l)); }
    case _ => EvalBothWays(host, e, a, b, split);
  }

  lemma {:induction false} EvalArgsBothWays(host: Host, es: seq<Expr>, a: State, b: State, split: set<Name>)
    requires ReadsOkArgs(es, split) && UpTo(a, b, split)
    ensures SameArgsRes(EvalArgs(Machine(host, true), es, a), EvalArgs(Machine(host, false), es, b),
                        split + BareArgs(es))
    decreases es, 0
  {
    if es != [] {
      EvalBothWays(host, es[0], a, b, split);
      var r, q := Eval(Machine(host, true), es[0], a), Eval(Machine(host, false), es[0], b);
      if r.Val? { EvalArgsBothWays(host, es[1..], r.st, q.st, split + Bare(es[0])); }
    }
  }

  lemma StoreBothWays(a: State, b: State, x: Name, v: Value, split: set<Name>)
    requires UpTo(a, b, split)
    ensures UpTo(a.(env := a.env[x := v]), b.(env := b.env[x := v]), split - {x})
  {
    var a', b' := a.env[x := v], b.env[x := v];
    forall y
      ensures Get(a', y) == Get(b', y)
           || (y in split - {x} && Get(b', y).NormalC? && Get(a', y) == Unwrap(Get(b', y)))
    {
      assert Get(a.env, y) == Get(b.env, y)
          || (y in split && Get(b.env, y).NormalC? && Get(a.env, y) == Unwrap(Get(b.env, y)));
    }
  }

  /** Where the one returns an abrupt completion early, the other may throw it. */
  ghost predicate ReturnsOrThrows(o: Out, p: Out, split: set<Name>) {
    match o
    case Next(st) => p.Next? && UpTo(st, p.st, split)
    case Returned(v, st) =>
      && (p.Returned? || (p.Thrown? && v.AbruptC?))
      && EnsureCompletion(p.v) == EnsureCompletion(v) && p.st.trace == st.trace
    case Thrown(_, _) => false
    case Timeout => p.Timeout?
  }

  lemma {:induction false} RunBothWays(host: Host, s: Stmt, a: State, b: State, split: set<Name>, fuel: nat)
    requires Ordered(s, split) && UpTo(a, b, split)
    ensures ReturnsOrThrows(Run(Machine(host, true), s, a, fuel), Run(Machine(host, false), s, b, fuel),
                            SplitAfter(s, split))
    decreases fuel, s
  {
    var m, k := Machine(host, true), Machine(host, false);
    match s
    case Let(x, e) =>
      EvalBothWays(host, e, a, b, split);
      var r, q := Eval(m, e, a), Eval(k, e, b);
      if r.Val? { StoreBothWays(r.st, q.st, x, r.v, split + Bare(e)); }
    case Assign(x, e) =>
      EvalBothWays(host, e, a, b, split);
      var r, q := Eval(m, e, a), Eval(k, e, b);
      if r.Val? { StoreBothWays(r.st, q.st, x, r.v, split + Bare(e)); }
    case Do(e) => EvalBothWays(host, e, a, b, split);
    case Ret(e) => ValueBothWays(host, e, a, b, split);
    case If(test, thn, els) =>
      EvalBothWays(host, test, a, b, split);
      var r, q := Eval(m, test, a), Eval(k, test, b);
      if r.Val? { RunBothWays(host, if Truthy(r.v) then thn else els, r.st, q.st, split + Bare(test), fuel); }
    case While(test, body) =>
      var entry := split + SplitAfter(body, split + Bare(test));
      EvalBothWays(host, test, a, b, entry);
      var r, q := Eval(m, test, a), Eval(k, test, b);
      if r.Val? && Truthy(r.v) && fuel > 0 {
        LoopSettles(test, body, split);
        RunBothWays(host, body, r.st, q.st, entry + Bare(test), fuel);
        var o, p := Run(m, body, r.st, fuel), Run(k, body, q.st, fuel);
        assert entry + SplitAfter(body, entry + Bare(test)) == entry;
        if o.Next? { RunBothWays(host, s, o.st, p.st, entry, fuel - 1); }
      }
    case Block(body) => RunAllBothWays(host, body, a, b, split, fuel);
  }

  lemma {:induction false} RunAllBothWays(host: Host, ss: seq<Stmt>, a: State, b: State, split: set<Name>, fuel: nat)
    requires OrderedAll(ss, split) && UpTo(a, b, split)
    ensures ReturnsOrThrows(RunAll(Machine(host, true), ss, a, fuel),
                            RunAll(Machine(host, false), ss, b, fuel), SplitAfterAll(ss, split))
    decreases fuel, ss
  {
    if ss != [] {
      RunBothWays(host, ss[0], a, b, split, fuel);
      var o, p := Run(Machine(host, true), ss[0], a, fuel), Run(Machine(host, false), ss[0], b, fuel);
      if o.Next? { RunAllBothWays(host, ss[1..], o.st, p.st, SplitAfter(ss[0], split), fuel); }
    }
  }

  // --- Bodies whose abrupt results are of some kinds only ---

  predicate OfKinds(v: Value, kinds: set<Kind>) { v.AbruptC? ==> v.kind in kinds }

  ghost predicate KindsHost(host: Host, kinds: set<Kind>) {
    forall f, vs, trace :: OfKinds(host(f, vs, trace), kinds)
  }

  ghost predicate KindsEnv(env: Env, kinds: set<Kind>) {
    forall x :: OfKinds(Get(env, x), kinds)
  }

  lemma StoreKinds(env: Env, x: Name, v: Value, kinds: set<Kind>)
    requires KindsEnv(env, kinds) && OfKinds(v, kinds)
    ensures KindsEnv(env[x := v], kinds)
  {
    var env' := env[x := v];
    forall y ensures OfKinds(Get(env', y), kinds) {
      assert OfKinds(Get(env, y), kinds);
    }
  }

  predicate KindsExpr(e: Expr, kinds: set<Kind>)
    decreases e
  {
    match e
    case Lit(v) => OfKinds(v, kinds)
    case Var(_) => true
    case Call(_, args) => KindsArgs(args, kinds)
    case Q(arg) => KindsExpr(arg, kinds)
    case Cond(test, thn, els) => KindsExpr(test, kinds) && KindsExpr(thn, kinds) && KindsExpr(els, kinds)
    case And(l, r) => KindsExpr(l, kinds) && KindsExpr(r, kinds)
    case Same(l, r) => KindsExpr(l, kinds) && KindsExpr(r, kinds)
  }

  predicate KindsArgs(es: seq<Expr>, kinds: set<Kind>)
    decreases es
  {
    es == [] || (KindsExpr(es[0], kinds) && KindsArgs(es[1..], kinds))
  }

  predicate KindsBody(s: Stmt, kinds: set<Kind>)
    decreases s
  {
    match s
    case Let(_, e) => KindsExpr(e, kinds)
    case Assign(_, e) => KindsExpr(e, kinds)
    case Do(e) => KindsExpr(e, kinds)
    case Ret(e) => KindsExpr(e, kinds)
    case If(test, thn, els) => KindsExpr(test, kinds) && KindsBody(thn, kinds) && KindsBody(els, kinds)
    case While(test, body) => KindsExpr(test, kinds) && KindsBody(body, kinds)
    case Block(body) => KindsBodies(body, kinds)
    case Check(_) => true
    case Declare(_) => true
  }

  predicate KindsBodies(ss: seq<Stmt>, kinds: set<Kind>)
    decreases ss
  {
    ss == [] || (KindsBody(ss[0], kinds) && KindsBodies(ss[1..], kinds))
  }

  lemma {:induction false} EvalKinds(m: Machine, e: Expr, st: State, kinds: set<Kind>)
    requires KindsHost(m.host, kinds) && KindsExpr(e, kinds) && KindsEnv(st.env, kinds)
    ensures var r := Eval(m, e, st);
            OfKinds(r.v, kinds) && KindsEnv(r.st.env, kinds) && (r.Exit? ==> r.v.AbruptC?)
    decreases e
  {
    match e
    case Lit(_) =>
    case Var(_) =>
    case Call(_, args) => EvalArgsKinds(m, args, st, kinds);
    case Q(arg) =>
      if arg.Var? {
        assert OfKinds(Get(st.env, arg.x), kinds);
        StoreKinds(st.env, arg.x, Unwrap(Get(st.env, arg.x)), kinds);
      } else {
        EvalKinds(m, arg, st, kinds);
      }
    case Cond(test, thn, els) =>
      EvalKinds(m, test, st, kinds);
      var r := Eval(m, test, st);
      if r.Val? { EvalKinds(m, if Truthy(r.v) then thn else els, r.st, kinds); }
    case And(l, r) =>
      EvalKinds(m, l, st, kinds);
      EvalKinds(m, r, Eval(m, l, st).st, kinds);
    case Same(l, r) =>
      EvalKinds(m, l, st, kinds);
      EvalKinds(m, r, Eval(m, l, st).st, kinds);
  }

  lemma {:induction false} EvalArgsKinds(m: Machine, es: seq<Expr>, st: State, kinds: set<Kind>)
    requires KindsHost(m.host, kinds) && KindsArgs(es, kinds) && KindsEnv(st.env, kinds)
    ensures var r := EvalArgs(m, es, st);
            KindsEnv(r.st.env, kinds) && (r.ArgsExit? ==> OfKinds(r.v, kinds) && r.v.AbruptC?)
    decreases es
  {
    if es != [] {
      EvalKinds(m, es[0], st, kinds);
      EvalArgsKinds(m, es[1..], Eval(m, es[0], st).st, kinds);
    }
  }

  ghost predicate KindsOut(o: Out, kinds: set<Kind>) {
    match o
    case Next(st) => KindsEnv(st.env, kinds)
    case Returned(v, _) => OfKinds(v, kinds)
    case Thrown(v, _) => OfKinds(v, kinds) && v.AbruptC?
    case Timeout => true
  }

  lemma {:induction false} RunKinds(m: Machine, s: Stmt, st: State, kinds: set<Kind>, fuel: nat)
    requires KindsHost(m.host, kinds) && KindsBody(s, kinds) && KindsEnv(st.env, kinds)
    ensures KindsOut(Run(m, s, st, fuel), kinds)
    decreases fuel, s
  {
    match s
    case Let(x, e) =>
      EvalKinds(m, e, st, kinds);
      var r := Eval(m, e, st);
      StoreKinds(r.st.env, x, r.v, kinds);
    case Assign(x, e) =>
      EvalKinds(m, e, st, kinds);
      var r := Eval(m, e, st);
      StoreKinds(r.st.env, x, r.v, kinds);
    case Do(e) => EvalKinds(m, e, st, kinds);
    case Ret(e) => EvalKinds(m, e, st, kinds);
    case If(test, thn, els) =>
      EvalKinds(m, test, st, kinds);
      var r := Eval(m, test, st);
      RunKinds(m, if Truthy(r.v) then thn else els, r.st, kinds, fuel);
    case While(test, body) =>
      EvalKinds(m, test, st, kinds);
      var r := Eval(m, test, st);
      if fuel > 0 {
        RunKinds(m, body, r.st, kinds, fuel);
        var o := Run(m, body, r.st, fuel);
        if o.Next? { RunKinds(m, s, o.st, kinds, fuel - 1); }
      }
    case Block(body) => RunAllKinds(m, body, st, kinds, fuel);
    case Check(x) =>
      assert OfKinds(Get(st.env, x), kinds);
      StoreKinds(st.env, x, Unwrap(Get(st.env, x)), kinds);
    case Declare(_) =>
  }

  lemma {:induction false} RunAllKinds(m: Machine, ss: seq<Stmt>, st: State, kinds: set<Kind>, fuel: nat)
    requires KindsHost(m.host, kinds) && KindsBodies(ss, kinds) && KindsEnv(st.env, kinds)
    ensures KindsOut(RunAll(m, ss, st, fuel), kinds)
    decreases fuel, ss
  {
    if ss != [] {
      RunKinds(m, ss[0], st, kinds, fuel);
      var o := Run(m, ss[0], st, fuel);
      if o.Next? { RunAllKinds(m, ss[1..], o.st, kinds, fuel); }
    }
  }

  // --- evalQ ---

  /** What a function body comes to; one that falls off the end yields undefined. */
  function Finish(o: Out): Outcome<Value>
    requires !o.Timeout?
  {
    match o
    case Next(_) => Returns(Plain(0))
    case Returned(v, _) => Returns(v)
    case Thrown(v, _) => Throws(v)
  }

  /** evalQ around `thrown` gives the completion of `early`, after the same calls. */
  predicate EvalQGives(thrown: Out, early: Out) {
    if early.Timeout? || thrown.Timeout? then early.Timeout? && thrown.Timeout?
    else
      && Finish(early).Returns? && early.st.trace == thrown.st.trace
      && EvalQ(Finish(thrown)) == Returns(EnsureCompletion(Finish(early).value))
  }

  /** evalQ around the body with Q_runtime does what the body does with early returns. */
  predicate EvalQFaithful(host: Host, body: seq<Stmt>, st: State, fuel: nat) {
    EvalQGives(RunAll(Machine(host, false), body, st, fuel), RunAll(Machine(host, true), body, st, fuel))
  }

  const THROWS: set<Kind> := {ThrowKind}

  /** For bodies whose abrupt results are all throw completions, evalQ gives the early-return form. */
  lemma EvalQIsEarlyReturn(host: Host, body: seq<Stmt>, st: State, fuel: nat)
    requires OrderedAll(body, {})
    requires KindsHost(host, THROWS) && KindsBodies(body, THROWS) && KindsEnv(st.env, THROWS)
    ensures EvalQFaithful(host, body, st, fuel)
  {
    RunAllBothWays(host, body, st, st, {}, fuel);
    RunAllKinds(Machine(host, false), body, st, THROWS, fuel);
  }

  /** For such bodies evalQ on the written body gives what the lowered body gives. */
  lemma EvalQIsLowered(host: Host, body: seq<Stmt>, st: State, fuel: nat)
    requires AcceptedAll(body) && SafeBodies(body) && OrderedAll(body, {})
    requires KindsHost(host, THROWS) && KindsBodies(body, THROWS) && KindsEnv(st.env, THROWS)
    ensures EvalQGives(RunAll(Machine(host, false), body, st, fuel),
                       RunAll(Machine(host, true), LowerAll(body, 0).ss, st, fuel))
  {
    EvalQIsEarlyReturn(host, body, st, fuel);
    BodyKeepsMeaning(host, body, st, fuel);
  }

  lemma OneMacroRuns(m: Machine, f: nat, x: Name, st: State, fuel: nat)
    ensures var body := [Let(x, Q(Call(f, []))), Ret(Var(x))];
            var v := m.host(f, [], st.trace);
            var st' := st.(trace := st.trace + [Event(f, [])]);
            var u := Plain(v.v);
            RunAll(m, body, st, fuel) ==
              if v.AbruptC? then Leave(m, v, st') else Returned(u, st'.(env := st.env[x := u]))
  {
    var first, last := Let(x, Q(Call(f, []))), Ret(Var(x));
    var body := [first, last];
    assert body[1..] == [last];
    var v := m.host(f, [], st.trace);
    var st' := st.(trace := st.trace + [Event(f, [])]);
    assert EvalArgs(m, [], st) == Vals([], st);
    assert Eval(m, Call(f, []), st) == Val(v, st');
    var r := Eval(m, Q(Call(f, [])), st);
    assert r == if v.AbruptC? then Exit(v, st') else Val(Plain(v.v), st');
    if !v.AbruptC? {
      var st2 := st'.(env := st.env[x := Plain(v.v)]);
      assert Run(m, first, st, fuel) == Next(st2);
      assert Run(m, last, st2, fuel) == Returned(Plain(v.v), st2);
      assert RunAll(m, [last], st2, fuel) == Returned(Plain(v.v), st2);
    }
  }

  /** What evalQ is for, on one macro: a throw completion that a call yields is the result, and
      otherwise the value of the call goes on, out of its completion record if it is in one. */
  lemma OneMacro(host: Host, f: nat, x: Name, st: State, fuel: nat)
    ensures var body := [Let(x, Q(Call(f, []))), Ret(Var(x))];
            var v := host(f, [], st.trace);
            var early, o := RunAll(Machine(host, true), body, st, fuel), RunAll(Machine(host, false), body, st, fuel);
            && early.Returned? && early.v == (if v.AbruptC? then v else Plain(v.v))
            && !o.Timeout?
            && (v == AbruptC(ThrowKind, v.v) ==> EvalQ(Finish(o)) == Returns(v))
            && (v.AbruptC? && v.kind != ThrowKind ==> EvalQ(Finish(o)) == Throws(v))
            && (!v.AbruptC? ==> EvalQ(Finish(o)) == Returns(NormalC(v.v)))
  {
    OneMacroRuns(Machine(host, true), f, x, st, fuel);
    OneMacroRuns(Machine(host, false), f, x, st, fuel);
  }

  // --- Exactly the throw completions ---

  /** A macro on the result of a call is certainly reached. */
  predicate MeetsExpr(e: Expr)
    decreases e
  {
    match e
    case Lit(_) => false
    case Var(_) => false
    case Call(_, args) => MeetsArgs(args)
    case Q(arg) => arg.Call? || MeetsExpr(arg)
    case Cond(test, thn, els) => MeetsExpr(test) || (MeetsExpr(thn) && MeetsExpr(els))
    case And(l, _) => MeetsExpr(l)
    case Same(l, r) => MeetsExpr(l) || MeetsExpr(r)
  }

  predicate MeetsArgs(es: seq<Expr>)
    decreases es
  {
    es != [] && (MeetsExpr(es[0]) || MeetsArgs(es[1..]))
  }

  /** Neither loops nor returns. */
  predicate Straight(s: Stmt)
    decreases s
  {
    match s
    case Let(_, _) => true
    case Assign(_, _) => true
    case Do(_) => true
    case If(_, thn, els) => Straight(thn) && Straight(els)
    case Block(body) => StraightAll(body)
    case Ret(_) => false
    case While(_, _) => false
    case Check(_) => false
    case Declare(_) => false
  }

  predicate StraightAll(ss: seq<Stmt>)
    decreases ss
  {
    ss == [] || (Straight(ss[0]) && StraightAll(ss[1..]))
  }

  predicate Meets(s: Stmt)
    decreases s
  {
    match s
    case Let(_, e) => MeetsExpr(e)
    case Assign(_, e) => MeetsExpr(e)
    case Do(e) => MeetsExpr(e)
    case Ret(e) => MeetsExpr(e)
    case If(test, thn, els) => MeetsExpr(test) || (Meets(thn) && Meets(els))
    case While(test, _) => MeetsExpr(test)
    case Block(body) => MeetsAll(body)
    case Check(_) => false
    case Declare(_) => false
  }

  predicate MeetsAll(ss: seq<Stmt>)
    decreases ss
  {
    ss != [] && (Meets(ss[0]) || (Straight(ss[0]) && MeetsAll(ss[1..])))
  }

  /** A host whose every call ends abruptly. */
  function AlwaysAbrupt(kind: Kind): Host { (f, vs, trace) => AbruptC(kind, 0) }

  lemma {:induction false} MeetingExits(kind: Kind, e: Expr, st: State)
    requires MeetsExpr(e)
    ensures Eval(Machine(AlwaysAbrupt(kind), false), e, st).Exit?
    decreases e
  {
    var m := Machine(AlwaysAbrupt(kind), false);
    match e
    case Call(_, args) => MeetingArgsExit(kind, args, st);
    case Q(arg) => if !arg.Call? { MeetingExits(kind, arg, st); }
    case Cond(test, thn, els) =>
      if MeetsExpr(test) {
        MeetingExits(kind, test, st);
      } else {
        var r := Eval(m, test, st);
        MeetingExits(kind, thn, r.st);
        MeetingExits(kind, els, r.st);
      }
    case And(l, _) => MeetingExits(kind, l, st);
    case Same(l, r) =>
      if MeetsExpr(l) { MeetingExits(kind, l, st); } else { MeetingExits(kind, r, Eval(m, l, st).st); }
  }

  lemma {:induction false} MeetingArgsExit(kind: Kind, es: seq<Expr>, st: State)
    requires MeetsArgs(es)
    ensures EvalArgs(Machine(AlwaysAbrupt(kind), false), es, st).ArgsExit?
    decreases es
  {
    if MeetsExpr(es[0]) {
      MeetingExits(kind, es[0], st);
    } else {
      MeetingArgsExit(kind, es[1..], Eval(Machine(AlwaysAbrupt(kind), false), es[0], st).st);
    }
  }

  lemma {:induction false} StraightGoesOn(m: Machine, s: Stmt, st: State)
    requires Straight(s) && !m.inPlace
    ensures var o := Run(m, s, st, 0); o.Next? || o.Thrown?
    decreases s
  {
    match s
    case Let(_, _) =>
    case Assign(_, _) =>
    case Do(_) =>
    case If(test, thn, els) =>
      var r := Eval(m, test, st);
      StraightGoesOn(m, thn, r.st);
      StraightGoesOn(m, els, r.st);
    case Block(body) => StraightAllGoesOn(m, body, st);
  }

  lemma {:induction false} StraightAllGoesOn(m: Machine, ss: seq<Stmt>, st: State)
    requires StraightAll(ss) && !m.inPlace
    ensures var o := RunAll(m, ss, st, 0); o.Next? || o.Thrown?
    decreases ss
  {
    if ss != [] {
      StraightGoesOn(m, ss[0], st);
      var o := Run(m, ss[0], st, 0);
      if o.Next? { StraightAllGoesOn(m, ss[1..], o.st); }
    }
  }

  lemma {:induction false} MeetingThrows(kind: Kind, s: Stmt, st: State)
    requires Meets(s)
    ensures Run(Machine(AlwaysAbrupt(kind), false), s, st, 0).Thrown?
    decreases s
  {
    var m := Machine(AlwaysAbrupt(kind), false);
    match s
    case Let(_, e) => MeetingExits(kind, e, st);
    case Assign(_, e) => MeetingExits(kind, e, st);
    case Do(e) => MeetingExits(kind, e, st);
    case Ret(e) => MeetingExits(kind, e, st);
    case If(test, thn, els) =>
      if MeetsExpr(test) {
        MeetingExits(kind, test, st);
      } else {
        var r := Eval(m, test, st);
        MeetingThrows(kind, thn, r.st);
        MeetingThrows(kind, els, r.st);
      }
    case While(test, _) => MeetingExits(kind, test, st);
    case Block(body) => MeetingAllThrows(kind, body, st);
  }

  lemma {:induction false} MeetingAllThrows(kind: Kind, ss: seq<Stmt>, st: State)
    requires MeetsAll(ss)
    ensures RunAll(Machine(AlwaysAbrupt(kind), false), ss, st, 0).Thrown?
    decreases ss
  {
    var m := Machine(AlwaysAbrupt(kind), false);
    if Meets(ss[0]) {
      MeetingThrows(kind, ss[0], st);
    } else {
      StraightGoesOn(m, ss[0], st);
      var o := Run(m, ss[0], st, 0);
      if o.Next? { MeetingAllThrows(kind, ss[1..], o.st); }
    }
  }

  /** A body that certainly puts a macro on the result of a call is treated faithfully by evalQ on
      all hosts and variables with abrupt completions of the given kinds, if and only if throw
      completions are the only such kind. */
  lemma EvalQExactlyOnThrows(body: seq<Stmt>, kinds: set<Kind>)
    requires OrderedAll(body, {}) && MeetsAll(body) && KindsBodies(body, {})
    ensures (forall host: Host, st: State, fuel: nat ::
               KindsHost(host, kinds) && KindsEnv(st.env, kinds) ==> EvalQFaithful(host, body, st, fuel))
            <==> kinds <= THROWS
  {
    KindsMore(body, {}, THROWS);
    if kinds <= THROWS {
      forall host: Host, st: State, fuel: nat | KindsHost(host, kinds) && KindsEnv(st.env, kinds)
        ensures EvalQFaithful(host, body, st, fuel)
      {
        assert forall v :: OfKinds(v, kinds) ==> OfKinds(v, THROWS);
        EvalQIsEarlyReturn(host, body, st, fuel);
      }
    } else {
      var kind :| kind in kinds && kind !in THROWS;
      EvalQLetsThrough(body, kind);
      assert KindsHost(AlwaysAbrupt(kind), kinds) && KindsEnv(map[], kinds);
    }
  }

  lemma {:induction false} KindsMore(ss: seq<Stmt>, some: set<Kind>, more: set<Kind>)
    requires KindsBodies(ss, some) && some <= more
    ensures KindsBodies(ss, more)
    decreases ss
  {
    if ss != [] {
      KindsMoreBody(ss[0], some, more);
      KindsMore(ss[1..], some, more);
    }
  }

  lemma {:induction false} KindsMoreBody(s: Stmt, some: set<Kind>, more: set<Kind>)
    requires KindsBody(s, some) && some <= more
    ensures KindsBody(s, more)
    decreases s
  {
    match s
    case Let(_, e) => KindsMoreExpr(e, some, more);
    case Assign(_, e) => KindsMoreExpr(e, some, more);
    case Do(e) => KindsMoreExpr(e, some, more);
    case Ret(e) => KindsMoreExpr(e, some, more);
    case If(test, thn, els) =>
      KindsMoreExpr(test, some, more);
      KindsMoreBody(thn, some, more);
      KindsMoreBody(els, some, more);
    case While(test, body) =>
      KindsMoreExpr(test, some, more);
      KindsMoreBody(body, some, more);
    case Block(body) => KindsMore(body, some, more);
    case Check(_) =>
    case Declare(_) =>
  }

  lemma {:induction false} KindsMoreExpr(e: Expr, some: set<Kind>, more: set<Kind>)
    requires KindsExpr(e, some) && some <= more
    ensures KindsExpr(e, more)
    decreases e
  {
    match e
    case Lit(_) =>
    case Var(_) =>
    case Call(_, args) => KindsMoreArgs(args, some, more);
    case Q(arg) => KindsMoreExpr(arg, some, more);
    case Cond(test, thn, els) =>
      KindsMoreExpr(test, some, more);
      KindsMoreExpr(thn, some, more);
      KindsMoreExpr(els, some, more);
    case And(l, r) => KindsMoreExpr(l, some, more); KindsMoreExpr(r, some, more);
    case Same(l, r) => KindsMoreExpr(l, some, more); KindsMoreExpr(r, some, more);
  }

  lemma {:induction false} KindsMoreArgs(es: seq<Expr>, some: set<Kind>, more: set<Kind>)
    requires KindsArgs(es, some) && some <= more
    ensures KindsArgs(es, more)
    decreases es
  {
    if es != [] {
      KindsMoreExpr(es[0], some, more);
      KindsMoreArgs(es[1..], some, more);
    }
  }

  /** evalQ does not catch what is not a throw completion. */
  lemma EvalQLetsThrough(body: seq<Stmt>, kind: Kind)
    requires MeetsAll(body) && KindsBodies(body, {}) && kind != ThrowKind
    ensures !EvalQFaithful(AlwaysAbrupt(kind), body, State(map[], []), 0)
  {
    var st := State(map[], []);
    KindsMore(body, {}, {kind});
    MeetingAllThrows(kind, body, st);
    RunAllKinds(Machine(AlwaysAbrupt(kind), false), body, st, {kind}, 0);
  }
}
