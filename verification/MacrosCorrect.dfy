/** Hoisting macros out of an expression keeps its meaning, under a condition on the operands that
    are evaluated before a macro. */
module MacrosCorrect {
  import opened Completions
  import opened Macros

  // --- Variables and effects of an expression ---

  /** The variables read outside macros. */
  function RawReads(e: Expr): set<Name>
    decreases e
  {
    match e
    case Lit(_) => {}
    case Var(x) => {x}
    case Call(_, args) => RawReadsArgs(args)
    case Q(_) => {}
    case Cond(test, thn, els) => RawReads(test) + RawReads(thn) + RawReads(els)
    case And(l, r) => RawReads(l) + RawReads(r)
    case Same(l, r) => RawReads(l) + RawReads(r)
  }

  function RawReadsArgs(es: seq<Expr>): set<Name>
    decreases es
  {
    if es == [] then {} else RawReads(es[0]) + RawReadsArgs(es[1..])
  }

  /** The variables x with Q(x), which unwraps x in place. */
  function Bare(e: Expr): set<Name>
    decreases e
  {
    match e
    case Lit(_) => {}
    case Var(_) => {}
    case Call(_, args) => BareArgs(args)
    case Q(arg) => if arg.Var? then {arg.x} else Bare(arg)
    case Cond(test, thn, els) => Bare(test) + Bare(thn) + Bare(els)
    case And(l, r) => Bare(l) + Bare(r)
    case Same(l, r) => Bare(l) + Bare(r)
  }

  function BareArgs(es: seq<Expr>): set<Name>
    decreases es
  {
    if es == [] then {} else Bare(es[0]) + BareArgs(es[1..])
  }

  /** The variables that stand in for their own macro in what is left of an expression. */
  function Shown(e: Expr): set<Name>
    decreases e
  {
    match e
    case Lit(_) => {}
    case Var(_) => {}
    case Call(_, args) => ShownArgs(args)
    case Q(arg) => if arg.Var? then {arg.x} else {}
    case Cond(_, _, _) => {}
    case And(l, _) => Shown(l)
    case Same(l, r) => Shown(l) + Shown(r)
  }

  function ShownArgs(es: seq<Expr>): set<Name>
    decreases es
  {
    if es == [] then {} else Shown(es[0]) + ShownArgs(es[1..])
  }

  /** No call is made outside a macro. */
  predicate Quiet(e: Expr)
    decreases e
  {
    match e
    case Lit(_) => true
    case Var(_) => true
    case Call(_, _) => false
    case Q(_) => true
    case Cond(test, thn, els) => Quiet(test) && Quiet(thn) && Quiet(els)
    case And(l, r) => Quiet(l) && Quiet(r)
    case Same(l, r) => Quiet(l) && Quiet(r)
  }

  /** As written by a programmer: no temporaries of the transform. */
  predicate Source(e: Expr)
    decreases e
  {
    match e
    case Lit(_) => true
    case Var(x) => x.User?
    case Call(_, args) => SourceArgs(args)
    case Q(arg) => Source(arg)
    case Cond(test, thn, els) => Source(test) && Source(thn) && Source(els)
    case And(l, r) => Source(l) && Source(r)
    case Same(l, r) => Source(l) && Source(r)
  }

  predicate SourceArgs(es: seq<Expr>)
    decreases es
  {
    es == [] || (Source(es[0]) && SourceArgs(es[1..]))
  }

  /** What is evaluated before a macro may be put after it: it makes no call, and reads no variable
      that the macro unwraps unless it unwraps the variable itself. */
  predicate MayFollow(e: Expr, macros: bool, bare: set<Name>) {
    macros ==> Quiet(e) && RawReads(e) !! bare - Shown(e)
  }

  /** l && Q(x), where running Q(x) for a false l does nothing: l is x, or has unwrapped x. */
  predicate Guarded(l: Expr, r: Expr) {
    r.Q? && r.arg.Var? && (l == r.arg || r.arg.x in Shown(l))
  }

  /** Every operand left of a macro may be evaluated after it, and only a guarded macro is to the
      right of &&. */
  predicate Safe(e: Expr)
    decreases e
  {
    match e
    case Lit(_) => true
    case Var(_) => true
    case Call(_, args) => SafeArgs(args)
    case Q(arg) => Safe(arg)
    case Cond(test, thn, els) => Safe(test) && Safe(thn) && Safe(els)
    case And(l, r) => Safe(l) && Safe(r) && (HasMacro(r) ==> Guarded(l, r))
    case Same(l, r) => Safe(l) && Safe(r) && MayFollow(l, HasMacro(r), Bare(r))
  }

  predicate SafeArgs(es: seq<Expr>)
    decreases es
  {
    es == [] ||
    (Safe(es[0]) && SafeArgs(es[1..]) && MayFollow(es[0], HasMacros(es[1..]), BareArgs(es[1..])))
  }

  // --- States ---

  ghost predicate SameUsers(a: Env, b: Env) {
    forall s: string :: Get(a, User(s)) == Get(b, User(s))
  }

  /** The source and the lowered program see the same variables and have made the same calls. */
  ghost predicate Agree(a: State, b: State) {
    SameUsers(a.env, b.env) && a.trace == b.trace
  }

  ghost predicate SameTemps(a: Env, b: Env, n: nat) {
    forall k: nat :: k < n ==> Get(a, Temp(k)) == Get(b, Temp(k))
  }

  ghost predicate SameOn(a: Env, b: Env, names: set<Name>) {
    forall x :: x in names ==> Get(a, x) == Get(b, x)
  }

  // --- Expressions without macros ---

  /** They never exit, change no variable, and depend on what they read and the calls made. */
  lemma {:induction false} MacroFree(m: Machine, e: Expr, a: State, b: State)
    requires !HasMacro(e)
    requires SameOn(a.env, b.env, RawReads(e))
    requires Quiet(e) || a.trace == b.trace
    ensures var p, q := Eval(m, e, a), Eval(m, e, b);
            && p.Val? && q.Val? && p.v == q.v && p.st.env == a.env && q.st.env == b.env
            && (Quiet(e) ==> p.st == a && q.st == b)
            && (a.trace == b.trace ==> p.st.trace == q.st.trace)
    decreases e
  {
    match e
    case Lit(_) =>
    case Var(_) =>
    case Call(_, args) => MacroFreeArgs(m, args, a, b);
    case Cond(test, thn, els) =>
      MacroFree(m, test, a, b);
      var p, q := Eval(m, test, a), Eval(m, test, b);
      MacroFree(m, if Truthy(p.v) then thn else els, p.st, q.st);
    case And(l, r) =>
      MacroFree(m, l, a, b);
      MacroFree(m, r, Eval(m, l, a).st, Eval(m, l, b).st);
    case Same(l, r) =>
      MacroFree(m, l, a, b);
      MacroFree(m, r, Eval(m, l, a).st, Eval(m, l, b).st);
  }

  lemma {:induction false} MacroFreeArgs(m: Machine, es: seq<Expr>, a: State, b: State)
    requires !HasMacros(es)
    requires SameOn(a.env, b.env, RawReadsArgs(es))
    requires a.trace == b.trace
    ensures var p, q := EvalArgs(m, es, a), EvalArgs(m, es, b);
            && p.Vals? && q.Vals? && p.vs == q.vs && p.st.env == a.env && q.st.env == b.env
            && p.st.trace == q.st.trace
    decreases es
  {
    if es != [] {
      MacroFree(m, es[0], a, b);
      MacroFreeArgs(m, es[1..], Eval(m, es[0], a).st, Eval(m, es[0], b).st);
    }
  }

  // --- What evaluation does to variables ---

  /** Either untouched, or one of the names, unwrapped. */
  ghost predicate Unwraps(a: Env, b: Env, names: set<Name>) {
    forall x :: Get(b, x) == Get(a, x) || (x in names && Get(a, x).NormalC? && Get(b, x) == Unwrap(Get(a, x)))
  }

  ghost predicate NoneWrapped(env: Env, names: set<Name>) {
    forall x :: x in names ==> Get(env, x).Plain?
  }

  /** Evaluation only unwraps the variables of bare macros, and does unwrap the shown ones. */
  lemma {:induction false} EvalFrame(m: Machine, e: Expr, st: State)
    requires m.inPlace && Safe(e)
    ensures var r := Eval(m, e, st);
            r.Val? ==> Unwraps(st.env, r.st.env, Bare(e)) && NoneWrapped(r.st.env, Shown(e))
    decreases e
  {
    match e
    case Lit(_) =>
    case Var(_) =>
    case Call(_, args) => EvalFrameArgs(m, args, st);
    case Q(arg) =>
      if !arg.Var? { EvalFrame(m, arg, st); }
    case Cond(test, thn, els) =>
      EvalFrame(m, test, st);
      var r := Eval(m, test, st);
      if r.Val? { EvalFrame(m, if Truthy(r.v) then thn else els, r.st); }
    case And(l, r) =>
      EvalFrame(m, l, st);
      var a := Eval(m, l, st);
      if a.Val? { EvalFrame(m, r, a.st); }
    case Same(l, r) =>
      EvalFrame(m, l, st);
      var a := Eval(m, l, st);
      if a.Val? { EvalFrame(m, r, a.st); }
  }

  lemma {:induction false} EvalFrameArgs(m: Machine, es: seq<Expr>, st: State)
    requires m.inPlace && SafeArgs(es)
    ensures var r := EvalArgs(m, es, st);
            r.Vals? ==> Unwraps(st.env, r.st.env, BareArgs(es)) && NoneWrapped(r.st.env, ShownArgs(es))
    decreases es
  {
    if es != [] {
      EvalFrame(m, es[0], st);
      var r := Eval(m, es[0], st);
      if r.Val? { EvalFrameArgs(m, es[1..], r.st); }
    }
  }

  // --- What is left of an expression ---

  ghost predicate ReadsLeft(names: set<Name>, raw: set<Name>, shown: set<Name>, lo: nat, hi: nat) {
    forall x :: x in names ==> x in raw || x in shown || (x.Temp? && lo <= x.n < hi)
  }

  /** What is left has no macro, makes no new call, and reads the variables of the expression, those
      of its bare macros, and its own temporaries. An expression without macros is left alone. */
  lemma {:induction false} HoistLeaves(e: Expr, n: nat)
    requires AcceptedExpr(e) && Safe(e)
    ensures var h := Hoist(e, n);
            && !HasMacro(h.e) && (Quiet(e) ==> Quiet(h.e))
            && ReadsLeft(RawReads(h.e), RawReads(e), Shown(e), n, h.next)
            && (!HasMacro(e) ==> h == Hoisted([], e, n))
    decreases e
  {
    match e
    case Lit(_) =>
    case Var(_) =>
    case Call(_, args) => HoistArgsLeaves(args, n);
    case Q(_) =>
    case Cond(_, _, _) =>
    case And(l, r) =>
      HoistLeaves(l, n);
      HoistLeaves(r, Hoist(l, n).next);
    case Same(l, r) =>
      HoistLeaves(l, n);
      HoistLeaves(r, Hoist(l, n).next);
  }

  lemma {:induction false} HoistArgsLeaves(es: seq<Expr>, n: nat)
    requires AcceptedArgs(es) && SafeArgs(es)
    ensures var h := HoistArgs(es, n);
            && !HasMacros(h.es)
            && ReadsLeft(RawReadsArgs(h.es), RawReadsArgs(es), ShownArgs(es), n, h.next)
            && (!HasMacros(es) ==> h == HoistedArgs([], es, n))
    decreases es
  {
    hide Hoist, HasMacro, AcceptedExpr, Safe, Quiet, RawReads, Shown;
    if es != [] {
      HoistLeaves(es[0], n);
      var a := Hoist(es[0], n);
      HoistArgsLeaves(es[1..], a.next);
      var b := HoistArgs(es[1..], a.next);
      assert ([a.e] + b.es)[1..] == b.es;
      assert es == [es[0]] + es[1..];
    }
  }

  lemma {:induction false} RunAllConcat(m: Machine, a: seq<Stmt>, b: seq<Stmt>, st: State, fuel: nat)
    ensures var o := RunAll(m, a, st, fuel);
            RunAll(m, a + b, st, fuel) == if o.Next? then RunAll(m, b, o.st, fuel) else o
    decreases a
  {
    if a == [] {
      assert a + b == b;
    } else {
      assert (a + b)[1..] == a[1..] + b;
      var o := Run(m, a[0], st, fuel);
      if o.Next? { RunAllConcat(m, a[1..], b, o.st, fuel); }
    }
  }

  lemma {:induction false} SourceNames(e: Expr)
    requires Source(e)
    ensures forall x :: x in RawReads(e) || x in Shown(e) ==> x.User?
    decreases e
  {
    match e
    case Lit(_) =>
    case Var(_) =>
    case Call(_, args) => SourceArgNames(args);
    case Q(_) =>
    case Cond(test, thn, els) => SourceNames(test); SourceNames(thn); SourceNames(els);
    case And(l, r) => SourceNames(l); SourceNames(r);
    case Same(l, r) => SourceNames(l); SourceNames(r);
  }

  lemma {:induction false} SourceArgNames(es: seq<Expr>)
    requires SourceArgs(es)
    ensures forall x :: x in RawReadsArgs(es) || x in ShownArgs(es) ==> x.User?
    decreases es
  {
    if es != [] {
      SourceNames(es[0]);
      SourceArgNames(es[1..]);
    }
  }

  // --- Hoisting is correct ---

  /** Running the statements put before, then evaluating what is left, does what evaluating the
      expression did: the same early return, or the same value, calls and variables. */
  ghost predicate Hoists(m: Machine, pre: seq<Stmt>, left: Expr, r: Res, t: State, n: nat, fuel: nat) {
    var o := RunAll(m, pre, t, fuel);
    if r.Exit? then o.Returned? && o.v == r.v && o.st.trace == r.st.trace
    else
      && o.Next? && SameTemps(t.env, o.st.env, n) && SameUsers(r.st.env, o.st.env)
      && var q := Eval(m, left, o.st);
         q.Val? && q.v == r.v && q.st.env == o.st.env && q.st.trace == r.st.trace
  }

  ghost predicate HoistsArgs(m: Machine, pre: seq<Stmt>, left: seq<Expr>, r: ArgsRes, t: State, n: nat, fuel: nat) {
    var o := RunAll(m, pre, t, fuel);
    if r.ArgsExit? then o.Returned? && o.v == r.v && o.st.trace == r.st.trace
    else
      && o.Next? && SameTemps(t.env, o.st.env, n) && SameUsers(r.st.env, o.st.env)
      && var q := EvalArgs(m, left, o.st);
         q.Vals? && q.vs == r.vs && q.st.env == o.st.env && q.st.trace == r.st.trace
  }

  /** Running the lowered declaration or assignment of x gives x the value of the expression. */
  ghost predicate Assigns(m: Machine, x: Name, ss: seq<Stmt>, r: Res, t: State, n: nat, fuel: nat) {
    var o := RunAll(m, ss, t, fuel);
    if r.Exit? then o.Returned? && o.v == r.v && o.st.trace == r.st.trace
    else
      && o.Next? && o.st.trace == r.st.trace
      && SameUsers(r.st.env[x := r.v], o.st.env) && Get(o.st.env, x) == r.v
      && forall k: nat :: k < n && Temp(k) != x ==> Get(t.env, Temp(k)) == Get(o.st.env, Temp(k))
  }

  /** What is left of an operand keeps its value past the macros hoisted after it. */
  lemma StillTheSame(m: Machine, e: Expr, n: nat, bare: set<Name>, s1: Env, s2: Env, t1: State, t2: State)
    requires AcceptedExpr(e) && Safe(e) && Source(e) && Quiet(e) && RawReads(e) !! bare - Shown(e)
    requires Unwraps(s1, s2, bare) && NoneWrapped(s1, Shown(e))
    requires SameUsers(s1, t1.env) && SameUsers(s2, t2.env)
    requires SameTemps(t1.env, t2.env, Hoist(e, n).next)
    ensures var left := Hoist(e, n).e;
            && Eval(m, left, t1).Val? && Eval(m, left, t1).st == t1
            && Eval(m, left, t2) == Val(Eval(m, left, t1).v, t2)
  {
    HoistLeaves(e, n);
    SourceNames(e);
    var left := Hoist(e, n).e;
    forall x | x in RawReads(left) ensures Get(t1.env, x) == Get(t2.env, x) {
      if x.User? {
        assert x == User(x.s);
        assert Get(s1, x) == Get(t1.env, x) && Get(s2, x) == Get(t2.env, x);
      } else {
        assert x == Temp(x.n);
      }
    }
    MacroFree(m, left, t1, t2);
  }

  /** A variable whose macro stands alone. */
  lemma CheckCorrect(m: Machine, x: Name, s: State, t: State, n: nat, fuel: nat)
    requires m.inPlace && x.User? && Agree(s, t)
    ensures Hoists(m, [Check(x)], Var(x), CheckVar(x, s), t, n, fuel)
  {
    assert Get(s.env, x) == Get(t.env, User(x.s));
    var o := Run(m, Check(x), t, fuel);
    if o.Next? { assert RunAll(m, [], o.st, fuel) == o; }
  }

  /** A temporary that holds a checked value. */
  lemma CheckTemp(m: Machine, r: Res, t: State, pre: seq<Stmt>, n: nat, fuel: nat)
    requires m.inPlace && Assigns(m, Temp(n), pre, r, t, n + 1, fuel)
    ensures var q := if r.Exit? then r else if r.v.AbruptC? then Exit(r.v, r.st) else Val(Unwrap(r.v), r.st);
            Hoists(m, pre + [Check(Temp(n))], Var(Temp(n)), q, t, n, fuel)
  {
    RunAllConcat(m, pre, [Check(Temp(n))], t, fuel);
    var o := RunAll(m, pre, t, fuel);
    if o.Next? {
      var c := Run(m, Check(Temp(n)), o.st, fuel);
      if c.Next? { assert RunAll(m, [], c.st, fuel) == c; }
      forall s: string ensures Get(r.st.env, User(s)) == Get(o.st.env, User(s)) {
        assert Get(r.st.env[Temp(n) := r.v], User(s)) == Get(o.st.env, User(s));
      }
    }
  }

  /** Two operands, the second of which may hold macros. */
  lemma PairCorrect(m: Machine, l: Expr, r: Expr, n: nat, s: State, t: State, fuel: nat)
    requires m.inPlace && AcceptedExpr(l) && Safe(l) && Source(l) && AcceptedExpr(r) && Safe(r) && Source(r)
    requires MayFollow(l, HasMacro(r), Bare(r))
    requires Agree(s, t)
    requires var h := Hoist(l, n); Hoists(m, h.pre, h.e, Eval(m, l, s), t, n, fuel)
    requires var h := Hoist(l, n); var a, o := Eval(m, l, s), RunAll(m, h.pre, t, fuel);
             a.Val? && o.Next? && Quiet(l) ==>
               var k := Hoist(r, h.next); Hoists(m, k.pre, k.e, Eval(m, r, a.st), o.st, h.next, fuel)
    ensures var h := Hoist(l, n); var k := Hoist(r, h.next);
            Hoists(m, h.pre + k.pre, Same(h.e, k.e), Eval(m, Same(l, r), s), t, n, fuel)
  {
    hide Safe, AcceptedExpr, Source, Hoist, RawReads, Bare, Shown, Quiet, HasMacro;
    var h := Hoist(l, n);
    var k := Hoist(r, h.next);
    var a := Eval(m, l, s);
    RunAllConcat(m, h.pre, k.pre, t, fuel);
    HoistLeaves(l, n);
    HoistLeaves(r, h.next);
    if a.Val? {
      var o := RunAll(m, h.pre, t, fuel);
      if !HasMacro(r) {
        PlainOperand(m, r, a.st, Eval(m, h.e, o.st).st);
        assert RunAll(m, [], o.st, fuel) == o;
      } else {
        MacroFree(m, h.e, o.st, o.st);
        if Eval(m, r, a.st).Val? {
          EvalFrame(m, l, s);
          EvalFrame(m, r, a.st);
          var o2 := RunAll(m, k.pre, o.st, fuel);
          StillTheSame(m, l, n, Bare(r), a.st.env, Eval(m, r, a.st).st.env, o.st, o2.st);
        }
      }
    }
  }

  /** An expression of the source without macros, in two states that agree. */
  lemma PlainOperand(m: Machine, e: Expr, a: State, b: State)
    requires !HasMacro(e) && Source(e) && Agree(a, b)
    ensures var p, q := Eval(m, e, a), Eval(m, e, b);
            p.Val? && q.Val? && p.v == q.v && p.st.env == a.env && q.st.env == b.env && p.st.trace == q.st.trace
  {
    SourceNames(e);
    forall x | x in RawReads(e) ensures Get(a.env, x) == Get(b.env, x) {
      assert x == User(x.s);
    }
    MacroFree(m, e, a, b);
  }

  lemma ConsArgs(m: Machine, e: Expr, es: seq<Expr>, st: State)
    ensures EvalArgs(m, [e] + es, st) ==
      var r := Eval(m, e, st);
      if r.Exit? then ArgsExit(r.v, r.st)
      else
        var rs := EvalArgs(m, es, r.st);
        if rs.ArgsExit? then rs else Vals([r.v] + rs.vs, rs.st)
  {
    assert ([e] + es)[1..] == es;
  }

  /** A first argument, and the rest. */
  lemma ArgsCorrect(m: Machine, es: seq<Expr>, n: nat, s: State, t: State, fuel: nat)
    requires m.inPlace && es != [] && AcceptedArgs(es) && SafeArgs(es) && SourceArgs(es)
    requires Agree(s, t)
    requires var h := Hoist(es[0], n); Hoists(m, h.pre, h.e, Eval(m, es[0], s), t, n, fuel)
    requires var h := Hoist(es[0], n); var a, o := Eval(m, es[0], s), RunAll(m, h.pre, t, fuel);
             a.Val? && o.Next? && Quiet(es[0]) ==>
               var k := HoistArgs(es[1..], h.next);
               HoistsArgs(m, k.pre, k.es, EvalArgs(m, es[1..], a.st), o.st, h.next, fuel)
    ensures var k := HoistArgs(es, n); HoistsArgs(m, k.pre, k.es, EvalArgs(m, es, s), t, n, fuel)
  {
    hide Safe, AcceptedExpr, Source, Hoist, RawReads, Bare, Shown, Quiet, HasMacro;
    hide HasMacros, RawReadsArgs, BareArgs, ShownArgs, Eval, EvalArgs, SameUsers, Unwraps, NoneWrapped;
    var h := Hoist(es[0], n);
    var rest := es[1..];
    var k := HoistArgs(rest, h.next);
    var a := Eval(m, es[0], s);
    RunAllConcat(m, h.pre, k.pre, t, fuel);
    HoistLeaves(es[0], n);
    HoistArgsLeaves(rest, h.next);
    assert es == [es[0]] + rest;
    ConsArgs(m, es[0], rest, s);
    if a.Val? {
      var o := RunAll(m, h.pre, t, fuel);
      var o2 := RunAll(m, k.pre, o.st, fuel);
      if o2.Next? { ConsArgs(m, h.e, k.es, o2.st); }
      if !HasMacros(rest) {
        PlainOperands(m, rest, a.st, Eval(m, h.e, o.st).st);
        assert RunAll(m, [], o.st, fuel) == o;
      } else {
        MacroFree(m, h.e, o.st, o.st);
        if EvalArgs(m, rest, a.st).Vals? {
          EvalFrame(m, es[0], s);
          EvalFrameArgs(m, rest, a.st);
          StillTheSame(m, es[0], n, BareArgs(rest), a.st.env, EvalArgs(m, rest, a.st).st.env, o.st, o2.st);
        }
      }
    }
  }

  lemma PlainOperands(m: Machine, es: seq<Expr>, a: State, b: State)
    requires !HasMacros(es) && SourceArgs(es) && Agree(a, b)
    ensures var p, q := EvalArgs(m, es, a), EvalArgs(m, es, b);
            p.Vals? && q.Vals? && p.vs == q.vs && p.st.env == a.env && q.st.env == b.env && p.st.trace == q.st.trace
  {
    SourceArgNames(es);
    forall x | x in RawReadsArgs(es) ensures Get(a.env, x) == Get(b.env, x) {
      assert x == User(x.s);
    }
    MacroFreeArgs(m, es, a, b);
  }

  /** The right operand of && holds no macro, so nothing of it moves. */
  lemma AndCorrect(m: Machine, l: Expr, r: Expr, n: nat, s: State, t: State, fuel: nat)
    requires AcceptedExpr(r) && Safe(r) && Source(r) && !HasMacro(r)
    requires var h := Hoist(l, n); Hoists(m, h.pre, h.e, Eval(m, l, s), t, n, fuel)
    ensures var h := Hoist(And(l, r), n); Hoists(m, h.pre, h.e, Eval(m, And(l, r), s), t, n, fuel)
  {
    var h := Hoist(l, n);
    HoistLeaves(r, h.next);
    assert Hoist(And(l, r), n).pre == h.pre;
    hide Safe, AcceptedExpr, Source, Hoist, HasMacro, RunAll;
    var a, o := Eval(m, l, s), RunAll(m, h.pre, t, fuel);
    if a.Val? { PlainOperand(m, r, a.st, Eval(m, h.e, o.st).st); }
  }

  /** Where the macro to the right is guarded, running it early does nothing more. */
  lemma GuardedCorrect(m: Machine, l: Expr, x: Name, n: nat, s: State, t: State, fuel: nat)
    requires m.inPlace && x.User? && AcceptedExpr(l) && Safe(l) && Guarded(l, Q(Var(x))) && Agree(s, t)
    requires var h := Hoist(l, n); Hoists(m, h.pre, h.e, Eval(m, l, s), t, n, fuel)
    ensures var e := And(l, Q(Var(x))); var h := Hoist(e, n); Hoists(m, h.pre, h.e, Eval(m, e, s), t, n, fuel)
  {
    hide AcceptedExpr, Safe, RunAll;
    var h := Hoist(l, n);
    var a, o := Eval(m, l, s), RunAll(m, h.pre, t, fuel);
    assert Hoist(And(l, Q(Var(x))), n) == Hoisted(h.pre + [Check(x)], And(h.e, Var(x)), h.next);
    RunAllConcat(m, h.pre, [Check(x)], t, fuel);
    RunOneCheck(m, x, o, fuel);
    if a.Val? {
      assert Get(a.st.env, User(x.s)) == Get(o.st.env, x);
      if x in Shown(l) {
        EvalFrame(m, l, s);
        GuardedShown(m, x, h.e, a, o.st, fuel);
        assert Eval(m, And(l, Q(Var(x))), s) == if Truthy(a.v) then CheckVar(x, a.st) else a;
      } else {
        RunNothing(m, t, fuel);
        GuardedVar(m, x, s, t, fuel);
        assert h.pre + [Check(x)] == [Check(x)];
      }
    }
  }

  lemma GuardedShown(m: Machine, x: Name, left: Expr, a: Res, t: State, fuel: nat)
    requires a.Val? && Get(a.st.env, x).Plain? && Get(t.env, x) == Get(a.st.env, x)
    requires Eval(m, left, t).Val? && Eval(m, left, t).st.env == t.env
    ensures Run(m, Check(x), t, fuel) == Next(t) && CheckVar(x, a.st) == Val(Get(t.env, x), a.st)
    ensures var q := Eval(m, left, t);
            Eval(m, And(left, Var(x)), t) == if Truthy(q.v) then Val(Get(t.env, x), q.st) else q
  {
  }

  lemma GuardedVar(m: Machine, x: Name, s: State, t: State, fuel: nat)
    requires m.inPlace && x.User? && Agree(s, t)
    ensures var o := Run(m, Check(x), t, fuel); var r := Eval(m, And(Var(x), Q(Var(x))), s);
            if r.Exit? then o == Returned(r.v, t) && r.st == s
            else
              && o.Next? && o.st.trace == r.st.trace == s.trace && SameUsers(r.st.env, o.st.env)
              && (forall n :: SameTemps(t.env, o.st.env, n))
              && Eval(m, And(Var(x), Var(x)), o.st) == Val(r.v, o.st)
  {
    var v := Get(t.env, x);
    assert Get(s.env, User(x.s)) == v;
    assert Eval(m, Var(x), s) == Val(v, s);
    var a, b := s.env[x := Unwrap(v)], t.env[x := Unwrap(v)];
    forall n: string ensures Get(a, User(n)) == Get(b, User(n)) {
      assert Get(s.env, User(n)) == Get(t.env, User(n));
    }
    if v.NormalC? {
      assert Eval(m, Q(Var(x)), s) == Val(Unwrap(v), State(a, s.trace));
      assert Eval(m, Var(x), State(b, t.trace)) == Val(Unwrap(v), State(b, t.trace));
    }
  }

  lemma RunNothing(m: Machine, st: State, fuel: nat)
    ensures RunAll(m, [], st, fuel) == Next(st)
  {
  }

  lemma RunOneCheck(m: Machine, x: Name, o: Out, fuel: nat)
    ensures o.Next? ==> RunAll(m, [Check(x)], o.st, fuel) == Run(m, Check(x), o.st, fuel)
  {
    if o.Next? {
      var c := Run(m, Check(x), o.st, fuel);
      if c.Next? { RunNothing(m, c.st, fuel); }
    }
  }

  lemma StoreCorrect(m: Machine, x: Name, store: Stmt, pre: seq<Stmt>, left: Expr, r: Res, t: State, n: nat, fuel: nat)
    requires m.inPlace && (store == Let(x, left) || store == Assign(x, left))
    requires Hoists(m, pre, left, r, t, n, fuel)
    ensures Assigns(m, x, pre + [store], r, t, n, fuel)
  {
    RunAllConcat(m, pre, [store], t, fuel);
    var o := RunAll(m, pre, t, fuel);
    if o.Next? {
      var c := Run(m, store, o.st, fuel);
      if c.Next? {
        assert RunAll(m, [], c.st, fuel) == c;
        forall s: string ensures Get(r.st.env[x := r.v], User(s)) == Get(c.st.env, User(s)) {
          assert Get(r.st.env, User(s)) == Get(o.st.env, User(s));
        }
      }
    }
  }

  /** Hoisting is correct for every accepted and safe expression of the source. */
  lemma {:induction false} HoistCorrect(m: Machine, e: Expr, n: nat, s: State, t: State, fuel: nat)
    requires m.inPlace && AcceptedExpr(e) && Safe(e) && Source(e) && Agree(s, t)
    ensures var h := Hoist(e, n); Hoists(m, h.pre, h.e, Eval(m, e, s), t, n, fuel)
    decreases e, 0
  {
    match e
    case Lit(_) => PlainOperand(m, e, s, t);
    case Var(_) => PlainOperand(m, e, s, t);
    case Cond(_, _, _) => PlainOperand(m, e, s, t);
    case Call(_, args) => HoistArgsCorrect(m, args, n, s, t, fuel);
    case And(l, r) =>
      HoistCorrect(m, l, n, s, t, fuel);
      if HasMacro(r) {
        GuardedCorrect(m, l, r.arg.x, n, s, t, fuel);
      } else {
        AndCorrect(m, l, r, n, s, t, fuel);
      }
    case Same(l, r) =>
      HoistCorrect(m, l, n, s, t, fuel);
      var h := Hoist(l, n);
      var a, o := Eval(m, l, s), RunAll(m, h.pre, t, fuel);
      if a.Val? && Quiet(l) {
        HoistLeaves(l, n);
        MacroFree(m, h.e, o.st, o.st);
        HoistCorrect(m, r, h.next, a.st, o.st, fuel);
      }
      PairCorrect(m, l, r, n, s, t, fuel);
    case Q(arg) =>
      if arg.Var? {
        CheckCorrect(m, arg.x, s, t, n, fuel);
      } else {
        LowerLetCorrect(m, Temp(n), arg, n + 1, s, t, fuel);
        CheckTemp(m, Eval(m, arg, s), t, LowerLet(Temp(n), arg, n + 1).ss, n, fuel);
      }
  }

  lemma {:induction false} HoistArgsCorrect(m: Machine, es: seq<Expr>, n: nat, s: State, t: State, fuel: nat)
    requires m.inPlace && AcceptedArgs(es) && SafeArgs(es) && SourceArgs(es) && Agree(s, t)
    ensures var h := HoistArgs(es, n); HoistsArgs(m, h.pre, h.es, EvalArgs(m, es, s), t, n, fuel)
    decreases es, 0
  {
    if es != [] {
      HoistCorrect(m, es[0], n, s, t, fuel);
      var h := Hoist(es[0], n);
      var a, o := Eval(m, es[0], s), RunAll(m, h.pre, t, fuel);
      if a.Val? && Quiet(es[0]) {
        HoistLeaves(es[0], n);
        MacroFree(m, h.e, o.st, o.st);
        HoistArgsCorrect(m, es[1..], h.next, a.st, o.st, fuel);
      }
      ArgsCorrect(m, es, n, s, t, fuel);
    }
  }

  lemma {:induction false} LowerAssignCorrect(m: Machine, x: Name, e: Expr, n: nat, s: State, t: State, fuel: nat)
    requires m.inPlace && AcceptedExpr(e) && Safe(e) && Source(e) && Agree(s, t)
    ensures Assigns(m, x, LowerAssign(x, e, n).ss, Eval(m, e, s), t, n, fuel)
    decreases e, 1
  {
    HoistCorrect(m, e, n, s, t, fuel);
    var h := Hoist(e, n);
    StoreCorrect(m, x, Assign(x, h.e), h.pre, h.e, Eval(m, e, s), t, n, fuel);
  }

  lemma {:induction false} LowerLetCorrect(m: Machine, x: Name, e: Expr, n: nat, s: State, t: State, fuel: nat)
    requires m.inPlace && AcceptedLet(e) && Safe(e) && Source(e) && Agree(s, t)
    ensures Assigns(m, x, LowerLet(x, e, n).ss, Eval(m, e, s), t, n, fuel)
    decreases e, 2
  {
    if e.Cond? && HasMacro(e) {
      HoistCorrect(m, e.test, n, s, t, fuel);
      var h := Hoist(e.test, n);
      var a, o := Eval(m, e.test, s), RunAll(m, h.pre, t, fuel);
      if a.Val? {
        var st := Eval(m, h.e, o.st).st;
        var thn := LowerAssign(x, e.thn, h.next);
        if Truthy(a.v) {
          LowerAssignCorrect(m, x, e.thn, h.next, a.st, st, fuel);
        } else {
          LowerAssignCorrect(m, x, e.els, thn.next, a.st, st, fuel);
        }
      }
      SplitCorrect(m, x, e, n, s, t, fuel);
    } else {
      HoistCorrect(m, e, n, s, t, fuel);
      var h := Hoist(e, n);
      StoreCorrect(m, x, Let(x, h.e), h.pre, h.e, Eval(m, e, s), t, n, fuel);
    }
  }

  /** The if/else that a conditional initialiser is split into. */
  lemma SplitCorrect(m: Machine, x: Name, e: Expr, n: nat, s: State, t: State, fuel: nat)
    requires m.inPlace && e.Cond? && HasMacro(e)
    requires var h := Hoist(e.test, n); Hoists(m, h.pre, h.e, Eval(m, e.test, s), t, n, fuel)
    requires var h := Hoist(e.test, n); var a, o := Eval(m, e.test, s), RunAll(m, h.pre, t, fuel);
             a.Val? && o.Next? ==>
               var st := Eval(m, h.e, o.st).st;
               var thn := LowerAssign(x, e.thn, h.next);
               if Truthy(a.v) then Assigns(m, x, thn.ss, Eval(m, e.thn, a.st), st, h.next, fuel)
               else Assigns(m, x, LowerAssign(x, e.els, thn.next).ss, Eval(m, e.els, a.st), st, thn.next, fuel)
    ensures Assigns(m, x, LowerLet(x, e, n).ss, Eval(m, e, s), t, n, fuel)
  {
    hide Hoist, LowerAssign, HasMacro;
    var h := Hoist(e.test, n);
    var thn := LowerAssign(x, e.thn, h.next);
    var els := LowerAssign(x, e.els, thn.next);
    var branch := If(h.e, Block(thn.ss), Block(els.ss));
    RunAllConcat(m, [Declare(x)] + h.pre, [branch], t, fuel);
    RunAllConcat(m, [Declare(x)], h.pre, t, fuel);
    assert LowerLet(x, e, n).ss == [Declare(x)] + h.pre + [branch];
    assert RunAll(m, [Declare(x)], t, fuel) == RunAll(m, [], t, fuel);
    var a, o := Eval(m, e.test, s), RunAll(m, h.pre, t, fuel);
    if a.Val? {
      var st := Eval(m, h.e, o.st).st;
      var c := Run(m, branch, o.st, fuel);
      var taken := if Truthy(a.v) then thn.ss else els.ss;
      assert c == Run(m, Block(taken), st, fuel) == RunAll(m, taken, st, fuel);
      if c.Next? { assert RunAll(m, [], c.st, fuel) == c; }
    }
  }
}
