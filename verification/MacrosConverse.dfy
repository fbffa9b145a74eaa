/** Where the lowering moves something that can be seen, it changes the meaning: a call from before a
    macro that can fail, what && would have skipped, or a read of a variable that the macro unwraps. */
module MacrosConverse {
  import opened Wrappers
  import opened Completions
  import opened Macros
  import opened MacrosCorrect
  import opened MacrosBodies

  /** A host that answers every call with v. */
  function Always(v: Value): Host { (f, vs, trace) => v }

  function Vars(e: Expr): set<Name>
    decreases e
  {
    match e
    case Lit(_) => {}
    case Var(x) => {x}
    case Call(_, args) => VarsArgs(args)
    case Q(arg) => Vars(arg)
    case Cond(test, thn, els) => Vars(test) + Vars(thn) + Vars(els)
    case And(l, r) => Vars(l) + Vars(r)
    case Same(l, r) => Vars(l) + Vars(r)
  }

  function VarsArgs(es: seq<Expr>): set<Name>
    decreases es
  {
    if es == [] then {} else Vars(es[0]) + VarsArgs(es[1..])
  }

  /** A call is certainly made. */
  predicate SureCall(e: Expr)
    decreases e
  {
    match e
    case Lit(_) => false
    case Var(_) => false
    case Call(_, _) => true
    case Q(arg) => SureCall(arg)
    case Cond(test, thn, els) => SureCall(test) || (SureCall(thn) && SureCall(els))
    case And(l, _) => SureCall(l)
    case Same(l, r) => SureCall(l) || SureCall(r)
  }

  /** The value is that of a call or of a variable. */
  predicate CanFail(e: Expr)
    decreases e
  {
    match e
    case Lit(_) => false
    case Var(_) => true
    case Call(_, _) => true
    case Q(_) => false
    case Cond(_, thn, els) => CanFail(thn) && CanFail(els)
    case And(l, r) => CanFail(l) && CanFail(r)
    case Same(_, _) => false
  }

  /** The first macro of e is certainly run, and can fail. */
  predicate FirstFails(e: Expr)
    decreases e
  {
    match e
    case Lit(_) => false
    case Var(_) => false
    case Call(_, args) => FirstFailsArgs(args)
    case Q(arg) => if HasMacro(arg) then FirstFails(arg) else CanFail(arg)
    case Cond(_, _, _) => false
    case And(l, _) => FirstFails(l)
    case Same(l, r) => if HasMacro(l) then FirstFails(l) else FirstFails(r)
  }

  predicate FirstFailsArgs(es: seq<Expr>)
    decreases es
  {
    es != [] && if HasMacro(es[0]) then FirstFails(es[0]) else FirstFailsArgs(es[1..])
  }

  /** A call is certainly made before the first macro of e, as an operand of the same expression. */
  predicate CallsBefore(e: Expr)
    decreases e
  {
    match e
    case Lit(_) => false
    case Var(_) => false
    case Call(_, args) => CallsBeforeArgs(args)
    case Q(arg) => HasMacro(arg) && CallsBefore(arg)
    case Cond(_, _, _) => false
    case And(l, _) => CallsBefore(l)
    case Same(l, r) => if HasMacro(l) then CallsBefore(l) else HasMacro(r) && (SureCall(l) || CallsBefore(r))
  }

  predicate CallsBeforeArgs(es: seq<Expr>)
    decreases es
  {
    es != [] &&
    if HasMacro(es[0]) then CallsBefore(es[0])
    else HasMacros(es[1..]) && (SureCall(es[0]) || CallsBeforeArgs(es[1..]))
  }

  // --- A call before a macro that fails ---

  /** All the variables have this value. */
  ghost predicate AllAre(env: Env, vars: set<Name>, v: Value) {
    forall x :: x in vars ==> Get(env, x) == v
  }

  const FAILURE: Value := AbruptC(ThrowKind, 0)

  /** Without macros, the number of calls made depends on the variables only, when all calls answer
      alike. */
  lemma {:induction false} CallsAlike(v: Value, e: Expr, a: State, b: State)
    requires !HasMacro(e) && SameOn(a.env, b.env, RawReads(e))
    ensures var m := Machine(Always(v), true);
            var p, q := Eval(m, e, a), Eval(m, e, b);
            && p.Val? && q.Val? && p.v == q.v && p.st.env == a.env && q.st.env == b.env
            && |p.st.trace| - |a.trace| == |q.st.trace| - |b.trace| >= if SureCall(e) then 1 else 0
    decreases e
  {
    var m := Machine(Always(v), true);
    match e
    case Lit(_) =>
    case Var(_) =>
    case Call(_, args) => ArgsCallsAlike(v, args, a, b);
    case Cond(test, thn, els) =>
      CallsAlike(v, test, a, b);
      var p, q := Eval(m, test, a), Eval(m, test, b);
      CallsAlike(v, if Truthy(p.v) then thn else els, p.st, q.st);
    case And(l, r) =>
      CallsAlike(v, l, a, b);
      CallsAlike(v, r, Eval(m, l, a).st, Eval(m, l, b).st);
    case Same(l, r) =>
      CallsAlike(v, l, a, b);
      CallsAlike(v, r, Eval(m, l, a).st, Eval(m, l, b).st);
  }

  lemma {:induction false} ArgsCallsAlike(v: Value, es: seq<Expr>, a: State, b: State)
    requires !HasMacros(es) && SameOn(a.env, b.env, RawReadsArgs(es))
    ensures var m := Machine(Always(v), true);
            var p, q := EvalArgs(m, es, a), EvalArgs(m, es, b);
            && p.Vals? && q.Vals? && p.st.env == a.env && q.st.env == b.env
            && |p.st.trace| - |a.trace| == |q.st.trace| - |b.trace| >= 0
    decreases es
  {
    if es != [] {
      var m := Machine(Always(v), true);
      CallsAlike(v, es[0], a, b);
      ArgsCallsAlike(v, es[1..], Eval(m, es[0], a).st, Eval(m, es[0], b).st);
    }
  }

  /** When every variable and every call is abrupt, a value that can fail does. */
  lemma {:induction false} Fails(e: Expr, st: State)
    requires !HasMacro(e) && CanFail(e) && AllAre(st.env, Vars(e), FAILURE)
    ensures Eval(Machine(Always(FAILURE), true), e, st).v == FAILURE
    decreases e
  {
    var m := Machine(Always(FAILURE), true);
    match e
    case Var(_) =>
    case Call(_, args) => ArgsCallsAlike(FAILURE, args, st, st);
    case Cond(test, thn, els) =>
      CallsAlike(FAILURE, test, st, st);
      var r := Eval(m, test, st);
      Fails(if Truthy(r.v) then thn else els, r.st);
    case And(l, r) =>
      CallsAlike(FAILURE, l, st, st);
      Fails(l, st);
      Fails(r, Eval(m, l, st).st);
  }

  lemma {:induction false} ReadsAreVars(e: Expr)
    ensures RawReads(e) <= Vars(e)
    decreases e
  {
    match e
    case Lit(_) =>
    case Var(_) =>
    case Call(_, args) => ReadsAreVarsArgs(args);
    case Q(_) =>
    case Cond(test, thn, els) => ReadsAreVars(test); ReadsAreVars(thn); ReadsAreVars(els);
    case And(l, r) => ReadsAreVars(l); ReadsAreVars(r);
    case Same(l, r) => ReadsAreVars(l); ReadsAreVars(r);
  }

  lemma {:induction false} ReadsAreVarsArgs(es: seq<Expr>)
    ensures RawReadsArgs(es) <= VarsArgs(es)
    decreases es
  {
    if es != [] {
      ReadsAreVars(es[0]);
      ReadsAreVarsArgs(es[1..]);
    }
  }

  /** An operand without macros, in two states where everything fails. */
  lemma FailingOperand(e: Expr, a: State, b: State)
    requires !HasMacro(e) && AllAre(a.env, Vars(e), FAILURE) && AllAre(b.env, Vars(e), FAILURE)
    ensures var m := Machine(Always(FAILURE), true);
            var p, q := Eval(m, e, a), Eval(m, e, b);
            && p.Val? && q.Val? && p.v == q.v && p.st.env == a.env && q.st.env == b.env
            && |p.st.trace| - |a.trace| == |q.st.trace| - |b.trace| >= if SureCall(e) then 1 else 0
  {
    ReadsAreVars(e);
    CallsAlike(FAILURE, e, a, b);
  }

  /** r returned early from s, o returned early from t, and r made at least as many calls as o. */
  ghost predicate Longer(r: Value, rt: State, s: State, o: Out, t: State, more: bool) {
    && o.Returned? && o.v == r == FAILURE
    && |rt.trace| - |s.trace| >= |o.st.trace| - |t.trace| + if more then 1 else 0
  }

  lemma {:induction false} FailsFirst(e: Expr, n: nat, s: State, t: State, fuel: nat)
    requires FirstFails(e) && AllAre(s.env, Vars(e), FAILURE) && AllAre(t.env, Vars(e), FAILURE)
    ensures var m := Machine(Always(FAILURE), true);
            var r := Eval(m, e, s);
            r.Exit? && Longer(r.v, r.st, s, RunAll(m, Hoist(e, n).pre, t, fuel), t, CallsBefore(e))
    decreases e
  {
    var m := Machine(Always(FAILURE), true);
    match e
    case Call(_, args) => FailsFirstArgs(args, n, s, t, fuel);
    case Q(arg) =>
      if arg.Var? {
        assert Vars(e) == Vars(arg) == {arg.x};
        assert Get(s.env, arg.x) == FAILURE && Get(t.env, arg.x) == FAILURE;
        assert Run(m, Check(arg.x), t, fuel) == Returned(FAILURE, t);
      } else if HasMacro(arg) {
        FailsFirst(arg, n + 1, s, t, fuel);
        var pre := Hoist(arg, n + 1).pre;
        var left := Hoist(arg, n + 1).e;
        RunAllConcat(m, pre, [Let(Temp(n), left)] + [Check(Temp(n))], t, fuel);
        assert Hoist(e, n).pre == pre + ([Let(Temp(n), left)] + [Check(Temp(n))]);
      } else {
        FailingMacro(arg, n, s, t, fuel);
      }
    case And(l, r) =>
      FailsFirst(l, n, s, t, fuel);
      RunAllConcat(m, Hoist(l, n).pre, Hoist(r, Hoist(l, n).next).pre, t, fuel);
    case Same(l, r) =>
      var h := Hoist(l, n);
      RunAllConcat(m, h.pre, Hoist(r, h.next).pre, t, fuel);
      if HasMacro(l) {
        FailsFirst(l, n, s, t, fuel);
      } else {
        WithoutMacros(l, n);
        FailingOperand(l, s, t);
        FailsFirst(r, n, Eval(m, l, s).st, t, fuel);
        FirstFailsHasMacro(r);
      }
  }

  lemma FailingMacro(arg: Expr, n: nat, s: State, t: State, fuel: nat)
    requires !HasMacro(arg) && !arg.Var? && CanFail(arg)
    requires AllAre(s.env, Vars(arg), FAILURE) && AllAre(t.env, Vars(arg), FAILURE)
    ensures var m := Machine(Always(FAILURE), true);
            var r := Eval(m, Q(arg), s);
            r.Exit? && Longer(r.v, r.st, s, RunAll(m, Hoist(Q(arg), n).pre, t, fuel), t, false)
  {
    var m := Machine(Always(FAILURE), true);
    WithoutMacros(arg, n + 1);
    FailingOperand(arg, s, t);
    Fails(arg, s);
    Fails(arg, t);
    var let, check := Let(Temp(n), arg), Check(Temp(n));
    assert Hoist(Q(arg), n).pre == [let] + [check];
    RunAllConcat(m, [let], [check], t, fuel);
    RunOne(m, let, t, fuel);
    var o := Run(m, let, t, fuel);
    assert o.Next? && Get(o.st.env, Temp(n)) == FAILURE;
    RunOne(m, check, o.st, fuel);
  }

  lemma {:induction false} FirstFailsHasMacro(e: Expr)
    requires FirstFails(e)
    ensures HasMacro(e)
    decreases e
  {
    match e
    case Call(_, args) => FirstFailsHasMacros(args);
    case Q(_) =>
    case And(l, _) => FirstFailsHasMacro(l);
    case Same(l, r) => if !HasMacro(l) { FirstFailsHasMacro(r); }
  }

  lemma {:induction false} FirstFailsHasMacros(es: seq<Expr>)
    requires FirstFailsArgs(es)
    ensures HasMacros(es)
    decreases es
  {
    if !HasMacro(es[0]) { FirstFailsHasMacros(es[1..]); }
  }

  lemma {:induction false} FailsFirstArgs(es: seq<Expr>, n: nat, s: State, t: State, fuel: nat)
    requires FirstFailsArgs(es) && AllAre(s.env, VarsArgs(es), FAILURE) && AllAre(t.env, VarsArgs(es), FAILURE)
    ensures var m := Machine(Always(FAILURE), true);
            var r := EvalArgs(m, es, s);
            r.ArgsExit? && Longer(r.v, r.st, s, RunAll(m, HoistArgs(es, n).pre, t, fuel), t, CallsBeforeArgs(es))
    decreases es
  {
    var m := Machine(Always(FAILURE), true);
    var h := Hoist(es[0], n);
    RunAllConcat(m, h.pre, HoistArgs(es[1..], h.next).pre, t, fuel);
    if HasMacro(es[0]) {
      FailsFirst(es[0], n, s, t, fuel);
    } else {
      WithoutMacros(es[0], n);
      FailingOperand(es[0], s, t);
      FailsFirstArgs(es[1..], n, Eval(m, es[0], s).st, t, fuel);
    }
  }

  /** The expression that a statement evaluates first, and whose macros are put before it. */
  function Subject(s: Stmt): Expr {
    match s
    case Let(_, e) => e
    case Assign(_, e) => e
    case Do(e) => e
    case Ret(e) => if e.Q? then Lit(Plain(0)) else e
    case If(test, _, _) => test
    case _ => Lit(Plain(0))
  }

  /** If a call is certainly made before the first macro of the first statement, and the macro is
      certainly run and can fail, some host and variables tell the body from its lowered form: where
      everything fails, the lowered form returns without making the call. */
  lemma MovedCallIsSeen(body: seq<Stmt>, fuel: nat)
    requires body != [] && FirstFails(Subject(body[0])) && CallsBefore(Subject(body[0]))
    ensures var vars := Vars(Subject(body[0]));
            var st := State(map x | x in vars :: FAILURE, []);
            var m := Machine(Always(FAILURE), true);
            !SameOut(RunAll(m, body, st, fuel), RunAll(m, LowerAll(body, 0).ss, st, fuel))
  {
    var s := body[0];
    var e := Subject(s);
    var st := State(map x | x in Vars(e) :: FAILURE, []);
    var m := Machine(Always(FAILURE), true);
    FailsFirst(e, 0, st, st, fuel);
    var l := Lower(s, 0);
    RunAllConcat(m, l.ss, LowerAll(body[1..], l.next).ss, st, fuel);
    var h := Hoist(e, 0);
    LoweredStarts(s, 0);
    RunAllConcat(m, h.pre, l.ss[|h.pre|..], st, fuel);
    assert l.ss == h.pre + l.ss[|h.pre|..];
  }

  /** The lowered statement starts with what was hoisted out of its subject. */
  lemma LoweredStarts(s: Stmt, n: nat)
    requires FirstFails(Subject(s))
    ensures Hoist(Subject(s), n).pre <= Lower(s, n).ss
  {
  }

  // --- Calls of different functions ---

  predicate StillExpr(e: Expr) { !HasMacro(e) && Quiet(e) }

  /** The function that evaluating e certainly calls first, if there is one. */
  function Lead(e: Expr): Option<nat>
    decreases e
  {
    match e
    case Lit(_) => None
    case Var(_) => None
    case Call(f, args) => if Still(args) then Some(f) else LeadArgs(args)
    case Q(arg) => Lead(arg)
    case Cond(test, thn, els) =>
      if !StillExpr(test) then Lead(test) else if Lead(thn) == Lead(els) then Lead(thn) else None
    case And(l, _) => Lead(l)
    case Same(l, r) => if StillExpr(l) then Lead(r) else Lead(l)
  }

  function LeadArgs(es: seq<Expr>): Option<nat>
    decreases es
  {
    if es == [] then None else if StillExpr(es[0]) then LeadArgs(es[1..]) else Lead(es[0])
  }

  /** The function that the statements hoisted out of e certainly call first. */
  function MacroLead(e: Expr): Option<nat>
    decreases e
  {
    match e
    case Lit(_) => None
    case Var(_) => None
    case Call(_, args) => MacroLeadArgs(args)
    case Q(arg) => if HasMacro(arg) then MacroLead(arg) else Lead(arg)
    case Cond(_, _, _) => None
    case And(l, r) => if HasMacro(l) then MacroLead(l) else MacroLead(r)
    case Same(l, r) => if HasMacro(l) then MacroLead(l) else MacroLead(r)
  }

  function MacroLeadArgs(es: seq<Expr>): Option<nat>
    decreases es
  {
    if es == [] then None else if HasMacro(es[0]) then MacroLead(es[0]) else MacroLeadArgs(es[1..])
  }

  /** b continues a, first with a call of f. */
  predicate GoesOnWith(a: seq<Event>, b: seq<Event>, f: nat) {
    a < b && b[|a|].f == f
  }

  lemma {:induction false} LeadIsCalled(m: Machine, e: Expr, st: State)
    requires Lead(e).Some?
    ensures GoesOnWith(st.trace, Eval(m, e, st).st.trace, Lead(e).value)
    decreases e
  {
    match e
    case Call(_, args) =>
      if Still(args) { EvalStill(m, args, st); } else { LeadArgIsCalled(m, args, st); }
    case Q(arg) => LeadIsCalled(m, arg, st);
    case Cond(test, thn, els) =>
      var r := Eval(m, test, st);
      if StillExpr(test) {
        MacroFree(m, test, st, st);
        LeadIsCalled(m, thn, st);
        LeadIsCalled(m, els, st);
      } else {
        LeadIsCalled(m, test, st);
        CallsGrow(m, thn, r.st);
        CallsGrow(m, els, r.st);
      }
    case And(l, r) =>
      LeadIsCalled(m, l, st);
      CallsGrow(m, r, Eval(m, l, st).st);
    case Same(l, r) =>
      if StillExpr(l) {
        MacroFree(m, l, st, st);
        LeadIsCalled(m, r, st);
      } else {
        LeadIsCalled(m, l, st);
        CallsGrow(m, r, Eval(m, l, st).st);
      }
  }

  lemma {:induction false} LeadArgIsCalled(m: Machine, es: seq<Expr>, st: State)
    requires LeadArgs(es).Some?
    ensures GoesOnWith(st.trace, EvalArgs(m, es, st).st.trace, LeadArgs(es).value)
    decreases es
  {
    if StillExpr(es[0]) {
      MacroFree(m, es[0], st, st);
      LeadArgIsCalled(m, es[1..], st);
    } else {
      LeadIsCalled(m, es[0], st);
      ArgsCallsGrow(m, es[1..], Eval(m, es[0], st).st);
    }
  }

  /** o goes on from st, first with a call of f. */
  predicate OutGoesOnWith(st: State, o: Out, f: nat) {
    o.Timeout? || GoesOnWith(st.trace, o.st.trace, f)
  }

  /** What follows does not undo it. */
  lemma ThenAnything(m: Machine, a: seq<Stmt>, b: seq<Stmt>, st: State, fuel: nat, f: nat)
    requires OutGoesOnWith(st, RunAll(m, a, st, fuel), f)
    ensures OutGoesOnWith(st, RunAll(m, a + b, st, fuel), f)
  {
    RunAllConcat(m, a, b, st, fuel);
    var o := RunAll(m, a, st, fuel);
    if o.Next? { RunAllCallsGrow(m, b, o.st, fuel); }
  }

  lemma {:induction false} MacroLeadIsCalled(m: Machine, e: Expr, n: nat, st: State, fuel: nat)
    requires MacroLead(e).Some?
    ensures OutGoesOnWith(st, RunAll(m, Hoist(e, n).pre, st, fuel), MacroLead(e).value)
    decreases e
  {
    match e
    case Call(_, args) => MacroLeadArgIsCalled(m, args, n, st, fuel);
    case Q(arg) =>
      if HasMacro(arg) {
        var h := Hoist(arg, n + 1);
        MacroLeadIsCalled(m, arg, n + 1, st, fuel);
        ThenAnything(m, h.pre, [Let(Temp(n), h.e)] + [Check(Temp(n))], st, fuel, MacroLead(e).value);
        assert Hoist(e, n).pre == h.pre + ([Let(Temp(n), h.e)] + [Check(Temp(n))]);
      } else {
        WithoutMacros(arg, n + 1);
        LeadIsCalled(m, arg, st);
        RunOne(m, Let(Temp(n), arg), st, fuel);
        ThenAnything(m, [Let(Temp(n), arg)], [Check(Temp(n))], st, fuel, Lead(arg).value);
        assert Hoist(e, n).pre == [Let(Temp(n), arg)] + [Check(Temp(n))];
      }
    case And(l, r) => MacroLeadOfTwo(m, e, l, r, n, st, fuel);
    case Same(l, r) => MacroLeadOfTwo(m, e, l, r, n, st, fuel);
  }

  lemma {:induction false} MacroLeadOfTwo(m: Machine, e: Expr, l: Expr, r: Expr, n: nat, st: State, fuel: nat)
    requires MacroLead(e).Some? && l < e && r < e && (e == And(l, r) || e == Same(l, r))
    ensures OutGoesOnWith(st, RunAll(m, Hoist(e, n).pre, st, fuel), MacroLead(e).value)
    decreases e, 0
  {
    var h := Hoist(l, n);
    var k := Hoist(r, h.next);
    if HasMacro(l) {
      MacroLeadIsCalled(m, l, n, st, fuel);
      ThenAnything(m, h.pre, k.pre, st, fuel, MacroLead(e).value);
    } else {
      WithoutMacros(l, n);
      MacroLeadIsCalled(m, r, h.next, st, fuel);
      assert h.pre + k.pre == k.pre;
    }
  }

  lemma {:induction false} MacroLeadArgIsCalled(m: Machine, es: seq<Expr>, n: nat, st: State, fuel: nat)
    requires MacroLeadArgs(es).Some?
    ensures OutGoesOnWith(st, RunAll(m, HoistArgs(es, n).pre, st, fuel), MacroLeadArgs(es).value)
    decreases es
  {
    var h := Hoist(es[0], n);
    var k := HoistArgs(es[1..], h.next);
    if HasMacro(es[0]) {
      MacroLeadIsCalled(m, es[0], n, st, fuel);
      ThenAnything(m, h.pre, k.pre, st, fuel, MacroLeadArgs(es).value);
    } else {
      WithoutMacros(es[0], n);
      MacroLeadArgIsCalled(m, es[1..], h.next, st, fuel);
      assert h.pre + k.pre == k.pre;
    }
  }

  /** If the first statement certainly calls one function first, and the first macro of it another,
      the lowered form makes these calls in the other order, on every host and all variables. */
  lemma SwappedCallsAreSeen(host: Host, body: seq<Stmt>, st: State, fuel: nat)
    requires body != [] && Lead(Subject(body[0])).Some? && MacroLead(Subject(body[0])).Some?
    requires Lead(Subject(body[0])) != MacroLead(Subject(body[0]))
    ensures var m := Machine(host, true);
            SameOut(RunAll(m, body, st, fuel), RunAll(m, LowerAll(body, 0).ss, st, fuel)) ==>
              RunAll(m, body, st, fuel).Timeout?
  {
    var m := Machine(host, true);
    var s := body[0];
    var e := Subject(s);
    SubjectLeads(m, s, st, fuel);
    RunOne(m, s, st, fuel);
    assert body == [s] + body[1..];
    ThenAnything(m, [s], body[1..], st, fuel, Lead(e).value);
    var h := Hoist(e, 0);
    var l := Lower(s, 0);
    var rest := LowerAll(body[1..], l.next).ss;
    MacroLeadIsCalled(m, e, 0, st, fuel);
    MacroLeadStarts(s, 0);
    assert l.ss + rest == h.pre + (l.ss[|h.pre|..] + rest);
    ThenAnything(m, h.pre, l.ss[|h.pre|..] + rest, st, fuel, MacroLead(e).value);
  }

  lemma SubjectLeads(m: Machine, s: Stmt, st: State, fuel: nat)
    requires Lead(Subject(s)).Some?
    ensures OutGoesOnWith(st, Run(m, s, st, fuel), Lead(Subject(s)).value)
  {
    var e := Subject(s);
    LeadIsCalled(m, e, st);
    var r := Eval(m, e, st);
    if s.If? {
      RunCallsGrow(m, s.thn, r.st, fuel);
      RunCallsGrow(m, s.els, r.st, fuel);
    }
  }

  lemma MacroLeadStarts(s: Stmt, n: nat)
    requires MacroLead(Subject(s)).Some?
    ensures Hoist(Subject(s), n).pre <= Lower(s, n).ss
  {
  }

  // --- What && would have skipped ---

  /** l is false when every variable is undefined and every call answers undefined. */
  predicate FalseAlone(l: Expr) {
    !Truthy(Eval(Machine(Always(Plain(0)), true), l, State(map[], [])).v)
  }

  /** A statement that evaluates e once; as a test, between returns of plain values. */
  predicate Evaluates(s: Stmt, e: Expr) {
    match s
    case Let(_, e') => e' == e
    case Assign(_, e') => e' == e
    case Do(e') => e' == e
    case Ret(e') => e' == e
    case If(test, thn, els) =>
      test == e && thn.Ret? && thn.e.Lit? && thn.e.v.Plain? && els.Ret? && els.e.Lit? && els.e.v.Plain?
    case _ => false
  }

  /** A macro on a call to the right of && is run although the left can be false: with undefined
      everywhere, the lowered form makes the call and the body does not. */
  lemma SkippedCallIsSeen(s: Stmt, l: Expr, r: Expr, fuel: nat)
    requires !HasMacro(l) && !HasMacro(r) && Source(l) && FalseAlone(l) && SureCall(r)
    requires Evaluates(s, And(l, Q(r)))
    ensures var m := Machine(Always(Plain(0)), true);
            !SameOut(RunAll(m, [s], State(map[], []), fuel), RunAll(m, Lower(s, 0).ss, State(map[], []), fuel))
  {
    var m := Machine(Always(Plain(0)), true);
    var st := State(map[], []);
    var e := And(l, Q(r));
    SkippedMacro(l, r, st, fuel);
    var pre := Hoist(e, 0).pre;
    RunOne(m, s, st, fuel);
    var rest := Lower(s, 0).ss[|pre|..];
    SkippedRest(s, l, r);
    RunAllConcat(m, pre, rest, st, fuel);
    var o := RunAll(m, pre, st, fuel);
    if o.Next? {
      RunOne(m, rest[0], o.st, fuel);
    }
  }

  lemma SkippedRest(s: Stmt, l: Expr, r: Expr)
    requires !HasMacro(l) && !HasMacro(r) && !r.Var? && Evaluates(s, And(l, Q(r)))
    ensures var h := Hoist(And(l, Q(r)), 0);
            && h.e == And(l, Var(Temp(0)))
            && Lower(s, 0).ss == h.pre + [match s
                                          case Let(x, _) => Let(x, h.e)
                                          case Assign(x, _) => Assign(x, h.e)
                                          case Do(_) => Do(h.e)
                                          case Ret(_) => Ret(h.e)
                                          case If(_, thn, els) => If(h.e, thn, els)
                                          case _ => s]
  {
    WithoutMacros(l, 0);
    WithoutMacros(r, 1);
  }

  /** The two ways to evaluate l && Q(r) with undefined everywhere. */
  lemma SkippedMacro(l: Expr, r: Expr, st: State, fuel: nat)
    requires !HasMacro(l) && !HasMacro(r) && Source(l) && FalseAlone(l) && SureCall(r) && st == State(map[], [])
    ensures var m := Machine(Always(Plain(0)), true);
            var e := And(l, Q(r));
            var a, o := Eval(m, e, st), RunAll(m, Hoist(e, 0).pre, st, fuel);
            && a == Eval(m, l, st) && a.Val? && a.v == Plain(0)
            && if o.Next? then
                 var b := Eval(m, And(l, Var(Temp(0))), o.st);
                 b.Val? && b.v == Plain(0) && |b.st.trace| > |a.st.trace|
               else o.Returned? && o.v.AbruptC?
  {
    hide RunAll, Hoist, SureCall, HasMacro, Source;
    var m := Machine(Always(Plain(0)), true);
    CallsAlike(Plain(0), l, st, st);
    MacroAlone(l, r, st, fuel);
    var o := RunAll(m, Hoist(And(l, Q(r)), 0).pre, st, fuel);
    if o.Next? {
      SourceNames(l);
      forall x | x in RawReads(l) ensures Get(o.st.env, x) == Get(st.env, x) {
        assert x == User(x.s);
      }
      CallsAlike(Plain(0), l, st, o.st);
    }
  }

  /** What is hoisted out of l && Q(r) runs r, and touches no variable of the programmer. */
  lemma MacroAlone(l: Expr, r: Expr, st: State, fuel: nat)
    requires !HasMacro(l) && !HasMacro(r) && SureCall(r)
    ensures var m := Machine(Always(Plain(0)), true);
            var o := RunAll(m, Hoist(And(l, Q(r)), 0).pre, st, fuel);
            if o.Next? then |o.st.trace| > |st.trace| && SameUsers(st.env, o.st.env)
            else o.Returned? && o.v.AbruptC?
  {
    var m := Machine(Always(Plain(0)), true);
    WithoutMacros(l, 0);
    WithoutMacros(r, 1);
    CallsAlike(Plain(0), r, st, st);
    var let, check := Let(Temp(0), r), Check(Temp(0));
    assert Hoist(Q(r), 0).pre == [let] + [check];
    assert Hoist(And(l, Q(r)), 0).pre == [] + ([let] + [check]) == [let] + [check];
    hide Hoist, RunAll, HasMacro, SureCall, Eval, Run;
    RunAllConcat(m, [let], [check], st, fuel);
    RunOne(m, let, st, fuel);
    var q := Eval(m, r, st);
    LetThenCheck(m, r, st, fuel);
    RunOne(m, check, q.st.(env := st.env[Temp(0) := q.v]), fuel);
  }

  lemma LetThenCheck(m: Machine, r: Expr, st: State, fuel: nat)
    requires var q := Eval(m, r, st); q.Val? && q.st.env == st.env
    ensures var q := Eval(m, r, st);
            var st1 := q.st.(env := st.env[Temp(0) := q.v]);
            && Run(m, Let(Temp(0), r), st, fuel) == Next(st1)
            && var o := Run(m, Check(Temp(0)), st1, fuel);
               if o.Next? then o.st.trace == q.st.trace && SameUsers(st.env, o.st.env)
               else o.Returned? && o.v.AbruptC?
  {
    hide Eval, EvalArgs;
  }

  /** The variables when y is abrupt and all others are undefined. */
  function OnlyFails(y: Name): State { State(map[y := FAILURE], []) }

  /** l is false when y is abrupt, all other variables are undefined and every call answers undefined. */
  predicate FalseBeside(l: Expr, y: Name) {
    !Truthy(Eval(Machine(Always(Plain(0)), true), l, OnlyFails(y)).v)
  }

  /** A macro on a variable to the right of && is run although the left is false: where it is false
      with y abrupt, the body goes on and the lowered form returns early. */
  lemma SkippedUnwrapIsSeen(s: Stmt, l: Expr, y: Name, fuel: nat)
    requires !HasMacro(l) && FalseBeside(l, y) && Evaluates(s, And(l, Q(Var(y))))
    ensures var m := Machine(Always(Plain(0)), true);
            var o, p := RunAll(m, [s], OnlyFails(y), fuel), RunAll(m, Lower(s, 0).ss, OnlyFails(y), fuel);
            && p == Returned(FAILURE, OnlyFails(y))
            && !SameOut(o, p)
  {
    var m := Machine(Always(Plain(0)), true);
    var st := OnlyFails(y);
    var check := Check(y);
    WithoutMacros(l, 0);
    UnwrapFirst(s, l, y);
    var rest := Lower(s, 0).ss[1..];
    assert Lower(s, 0).ss == [check] + rest;
    CallsAlike(Plain(0), l, st, st);
    hide RunAll, Hoist, HasMacro;
    RunOne(m, s, st, fuel);
    RunAllConcat(m, [check], rest, st, fuel);
    RunOne(m, check, st, fuel);
    assert Get(st.env, y) == FAILURE;
  }

  lemma UnwrapFirst(s: Stmt, l: Expr, y: Name)
    requires !HasMacro(l) && Evaluates(s, And(l, Q(Var(y))))
    ensures [Check(y)] <= Lower(s, 0).ss
  {
    WithoutMacros(l, 0);
    var e := And(l, Q(Var(y)));
    assert Hoist(Q(Var(y)), 0) == Hoisted([Check(y)], Var(y), 0);
    assert Hoist(e, 0).pre == [] + [Check(y)] == [Check(y)];
  }

  // --- A read before the macro that unwraps ---

  /** Without macros and calls. */
  predicate Still(es: seq<Expr>)
    decreases es
  {
    es == [] || (!HasMacro(es[0]) && Quiet(es[0]) && Still(es[1..]))
  }

  lemma {:induction false} EvalStill(m: Machine, es: seq<Expr>, st: State)
    requires Still(es)
    ensures var r := EvalArgs(m, es, st); r.Vals? && r.st == st && |r.vs| == |es|
    decreases es
  {
    if es != [] {
      MacroFree(m, es[0], st, st);
      EvalStill(m, es[1..], st);
    }
  }

  lemma {:induction false} EvalArgsConcat(m: Machine, a: seq<Expr>, b: seq<Expr>, st: State)
    ensures EvalArgs(m, a + b, st) ==
      var r := EvalArgs(m, a, st);
      if r.ArgsExit? then r
      else
        var q := EvalArgs(m, b, r.st);
        if q.ArgsExit? then q else Vals(r.vs + q.vs, q.st)
    decreases a
  {
    if a == [] {
      assert a + b == b;
    } else {
      assert (a + b)[1..] == a[1..] + b;
      var r := Eval(m, a[0], st);
      if r.Val? { EvalArgsConcat(m, a[1..], b, r.st); }
    }
  }

  /** The call f(pre, x, mid, Q(x), post), with a read of x before the macro on x. */
  function ReadThenMacro(f: nat, x: Name, pre: seq<Expr>, mid: seq<Expr>, post: seq<Expr>): Expr {
    Call(f, (pre + [Var(x)] + mid) + ([Q(Var(x))] + post))
  }

  /** The arguments that are passed for pre, x and mid, in whichever way the rest is evaluated. */
  lemma PassesRead(m: Machine, f: nat, x: Name, pre: seq<Expr>, mid: seq<Expr>, last: Expr, post: seq<Expr>, st: State)
    requires Still(pre) && Still(mid) && Still(post)
    requires var r := Eval(m, last, st); r.Val? && r.st.trace == st.trace
    ensures var r := Eval(m, Call(f, (pre + [Var(x)] + mid) + ([last] + post)), st);
            && r.Val? && |r.st.trace| == |st.trace| + 1
            && var args := r.st.trace[|st.trace|].args;
               |pre| < |args| && args[|pre|] == Get(st.env, x)
  {
    EvalArgsConcat(m, pre + [Var(x)] + mid, [last] + post, st);
    EvalArgsConcat(m, pre + [Var(x)], mid, st);
    EvalArgsConcat(m, pre, [Var(x)], st);
    EvalStill(m, pre, st);
    EvalStill(m, mid, st);
    assert [Var(x)][1..] == [] && ([last] + post)[1..] == post;
    EvalStill(m, post, Eval(m, last, st).st);
  }

  /** A read of x before the macro on x, both arguments of one call: for every host, with x a normal
      completion, the body passes the completion and the lowered form passes its value. */
  lemma MovedReadIsSeen(host: Host, f: nat, x: Name, pre: seq<Expr>, mid: seq<Expr>, post: seq<Expr>, fuel: nat)
    requires Still(pre) && Still(mid) && Still(post)
    ensures var s := Do(ReadThenMacro(f, x, pre, mid, post));
            var st := State(map[x := NormalC(1)], []);
            var m := Machine(host, true);
            !SameOut(RunAll(m, [s], st, fuel), RunAll(m, Lower(s, 0).ss, st, fuel))
  {
    var e := ReadThenMacro(f, x, pre, mid, post);
    var st := State(map[x := NormalC(1)], []);
    var st1 := State(map[x := Plain(1)], []);
    var m := Machine(host, true);
    ReadThenMacroHoists(f, x, pre, mid, post);
    var left := Hoist(e, 0).e;
    assert Lower(Do(e), 0).ss == [Check(x)] + [Do(left)];
    hide Hoist, Still, RunAll, Lower, HasMacro;
    RunOne(m, Do(e), st, fuel);
    RunAllConcat(m, [Check(x)], [Do(left)], st, fuel);
    RunOne(m, Check(x), st, fuel);
    assert st.env[x := Plain(1)] == st1.env;
    RunOne(m, Do(left), st1, fuel);
    PassesRead(m, f, x, pre, mid, Q(Var(x)), post, st);
    PassesRead(m, f, x, pre, mid, Var(x), post, st1);
  }

  lemma ReadThenMacroHoists(f: nat, x: Name, pre: seq<Expr>, mid: seq<Expr>, post: seq<Expr>)
    requires Still(pre) && Still(mid) && Still(post)
    ensures Hoist(ReadThenMacro(f, x, pre, mid, post), 0)
         == Hoisted([Check(x)], Call(f, (pre + [Var(x)] + mid) + ([Var(x)] + post)), 0)
  {
    hide Still;
    var early, late := pre + [Var(x)] + mid, [Q(Var(x))] + post;
    StillVar(x);
    StillConcat(pre, [Var(x)]);
    StillConcat(pre + [Var(x)], mid);
    LateHoists(x, post);
    StillHoists(early, late, 0);
    assert ReadThenMacro(f, x, pre, mid, post) == Call(f, early + late);
    assert HoistArgs(early + late, 0) == HoistedArgs([Check(x)], early + ([Var(x)] + post), 0);
  }

  lemma StillVar(x: Name)
    ensures Still([Var(x)])
  {
    assert [Var(x)][1..] == [] && !HasMacro(Var(x));
  }

  lemma LateHoists(x: Name, post: seq<Expr>)
    requires Still(post)
    ensures HoistArgs([Q(Var(x))] + post, 0) == HoistedArgs([Check(x)], [Var(x)] + post, 0)
  {
    hide Still;
    var late := [Q(Var(x))] + post;
    assert late[1..] == post;
    StillHoists(post, [], 0);
    assert post + [] == post;
    assert HoistArgs([], 0) == HoistedArgs([], [], 0);
    assert Hoist(Q(Var(x)), 0) == Hoisted([Check(x)], Var(x), 0);
    assert HoistArgs(post, 0) == HoistedArgs([], post, 0);
  }

  lemma {:induction false} StillConcat(a: seq<Expr>, b: seq<Expr>)
    requires Still(a) && Still(b)
    ensures Still(a + b)
    decreases a
  {
    if a == [] {
      assert a + b == b;
    } else {
      assert (a + b)[1..] == a[1..] + b;
      StillConcat(a[1..], b);
    }
  }

  /** Nothing is hoisted out of arguments without macros. */
  lemma {:induction false} StillHoists(a: seq<Expr>, b: seq<Expr>, n: nat)
    requires Still(a)
    ensures var h := HoistArgs(b, n); HoistArgs(a + b, n) == HoistedArgs(h.pre, a + h.es, h.next)
    decreases a
  {
    hide HoistArgs, Hoist, HasMacro, Quiet;
    var h := HoistArgs(b, n);
    if a == [] {
      assert a + b == b && a + h.es == h.es;
    } else {
      StillHoists(a[1..], b, n);
      DropFirst(a, b);
      StillFirst(a + b, n);
      DropFirst(a, h.es);
    }
  }

  lemma StillFirst(es: seq<Expr>, n: nat)
    requires es != [] && !HasMacro(es[0])
    ensures var rest := HoistArgs(es[1..], n);
            HoistArgs(es, n) == HoistedArgs(rest.pre, [es[0]] + rest.es, rest.next)
  {
    WithoutMacros(es[0], n);
    hide Hoist, HasMacro;
    var rest := HoistArgs(es[1..], n);
    assert [] + rest.pre == rest.pre;
  }

  lemma DropFirst(a: seq<Expr>, b: seq<Expr>)
    requires a != []
    ensures (a + b)[0] == a[0] && (a + b)[1..] == a[1..] + b && a + b == [a[0]] + (a[1..] + b)
  {
  }
}
