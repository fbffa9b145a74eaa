/** Accepted inputs outside the conditions of the theorems, and what goes wrong on each. */
module MacrosLimits {
  import opened Completions
  import opened Macros
  import opened MacrosCorrect
  import opened MacrosBodies

  /** A host that answers every call with 1. */
  const ONE: Host := (f, vs, trace) => Plain(1)

  const EMPTY := State(map[], [])

  function Ask(f: nat): Expr { Call(f, []) }

  function Asked(st: State, f: nat): State { st.(trace := st.trace + [Event(f, [])]) }

  lemma EvalAsk(m: Machine, f: nat, st: State)
    requires m.host == ONE
    ensures Eval(m, Ask(f), st) == Val(Plain(1), Asked(st, f))
  {
    assert EvalArgs(m, [], st) == Vals([], st);
  }

  lemma HoistAsk(f: nat, n: nat)
    ensures Hoist(Ask(f), n) == Hoisted([], Ask(f), n) && !HasMacro(Ask(f))
    ensures Hoist(Q(Ask(f)), n) == Hoisted([Let(Temp(n), Ask(f)), Check(Temp(n))], Var(Temp(n)), n + 1)
  {
    assert HoistArgs([], n) == HoistedArgs([], [], n);
    assert HoistArgs([], n + 1) == HoistedArgs([], [], n + 1);
    assert Hoist(Ask(f), n + 1) == Hoisted([], Ask(f), n + 1);
    assert LowerLet(Temp(n), Ask(f), n + 1).ss == [Let(Temp(n), Ask(f))];
  }

  lemma RunAskSteps(f: nat, st: State)
    ensures var m := Machine(ONE, true);
            var st1 := State(st.env[Temp(0) := Plain(1)], st.trace + [Event(f, [])]);
            Run(m, Let(Temp(0), Ask(f)), st, 0) == Next(st1) && Run(m, Check(Temp(0)), st1, 0) == Next(st1)
  {
    hide Eval, EvalArgs, RunAll;
    var m := Machine(ONE, true);
    EvalAsk(m, f, st);
    var st1 := State(st.env[Temp(0) := Plain(1)], st.trace + [Event(f, [])]);
    assert Run(m, Let(Temp(0), Ask(f)), st, 0) == Next(st1);
    assert CheckVar(Temp(0), st1) == Val(Plain(1), st1);
    assert Run(m, Check(Temp(0)), st1, 0) == Next(st1);
  }

  /** Running the hoisted macro and then one more statement. */
  lemma RunAskThen(f: nat, s: Stmt, st: State)
    ensures var m := Machine(ONE, true);
            var h := Hoist(Q(Ask(f)), 0);
            RunAll(m, h.pre + [s], st, 0)
              == Run(m, s, State(st.env[Temp(0) := Plain(1)], st.trace + [Event(f, [])]), 0)
  {
    hide Hoist, Run, RunAll, Eval;
    var m := Machine(ONE, true);
    HoistAsk(f, 0);
    RunAskSteps(f, st);
    var let, check := Let(Temp(0), Ask(f)), Check(Temp(0));
    var st1 := State(st.env[Temp(0) := Plain(1)], st.trace + [Event(f, [])]);
    RunAllConcat(m, [let] + [check], [s], st, 0);
    RunAllConcat(m, [let], [check], st, 0);
    RunOne(m, let, st, 0);
    RunOne(m, check, st1, 0);
    RunOne(m, s, st1, 0);
    assert [let, check] == [let] + [check];
  }

  lemma LowerOne(s: Stmt)
    ensures LowerAll([s], 0).ss == Lower(s, 0).ss
    ensures AcceptedAll([s]) == Accepted(s) && SafeBodies([s]) == SafeBody(s)
  {
    assert [s][1..] == [];
    assert LowerAll([], Lower(s, 0).next) == Lowered([], Lower(s, 0).next);
    assert Lower(s, 0).ss + [] == Lower(s, 0).ss;
    assert AcceptedAll([]) && SafeBodies([]);
  }

  /** A macro to the right of && in a test is accepted, and is run even when the left is false. */
  lemma MacroAfterAndRuns(body: seq<Stmt>)
    requires var x := Var(User("x")); body == [If(And(x, Q(Ask(7))), Ret(x), Ret(x))]
    ensures AcceptedAll(body) && !SafeBodies(body)
    ensures var m := Machine(ONE, true);
            var o, p := RunAll(m, body, EMPTY, 0), RunAll(m, LowerAll(body, 0).ss, EMPTY, 0);
            o.Returned? && o.st.trace == [] && p.Returned? && p.st.trace == [Event(7, [])]
  {
    hide Run, RunAll, Lower, LowerAll;
    var m := Machine(ONE, true);
    var s := body[0];
    assert body == [s];
    LowerOne(s);
    RunOne(m, s, EMPTY, 0);
    AndShape(s);
    var h := Hoist(s.test, 0);
    var branch := If(h.e, s.thn, s.els);
    HoistAsk(7, 0);
    RunAskThen(7, branch, EMPTY);
    AndRuns(m, s, EMPTY);
    AndRuns(m, branch, State(EMPTY.env[Temp(0) := Plain(1)], EMPTY.trace + [Event(7, [])]));
  }

  lemma AndShape(s: Stmt)
    requires var x := Var(User("x")); s == If(And(x, Q(Ask(7))), Ret(x), Ret(x))
    ensures Accepted(s) && !SafeBody(s)
    ensures Hoist(s.test, 0) == Hoisted(Hoist(Q(Ask(7)), 0).pre, And(s.test.l, Var(Temp(0))), 1)
    ensures Lower(s, 0).ss == Hoist(Q(Ask(7)), 0).pre + [If(And(s.test.l, Var(Temp(0))), s.thn, s.els)]
  {
    var x := Var(User("x"));
    HoistAsk(7, 0);
    assert AcceptedExpr(x) && AcceptedArgs([]) && AcceptedExpr(Ask(7)) && AcceptedExpr(Q(Ask(7)));
    assert AcceptedExpr(s.test) && AcceptedRet(x) && Accepted(Ret(x));
    assert HasMacro(Q(Ask(7))) && !Safe(s.test);
    assert Hoist(x, 0) == Hoisted([], x, 0);
    var pre := Hoist(Q(Ask(7)), 0).pre;
    assert [] + pre == pre;
    forall n: nat ensures Lower(Ret(x), n) == Lowered([Ret(x)], n) {
      assert Hoist(x, n) == Hoisted([], x, n);
      assert LowerRet(x, n).ss == [Ret(x)];
    }
  }

  lemma AndRuns(m: Machine, s: Stmt, st: State)
    requires var x := Var(User("x"));
             s.If? && s.test.And? && s.test.l == x && s.thn == Ret(x) && s.els == Ret(x)
    requires Get(st.env, User("x")) == Plain(0)
    ensures Run(m, s, st, 0) == Returned(Plain(0), st)
  {
    assert Eval(m, s.test.l, st) == Val(Plain(0), st);
    assert Eval(m, s.test, st) == Val(Plain(0), st);
    assert Run(m, s.els, st, 0) == Returned(Plain(0), st);
  }

  /** A call to the left of a macro in the same statement is made after it. */
  lemma CallBeforeMacroMovesBehind(body: seq<Stmt>)
    requires body == [Do(Same(Ask(1), Q(Ask(2))))]
    ensures AcceptedAll(body) && !SafeBodies(body)
    ensures var m := Machine(ONE, true);
            var o, p := RunAll(m, body, EMPTY, 0), RunAll(m, LowerAll(body, 0).ss, EMPTY, 0);
            && o.Next? && o.st.trace == [Event(1, []), Event(2, [])]
            && p.Next? && p.st.trace == [Event(2, []), Event(1, [])]
  {
    hide RunAll, Lower, LowerAll;
    var m := Machine(ONE, true);
    var s := body[0];
    assert body == [s];
    LowerOne(s);
    RunOne(m, s, EMPTY, 0);
    SameShape(s);
    HoistAsk(2, 0);
    RunAskThen(2, Do(Same(Ask(1), Var(Temp(0)))), EMPTY);
    EvalAsk(m, 1, EMPTY);
    EvalAsk(m, 2, Asked(EMPTY, 1));
    EvalAsk(m, 1, State(EMPTY.env[Temp(0) := Plain(1)], EMPTY.trace + [Event(2, [])]));
  }

  lemma SameShape(s: Stmt)
    requires s == Do(Same(Ask(1), Q(Ask(2))))
    ensures Accepted(s) && !SafeBody(s)
    ensures Lower(s, 0).ss == Hoist(Q(Ask(2)), 0).pre + [Do(Same(Ask(1), Var(Temp(0))))]
  {
    HoistAsk(1, 0);
    HoistAsk(2, 0);
    assert AcceptedArgs([]) && AcceptedExpr(Ask(1)) && AcceptedExpr(Ask(2)) && AcceptedExpr(Q(Ask(2)));
    assert HasMacro(Q(Ask(2))) && !Quiet(Ask(1)) && !Safe(s.e);
    var pre := Hoist(Q(Ask(2)), 0).pre;
    assert Hoist(s.e, 0).pre == pre;
  }

  /** A variable whose macro stands alone is unwrapped by the lowered code but not by Q_runtime. */
  lemma BareMacroUnwrapsOnlyWhenLowered(host: Host, body: seq<Stmt>, st: State)
    requires var x := Var(User("x")); body == [Do(Q(x)), Ret(Same(x, Lit(Plain(1))))]
    requires st == State(map[User("x") := NormalC(1)], [])
    ensures AcceptedAll(body) && SafeBodies(body)
    ensures RunAll(Machine(host, false), body, st, 0) == Returned(Plain(0), st)
    ensures var p := RunAll(Machine(host, true), LowerAll(body, 0).ss, st, 0);
            p.Returned? && p.v == Plain(1)
  {
    hide RunAll, LowerAll, Run, AcceptedAll, SafeBodies;
    var x := Var(User("x"));
    var last := Ret(Same(x, Lit(Plain(1))));
    var k := Machine(host, false);
    var m := Machine(host, true);
    assert body == [body[0]] + [last];
    RunAllConcat(k, [body[0]], [last], st, 0);
    RunOne(k, body[0], st, 0);
    RunOne(k, last, st, 0);
    BareShape(body);
    var st1 := State(map[User("x") := Plain(1)], []);
    RunAllConcat(m, [Check(User("x"))], [last], st, 0);
    RunOne(m, Check(User("x")), st, 0);
    RunOne(m, last, st1, 0);
    BareRuns(host, st, st1);
  }

  lemma BareRuns(host: Host, st: State, st1: State)
    requires st == State(map[User("x") := NormalC(1)], [])
    requires st1 == State(map[User("x") := Plain(1)], [])
    ensures var x := Var(User("x"));
            var last := Ret(Same(x, Lit(Plain(1))));
            var k, m := Machine(host, false), Machine(host, true);
            && Run(k, Do(Q(x)), st, 0) == Next(st) && Run(k, last, st, 0) == Returned(Plain(0), st)
            && Run(m, Check(User("x")), st, 0) == Next(st1) && Run(m, last, st1, 0) == Returned(Plain(1), st1)
  {
    var x := Var(User("x"));
    var k, m := Machine(host, false), Machine(host, true);
    assert Eval(k, x, st) == Val(NormalC(1), st);
    assert Eval(m, x, st1) == Val(Plain(1), st1);
    assert Eval(k, Lit(Plain(1)), st) == Val(Plain(1), st);
    assert Eval(m, Lit(Plain(1)), st1) == Val(Plain(1), st1);
    assert st.env[User("x") := Plain(1)] == st1.env;
  }

  lemma BareShape(body: seq<Stmt>)
    requires var x := Var(User("x")); body == [Do(Q(x)), Ret(Same(x, Lit(Plain(1))))]
    ensures AcceptedAll(body) && SafeBodies(body)
    ensures LowerAll(body, 0).ss == [Check(User("x"))] + [body[1]]
  {
    var x := Var(User("x"));
    var last := body[1];
    LowerOne(last);
    assert body[1..] == [last];
    assert AcceptedExpr(x) && AcceptedExpr(Q(x)) && AcceptedExpr(last.e) && AcceptedRet(last.e);
    assert Accepted(body[0]) && Accepted(last) && SafeBody(body[0]) && SafeBody(last);
    assert Hoist(Q(x), 0) == Hoisted([Check(User("x"))], x, 0);
    assert Lower(body[0], 0) == Lowered([Check(User("x"))], 0);
    assert Hoist(last.e, 0) == Hoisted([], last.e, 0);
    assert Lower(last, 0).ss == [last];
  }

  /** That a call certainly moves behind a call in a macro is not enough to be seen: this body is
      outside the condition of BodyKeepsMeaning, and means the same on every host. */
  lemma SameCallsMayMove(host: Host, f: nat, body: seq<Stmt>, st: State, fuel: nat)
    requires body == [Do(Same(Ask(f), Q(Same(Ask(f), Lit(Plain(1))))))]
    ensures AcceptedAll(body) && !SafeBodies(body)
    ensures var m := Machine(host, true);
            SameOut(RunAll(m, body, st, fuel), RunAll(m, LowerAll(body, 0).ss, st, fuel))
  {
    var m := Machine(host, true);
    var arg := Same(Ask(f), Lit(Plain(1)));
    var let, check, last := Let(Temp(0), arg), Check(Temp(0)), Do(Same(Ask(f), Var(Temp(0))));
    SameCallsShape(f, body);
    hide LowerAll, RunAll, AcceptedAll, SafeBodies;
    RunOne(m, body[0], st, fuel);
    RunAllConcat(m, [let] + [check], [last], st, fuel);
    RunAllConcat(m, [let], [check], st, fuel);
    RunOne(m, let, st, fuel);
    AskTwice(m, f, st, fuel);
    var st1 := Run(m, let, st, fuel).st;
    RunOne(m, check, st1, fuel);
    RunOne(m, last, st1, fuel);
  }

  lemma AskTwice(m: Machine, f: nat, st: State, fuel: nat)
    ensures var arg := Same(Ask(f), Lit(Plain(1)));
            var o, p := Run(m, Do(Same(Ask(f), Q(arg))), st, fuel), Run(m, Let(Temp(0), arg), st, fuel);
            && o.Next? && o.st == Asked(Asked(st, f), f)
            && p.Next? && p.st.trace == Asked(st, f).trace && SameUsers(st.env, p.st.env)
            && Run(m, Check(Temp(0)), p.st, fuel) == Next(p.st)
            && Run(m, Do(Same(Ask(f), Var(Temp(0)))), p.st, fuel) == Next(Asked(p.st, f))
  {
    hide Eval, EvalArgs;
    var arg := Same(Ask(f), Lit(Plain(1)));
    SameAsk(m, f, Lit(Plain(1)), st);
    SameAsk(m, f, Lit(Plain(1)), Asked(st, f));
    Atom(m, Lit(Plain(1)), Asked(st, f));
    Atom(m, Lit(Plain(1)), Asked(Asked(st, f), f));
    QPlain(m, arg, Asked(st, f));
    SameAsk(m, f, Q(arg), st);
    var p := Run(m, Let(Temp(0), arg), st, fuel);
    Atom(m, Var(Temp(0)), Asked(p.st, f));
    SameAsk(m, f, Var(Temp(0)), p.st);
  }

  lemma Atom(m: Machine, e: Expr, st: State)
    requires e.Lit? || e.Var?
    ensures Eval(m, e, st).Val? && Eval(m, e, st).st == st
  {
  }

  lemma QPlain(m: Machine, e: Expr, st: State)
    requires !e.Var?
    ensures var r := Eval(m, e, st); r.Val? && r.v.Plain? ==> Eval(m, Q(e), st) == r
  {
  }

  lemma SameAsk(m: Machine, f: nat, e: Expr, st: State)
    ensures var r, q := Eval(m, Same(Ask(f), e), st), Eval(m, e, Asked(st, f));
            q.Val? ==> r.Val? && r.v.Plain? && r.st == q.st
  {
    AskAny(m, f, st);
  }

  lemma AskAny(m: Machine, f: nat, st: State)
    ensures Eval(m, Ask(f), st).Val? && Eval(m, Ask(f), st).st == Asked(st, f)
  {
    assert EvalArgs(m, [], st) == Vals([], st);
  }

  lemma SameCallsShape(f: nat, body: seq<Stmt>)
    requires body == [Do(Same(Ask(f), Q(Same(Ask(f), Lit(Plain(1))))))]
    ensures AcceptedAll(body) && !SafeBodies(body)
    ensures var arg := Same(Ask(f), Lit(Plain(1)));
            LowerAll(body, 0).ss == [Let(Temp(0), arg)] + [Check(Temp(0))] + [Do(Same(Ask(f), Var(Temp(0))))]
  {
    var s := body[0];
    var arg := Same(Ask(f), Lit(Plain(1)));
    assert body == [s];
    LowerOne(s);
    HoistAsk(f, 0);
    HoistAsk(f, 1);
    WithoutMacros(Ask(f), 0);
    WithoutMacros(arg, 1);
    assert AcceptedExpr(Q(arg)) && HasMacro(Q(arg)) && !Quiet(Ask(f)) && !Safe(s.e);
    assert Hoist(Q(arg), 0) == Hoisted([Let(Temp(0), arg)] + [Check(Temp(0))], Var(Temp(0)), 1);
    var pre := [Let(Temp(0), arg)] + [Check(Temp(0))];
    assert Hoist(s.e, 0) == Hoisted([] + pre, Same(Ask(f), Var(Temp(0))), 1);
    assert [] + pre == pre;
  }
}
