/** Lowering a whole function body keeps its meaning. */
module MacrosBodies {
  import opened Completions
  import opened Macros
  import opened MacrosCorrect

  /** As written by a programmer, with every macro where its operands allow it. */
  predicate SafeBody(s: Stmt)
    decreases s
  {
    match s
    case Let(x, e) => x.User? && Source(e) && Safe(e)
    case Assign(x, e) => x.User? && Source(e) && Safe(e)
    case Do(e) => Source(e) && Safe(e)
    case Ret(e) => Source(e) && Safe(e)
    case If(test, thn, els) => Source(test) && Safe(test) && SafeBody(thn) && SafeBody(els)
    case While(test, body) => Source(test) && SafeBody(body)
    case Block(body) => SafeBodies(body)
    case Check(_) => false
    case Declare(_) => false
  }

  predicate SafeBodies(ss: seq<Stmt>)
    decreases ss
  {
    ss == [] || (SafeBody(ss[0]) && SafeBodies(ss[1..]))
  }

  /** Same calls made; and the same variables, or the same value returned once a plain value is
      read as a normal completion. */
  ghost predicate SameOut(o: Out, p: Out) {
    match o
    case Next(st) => p.Next? && Agree(st, p.st)
    case Returned(v, st) =>
      p.Returned? && EnsureCompletion(v) == EnsureCompletion(p.v) && st.trace == p.st.trace
    case Thrown(_, _) => false
    case Timeout => p.Timeout?
  }

  lemma RunOne(m: Machine, s: Stmt, st: State, fuel: nat)
    ensures RunAll(m, [s], st, fuel) == Run(m, s, st, fuel)
  {
    var o := Run(m, s, st, fuel);
    if o.Next? { assert RunAll(m, [], o.st, fuel) == o; }
  }

  lemma RunBranch(m: Machine, ss: seq<Stmt>, st: State, fuel: nat)
    ensures Run(m, Branch(ss), st, fuel) == RunAll(m, ss, st, fuel)
  {
    if |ss| == 1 {
      assert ss == [ss[0]];
      RunOne(m, ss[0], st, fuel);
    }
  }

  lemma StoreAgrees(m: Machine, s: Stmt, x: Name, e: Expr, ss: seq<Stmt>, a: State, b: State, n: nat, fuel: nat)
    requires m.inPlace && (s == Let(x, e) || s == Assign(x, e))
    requires Assigns(m, x, ss, Eval(m, e, a), b, n, fuel)
    ensures SameOut(Run(m, s, a, fuel), RunAll(m, ss, b, fuel))
  {
  }

  /** Returning e and returning Q(e) give the same completion. */
  lemma ReturnShortcut(m: Machine, e: Expr, a: State, fuel: nat)
    requires m.inPlace
    ensures var o, p := Run(m, Ret(Q(e)), a, fuel), Run(m, Ret(e), a, fuel);
            && o.Returned? && p.Returned?
            && EnsureCompletion(o.v) == EnsureCompletion(p.v) && o.st.trace == p.st.trace
  {
  }

  lemma {:induction false} LowerRetCorrect(m: Machine, e: Expr, n: nat, a: State, b: State, fuel: nat)
    requires m.inPlace && AcceptedRet(e) && Safe(e) && Source(e) && Agree(a, b)
    ensures SameOut(Run(m, Ret(e), a, fuel), RunAll(m, LowerRet(e, n).ss, b, fuel))
  {
    if e.Q? {
      ReturnShortcut(m, e.arg, a, fuel);
      LowerRetCorrect(m, e.arg, n, a, b, fuel);
    } else {
      HoistCorrect(m, e, n, a, b, fuel);
      var h := Hoist(e, n);
      RunAllConcat(m, h.pre, [Ret(h.e)], b, fuel);
      var o := RunAll(m, h.pre, b, fuel);
      if o.Next? { RunOne(m, Ret(h.e), o.st, fuel); }
    }
  }

  lemma DoCorrect(m: Machine, e: Expr, n: nat, a: State, b: State, fuel: nat)
    requires m.inPlace && AcceptedExpr(e) && Safe(e) && Source(e) && Agree(a, b)
    ensures SameOut(Run(m, Do(e), a, fuel), RunAll(m, Lower(Do(e), n).ss, b, fuel))
  {
    HoistCorrect(m, e, n, a, b, fuel);
    var h := Hoist(e, n);
    var o := RunAll(m, h.pre, b, fuel);
    if e.Q? {
      assert h.pre + [] == h.pre;
    } else {
      RunAllConcat(m, h.pre, [Do(h.e)], b, fuel);
      if o.Next? { RunOne(m, Do(h.e), o.st, fuel); }
    }
  }

  /** Lowering keeps what a statement does, for every host, state and number of loop rounds. */
  lemma {:induction false} LowerCorrect(m: Machine, s: Stmt, n: nat, a: State, b: State, fuel: nat)
    requires m.inPlace && Accepted(s) && SafeBody(s) && Agree(a, b)
    ensures SameOut(Run(m, s, a, fuel), RunAll(m, Lower(s, n).ss, b, fuel))
    decreases fuel, s
  {
    match s
    case Let(x, e) =>
      LowerLetCorrect(m, x, e, n, a, b, fuel);
      StoreAgrees(m, s, x, e, LowerLet(x, e, n).ss, a, b, n, fuel);
    case Assign(x, e) =>
      LowerAssignCorrect(m, x, e, n, a, b, fuel);
      StoreAgrees(m, s, x, e, LowerAssign(x, e, n).ss, a, b, n, fuel);
    case Do(e) => DoCorrect(m, e, n, a, b, fuel);
    case Ret(e) => LowerRetCorrect(m, e, n, a, b, fuel);
    case If(test, thn, els) =>
      HoistCorrect(m, test, n, a, b, fuel);
      var h := Hoist(test, n);
      var r, o := Eval(m, test, a), RunAll(m, h.pre, b, fuel);
      if r.Val? {
        var q := Eval(m, h.e, o.st);
        var t := Lower(thn, h.next);
        if Truthy(r.v) {
          LowerCorrect(m, thn, h.next, r.st, q.st, fuel);
        } else {
          LowerCorrect(m, els, t.next, r.st, q.st, fuel);
        }
      }
      IfCorrect(m, s, n, a, b, fuel);
    case While(test, body) =>
      PlainOperand(m, test, a, b);
      var r, q := Eval(m, test, a), Eval(m, test, b);
      if Truthy(r.v) && fuel > 0 {
        LowerCorrect(m, body, n, r.st, q.st, fuel);
        var o, p := Run(m, body, r.st, fuel), RunAll(m, Lower(body, n).ss, q.st, fuel);
        if o.Next? { LowerCorrect(m, s, n, o.st, p.st, fuel - 1); }
      }
      WhileCorrect(m, s, n, a, b, fuel);
    case Block(body) =>
      LowerAllCorrect(m, body, n, a, b, fuel);
      RunOne(m, Block(LowerAll(body, n).ss), b, fuel);
  }

  lemma {:induction false} LowerAllCorrect(m: Machine, ss: seq<Stmt>, n: nat, a: State, b: State, fuel: nat)
    requires m.inPlace && AcceptedAll(ss) && SafeBodies(ss) && Agree(a, b)
    ensures SameOut(RunAll(m, ss, a, fuel), RunAll(m, LowerAll(ss, n).ss, b, fuel))
    decreases fuel, ss
  {
    if ss != [] {
      LowerCorrect(m, ss[0], n, a, b, fuel);
      var l := Lower(ss[0], n);
      RunAllConcat(m, l.ss, LowerAll(ss[1..], l.next).ss, b, fuel);
      var o, p := Run(m, ss[0], a, fuel), RunAll(m, l.ss, b, fuel);
      if o.Next? { LowerAllCorrect(m, ss[1..], l.next, o.st, p.st, fuel); }
    }
  }

  lemma IfCorrect(m: Machine, s: Stmt, n: nat, a: State, b: State, fuel: nat)
    requires m.inPlace && s.If?
    requires var h := Hoist(s.test, n); Hoists(m, h.pre, h.e, Eval(m, s.test, a), b, n, fuel)
    requires var h := Hoist(s.test, n); var r, o := Eval(m, s.test, a), RunAll(m, h.pre, b, fuel);
             r.Val? && o.Next? ==>
               var q := Eval(m, h.e, o.st);
               var t := Lower(s.thn, h.next);
               if Truthy(r.v) then SameOut(Run(m, s.thn, r.st, fuel), RunAll(m, t.ss, q.st, fuel))
               else SameOut(Run(m, s.els, r.st, fuel), RunAll(m, Lower(s.els, t.next).ss, q.st, fuel))
    ensures SameOut(Run(m, s, a, fuel), RunAll(m, Lower(s, n).ss, b, fuel))
  {
    hide SameOut;
    var h := Hoist(s.test, n);
    var t := Lower(s.thn, h.next);
    var e := Lower(s.els, t.next);
    var branch := If(h.e, Branch(t.ss), Branch(e.ss));
    RunAllConcat(m, h.pre, [branch], b, fuel);
    var r, o := Eval(m, s.test, a), RunAll(m, h.pre, b, fuel);
    if r.Val? {
      RunOne(m, branch, o.st, fuel);
      var q := Eval(m, h.e, o.st);
      RunBranch(m, if Truthy(r.v) then t.ss else e.ss, q.st, fuel);
    } else {
      SameOutReturned(r.v, r.st, o.st);
    }
  }

  lemma SameOutReturned(v: Value, s: State, t: State)
    requires s.trace == t.trace
    ensures SameOut(Returned(v, s), Returned(v, t))
  {
  }

  lemma WhileCorrect(m: Machine, s: Stmt, n: nat, a: State, b: State, fuel: nat)
    requires m.inPlace && s.While? && Agree(a, b)
    requires var r, q := Eval(m, s.test, a), Eval(m, s.test, b);
             && r.Val? && q.Val? && r.v == q.v && Agree(r.st, q.st)
             && (Truthy(r.v) && fuel > 0 ==>
                  var o, p := Run(m, s.body, r.st, fuel), RunAll(m, Lower(s.body, n).ss, q.st, fuel);
                  && SameOut(o, p)
                  && (o.Next? ==>
                       SameOut(Run(m, s, o.st, fuel - 1), RunAll(m, Lower(s, n).ss, p.st, fuel - 1))))
    ensures SameOut(Run(m, s, a, fuel), RunAll(m, Lower(s, n).ss, b, fuel))
  {
    var ss := Lower(s.body, n).ss;
    var loop := While(s.test, Branch(ss));
    assert Lower(s, n).ss == [loop];
    RunOne(m, loop, b, fuel);
    var q := Eval(m, s.test, b);
    if Truthy(q.v) && fuel > 0 {
      RunBranch(m, ss, q.st, fuel);
      var p := RunAll(m, ss, q.st, fuel);
      if p.Next? { RunOne(m, loop, p.st, fuel - 1); }
    }
  }

  /** The transform keeps the meaning of every accepted and safe function body. */
  lemma BodyKeepsMeaning(host: Host, body: seq<Stmt>, st: State, fuel: nat)
    requires AcceptedAll(body) && SafeBodies(body)
    ensures var m := Machine(host, true);
            SameOut(RunAll(m, body, st, fuel), RunAll(m, LowerAll(body, 0).ss, st, fuel))
  {
    LowerAllCorrect(Machine(host, true), body, 0, st, st, fuel);
  }

  // --- Calls are only ever added ---

  lemma {:induction false} CallsGrow(m: Machine, e: Expr, st: State)
    ensures st.trace <= Eval(m, e, st).st.trace
    decreases e
  {
    match e
    case Lit(_) =>
    case Var(_) =>
    case Call(_, args) => ArgsCallsGrow(m, args, st);
    case Q(arg) => CallsGrow(m, arg, st);
    case Cond(test, thn, els) =>
      CallsGrow(m, test, st);
      var r := Eval(m, test, st);
      CallsGrow(m, thn, r.st);
      CallsGrow(m, els, r.st);
    case And(l, r) => CallsGrow(m, l, st); CallsGrow(m, r, Eval(m, l, st).st);
    case Same(l, r) => CallsGrow(m, l, st); CallsGrow(m, r, Eval(m, l, st).st);
  }

  lemma {:induction false} ArgsCallsGrow(m: Machine, es: seq<Expr>, st: State)
    ensures st.trace <= EvalArgs(m, es, st).st.trace
    decreases es
  {
    if es != [] {
      CallsGrow(m, es[0], st);
      ArgsCallsGrow(m, es[1..], Eval(m, es[0], st).st);
    }
  }

  lemma {:induction false} RunCallsGrow(m: Machine, s: Stmt, st: State, fuel: nat)
    ensures var o := Run(m, s, st, fuel); !o.Timeout? ==> st.trace <= o.st.trace
    decreases fuel, s
  {
    match s
    case Let(_, e) => CallsGrow(m, e, st);
    case Assign(_, e) => CallsGrow(m, e, st);
    case Do(e) => CallsGrow(m, e, st);
    case Ret(e) => CallsGrow(m, e, st);
    case If(test, thn, els) =>
      CallsGrow(m, test, st);
      var r := Eval(m, test, st);
      RunCallsGrow(m, thn, r.st, fuel);
      RunCallsGrow(m, els, r.st, fuel);
    case While(test, body) =>
      CallsGrow(m, test, st);
      var r := Eval(m, test, st);
      if fuel > 0 {
        RunCallsGrow(m, body, r.st, fuel);
        var o := Run(m, body, r.st, fuel);
        if o.Next? { RunCallsGrow(m, s, o.st, fuel - 1); }
      }
    case Block(body) => RunAllCallsGrow(m, body, st, fuel);
    case Check(_) =>
    case Declare(_) =>
  }

  lemma {:induction false} RunAllCallsGrow(m: Machine, ss: seq<Stmt>, st: State, fuel: nat)
    ensures var o := RunAll(m, ss, st, fuel); !o.Timeout? ==> st.trace <= o.st.trace
    decreases fuel, ss
  {
    if ss != [] {
      RunCallsGrow(m, ss[0], st, fuel);
      var o := Run(m, ss[0], st, fuel);
      if o.Next? { RunAllCallsGrow(m, ss[1..], o.st, fuel); }
    }
  }

  // --- No macro is left ---

  predicate Clean(s: Stmt)
    decreases s
  {
    match s
    case Let(_, e) => !HasMacro(e)
    case Assign(_, e) => !HasMacro(e)
    case Do(e) => !HasMacro(e)
    case Ret(e) => !HasMacro(e)
    case If(test, thn, els) => !HasMacro(test) && Clean(thn) && Clean(els)
    case While(test, body) => !HasMacro(test) && Clean(body)
    case Block(body) => CleanAll(body)
    case Check(_) => true
    case Declare(_) => true
  }

  predicate CleanAll(ss: seq<Stmt>)
    decreases ss
  {
    ss == [] || (Clean(ss[0]) && CleanAll(ss[1..]))
  }

  lemma {:induction false} CleanConcat(a: seq<Stmt>, b: seq<Stmt>)
    requires CleanAll(a) && CleanAll(b)
    ensures CleanAll(a + b)
    decreases a
  {
    if a == [] {
      assert a + b == b;
    } else {
      assert (a + b)[1..] == a[1..] + b;
      CleanConcat(a[1..], b);
    }
  }

  lemma CleanThen(a: seq<Stmt>, s: Stmt)
    requires CleanAll(a) && Clean(s)
    ensures CleanAll(a + [s])
  {
    assert [s][1..] == [];
    CleanConcat(a, [s]);
  }

  lemma {:induction false} HoistClears(e: Expr, n: nat)
    requires AcceptedExpr(e)
    ensures var h := Hoist(e, n); CleanAll(h.pre) && !HasMacro(h.e)
    decreases e, 0
  {
    match e
    case Lit(_) =>
    case Var(_) =>
    case Call(_, args) => HoistArgsClear(args, n);
    case Cond(_, _, _) =>
    case And(l, r) =>
      HoistClears(l, n);
      HoistClears(r, Hoist(l, n).next);
      CleanConcat(Hoist(l, n).pre, Hoist(r, Hoist(l, n).next).pre);
    case Same(l, r) =>
      HoistClears(l, n);
      HoistClears(r, Hoist(l, n).next);
      CleanConcat(Hoist(l, n).pre, Hoist(r, Hoist(l, n).next).pre);
    case Q(arg) =>
      if arg.Var? {
        CleanThen([], Check(arg.x));
        assert [] + [Check(arg.x)] == [Check(arg.x)];
      } else {
        LowerLetClears(Temp(n), arg, n + 1);
        CleanThen(LowerLet(Temp(n), arg, n + 1).ss, Check(Temp(n)));
      }
  }

  lemma {:induction false} HoistArgsClear(es: seq<Expr>, n: nat)
    requires AcceptedArgs(es)
    ensures var h := HoistArgs(es, n); CleanAll(h.pre) && !HasMacros(h.es)
    decreases es, 0
  {
    if es != [] {
      HoistClears(es[0], n);
      var a := Hoist(es[0], n);
      HoistArgsClear(es[1..], a.next);
      var b := HoistArgs(es[1..], a.next);
      CleanConcat(a.pre, b.pre);
      assert ([a.e] + b.es)[1..] == b.es;
    }
  }

  lemma {:induction false} LowerAssignClears(x: Name, e: Expr, n: nat)
    requires AcceptedExpr(e)
    ensures CleanAll(LowerAssign(x, e, n).ss)
    decreases e, 1
  {
    HoistClears(e, n);
    CleanThen(Hoist(e, n).pre, Assign(x, Hoist(e, n).e));
  }

  lemma {:induction false} LowerLetClears(x: Name, e: Expr, n: nat)
    requires AcceptedLet(e)
    ensures CleanAll(LowerLet(x, e, n).ss)
    decreases e, 2
  {
    if e.Cond? && HasMacro(e) {
      HoistClears(e.test, n);
      var t := Hoist(e.test, n);
      LowerAssignClears(x, e.thn, t.next);
      var a := LowerAssign(x, e.thn, t.next);
      LowerAssignClears(x, e.els, a.next);
      var branch := If(t.e, Block(a.ss), Block(LowerAssign(x, e.els, a.next).ss));
      CleanThen([], Declare(x));
      assert [] + [Declare(x)] == [Declare(x)];
      CleanConcat([Declare(x)], t.pre);
      CleanThen([Declare(x)] + t.pre, branch);
    } else {
      HoistClears(e, n);
      CleanThen(Hoist(e, n).pre, Let(x, Hoist(e, n).e));
    }
  }

  lemma {:induction false} LowerRetClears(e: Expr, n: nat)
    requires AcceptedRet(e)
    ensures CleanAll(LowerRet(e, n).ss)
  {
    if e.Q? {
      LowerRetClears(e.arg, n);
    } else {
      HoistClears(e, n);
      CleanThen(Hoist(e, n).pre, Ret(Hoist(e, n).e));
    }
  }

  lemma CleanBranch(ss: seq<Stmt>)
    requires CleanAll(ss)
    ensures Clean(Branch(ss))
  {
  }

  lemma {:induction false} LowerClears(s: Stmt, n: nat)
    requires Accepted(s)
    ensures CleanAll(Lower(s, n).ss)
    decreases s
  {
    match s
    case Let(x, e) => LowerLetClears(x, e, n);
    case Assign(x, e) => LowerAssignClears(x, e, n);
    case Do(e) =>
      HoistClears(e, n);
      var h := Hoist(e, n);
      if e.Q? { assert h.pre + [] == h.pre; } else { CleanThen(h.pre, Do(h.e)); }
    case Ret(e) => LowerRetClears(e, n);
    case If(test, thn, els) =>
      HoistClears(test, n);
      var h := Hoist(test, n);
      LowerClears(thn, h.next);
      var a := Lower(thn, h.next);
      LowerClears(els, a.next);
      var b := Lower(els, a.next);
      CleanBranch(a.ss);
      CleanBranch(b.ss);
      CleanThen(h.pre, If(h.e, Branch(a.ss), Branch(b.ss)));
    case While(test, body) =>
      LowerClears(body, n);
      var b := Lower(body, n);
      CleanBranch(b.ss);
      CleanThen([], While(test, Branch(b.ss)));
    case Block(body) =>
      LowerAllClears(body, n);
      CleanThen([], Block(LowerAll(body, n).ss));
  }

  /** The transform leaves no macro in an accepted body. */
  lemma {:induction false} LowerAllClears(ss: seq<Stmt>, n: nat)
    requires AcceptedAll(ss)
    ensures CleanAll(LowerAll(ss, n).ss)
    decreases ss
  {
    if ss != [] {
      LowerClears(ss[0], n);
      var a := Lower(ss[0], n);
      LowerAllClears(ss[1..], a.next);
      CleanConcat(a.ss, LowerAll(ss[1..], a.next).ss);
    }
  }
}
