/** A language of function bodies with the ? macro, its meaning, and the lowering that
    scripts/transform.mts performs. */
module Macros {
  import opened Completions

  datatype Name = User(s: string) | Temp(n: nat)

  datatype Expr =
    | Lit(v: Value)
    | Var(x: Name)
    | Call(f: nat, args: seq<Expr>)
    | Q(arg: Expr)
    | Cond(test: Expr, thn: Expr, els: Expr)
    | And(l: Expr, r: Expr)
    | Same(l: Expr, r: Expr)

  /** Check(x) and Declare(x) occur in lowered code only: the ReturnIfAbrupt template on x, and a
      declaration without initialiser. */
  datatype Stmt =
    | Let(x: Name, e: Expr)
    | Assign(x: Name, e: Expr)
    | Do(e: Expr)
    | Ret(e: Expr)
    | If(test: Expr, thn: Stmt, els: Stmt)
    | While(test: Expr, body: Stmt)
    | Block(stmts: seq<Stmt>)
    | Check(x: Name)
    | Declare(x: Name)

  // --- Meaning ---

  /** A call that was made, with its arguments. */
  datatype Event = Event(f: nat, args: seq<Value>)

  type Env = map<Name, Value>

  datatype State = State(env: Env, trace: seq<Event>)

  /** What a called function yields may depend on everything called before. */
  type Host = (nat, seq<Value>, seq<Event>) -> Value

  function Get(env: Env, x: Name): Value {
    if x in env then env[x] else Plain(0)
  }

  predicate Truthy(v: Value) { v != Plain(0) }

  /** Exit: the macro returned early from the function, with an abrupt completion. */
  datatype Res = Val(v: Value, st: State) | Exit(v: Value, st: State)

  datatype ArgsRes = Vals(vs: seq<Value>, st: State) | ArgsExit(v: Value, st: State)

  /** With inPlace, the macro on a variable unwraps the variable itself, as ReturnIfAbrupt of
      section 5.2.3.3 of ECMA-262 and the template of the transform do; Q_runtime only yields the
      unwrapped value. */
  datatype Machine = Machine(host: Host, inPlace: bool)

  /** ReturnIfAbrupt of a variable: return it if it is abrupt, else unwrap it in place. */
  function CheckVar(x: Name, st: State): Res {
    var v := Get(st.env, x);
    if v.AbruptC? then Exit(v, st)
    else if v.NormalC? then Val(Unwrap(v), st.(env := st.env[x := Unwrap(v)]))
    else Val(v, st)
  }

  function Eval(m: Machine, e: Expr, st: State): Res
    decreases e
  {
    match e
    case Lit(v) => Val(v, st)
    case Var(x) => Val(Get(st.env, x), st)
    case Call(f, args) =>
      var r := EvalArgs(m, args, st);
      if r.ArgsExit? then Exit(r.v, r.st)
      else Val(m.host(f, r.vs, r.st.trace), r.st.(trace := r.st.trace + [Event(f, r.vs)]))
    case Q(arg) =>
      if m.inPlace && arg.Var? then CheckVar(arg.x, st)
      else
        var r := Eval(m, arg, st);
        if r.Exit? then r
        else
          var q := QRuntime(r.v);
          if q.Throws? then Exit(q.thrown, r.st) else Val(q.value, r.st)
    case Cond(test, thn, els) =>
      var r := Eval(m, test, st);
      if r.Exit? then r else Eval(m, if Truthy(r.v) then thn else els, r.st)
    case And(l, r) =>
      var a := Eval(m, l, st);
      if a.Exit? || !Truthy(a.v) then a else Eval(m, r, a.st)
    case Same(l, r) =>
      var a := Eval(m, l, st);
      if a.Exit? then a
      else
        var b := Eval(m, r, a.st);
        if b.Exit? then b else Val(Plain(if a.v == b.v then 1 else 0), b.st)
  }

  function EvalArgs(m: Machine, args: seq<Expr>, st: State): ArgsRes
    decreases args
  {
    if args == [] then Vals([], st)
    else
      var r := Eval(m, args[0], st);
      if r.Exit? then ArgsExit(r.v, r.st)
      else
        var rs := EvalArgs(m, args[1..], r.st);
        if rs.ArgsExit? then rs else Vals([r.v] + rs.vs, rs.st)
  }

  /** Going on, returning from the function, an exception of Q_runtime, or running out of loop
      rounds. */
  datatype Out = Next(st: State) | Returned(v: Value, st: State) | Thrown(v: Value, st: State) | Timeout

  /** A macro on an abrupt completion returns from the function; Q_runtime throws instead. */
  function Leave(m: Machine, v: Value, st: State): Out {
    if m.inPlace then Returned(v, st) else Thrown(v, st)
  }

  function Run(m: Machine, s: Stmt, st: State, fuel: nat): Out
    decreases fuel, s
  {
    match s
    case Let(x, e) =>
      var r := Eval(m, e, st);
      if r.Exit? then Leave(m, r.v, r.st) else Next(r.st.(env := r.st.env[x := r.v]))
    case Assign(x, e) =>
      var r := Eval(m, e, st);
      if r.Exit? then Leave(m, r.v, r.st) else Next(r.st.(env := r.st.env[x := r.v]))
    case Do(e) =>
      var r := Eval(m, e, st);
      if r.Exit? then Leave(m, r.v, r.st) else Next(r.st)
    case Ret(e) =>
      var r := Eval(m, e, st);
      if r.Exit? then Leave(m, r.v, r.st) else Returned(r.v, r.st)
    case If(test, thn, els) =>
      var r := Eval(m, test, st);
      if r.Exit? then Leave(m, r.v, r.st)
      else if Truthy(r.v) then Run(m, thn, r.st, fuel) else Run(m, els, r.st, fuel)
    case While(test, body) =>
      var r := Eval(m, test, st);
      if r.Exit? then Leave(m, r.v, r.st)
      else if !Truthy(r.v) then Next(r.st)
      else if fuel == 0 then Timeout
      else
        var o := Run(m, body, r.st, fuel);
        if o.Next? then Run(m, s, o.st, fuel - 1) else o
    case Block(body) => RunAll(m, body, st, fuel)
    case Check(x) =>
      var r := CheckVar(x, st);
      if r.Exit? then Returned(r.v, r.st) else Next(r.st)
    case Declare(x) => Next(st)
  }

  function RunAll(m: Machine, ss: seq<Stmt>, st: State, fuel: nat): Out
    decreases fuel, ss
  {
    if ss == [] then Next(st)
    else
      var o := Run(m, ss[0], st, fuel);
      if o.Next? then RunAll(m, ss[1..], o.st, fuel) else o
  }

  // --- Lowering ---

  predicate HasMacro(e: Expr)
    decreases e
  {
    match e
    case Lit(_) => false
    case Var(_) => false
    case Call(_, args) => HasMacros(args)
    case Q(_) => true
    case Cond(test, thn, els) => HasMacro(test) || HasMacro(thn) || HasMacro(els)
    case And(l, r) => HasMacro(l) || HasMacro(r)
    case Same(l, r) => HasMacro(l) || HasMacro(r)
  }

  predicate HasMacros(es: seq<Expr>)
    decreases es
  {
    es != [] && (HasMacro(es[0]) || HasMacros(es[1..]))
  }

  /** The statements put before, what is left of the expression, and the next free temporary. */
  datatype Hoisted = Hoisted(pre: seq<Stmt>, e: Expr, next: nat)

  datatype HoistedArgs = HoistedArgs(pre: seq<Stmt>, es: seq<Expr>, next: nat)

  datatype Lowered = Lowered(ss: seq<Stmt>, next: nat)

  /** Take the macros out of an expression, outermost first, into statements before it. */
  function Hoist(e: Expr, n: nat): (h: Hoisted)
    ensures h.next >= n
    decreases e, 0
  {
    match e
    case Lit(_) => Hoisted([], e, n)
    case Var(_) => Hoisted([], e, n)
    case Call(f, args) =>
      var r := HoistArgs(args, n);
      Hoisted(r.pre, Call(f, r.es), r.next)
    case Q(arg) =>
      if arg.Var? then Hoisted([Check(arg.x)], arg, n)
      else
        var r := LowerLet(Temp(n), arg, n + 1);
        Hoisted(r.ss + [Check(Temp(n))], Var(Temp(n)), r.next)
    case Cond(_, _, _) => Hoisted([], e, n)
    case And(l, r) =>
      var a := Hoist(l, n);
      var b := Hoist(r, a.next);
      Hoisted(a.pre + b.pre, And(a.e, b.e), b.next)
    case Same(l, r) =>
      var a := Hoist(l, n);
      var b := Hoist(r, a.next);
      Hoisted(a.pre + b.pre, Same(a.e, b.e), b.next)
  }

  function HoistArgs(args: seq<Expr>, n: nat): (h: HoistedArgs)
    ensures h.next >= n
    decreases args, 0
  {
    if args == [] then HoistedArgs([], [], n)
    else
      var a := Hoist(args[0], n);
      var b := HoistArgs(args[1..], a.next);
      HoistedArgs(a.pre + b.pre, [a.e] + b.es, b.next)
  }

  /** Wrap what a branch was lowered to into a block, unless it is still one statement. */
  function Branch(ss: seq<Stmt>): Stmt {
    if |ss| == 1 then ss[0] else Block(ss)
  }

  function LowerAssign(x: Name, e: Expr, n: nat): (h: Lowered)
    ensures h.next >= n
    decreases e, 1
  {
    var r := Hoist(e, n);
    Lowered(r.pre + [Assign(x, r.e)], r.next)
  }

  /** A declaration whose initialiser is a conditional with macros is split into an if/else. */
  function LowerLet(x: Name, e: Expr, n: nat): (h: Lowered)
    ensures h.next >= n
    decreases e, 2
  {
    if e.Cond? && HasMacro(e) then
      var t := Hoist(e.test, n);
      var a := LowerAssign(x, e.thn, t.next);
      var b := LowerAssign(x, e.els, a.next);
      Lowered([Declare(x)] + t.pre + [If(t.e, Block(a.ss), Block(b.ss))], b.next)
    else
      var r := Hoist(e, n);
      Lowered(r.pre + [Let(x, r.e)], r.next)
  }

  function Lower(s: Stmt, n: nat): Lowered
    decreases s
  {
    match s
    case Let(x, e) => LowerLet(x, e, n)
    case Assign(x, e) => LowerAssign(x, e, n)
    case Do(e) =>
      var r := Hoist(e, n);
      Lowered(r.pre + if e.Q? then [] else [Do(r.e)], r.next)
    case Ret(e) => LowerRet(e, n)
    case If(test, thn, els) =>
      var t := Hoist(test, n);
      var a := Lower(thn, t.next);
      var b := Lower(els, a.next);
      Lowered(t.pre + [If(t.e, Branch(a.ss), Branch(b.ss))], b.next)
    case While(test, body) =>
      var b := Lower(body, n);
      Lowered([While(test, Branch(b.ss))], b.next)
    case Block(body) =>
      var b := LowerAll(body, n);
      Lowered([Block(b.ss)], b.next)
    case Check(_) => Lowered([s], n)
    case Declare(_) => Lowered([s], n)
  }

  /** return Q(e) becomes return e. */
  function LowerRet(e: Expr, n: nat): Lowered {
    if e.Q? then LowerRet(e.arg, n)
    else
      var r := Hoist(e, n);
      Lowered(r.pre + [Ret(r.e)], r.next)
  }

  function LowerAll(ss: seq<Stmt>, n: nat): Lowered
    decreases ss
  {
    if ss == [] then Lowered([], n)
    else
      var a := Lower(ss[0], n);
      var b := LowerAll(ss[1..], a.next);
      Lowered(a.ss + b.ss, b.next)
  }

  // --- Which bodies are accepted, and which are safe ---

  /** The positions in which the transform does not reject a macro. */
  predicate AcceptedExpr(e: Expr)
    decreases e, 0
  {
    match e
    case Lit(_) => true
    case Var(_) => true
    case Call(_, args) => AcceptedArgs(args)
    case Q(arg) => AcceptedLet(arg)
    case Cond(_, _, _) => !HasMacro(e)
    case And(l, r) => AcceptedExpr(l) && AcceptedExpr(r)
    case Same(l, r) => AcceptedExpr(l) && AcceptedExpr(r)
  }

  predicate AcceptedArgs(es: seq<Expr>)
    decreases es, 0
  {
    es == [] || (AcceptedExpr(es[0]) && AcceptedArgs(es[1..]))
  }

  /** Only a comparison at the top of the test is looked at, and only its right operand. */
  predicate AcceptedTest(e: Expr)
    decreases e, 1
  {
    AcceptedExpr(e) && !(e.Same? && HasMacro(e.r))
  }

  predicate AcceptedLet(e: Expr)
    decreases e, 2
  {
    if e.Cond? && HasMacro(e) then AcceptedTest(e.test) && AcceptedExpr(e.thn) && AcceptedExpr(e.els)
    else AcceptedExpr(e)
  }

  predicate Accepted(s: Stmt)
    decreases s
  {
    match s
    case Let(_, e) => AcceptedLet(e)
    case Assign(_, e) => AcceptedExpr(e)
    case Do(e) => AcceptedExpr(e)
    case Ret(e) => AcceptedRet(e)
    case If(test, thn, els) => AcceptedTest(test) && Accepted(thn) && Accepted(els)
    case While(test, body) => !HasMacro(test) && Accepted(body)
    case Block(body) => AcceptedAll(body)
    case Check(_) => false
    case Declare(_) => false
  }

  predicate AcceptedAll(ss: seq<Stmt>)
    decreases ss
  {
    ss == [] || (Accepted(ss[0]) && AcceptedAll(ss[1..]))
  }

  predicate AcceptedRet(e: Expr) {
    if e.Q? then AcceptedRet(e.arg) else AcceptedExpr(e)
  }

  /** Expressions without macros are accepted and left alone. */
  lemma {:induction false} WithoutMacros(e: Expr, n: nat)
    requires !HasMacro(e)
    ensures AcceptedExpr(e) && Hoist(e, n) == Hoisted([], e, n)
    decreases e
  {
    match e
    case Lit(_) =>
    case Var(_) =>
    case Call(_, args) => ArgsWithoutMacros(args, n);
    case Cond(_, _, _) =>
    case And(l, r) => WithoutMacros(l, n); WithoutMacros(r, n);
    case Same(l, r) => WithoutMacros(l, n); WithoutMacros(r, n);
  }

  lemma {:induction false} ArgsWithoutMacros(es: seq<Expr>, n: nat)
    requires !HasMacros(es)
    ensures AcceptedArgs(es) && HoistArgs(es, n) == HoistedArgs([], es, n)
    decreases es
  {
    if es != [] {
      WithoutMacros(es[0], n);
      ArgsWithoutMacros(es[1..], n);
      assert es == [es[0]] + es[1..];
    }
  }
}
