/** Where the macros of a body stand, as paths from the statement down to the macro, and which of
    these places the transform refuses. Which bodies are accepted is then a statement about paths:
    nothing here looks at what the transform does with an expression on the way. */
module MacrosPositions {
  import opened Macros

  // --- Paths ---

  /** One step down: into a statement or an expression of a statement, or into an operand. */
  datatype Step =
    | Item(i: nat) | OfThen | OfElse | OfLoop
    | Initialiser | Assigned | Evaluated | ReturnedValue | IfTest | LoopTest
    | Argument(i: nat) | InMacro
    | CondTest | CondThen | CondElse
    | AndLeft | AndRight | SameLeft | SameRight

  /** A macro stands in e at the end of the path. */
  predicate Occurs(e: Expr, path: seq<Step>)
    decreases path
  {
    if path == [] then e.Q?
    else
      var rest := path[1..];
      match path[0]
      case Argument(i) => e.Call? && i < |e.args| && Occurs(e.args[i], rest)
      case InMacro => e.Q? && Occurs(e.arg, rest)
      case CondTest => e.Cond? && Occurs(e.test, rest)
      case CondThen => e.Cond? && Occurs(e.thn, rest)
      case CondElse => e.Cond? && Occurs(e.els, rest)
      case AndLeft => e.And? && Occurs(e.l, rest)
      case AndRight => e.And? && Occurs(e.r, rest)
      case SameLeft => e.Same? && Occurs(e.l, rest)
      case SameRight => e.Same? && Occurs(e.r, rest)
      case _ => false
  }

  predicate OccursIn(s: Stmt, path: seq<Step>)
    decreases path
  {
    path != [] &&
    var rest := path[1..];
    match path[0]
    case Item(i) => s.Block? && i < |s.stmts| && OccursIn(s.stmts[i], rest)
    case OfThen => s.If? && OccursIn(s.thn, rest)
    case OfElse => s.If? && OccursIn(s.els, rest)
    case OfLoop => s.While? && OccursIn(s.body, rest)
    case Initialiser => s.Let? && Occurs(s.e, rest)
    case Assigned => s.Assign? && Occurs(s.e, rest)
    case Evaluated => s.Do? && Occurs(s.e, rest)
    case ReturnedValue => s.Ret? && Occurs(s.e, rest)
    case IfTest => s.If? && Occurs(s.test, rest)
    case LoopTest => s.While? && Occurs(s.test, rest)
    case _ => false
  }

  predicate OccursInAll(ss: seq<Stmt>, path: seq<Step>) {
    path != [] && path[0].Item? && path[0].i < |ss| && OccursIn(ss[path[0].i], path[1..])
  }

  // --- Places ---

  /** What an expression is to the construct right above it. */
  datatype Place = Plain | Test | OfDeclaration | OfReturn

  /** The place that a step from this place leads to. The operand of a macro is declared as a
      temporary, unless the macro is dropped because its value is returned. */
  function After(at: Place, step: Step): Place {
    match step
    case IfTest => Test
    case CondTest => Test
    case Initialiser => OfDeclaration
    case ReturnedValue => OfReturn
    case InMacro => if at == OfReturn then OfReturn else OfDeclaration
    case _ => Plain
  }

  /** No macro may stand in a loop test, in the right operand of a comparison that is a test, or in
      a conditional that is not the initialiser of a declaration. */
  predicate Forbids(at: Place, step: Step) {
    step.LoopTest? ||
    (step.SameRight? && at == Test) ||
    ((step.CondTest? || step.CondThen? || step.CondElse?) && at != OfDeclaration)
  }

  predicate Forbidden(at: Place, path: seq<Step>)
    decreases path
  {
    path != [] && (Forbids(at, path[0]) || Forbidden(After(at, path[0]), path[1..]))
  }

  /** What the lowering calls the same four places. */
  predicate AcceptedAt(at: Place, e: Expr) {
    match at
    case Plain => AcceptedExpr(e)
    case Test => AcceptedTest(e)
    case OfDeclaration => AcceptedLet(e)
    case OfReturn => AcceptedRet(e)
  }

  // --- A macro is there exactly when a path leads to it ---

  lemma {:induction false} SomeHasMacro(es: seq<Expr>, i: nat)
    requires i < |es| && HasMacro(es[i])
    ensures HasMacros(es)
    decreases es
  {
    if i > 0 { SomeHasMacro(es[1..], i - 1); }
  }

  lemma {:induction false} WhichHasMacro(es: seq<Expr>) returns (i: nat)
    requires HasMacros(es)
    ensures i < |es| && HasMacro(es[i])
    decreases es
  {
    if HasMacro(es[0]) { i := 0; }
    else {
      i := WhichHasMacro(es[1..]);
      i := i + 1;
    }
  }

  lemma {:induction false} OccurrenceIsMacro(e: Expr, path: seq<Step>)
    requires Occurs(e, path)
    ensures HasMacro(e)
    decreases path
  {
    if path != [] {
      var rest := path[1..];
      match path[0]
      case Argument(i) => OccurrenceIsMacro(e.args[i], rest); SomeHasMacro(e.args, i);
      case InMacro =>
      case CondTest => OccurrenceIsMacro(e.test, rest);
      case CondThen => OccurrenceIsMacro(e.thn, rest);
      case CondElse => OccurrenceIsMacro(e.els, rest);
      case AndLeft => OccurrenceIsMacro(e.l, rest);
      case AndRight => OccurrenceIsMacro(e.r, rest);
      case SameLeft => OccurrenceIsMacro(e.l, rest);
      case SameRight => OccurrenceIsMacro(e.r, rest);
    }
  }

  lemma {:induction false} MacroOccurs(e: Expr) returns (path: seq<Step>)
    requires HasMacro(e)
    ensures Occurs(e, path)
    decreases e
  {
    match e
    case Call(_, args) =>
      var i := WhichHasMacro(args);
      path := MacroOccurs(args[i]);
      path := [Argument(i)] + path;
    case Q(_) => path := [];
    case Cond(test, thn, els) =>
      if HasMacro(test) { path := MacroOccurs(test); path := [CondTest] + path; }
      else if HasMacro(thn) { path := MacroOccurs(thn); path := [CondThen] + path; }
      else { path := MacroOccurs(els); path := [CondElse] + path; }
    case And(l, r) =>
      if HasMacro(l) { path := MacroOccurs(l); path := [AndLeft] + path; }
      else { path := MacroOccurs(r); path := [AndRight] + path; }
    case Same(l, r) =>
      if HasMacro(l) { path := MacroOccurs(l); path := [SameLeft] + path; }
      else { path := MacroOccurs(r); path := [SameRight] + path; }
  }

  ghost predicate Contains(e: Expr) {
    exists path :: Occurs(e, path)
  }

  lemma {:induction false} HasMacroExactly(e: Expr)
    ensures HasMacro(e) <==> Contains(e)
  {
    if HasMacro(e) {
      var path := MacroOccurs(e);
      assert Contains(e);
    } else if path :| Occurs(e, path) {
      OccurrenceIsMacro(e, path);
    }
  }

  // --- Sequences are accepted element by element ---

  lemma {:induction false} ArgsAccepted(es: seq<Expr>)
    ensures AcceptedArgs(es) <==> forall i :: 0 <= i < |es| ==> AcceptedExpr(es[i])
    decreases es
  {
    if es != [] {
      ArgsAccepted(es[1..]);
      assert forall i :: 0 < i < |es| ==> es[i] == es[1..][i - 1];
    }
  }

  lemma {:induction false} StmtsAccepted(ss: seq<Stmt>)
    ensures AcceptedAll(ss) <==> forall i :: 0 <= i < |ss| ==> Accepted(ss[i])
    decreases ss
  {
    if ss != [] {
      StmtsAccepted(ss[1..]);
      assert forall i :: 0 < i < |ss| ==> ss[i] == ss[1..][i - 1];
    }
  }

  predicate PartsAccepted(e: Expr)
    requires e.Cond?
  {
    AcceptedAt(Test, e.test) && AcceptedAt(Plain, e.thn) && AcceptedAt(Plain, e.els)
  }

  /** What is accepted in a place, by the operands alone. */
  lemma {:induction false} AcceptedBelow(at: Place, e: Expr)
    ensures e.Lit? || e.Var? ==> AcceptedAt(at, e)
    ensures e.Call? ==> (AcceptedAt(at, e) <==> forall i :: 0 <= i < |e.args| ==> AcceptedAt(Plain, e.args[i]))
    ensures e.Q? ==> (AcceptedAt(at, e) <==> AcceptedAt(After(at, InMacro), e.arg))
    ensures e.And? ==> (AcceptedAt(at, e) <==> AcceptedAt(Plain, e.l) && AcceptedAt(Plain, e.r))
    ensures e.Same? ==> (AcceptedAt(at, e) <==>
                           AcceptedAt(Plain, e.l) && AcceptedAt(Plain, e.r) && !(at == Test && HasMacro(e.r)))
    ensures e.Cond? ==> (AcceptedAt(at, e) <==> !HasMacro(e) || (at == OfDeclaration && PartsAccepted(e)))
  {
    if e.Call? { ArgsAccepted(e.args); }
    match at
    case Plain =>
    case Test => assert AcceptedTest(e) <==> AcceptedExpr(e) && !(e.Same? && HasMacro(e.r));
    case OfDeclaration =>
      if e.Cond? { assert AcceptedExpr(e) <==> !HasMacro(e); }
      else { assert AcceptedLet(e) <==> AcceptedExpr(e); }
    case OfReturn => if !e.Q? { assert AcceptedRet(e) <==> AcceptedExpr(e); }
  }

  // --- In what is accepted no occurrence is forbidden ---

  lemma {:induction false} NoneForbidden(e: Expr, at: Place, path: seq<Step>)
    requires AcceptedAt(at, e) && Occurs(e, path)
    ensures !Forbidden(at, path)
    decreases path
  {
    hide AcceptedAt;
    if path != [] {
      var rest := path[1..];
      OccurrenceIsMacro(e, path);
      AcceptedBelow(at, e);
      match path[0]
      case Argument(i) => NoneForbidden(e.args[i], Plain, rest);
      case InMacro => NoneForbidden(e.arg, After(at, InMacro), rest);
      case CondTest => NoneForbidden(e.test, Test, rest);
      case CondThen => NoneForbidden(e.thn, Plain, rest);
      case CondElse => NoneForbidden(e.els, Plain, rest);
      case AndLeft => NoneForbidden(e.l, Plain, rest);
      case AndRight => NoneForbidden(e.r, Plain, rest);
      case SameLeft => NoneForbidden(e.l, Plain, rest);
      case SameRight => OccurrenceIsMacro(e.r, rest); NoneForbidden(e.r, Plain, rest);
    }
  }

  lemma {:induction false} NoneForbiddenIn(s: Stmt, path: seq<Step>)
    requires Accepted(s) && OccursIn(s, path)
    ensures !Forbidden(Plain, path)
    decreases path
  {
    hide Occurs, HasMacro;
    var rest := path[1..];
    match path[0]
    case Item(i) => StmtsAccepted(s.stmts); NoneForbiddenIn(s.stmts[i], rest);
    case OfThen => NoneForbiddenIn(s.thn, rest);
    case OfElse => NoneForbiddenIn(s.els, rest);
    case OfLoop => NoneForbiddenIn(s.body, rest);
    case Initialiser => NoneForbidden(s.e, OfDeclaration, rest);
    case Assigned => NoneForbidden(s.e, Plain, rest);
    case Evaluated => NoneForbidden(s.e, Plain, rest);
    case ReturnedValue => NoneForbidden(s.e, OfReturn, rest);
    case IfTest => NoneForbidden(s.test, Test, rest);
    case LoopTest => OccurrenceIsMacro(s.test, rest);
  }

  // --- In what is not accepted some occurrence is forbidden ---

  lemma {:induction false} SomeForbidden(e: Expr, at: Place) returns (path: seq<Step>)
    requires !AcceptedAt(at, e)
    ensures Occurs(e, path) && Forbidden(at, path)
    decreases e
  {
    hide AcceptedAt;
    AcceptedBelow(at, e);
    match e
    case Call(_, args) =>
      var i :| 0 <= i < |args| && !AcceptedAt(Plain, args[i]);
      path := SomeForbidden(args[i], Plain);
      path := [Argument(i)] + path;
    case Q(arg) =>
      path := SomeForbidden(arg, After(at, InMacro));
      path := [InMacro] + path;
    case Cond(test, thn, els) => path := ForbiddenInCond(e, at);
    case And(l, r) =>
      if !AcceptedAt(Plain, l) { path := SomeForbidden(l, Plain); path := [AndLeft] + path; }
      else { path := SomeForbidden(r, Plain); path := [AndRight] + path; }
    case Same(l, r) =>
      if !AcceptedAt(Plain, l) { path := SomeForbidden(l, Plain); path := [SameLeft] + path; }
      else if !AcceptedAt(Plain, r) { path := SomeForbidden(r, Plain); path := [SameRight] + path; }
      else { path := MacroOccurs(r); path := [SameRight] + path; }
  }

  /** Only the initialiser of a declaration may be a conditional with macros, and then its parts
      must be accepted; anywhere else every macro in it is forbidden. */
  lemma {:induction false} ForbiddenInCond(e: Expr, at: Place) returns (path: seq<Step>)
    requires e.Cond? && !AcceptedAt(at, e)
    ensures Occurs(e, path) && Forbidden(at, path)
    decreases e, 0
  {
    hide AcceptedAt;
    AcceptedBelow(at, e);
    if at != OfDeclaration {
      path := MacroOccurs(e);
    } else if !AcceptedAt(Test, e.test) {
      path := SomeForbidden(e.test, Test);
      path := [CondTest] + path;
    } else if !AcceptedAt(Plain, e.thn) {
      path := SomeForbidden(e.thn, Plain);
      path := [CondThen] + path;
    } else {
      path := SomeForbidden(e.els, Plain);
      path := [CondElse] + path;
    }
  }

  /** The statement is one of a body as it is written, before anything is lowered. */
  predicate Written(s: Stmt)
    decreases s
  {
    match s
    case If(_, thn, els) => Written(thn) && Written(els)
    case While(_, body) => Written(body)
    case Block(stmts) => forall i :: 0 <= i < |stmts| ==> Written(stmts[i])
    case _ => !s.Check? && !s.Declare?
  }

  predicate WrittenAll(ss: seq<Stmt>) {
    forall i :: 0 <= i < |ss| ==> Written(ss[i])
  }

  lemma {:induction false} SomeForbiddenIn(s: Stmt) returns (path: seq<Step>)
    requires Written(s) && !Accepted(s)
    ensures OccursIn(s, path) && Forbidden(Plain, path)
    decreases s
  {
    match s
    case Let(_, e) => path := SomeForbidden(e, OfDeclaration); path := [Initialiser] + path;
    case Assign(_, e) => path := SomeForbidden(e, Plain); path := [Assigned] + path;
    case Do(e) => path := SomeForbidden(e, Plain); path := [Evaluated] + path;
    case Ret(e) => path := SomeForbidden(e, OfReturn); path := [ReturnedValue] + path;
    case If(test, thn, els) =>
      if !AcceptedTest(test) { path := SomeForbidden(test, Test); path := [IfTest] + path; }
      else if !Accepted(thn) { path := SomeForbiddenIn(thn); path := [OfThen] + path; }
      else { path := SomeForbiddenIn(els); path := [OfElse] + path; }
    case While(test, body) =>
      if HasMacro(test) { path := MacroOccurs(test); path := [LoopTest] + path; }
      else { path := SomeForbiddenIn(body); path := [OfLoop] + path; }
    case Block(stmts) =>
      StmtsAccepted(stmts);
      var i :| 0 <= i < |stmts| && !Accepted(stmts[i]);
      path := SomeForbiddenIn(stmts[i]);
      path := [Item(i)] + path;
  }

  // --- Which bodies are accepted ---

  ghost predicate NoForbiddenMacro(body: seq<Stmt>) {
    forall path :: OccursInAll(body, path) ==> !Forbidden(Plain, path)
  }

  /** A written body is accepted exactly when no macro in it stands in a forbidden place. */
  lemma {:induction false} AcceptedExactly(body: seq<Stmt>)
    requires WrittenAll(body)
    ensures AcceptedAll(body) <==> NoForbiddenMacro(body)
  {
    StmtsAccepted(body);
    if AcceptedAll(body) {
      forall path: seq<Step> | OccursInAll(body, path) ensures !Forbidden(Plain, path) {
        NoneForbiddenIn(body[path[0].i], path[1..]);
      }
    } else {
      var i :| 0 <= i < |body| && !Accepted(body[i]);
      var path := SomeForbiddenIn(body[i]);
      path := [Item(i)] + path;
      assert OccursInAll(body, path) && Forbidden(Plain, path);
    }
  }

  // --- Bodies without macros ---

  ghost predicate MacroFree(body: seq<Stmt>) {
    forall path :: !OccursInAll(body, path)
  }

  predicate Stays(s: Stmt, n: nat) {
    Accepted(s) && Lower(s, n) == Lowered([s], n)
  }

  predicate AllStay(ss: seq<Stmt>, n: nat) {
    AcceptedAll(ss) && LowerAll(ss, n) == Lowered(ss, n)
  }

  lemma {:induction false} WhatChangesHasMacro(s: Stmt, n: nat) returns (path: seq<Step>)
    requires Written(s) && !Stays(s, n)
    ensures OccursIn(s, path)
    decreases s
  {
    match s
    case Let(_, e) =>
      if !HasMacro(e) { WithoutMacros(e, n); }
      path := MacroOccurs(e);
      path := [Initialiser] + path;
    case Assign(_, e) =>
      if !HasMacro(e) { WithoutMacros(e, n); }
      path := MacroOccurs(e);
      path := [Assigned] + path;
    case Do(e) =>
      if !HasMacro(e) { WithoutMacros(e, n); }
      path := MacroOccurs(e);
      path := [Evaluated] + path;
    case Ret(e) =>
      if !HasMacro(e) { WithoutMacros(e, n); }
      path := MacroOccurs(e);
      path := [ReturnedValue] + path;
    case If(test, thn, els) =>
      if HasMacro(test) { path := MacroOccurs(test); path := [IfTest] + path; }
      else {
        WithoutMacros(test, n);
        if !Stays(thn, n) { path := WhatChangesHasMacro(thn, n); path := [OfThen] + path; }
        else { path := WhatChangesHasMacro(els, n); path := [OfElse] + path; }
      }
    case While(test, body) =>
      if HasMacro(test) { path := MacroOccurs(test); path := [LoopTest] + path; }
      else { path := WhatChangesHasMacro(body, n); path := [OfLoop] + path; }
    case Block(stmts) => path := BodyThatChangesHasMacro(stmts, n);
  }

  lemma {:induction false} BodyThatChangesHasMacro(ss: seq<Stmt>, n: nat) returns (path: seq<Step>)
    requires WrittenAll(ss) && !AllStay(ss, n)
    ensures OccursInAll(ss, path)
    decreases ss
  {
    assert ss != [] && [ss[0]] + ss[1..] == ss;
    if !Stays(ss[0], n) {
      path := WhatChangesHasMacro(ss[0], n);
      path := [Item(0)] + path;
    } else {
      path := BodyThatChangesHasMacro(ss[1..], n);
      path := [Item(path[0].i + 1)] + path[1..];
    }
  }

  /** A body without macros is accepted and lowered to itself. */
  lemma {:induction false} MacroFreeStays(body: seq<Stmt>, n: nat)
    requires WrittenAll(body) && MacroFree(body)
    ensures AcceptedAll(body) && LowerAll(body, n) == Lowered(body, n)
  {
    if !AllStay(body, n) {
      var path := BodyThatChangesHasMacro(body, n);
      assert false;
    }
  }
}
