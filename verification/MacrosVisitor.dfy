/** The transform as the source runs it: a visitor that puts statements before the one it is in,
    rewrites expressions where they stand, and decides from the way up to the enclosing statement
    whether a macro is allowed. */
module MacrosVisitor {
  import opened Wrappers
  import opened Macros
  import P = MacrosPositions

  // --- Positions ---

  /** The place of a node in its parent. A path leads from a node up to its statement. */
  datatype Slot =
    | Arg | AndLeft | AndRight | CompareLeft | CompareRight | CondPart
    | DeclInit | AssignRhs | ExprStmt | RetArg | IfTest | LoopTest

  predicate OfStatement(slot: Slot) {
    slot.DeclInit? || slot.AssignRhs? || slot.ExprStmt? || slot.RetArg? || slot.IfTest? || slot.LoopTest?
  }

  predicate InStatement(path: seq<Slot>) {
    |path| > 0 && OfStatement(path[|path| - 1]) && forall i :: 0 <= i < |path| - 1 ==> !OfStatement(path[i])
  }

  /** In the test of a while or for statement, or in the right operand of the comparison that is an if test. */
  predicate NotTransformable(path: seq<Slot>)
    requires InStatement(path)
  {
    path[|path| - 1] == LoopTest ||
    (|path| > 1 && path[|path| - 1] == IfTest && path[|path| - 2] == CompareRight)
  }

  /** Where the innermost conditional around the node stands. */
  function Above(path: seq<Slot>): Option<Slot> {
    if path == [] then None
    else if path[0] == CondPart && |path| > 1 then Some(path[1])
    else Above(path[1..])
  }

  /** What becomes of a macro at this position. */
  datatype Mode = Open | Splits | Closed

  function ModeOf(path: seq<Slot>): Mode
    requires InStatement(path)
  {
    if NotTransformable(path) then Closed
    else match Above(path)
      case None => Open
      case Some(slot) => if slot == DeclInit then Splits else Closed
  }

  method WithinNotTransformablePosition(path: seq<Slot>) returns (r: bool)
    requires InStatement(path)
    ensures r <==> NotTransformable(path)
  {
    var i := 0;
    while i < |path|
      invariant 0 <= i <= |path|
      invariant i == |path| ==> !NotTransformable(path)
    {
      if path[i] == LoopTest { return true; }
      if path[i] == IfTest && i > 0 && path[i - 1] == CompareRight { return true; }
      i := i + 1;
    }
    return false;
  }

  method GetEnclosingConditional(path: seq<Slot>) returns (holder: Option<Slot>)
    requires InStatement(path)
    ensures holder == Above(path)
  {
    var i := 0;
    while !OfStatement(path[i])
      invariant 0 <= i < |path|
      invariant Above(path) == Above(path[i..])
      decreases |path| - i
    {
      assert path[i..][1..] == path[i + 1..];
      if path[i] == CondPart { return Some(path[i + 1]); }
      i := i + 1;
    }
    assert path[i..] == [path[i]] && path[i..][1..] == [];
    return None;
  }

  /** One step down from a node that is not in a conditional. */
  lemma ModeBelow(slot: Slot, path: seq<Slot>)
    requires InStatement(path) && !OfStatement(slot)
    ensures InStatement([slot] + path)
    ensures slot != CondPart && !(slot == CompareRight && path[0] == IfTest)
      ==> ModeOf([slot] + path) == ModeOf(path)
    ensures slot == CompareRight && path[0] == IfTest ==> ModeOf([slot] + path) == Closed
    ensures slot == CondPart && !NotTransformable(path)
      ==> ModeOf([slot] + path) == if path[0] == DeclInit then Splits else Closed
    ensures NotTransformable(path) ==> ModeOf([slot] + path) == Closed
  {
    assert ([slot] + path)[1..] == path;
    assert ([slot] + path)[1] == path[0];
    var p := [slot] + path;
    assert p[|p| - 1] == path[|path| - 1];
    if |path| > 1 { assert p[|p| - 2] == path[|path| - 2]; }
  }

  // --- The visitor ---

  /** Go on, start again on a declaration that was split, or reject the file. */
  datatype Verdict = Fine | Split | Reject

  /** The node is the whole expression of its statement. */
  predicate Whole(path: seq<Slot>, slot: Slot) {
    |path| == 1 && path[0] == slot
  }

  predicate Allowed(e: Expr, path: seq<Slot>) {
    if Whole(path, RetArg) then AcceptedRet(e)
    else if Whole(path, IfTest) then AcceptedTest(e)
    else if Whole(path, DeclInit) then AcceptedLet(e)
    else AcceptedExpr(e)
  }

  /** What a visit of an expression may say, by its position. */
  predicate Judged(v: Verdict, e: Expr, path: seq<Slot>)
    requires InStatement(path)
  {
    match ModeOf(path)
    case Open =>
      if Whole(path, DeclInit) && e.Cond? && HasMacro(e) then v.Split? || (v.Reject? && !AcceptedLet(e))
      else v == if Allowed(e, path) then Fine else Reject
    case Closed => v == if HasMacro(e) then Reject else Fine
    case Splits => if HasMacro(e) then v.Split? || (v.Reject? && !AcceptedExpr(e)) else v.Fine?
  }

  predicate JudgedArgs(v: Verdict, es: seq<Expr>, path: seq<Slot>)
    requires InStatement(path)
  {
    match ModeOf(path)
    case Open => v == if AcceptedArgs(es) then Fine else Reject
    case Closed => v == if HasMacros(es) then Reject else Fine
    case Splits => if HasMacros(es) then v.Split? || (v.Reject? && !AcceptedArgs(es)) else v.Fine?
  }

  /** What a visit of an expression leaves when all is fine. */
  function Left(e: Expr, path: seq<Slot>, n: nat): Hoisted {
    if Whole(path, RetArg) then HoistRet(e, n) else Hoist(e, n)
  }

  /** A returned expression loses its outer macros. */
  function HoistRet(e: Expr, n: nat): Hoisted {
    if e.Q? then HoistRet(e.arg, n) else Hoist(e, n)
  }

  lemma {:induction false} LowerRetHoists(e: Expr, n: nat)
    ensures var h := HoistRet(e, n); LowerRet(e, n) == Lowered(h.pre + [Ret(h.e)], h.next)
  {
    if e.Q? { LowerRetHoists(e.arg, n); }
  }

  lemma AllowedIs(e: Expr, path: seq<Slot>)
    requires !e.Q?
    ensures Allowed(e, path) ==
      if Whole(path, IfTest) then AcceptedTest(e)
      else if Whole(path, DeclInit) && e.Cond? && HasMacro(e) then AcceptedLet(e)
      else AcceptedExpr(e)
  {
    hide AcceptedExpr, HasMacro;
  }

  lemma JudgeCall(v: Verdict, e: Expr, path: seq<Slot>)
    requires InStatement(path) && e.Call? && InStatement([Arg] + path) && JudgedArgs(v, e.args, [Arg] + path)
    ensures Judged(v, e, path)
  {
    AllowedIs(e, path);
    ModeBelow(Arg, path);
    hide ModeOf, InStatement;
  }

  lemma JudgeArgs(a: Verdict, b: Verdict, es: seq<Expr>, path: seq<Slot>)
    requires es != [] && InStatement(path) && |path| > 1
    requires Judged(a, es[0], path) && (a.Fine? ==> JudgedArgs(b, es[1..], path))
    ensures JudgedArgs(if a.Fine? then b else a, es, path)
    ensures a.Split? || (a.Fine? && b.Split?) ==> ModeOf(path) == Splits
  {
    hide ModeOf, InStatement;
  }

  lemma JudgeTwo(a: Verdict, b: Verdict, e: Expr, l: Slot, r: Slot, path: seq<Slot>)
    requires InStatement(path) && InStatement([l] + path) && InStatement([r] + path)
    requires (e.And? && l == AndLeft && r == AndRight) || (e.Same? && l == CompareLeft && r == CompareRight)
    requires Judged(a, e.l, [l] + path) && (a.Fine? ==> Judged(b, e.r, [r] + path))
    ensures Judged(if a.Fine? then b else a, e, path)
    ensures a.Fine? && b.Split? ==> !HasMacro(e.l)
  {
    AllowedIs(e, path);
    ModeBelow(l, path);
    ModeBelow(r, path);
    assert OfStatement(path[0]) ==> |path| == 1;
    if path[0] == IfTest { assert path[1..] == [] && Above([]) == None && ModeOf(path) == Open; }
    hide ModeOf, InStatement, NotTransformable;
    assert AcceptedExpr(e) == (AcceptedExpr(e.l) && AcceptedExpr(e.r));
    assert HasMacro(e) == (HasMacro(e.l) || HasMacro(e.r));
    assert Allowed(e.l, [l] + path) == AcceptedExpr(e.l);
    assert Allowed(e.r, [r] + path) == AcceptedExpr(e.r);
    if !HasMacro(e.l) { WithoutMacros(e.l, 0); }
    if !HasMacro(e.r) { WithoutMacros(e.r, 0); }
  }

  lemma JudgeThree(a: Verdict, b: Verdict, c: Verdict, e: Expr, path: seq<Slot>)
    requires InStatement(path) && e.Cond? && InStatement([CondPart] + path)
    requires Judged(a, e.test, [CondPart] + path)
    requires a.Fine? ==> Judged(b, e.thn, [CondPart] + path)
    requires a.Fine? && b.Fine? ==> Judged(c, e.els, [CondPart] + path)
    ensures Judged(if !a.Fine? then a else if !b.Fine? then b else c, e, path)
  {
    AllowedIs(e, path);
    ModeBelow(CondPart, path);
    ConditionalCloses(path);
    hide ModeOf, InStatement, NotTransformable;
  }

  lemma FinePart(e: Expr, path: seq<Slot>)
    requires InStatement(path) && InStatement([CondPart] + path) && Judged(Fine, e, [CondPart] + path)
    ensures !HasMacro(e)
  {
    ConditionalCloses(path);
  }

  lemma ConditionalCloses(path: seq<Slot>)
    requires InStatement(path)
    ensures InStatement([CondPart] + path)
    ensures ModeOf([CondPart] + path) ==
      if ModeOf(path) == Open && Whole(path, DeclInit) then Splits else Closed
  {
    ModeBelow(CondPart, path);
    if path[0] == DeclInit {
      assert path == [DeclInit] && path[1..] == [];
      assert Above([]) == None && Above(path) == Above(path[1..]);
    }
  }

  class Visitor {
    /** The statements put out so far in the block being visited. */
    var out: seq<Stmt>
    /** The next unused temporary. */
    var uid: nat

    constructor ()
      ensures out == [] && uid == 0
    {
      out, uid := [], 0;
    }

    method InsertBefore(ss: seq<Stmt>)
      modifies this`out
      ensures out == old(out) + ss
    {
      out := out + ss;
    }

    method VisitExpression(e: Expr, path: seq<Slot>) returns (v: Verdict, left: Expr)
      requires InStatement(path)
      modifies this
      ensures Judged(v, e, path)
      ensures v.Split? ==> out == old(out) && uid == old(uid)
      ensures v.Fine? ==>
                var h := Left(e, path, old(uid));
                out == old(out) + h.pre && uid == h.next && left == h.e
      decreases e, 1
    {
      if e.Q? {
        v, left := VisitMacro(e, path);
      } else if e.Cond? {
        v, left := VisitConditional(e, path);
      } else if e.Call? {
        ModeBelow(Arg, path);
        var es;
        v, es := VisitArguments(e.args, [Arg] + path);
        JudgeCall(v, e, path);
        left := Call(e.f, es);
      } else if e.And? {
        v, left := VisitAnd(e, path);
      } else if e.Same? {
        v, left := VisitSame(e, path);
      } else {
        v, left := Fine, e;
        AllowedIs(e, path);
      }
    }

    /** The macro itself: rejected, split around, shortened in a return, or put before. */
    method VisitMacro(e: Expr, path: seq<Slot>) returns (v: Verdict, left: Expr)
      requires InStatement(path) && e.Q?
      modifies this
      ensures Judged(v, e, path)
      ensures v.Split? ==> out == old(out) && uid == old(uid)
      ensures v.Fine? ==>
                var h := Left(e, path, old(uid));
                out == old(out) + h.pre && uid == h.next && left == h.e
      decreases e, 0
    {
      left := e;
      assert AcceptedExpr(e) == AcceptedLet(e.arg);
      var closed := WithinNotTransformablePosition(path);
      if closed { return Reject, left; }
      var holder := GetEnclosingConditional(path);
      if holder.Some? {
        return if holder.value == DeclInit then Split else Reject, left;
      }
      if path[0] == RetArg {
        assert path == [RetArg];
        v, left := VisitExpression(e.arg, path);
      } else if e.arg.Var? {
        InsertBefore([Check(e.arg.x)]);
        v, left := Fine, e.arg;
      } else {
        var id := Temp(uid);
        uid := uid + 1;
        var ok := VisitDeclaration(id, e.arg);
        InsertBefore([Check(id)]);
        v, left := if ok then Fine else Reject, Var(id);
      }
    }

    method VisitConditional(e: Expr, path: seq<Slot>) returns (v: Verdict, left: Expr)
      requires InStatement(path) && e.Cond?
      modifies this
      ensures Judged(v, e, path)
      ensures v.Split? ==> out == old(out) && uid == old(uid)
      ensures v.Fine? ==>
                var h := Left(e, path, old(uid));
                out == old(out) + h.pre && uid == h.next && left == h.e
      decreases e, 0
    {
      hide Judged, ModeOf;
      ModeBelow(CondPart, path);
      var test, thn, els;
      left := e;
      v, test := VisitExpression(e.test, [CondPart] + path);
      if !v.Fine? {
        JudgeThree(v, v, v, e, path);
        return;
      }
      FinePart(e.test, path);
      WithoutMacros(e.test, old(uid));
      v, thn := VisitExpression(e.thn, [CondPart] + path);
      if !v.Fine? {
        JudgeThree(Fine, v, v, e, path);
        return;
      }
      FinePart(e.thn, path);
      WithoutMacros(e.thn, old(uid));
      v, els := VisitExpression(e.els, [CondPart] + path);
      JudgeThree(Fine, Fine, v, e, path);
      if !v.Fine? { return; }
      FinePart(e.els, path);
      WithoutMacros(e.els, old(uid));
      left := Cond(test, thn, els);
    }

    method VisitAnd(e: Expr, path: seq<Slot>) returns (v: Verdict, left: Expr)
      requires InStatement(path) && e.And?
      modifies this
      ensures Judged(v, e, path)
      ensures v.Split? ==> out == old(out) && uid == old(uid)
      ensures v.Fine? ==>
                var h := Left(e, path, old(uid));
                out == old(out) + h.pre && uid == h.next && left == h.e
      decreases e, 0
    {
      hide Judged, ModeOf;
      ModeBelow(AndLeft, path);
      ModeBelow(AndRight, path);
      left := e;
      var l, r;
      v, l := VisitExpression(e.l, [AndLeft] + path);
      if !v.Fine? {
        JudgeTwo(v, v, e, AndLeft, AndRight, path);
        return;
      }
      ghost var first := v;
      v, r := VisitExpression(e.r, [AndRight] + path);
      JudgeTwo(first, v, e, AndLeft, AndRight, path);
      if v.Split? { WithoutMacros(e.l, old(uid)); }
      left := And(l, r);
    }

    method VisitSame(e: Expr, path: seq<Slot>) returns (v: Verdict, left: Expr)
      requires InStatement(path) && e.Same?
      modifies this
      ensures Judged(v, e, path)
      ensures v.Split? ==> out == old(out) && uid == old(uid)
      ensures v.Fine? ==>
                var h := Left(e, path, old(uid));
                out == old(out) + h.pre && uid == h.next && left == h.e
      decreases e, 0
    {
      hide Judged, ModeOf;
      ModeBelow(CompareLeft, path);
      ModeBelow(CompareRight, path);
      left := e;
      var l, r;
      v, l := VisitExpression(e.l, [CompareLeft] + path);
      if !v.Fine? {
        JudgeTwo(v, v, e, CompareLeft, CompareRight, path);
        return;
      }
      ghost var first := v;
      v, r := VisitExpression(e.r, [CompareRight] + path);
      JudgeTwo(first, v, e, CompareLeft, CompareRight, path);
      if v.Split? { WithoutMacros(e.l, old(uid)); }
      left := Same(l, r);
    }

    method VisitArguments(es: seq<Expr>, path: seq<Slot>) returns (v: Verdict, left: seq<Expr>)
      requires InStatement(path) && |path| > 1
      modifies this
      ensures JudgedArgs(v, es, path)
      ensures v.Split? ==> out == old(out) && uid == old(uid)
      ensures v.Fine? ==>
                var h := HoistArgs(es, old(uid));
                out == old(out) + h.pre && uid == h.next && left == h.es
      decreases es, 0
    {
      left := [];
      if es == [] { return Fine, []; }
      hide ModeOf;
      var e, rest;
      v, e := VisitExpression(es[0], path);
      ghost var first := v;
      if !v.Fine? {
        JudgeArgs(v, v, es, path);
        return;
      }
      v, rest := VisitArguments(es[1..], path);
      JudgeArgs(first, v, es, path);
      if v.Split? { WithoutMacros(es[0], old(uid)); }
      left := [e] + rest;
    }

    /** A declaration; one whose initialiser is a conditional with macros becomes an if/else. */
    method VisitDeclaration(x: Name, e: Expr) returns (ok: bool)
      modifies this
      ensures ok <==> AcceptedLet(e)
      ensures ok ==> var l := LowerLet(x, e, old(uid)); out == old(out) + l.ss && uid == l.next
      decreases e, 2
    {
      var v, left := VisitExpression(e, [DeclInit]);
      if v.Reject? { return false; }
      if v.Fine? {
        InsertBefore([Let(x, left)]);
        assert LowerLet(x, e, old(uid)).ss == Hoist(e, old(uid)).pre + [Let(x, left)];
        return true;
      }
      ok := VisitSplit(x, e);
    }

    method VisitSplit(x: Name, e: Expr) returns (ok: bool)
      requires e.Cond? && HasMacro(e)
      modifies this
      ensures ok <==> AcceptedLet(e)
      ensures ok ==> var l := LowerLet(x, e, old(uid)); out == old(out) + l.ss && uid == l.next
      decreases e, 1
    {
      hide LowerAssign, Hoist;
      InsertBefore([Declare(x)]);
      var v, test := VisitExpression(e.test, [IfTest]);
      if !v.Fine? { return false; }
      var thn, els;
      ok, thn := VisitAlternative(x, e.thn);
      if !ok { return; }
      ok, els := VisitAlternative(x, e.els);
      if !ok { return; }
      InsertBefore([If(test, thn, els)]);
      assert LowerLet(x, e, old(uid)).ss == [Declare(x)] + Hoist(e.test, old(uid)).pre + [If(test, thn, els)];
    }

    method VisitAlternative(x: Name, e: Expr) returns (ok: bool, block: Stmt)
      modifies this
      ensures ok <==> AcceptedExpr(e)
      ensures ok ==>
                var l := LowerAssign(x, e, old(uid));
                out == old(out) && block == Block(l.ss) && uid == l.next
      decreases e, 3
    {
      var before := out;
      out := [];
      ok := VisitAssignment(x, e);
      block := Block(out);
      out := before;
    }

    method VisitAssignment(x: Name, e: Expr) returns (ok: bool)
      modifies this
      ensures ok <==> AcceptedExpr(e)
      ensures ok ==> var l := LowerAssign(x, e, old(uid)); out == old(out) + l.ss && uid == l.next
      decreases e, 2
    {
      var v, left := VisitExpression(e, [AssignRhs]);
      ok := v.Fine?;
      if ok { InsertBefore([Assign(x, left)]); }
    }

    method VisitStatement(s: Stmt) returns (ok: bool)
      modifies this
      ensures ok <==> Accepted(s)
      ensures ok ==> var l := Lower(s, old(uid)); out == old(out) + l.ss && uid == l.next
      decreases s, 1
    {
      match s
      case Let(x, e) => ok := VisitDeclaration(x, e);
      case Assign(x, e) => ok := VisitAssignment(x, e);
      case Do(e) =>
        var v, left := VisitExpression(e, [ExprStmt]);
        ok := v.Fine?;
        if ok && !e.Q? { InsertBefore([Do(left)]); }
        if ok { assert Lower(s, old(uid)).ss == Hoist(e, old(uid)).pre + if e.Q? then [] else [Do(left)]; }
      case Ret(e) =>
        var v, left := VisitExpression(e, [RetArg]);
        LowerRetHoists(e, old(uid));
        ok := v.Fine?;
        if ok { InsertBefore([Ret(left)]); }
      case If(_, _, _) => ok := VisitIf(s);
      case While(test, body) =>
        var v, left := VisitExpression(test, [LoopTest]);
        if !v.Fine? { return false; }
        WithoutMacros(test, old(uid));
        var b;
        ok, b := VisitBranch(body);
        if ok { InsertBefore([While(left, b)]); }
      case Block(body) =>
        var before := out;
        out := [];
        ok := VisitStatements(body);
        if ok { assert out == LowerAll(body, old(uid)).ss; }
        out := before + [Block(out)];
      case Check(_) => ok := false;
      case Declare(_) => ok := false;
    }

    method VisitIf(s: Stmt) returns (ok: bool)
      requires s.If?
      modifies this
      ensures ok <==> Accepted(s)
      ensures ok ==> var l := Lower(s, old(uid)); out == old(out) + l.ss && uid == l.next
      decreases s, 0
    {
      var v, left := VisitExpression(s.test, [IfTest]);
      if !v.Fine? { return false; }
      var a, b;
      ok, a := VisitBranch(s.thn);
      if !ok { return; }
      ok, b := VisitBranch(s.els);
      if ok {
        InsertBefore([If(left, a, b)]);
        assert Lower(s, old(uid)).ss == Hoist(s.test, old(uid)).pre + [If(left, a, b)];
      }
    }

    /** A branch is wrapped into a block when statements were put before it. */
    method VisitBranch(s: Stmt) returns (ok: bool, branch: Stmt)
      modifies this
      ensures ok <==> Accepted(s)
      ensures ok ==> var l := Lower(s, old(uid)); out == old(out) && branch == Branch(l.ss) && uid == l.next
      decreases s, 2
    {
      var before := out;
      out := [];
      ok := VisitStatement(s);
      branch := Branch(out);
      out := before;
    }

    method VisitStatements(ss: seq<Stmt>) returns (ok: bool)
      modifies this
      ensures ok <==> AcceptedAll(ss)
      ensures ok ==> var l := LowerAll(ss, old(uid)); out == old(out) + l.ss && uid == l.next
      decreases ss, 0
    {
      if ss == [] { return true; }
      ok := VisitStatement(ss[0]);
      if !ok { return; }
      ok := VisitStatements(ss[1..]);
    }
  }

  /** The transform of a function body: rejected because of a macro in a forbidden place, or lowered. */
  method Transform(body: seq<Stmt>) returns (r: Option<seq<Stmt>>)
    ensures r.Some? <==> AcceptedAll(body)
    ensures P.WrittenAll(body) ==> (r.Some? <==> P.NoForbiddenMacro(body))
    ensures r.Some? ==> r.value == LowerAll(body, 0).ss
  {
    if P.WrittenAll(body) { P.AcceptedExactly(body); }
    var visitor := new Visitor();
    var ok := visitor.VisitStatements(body);
    r := if ok then Some(visitor.out) else None;
  }
}
