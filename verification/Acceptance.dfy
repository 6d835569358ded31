/**
  Which programs of the fragment the code generator gets through: exactly those in which only
  the first element of a list holds lists itself. None of them is reported as wrong.
*/
module Acceptance {
  import opened Word64
  import opened Source
  import opened Codegen
  import opened Typing

  /** Does a list stand anywhere in the tree? */
  predicate HoldsList(e: Expr)
    decreases e
  {
    match e
    case Const(_) => false
    case Ident(_) => false
    case Unary(_, a) => HoldsList(a)
    case Binary(_, a, b) => HoldsList(a) || HoldsList(b)
    case LogOr(a, b) => HoldsList(a) || HoldsList(b)
    case LogAnd(a, b) => HoldsList(a) || HoldsList(b)
    case Ref(a) => HoldsList(a)
    case Deref(a) => HoldsList(a)
    case Assign(l, b) => HoldsList(l) || HoldsList(b)
    case Swap(targets, b) => HoldsList(b) || exists i :: 0 <= i < |targets| && HoldsList(targets[i])
    case Call(callee, args) => HoldsList(callee) || HoldsList(args)
    case List(_) => true
    case Empty => false
  }

  /** Of every list in the tree, only the first element may hold lists. */
  predicate NestsFirst(e: Expr)
    decreases e
  {
    match e
    case Const(_) => true
    case Ident(_) => true
    case Unary(_, a) => NestsFirst(a)
    case Binary(_, a, b) => NestsFirst(a) && NestsFirst(b)
    case LogOr(a, b) => NestsFirst(a) && NestsFirst(b)
    case LogAnd(a, b) => NestsFirst(a) && NestsFirst(b)
    case Ref(a) => NestsFirst(a)
    case Deref(a) => NestsFirst(a)
    case Assign(l, b) => NestsFirst(l) && NestsFirst(b)
    case Swap(targets, b) => NestsFirst(b) && forall i :: 0 <= i < |targets| ==> NestsFirst(targets[i])
    case Call(callee, args) => NestsFirst(callee) && NestsFirst(args)
    case List(es) =>
      && (forall i :: 0 <= i < |es| ==> NestsFirst(es[i]))
      && forall i :: 0 < i < |es| ==> !HoldsList(es[i])
    case Empty => true
  }

  predicate NestsFirstDecl(d: Decl) {
    d.init.Some? ==> NestsFirst(d.init.value)
  }

  predicate NestsFirstStmt(s: Stmt)
    decreases s
  {
    match s
    case Declare(ds) => forall i :: 0 <= i < |ds| ==> NestsFirstDecl(ds[i])
    case Compound(body) => forall i :: 0 <= i < |body| ==> NestsFirstStmt(body[i])
    case If(c, body) => NestsFirst(c) && forall i :: 0 <= i < |body| ==> NestsFirstStmt(body[i])
    case IfElse(c, body, els) =>
      NestsFirst(c) && NestsFirstStmt(els) && forall i :: 0 <= i < |body| ==> NestsFirstStmt(body[i])
    case While(c, body) => NestsFirst(c) && forall i :: 0 <= i < |body| ==> NestsFirstStmt(body[i])
    case Return(e) => NestsFirst(e)
    case Eval(e) => NestsFirst(e)
    case _ => true
  }

  predicate NestsFirstAll(ss: seq<Stmt>) {
    forall i :: 0 <= i < |ss| ==> NestsFirstStmt(ss[i])
  }

  predicate NestsFirstProgram(p: Program) {
    forall f :: f in p ==> NestsFirstAll(p[f].body)
  }

  // ----- expressions -----


  /** What the generator does with a tree of the fragment. */
  ghost predicate Judges(e: Expr, slots: Slots) {
    && Gen(e, slots).valid && VisitsList(e, slots) == HoldsList(e)
    && Compilable(e, slots) == NestsFirst(e)
  }

  lemma ExprJudged(p: Program, scope: set<string>, e: Expr, slots: Slots)
    requires Arity(p, scope, e).Some?
    ensures Judges(e, slots)
    decreases e, 1
  {
    match e
    case Const(_) =>
    case Ident(_) =>
    case Unary(_, a) => ExprJudged(p, scope, a, slots);
    case Binary(_, _, _) => PairJudged(p, scope, e, slots);
    case LogOr(_, _) => PairJudged(p, scope, e, slots);
    case LogAnd(_, _) => PairJudged(p, scope, e, slots);
    case Ref(l) => TargetJudged(p, scope, l, slots);
    case Deref(a) => ExprJudged(p, scope, a, slots);
    case Assign(l, b) =>
      TargetJudged(p, scope, l, slots);
      ExprJudged(p, scope, b, slots);
    case Swap(_, _) => SwapJudged(p, scope, e, slots);
    case Call(_, args) => ExprJudged(p, scope, args, slots);
    case List(es) => ListJudged(p, scope, es, slots);
    case Empty =>
  }

  lemma PairJudged(p: Program, scope: set<string>, e: Expr, slots: Slots)
    requires (e.Binary? || e.LogOr? || e.LogAnd?) && Arity(p, scope, e).Some?
    ensures Judges(e, slots)
    decreases e, 0
  {
    ExprJudged(p, scope, e.left, slots);
    ExprJudged(p, scope, e.right, slots);
  }

  lemma SwapJudged(p: Program, scope: set<string>, e: Expr, slots: Slots)
    requires e.Swap? && Arity(p, scope, e).Some?
    ensures Judges(e, slots)
    decreases e, 0
  {
    ExprJudged(p, scope, e.right, slots);
    TargetsJudged(e.targets, slots);
  }

  lemma TargetJudged(p: Program, scope: set<string>, l: Expr, slots: Slots)
    requires IsTarget(p, scope, l)
    ensures Judges(l, slots) && Gen(l, slots).last.Some?
    decreases l, 0
  {
    if l.Deref? {
      ExprJudged(p, scope, l.operand, slots);
    }
  }

  lemma {:induction false} TargetsJudged(targets: seq<Expr>, slots: Slots)
    requires forall t :: t in targets ==> t.Ident?
    ensures GenTargets(targets, slots).valid && CompilableTargets(targets, slots) && !VisitsListTargets(targets, slots)
    ensures forall i :: 0 <= i < |targets| ==> !HoldsList(targets[i]) && NestsFirst(targets[i])
    decreases |targets|
  {
    if targets != [] {
      assert targets[0] in targets;
      TargetsJudged(targets[1..], slots);
    }
  }

  lemma ListJudged(p: Program, scope: set<string>, es: seq<Expr>, slots: Slots)
    requires ArityAll(p, scope, es).Some?
    ensures GenList(es, slots).valid && CompilableList(es, slots) == NestsFirst(List(es))
    decreases es, 0
  {
    if es != [] {
      hide Arity, Gen, Compilable, VisitsList, HoldsList, NestsFirst;
      ExprJudged(p, scope, es[|es| - 1], slots);
      ListJudged(p, scope, es[..|es| - 1], slots);
      NestsFirstMore(es);
    } else {
      hide Arity, Gen, Compilable, VisitsList, HoldsList;
    }
  }

  lemma NestsFirstMore(es: seq<Expr>)
    requires es != []
    ensures var last, init := es[|es| - 1], es[..|es| - 1];
            NestsFirst(List(es)) <==> NestsFirst(List(init)) && NestsFirst(last) && (|es| > 1 ==> !HoldsList(last))
  {
    var last, init := es[|es| - 1], es[..|es| - 1];
    assert es == init + [last];
    assert forall i :: 0 <= i < |init| ==> es[i] == init[i];
  }

  // ----- statements -----

  function Accepted(b: bool): Verdict {
    if b then Some(true) else None
  }

  lemma {:induction false} DeclsJudged(p: Program, scope: set<string>, ds: seq<Decl>, slots: Slots, index: int)
    requires WfDecls(p, scope, ds)
    ensures DeclsVerdict(ds, slots, index) == Accepted(forall i :: 0 <= i < |ds| ==> NestsFirstDecl(ds[i]))
    decreases |ds|
  {
    if ds != [] {
      var d := ds[0];
      if d.init.Some? {
        ExprJudged(p, scope, d.init.value, slots);
      }
      DeclsJudged(p, scope + {d.name}, ds[1..], slots[d.name := index + 1], index + 1);
      assert forall i :: 0 < i < |ds| ==> ds[i] == ds[1..][i - 1];
      assert forall i :: 0 <= i < |ds[1..]| ==> ds[1..][i] == ds[i + 1];
    }
  }

  lemma StmtJudged(p: Program, s: Stmt, scope: set<string>, at: Place, live: nat, slots: Slots, index: int)
    requires WfStmt(p, s, scope, at, live)
    ensures StmtVerdict(s, slots, index) == Accepted(NestsFirstStmt(s))
    decreases s, 1
  {
    match s
    case Declare(ds) => DeclsJudged(p, scope, ds, slots, index);
    case Compound(body) => StmtsJudged(p, body, scope, Inner(at, live), 0, slots, index);
    case If(c, body) =>
      ExprJudged(p, scope, c, slots);
      StmtsJudged(p, body, scope, Inner(at, live), 0, slots, index);
    case IfElse(c, body, els) =>
      ExprJudged(p, scope, c, slots);
      StmtsJudged(p, body, scope, Inner(at, live), 0, slots, index);
      StmtJudged(p, els, scope, Inner(at, live), 0, slots, index);
    case While(c, body) =>
      ExprJudged(p, scope, c, slots);
      StmtsJudged(p, body, scope, Place(at.results, true, true), 0, slots, index);
    case Return(e) => ExprJudged(p, scope, e, slots);
    case Break =>
    case Continue =>
    case Eval(e) => ExprJudged(p, scope, e, slots);
  }

  lemma StmtsJudged(p: Program, ss: seq<Stmt>, scope: set<string>, at: Place, live: nat, slots: Slots, index: int)
    requires WfStmts(p, ss, scope, at, live)
    ensures StmtsVerdict(ss, slots, index) == Accepted(NestsFirstAll(ss))
    decreases ss, 0
  {
    if ss != [] {
      StmtJudged(p, ss[0], scope, at, live, slots, index);
      StmtsJudged(p, ss[1..], ScopeAfter(scope, ss[0]), at, live + Declared(ss[0]), SlotsAfter(ss[0], slots, index),
                  IndexAfter(ss[0], index));
      assert forall i :: 0 < i < |ss| ==> ss[i] == ss[1..][i - 1];
      assert forall i :: 0 <= i < |ss[1..]| ==> ss[1..][i] == ss[i + 1];
    }
  }

  /** The generator compiles a well-formed function, and reports nothing, exactly when only first
      elements nest lists; otherwise it dereferences a null node. */
  lemma AcceptedExactly(p: Program, f: string)
    requires WfProgram(p) && f in p
    ensures FunctionVerdict(p[f]) == Accepted(NestsFirstAll(p[f].body))
  {
    var g := p[f];
    StmtsJudged(p, g.body, ParamScope(g.params), Place(g.results, false, false), 0, ParamSlots(g.params), |g.params|);
  }

  /** The call `f(1, g(2))`. */
  function NestedCall(): Expr {
    Expr.Call(Ident("f"), List([Const(1), Expr.Call(Ident("g"), List([Const(2)]))]))
  }

  function NestedProgram(): Program {
    map["g" := Function(["x"], [Return(Ident("x"))], 1), "f" := Function(["x", "y"], [Return(Ident("x"))], 1),
        "m" := Function([], [Return(NestedCall())], 1)]
  }

  /** `m() { return f(1, g(2)); }` is well formed, and the generator crashes on it. */
  lemma SecondArgumentCrashes()
    ensures WfProgram(NestedProgram()) && "m" in NestedProgram() && FunctionVerdict(NestedProgram()["m"]) == None
  {
    hide WfProgram, FunctionVerdict, NestedCall, NestsFirst, HoldsList;
    NestedWellFormed();
    AcceptedExactly(NestedProgram(), "m");
    NestedSecond();
    assert !NestsFirstStmt(NestedProgram()["m"].body[0]);
  }

  lemma NestedSecond()
    ensures !NestsFirst(NestedCall())
  {
    assert HoldsList(NestedCall().args.elements[1]);
  }

  lemma NestedWellFormed()
    ensures WfProgram(NestedProgram())
  {
    hide Arity, NestedCall, WfFunction;
    var p := NestedProgram();
    NestedArity(p);
    assert ParamScope([]) == {};
    OneReturn(p, p["m"], NestedCall());
    NameArity(p, p["g"].params);
    OneReturn(p, p["g"], Ident("x"));
    NameArity(p, p["f"].params);
    OneReturn(p, p["f"], Ident("x"));
  }

  lemma NameArity(p: Program, params: seq<string>)
    requires "x" in params
    ensures Arity(p, ParamScope(params), Ident("x")) == Some(1)
  {
  }

  lemma OneReturn(p: Program, f: Function, e: Expr)
    requires f.body == [Return(e)] && Arity(p, ParamScope(f.params), e) == Some(f.results)
    ensures WfFunction(p, f)
  {
    hide Arity;
    var scope, at := ParamScope(f.params), Place(f.results, false, false);
    assert WfStmt(p, f.body[0], scope, at, 0);
    assert f.body[1..] == [] && WfStmts(p, f.body[1..], scope, at, 0);
    assert WfStmts(p, f.body, scope, at, 0);
  }

  lemma NestedArity(p: Program)
    requires p == NestedProgram()
    ensures Arity(p, {}, NestedCall()) == Some(1)
  {
    var inner := Expr.Call(Ident("g"), List([Const(2)]));
    PairArity(p, Const(2), Const(2));
    assert Arity(p, {}, inner) == Some(1);
    PairArity(p, Const(1), inner);
    assert NestedCall() == Expr.Call(Ident("f"), List([Const(1), inner]));
  }

  lemma PairArity(p: Program, a: Expr, b: Expr)
    requires Arity(p, {}, a) == Some(1) && Arity(p, {}, b) == Some(1)
    ensures Arity(p, {}, List([a])) == Some(1) && Arity(p, {}, List([a, b])) == Some(2)
  {
    assert [a][..0] == [];
    assert ArityAll(p, {}, [a]) == Some(1);
    assert [a, b][..1] == [a];
    assert ArityAll(p, {}, [a, b]) == Some(2);
  }
}
