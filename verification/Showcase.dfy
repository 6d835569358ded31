/**
  The static rules take in every construct of the language: one well-formed program that uses all
  of them.
*/
module Showcase {
  import opened Word64
  import opened Source
  import opened Typing
  import opened StageFlows

  function X(): Expr {
    Ident("x")
  }

  function Y(): Expr {
    Ident("y")
  }

  /** `@^e`, or `e` itself in the program without pointers. */
  function Through(e: Expr, ptr: bool): Expr {
    if ptr then Deref(Ref(e)) else e
  }

  /** `-(~!x / @^y)` */
  function Operators(ptr: bool): Expr {
    Expr.Unary(Negate, Expr.Binary(Div, Expr.Unary(BitNot, Expr.Unary(LogNot, X())), Through(Y(), ptr)))
  }

  /** `x, y = f(1, x)` */
  function Exchange(): Expr {
    Swap([X(), Y()], Expr.Call(Ident("f"), List([Const(1), X()])))
  }

  /** `x < 3 && y || y != 0` */
  function Condition(): Expr {
    LogOr(LogAnd(Expr.Binary(CmpLt, X(), Const(3)), Y()), Expr.Binary(CmpNeq, Y(), Const(0)))
  }

  /** `{ z := x; @^x = z; }` */
  function Inner(ptr: bool): Stmt {
    Compound([Declare([Decl("z", Some(X()))]), Eval(Assign(Through(X(), ptr), Ident("z")))])
  }

  /** `while (…) { if (x) { break; } if (y) { x = …; } else { … } x, y = f(1, x); }` */
  function Loop(ptr: bool): Stmt {
    While(Condition(),
          [If(X(), [Break]), IfElse(Y(), [Eval(Assign(X(), Operators(ptr)))], Inner(ptr)), Eval(Exchange())])
  }

  function Main(ptr: bool): Function {
    Function([], [Declare([Decl("x", Some(Const(5))), Decl("y", None)]), Loop(ptr), Eval(Expr.Empty),
                  Return(List([Y(), X()]))], 2)
  }

  function Sample(ptr: bool): Program {
    map["f" := Function(["x", "y"], [Return(List([Y(), X()]))], 2), "main" := Main(ptr)]
  }

  lemma {:induction false} OperatorsArity(p: Program, ptr: bool, scope: set<string>)
    requires "x" in scope && "y" in scope
    ensures Arity(p, scope, Operators(ptr)) == Some(1) && Arity(p, scope, Condition()) == Some(1)
  {
    assert Arity(p, scope, X()) == Some(1) && Arity(p, scope, Y()) == Some(1);
    assert Arity(p, scope, Expr.Unary(BitNot, Expr.Unary(LogNot, X()))) == Some(1);
    assert Arity(p, scope, Through(Y(), ptr)) == Some(1);
    assert Arity(p, scope, Expr.Binary(CmpLt, X(), Const(3))) == Some(1);
  }

  lemma ListOfTwo(p: Program, scope: set<string>, a: Expr, b: Expr)
    requires Arity(p, scope, a) == Some(1) && Arity(p, scope, b) == Some(1)
    ensures Arity(p, scope, List([a, b])) == Some(2)
  {
    hide Arity;
    assert [a, b][..1] == [a] && [a][..0] == [];
    assert ArityAll(p, scope, [a]) == Some(1);
    assert ArityAll(p, scope, [a, b]) == Some(2);
    ListArity(p, scope, [a, b]);
  }

  lemma ListArity(p: Program, scope: set<string>, es: seq<Expr>)
    ensures Arity(p, scope, List(es)) == ArityAll(p, scope, es)
  {
  }

  lemma ExchangeArity(p: Program, scope: set<string>)
    requires "x" in scope && "y" in scope && "f" !in scope && "f" in p && p["f"].results == 2 && |p["f"].params| == 2
    ensures Arity(p, scope, Exchange()) == Some(0)
  {
    assert Arity(p, scope, X()) == Some(1) && Arity(p, scope, Const(1)) == Some(1);
    ListOfTwo(p, scope, Const(1), X());
    assert Arity(p, scope, Exchange().right) == Some(2);
  }

  lemma Consecutive(p: Program, s: Stmt, rest: seq<Stmt>, scope: set<string>, at: Place, live: nat)
    requires WfStmt(p, s, scope, at, live) && WfStmts(p, rest, ScopeAfter(scope, s), at, live + Declared(s))
    ensures WfStmts(p, [s] + rest, scope, at, live)
  {
    hide WfStmt;
    assert ([s] + rest)[1..] == rest;
  }

  lemma OneStatement(p: Program, s: Stmt, scope: set<string>, at: Place, live: nat)
    requires WfStmt(p, s, scope, at, live)
    ensures WfStmts(p, [s], scope, at, live)
  {
    hide WfStmt;
    Consecutive(p, s, [], scope, at, live);
    assert [s] + [] == [s];
  }

  lemma InnerFits(p: Program, ptr: bool, scope: set<string>, at: Place)
    requires "x" in scope
    ensures WfStmt(p, Inner(ptr), scope, at, 0)
  {
    var d, a := Declare([Decl("z", Some(X()))]), Assign(Through(X(), ptr), Ident("z"));
    var scope', at' := scope + {"z"}, Typing.Inner(at, 0);
    assert d.decls[1..] == [];
    assert ScopeAfterDecls(scope', []) == scope';
    assert ScopeAfter(scope, d) == scope';
    assert Arity(p, scope', X()) == Some(1) && (ptr ==> Arity(p, scope', Ref(X())) == Some(1));
    assert IsTarget(p, scope', Through(X(), ptr));
    assert Arity(p, scope', a) == Some(0);
    assert WfStmt(p, d, scope, at', 0);
    assert WfStmt(p, Eval(a), scope', at', 1);
    hide Arity, WfStmts;
    OneStatement(p, Eval(a), scope', at', 1);
    Consecutive(p, d, [Eval(a)], scope, at', 0);
    assert [d] + [Eval(a)] == [d, Eval(a)];
  }

  lemma LoopFits(p: Program, ptr: bool, scope: set<string>, at: Place, live: nat)
    requires "x" in scope && "y" in scope && "f" !in scope && "f" in p && p["f"].results == 2 && |p["f"].params| == 2
    ensures WfStmt(p, Loop(ptr), scope, at, live)
  {
    OperatorsArity(p, ptr, scope);
    ExchangeArity(p, scope);
    var at' := Place(at.results, true, true);
    var c := Eval(Exchange());
    hide Operators, Exchange, Condition, Inner;
    assert WfStmt(p, c, scope, at', 0);
    hide Arity, WfStmts, WfStmt;
    BranchesFit(p, ptr, scope, at');
    OneStatement(p, c, scope, at', 0);
    var a, b := If(X(), [Break]), IfElse(Y(), [Eval(Assign(X(), Operators(ptr)))], Inner(ptr));
    Consecutive(p, b, [c], scope, at', 0);
    Consecutive(p, a, [b] + [c], scope, at', 0);
    assert [a] + ([b] + [c]) == [a, b, c];
    LoopShape(p, [a, b, c], scope, at, live);
  }

  lemma LoopShape(p: Program, body: seq<Stmt>, scope: set<string>, at: Place, live: nat)
    requires Arity(p, scope, Condition()) == Some(1) && WfStmts(p, body, scope, Place(at.results, true, true), 0)
    ensures WfStmt(p, While(Condition(), body), scope, at, live)
  {
    hide Arity, WfStmts, Condition;
  }

  lemma BranchesFit(p: Program, ptr: bool, scope: set<string>, at: Place)
    requires "x" in scope && "y" in scope && at.inLoop && at.clean
    ensures WfStmt(p, If(X(), [Break]), scope, at, 0)
    ensures WfStmt(p, IfElse(Y(), [Eval(Assign(X(), Operators(ptr)))], Inner(ptr)), scope, at, 0)
  {
    var s := Eval(Assign(X(), Operators(ptr)));
    SimpleStatements(p, ptr, scope, at);
    assert Inner(ptr).Compound?;
    hide Arity, WfStmt, WfStmts, Inner, Operators;
    OneStatement(p, Break, scope, at, 0);
    OneStatement(p, s, scope, at, 0);
    BranchShapes(p, ptr, [s], scope, at);
  }

  lemma SimpleStatements(p: Program, ptr: bool, scope: set<string>, at: Place)
    requires "x" in scope && "y" in scope && at.inLoop && at.clean
    ensures WfStmt(p, Break, scope, at, 0) && WfStmt(p, Eval(Assign(X(), Operators(ptr))), scope, at, 0)
    ensures WfStmt(p, Inner(ptr), scope, at, 0)
  {
    hide Operators, Condition, Inner;
    OperatorsArity(p, ptr, scope);
    InnerFits(p, ptr, scope, at);
    assert Arity(p, scope, Assign(X(), Operators(ptr))) == Some(0);
  }

  lemma BranchShapes(p: Program, ptr: bool, body: seq<Stmt>, scope: set<string>, at: Place)
    requires "x" in scope && "y" in scope && at.clean && Inner(ptr).Compound?
    requires WfStmts(p, [Break], scope, at, 0) && WfStmts(p, body, scope, at, 0) && WfStmt(p, Inner(ptr), scope, at, 0)
    ensures WfStmt(p, If(X(), [Break]), scope, at, 0) && WfStmt(p, IfElse(Y(), body, Inner(ptr)), scope, at, 0)
  {
    hide WfStmts, Inner;
    assert Arity(p, scope, X()) == Some(1) && Arity(p, scope, Y()) == Some(1);
    assert Typing.Inner(at, 0) == at;
    assert !BareElse(IfElse(Y(), body, Inner(ptr)));
  }

  lemma MainFits(p: Program, ptr: bool)
    requires "f" in p && p["f"].results == 2 && |p["f"].params| == 2
    ensures WfFunction(p, Main(ptr))
  {
    var d := Declare([Decl("x", Some(Const(5))), Decl("y", None)]);
    var at, scope := Place(2, false, false), {"x", "y"};
    var e, r := Eval(Expr.Empty), Return(List([Y(), X()]));
    hide Main, Loop, Arity, WfStmts, WfStmt, ScopeAfter, X, Y;
    MainShape(ptr);
    ScopeOfTwo(p, at);
    LoopFits(p, ptr, scope, at, 2);
    TailFits(p, ptr, scope, at);
    hide Declared;
    Consecutive(p, Loop(ptr), [e, r], scope, at, 2);
    Consecutive(p, d, [Loop(ptr)] + [e, r], {}, at, 0);
    assert [d] + ([Loop(ptr)] + [e, r]) == [d, Loop(ptr), e, r];
    assert ParamScope([]) == {};
  }

  lemma MainShape(ptr: bool)
    ensures var d := Declare([Decl("x", Some(Const(5))), Decl("y", None)]);
            Main(ptr) == Function([], [d, Loop(ptr), Eval(Expr.Empty), Return(List([Y(), X()]))], 2)
  {
    hide Loop, X, Y;
  }

  lemma TailFits(p: Program, ptr: bool, scope: set<string>, at: Place)
    requires "x" in scope && "y" in scope && at.results == 2
    ensures ScopeAfter(scope, Loop(ptr)) == scope && Declared(Loop(ptr)) == 0
    ensures WfStmts(p, [Eval(Expr.Empty), Return(List([Y(), X()]))], scope, at, 2)
  {
    var e, r := Eval(Expr.Empty), Return(List([Y(), X()]));
    assert Arity(p, scope, X()) == Some(1) && Arity(p, scope, Y()) == Some(1);
    ListOfTwo(p, scope, Y(), X());
    assert WfStmt(p, e, scope, at, 2) && WfStmt(p, r, scope, at, 2);
    hide Arity, WfStmts, WfStmt;
    OneStatement(p, r, scope, at, 2);
    Consecutive(p, e, [r], scope, at, 2);
    assert [e] + [r] == [e, r];
  }

  lemma ScopeOfTwo(p: Program, at: Place)
    ensures var d := Declare([Decl("x", Some(Const(5))), Decl("y", None)]);
            WfStmt(p, d, {}, at, 0) && ScopeAfter({}, d) == {"x", "y"} && Declared(d) == 2
  {
    var dx, dy := Decl("x", Some(Const(5))), Decl("y", None);
    assert [dx, dy][1..] == [dy] && [dy][1..] == [];
    assert {} + {"x"} + {"y"} == {"x", "y"};
    assert WfDecls(p, {"x"}, [dy]);
    assert ScopeAfterDecls({} + {"x"}, [dy]) == {} + {"x"} + {"y"};
  }

  /** Every construct of the language is in a well-formed program. */
  lemma EveryConstruct(ptr: bool)
    ensures WfProgram(Sample(ptr))
  {
    hide Arity, WfStmts, Main, WfStmt, X, Y;
    MainFits(Sample(ptr), ptr);
    SwappedFits(Sample(ptr));
  }

  lemma SwappedFits(p: Program)
    ensures WfFunction(p, Function(["x", "y"], [Return(List([Y(), X()]))], 2))
  {
    var scope, r := {"x", "y"}, Return(List([Y(), X()]));
    assert Arity(p, scope, X()) == Some(1) && Arity(p, scope, Y()) == Some(1);
    ListOfTwo(p, scope, Y(), X());
    assert WfStmt(p, r, scope, Place(2, false, false), 0);
    hide Arity, WfStmt, WfStmts, X, Y;
    OneStatement(p, r, scope, Place(2, false, false), 0);
    assert ParamScope(["x", "y"]) == scope;
  }

  /** The one without pointers is one of those the native code is proved for. */
  lemma EveryScalarConstruct()
    ensures ScalarProgram(Sample(false))
  {
    hide Scalar, ScalarStmt, Loop, Inner, X, Y, Operators, Condition, Exchange;
    ScalarParts();
    ScalarInner();
    ScalarLoop();
    ScalarEnds();
    MainShape(false);
    hide Main;
  }

  lemma ScalarParts()
    ensures Scalar(X()) && Scalar(Y()) && Scalar(Operators(false)) && Scalar(Condition()) && Scalar(Exchange())
  {
    assert Scalar(Expr.Unary(BitNot, Expr.Unary(LogNot, X())));
    assert Scalar(Expr.Binary(CmpLt, X(), Const(3)));
    assert Scalar(List([Const(1), X()]));
  }

  lemma ScalarInner()
    ensures ScalarStmt(Inner(false))
  {
    var d, a := Declare([Decl("z", Some(X()))]), Assign(X(), Ident("z"));
    assert Scalar(X()) && Scalar(a);
    hide Scalar;
    assert ScalarStmt(d) && ScalarStmt(Eval(a));
  }

  lemma ScalarEnds()
    ensures ScalarStmt(Declare([Decl("x", Some(Const(5))), Decl("y", None)]))
    ensures ScalarStmt(Eval(Expr.Empty)) && ScalarStmt(Return(List([Y(), X()])))
  {
    assert Scalar(List([Y(), X()])) && Scalar(Const(5));
  }

  lemma ScalarLoop()
    requires Scalar(X()) && Scalar(Y()) && Scalar(Operators(false)) && Scalar(Condition()) && Scalar(Exchange())
    requires ScalarStmt(Inner(false))
    ensures ScalarStmt(Loop(false))
  {
    hide Operators, Condition, Exchange, X, Y, Inner;
    assert Scalar(Assign(X(), Operators(false)));
    hide Scalar;
    assert ScalarStmt(If(X(), [Break]));
    assert ScalarStmt(IfElse(Y(), [Eval(Assign(X(), Operators(false)))], Inner(false)));
  }
}
