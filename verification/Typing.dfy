/**
  Programs of the fragment: names resolve, every expression has the right number of
  values and no `break` crosses live locals. Such programs never go wrong, so for them
  preservation holds for every run that stays clear of undefined operations.
*/
module Typing {
  import opened Word64
  import opened Ir
  import opened Source
  import opened Simulation
  import opened Theorems

  /** How many values an expression pushes, `None` if it is outside the fragment. */
  function Arity(p: Program, scope: set<string>, e: Expr): Option<nat>
    decreases e, 1
  {
    match e
    case Const(_) => Some(1)
    case Ident(x) => if x in scope then Some(1) else None
    case Unary(_, a) => OneIf(Arity(p, scope, a) == Some(1))
    case Binary(_, a, b) => OneIf(Arity(p, scope, a) == Some(1) && Arity(p, scope, b) == Some(1))
    case LogOr(a, b) => OneIf(Arity(p, scope, a) == Some(1) && Arity(p, scope, b) == Some(1))
    case LogAnd(a, b) => OneIf(Arity(p, scope, a) == Some(1) && Arity(p, scope, b) == Some(1))
    case Ref(l) => OneIf(IsTarget(p, scope, l))
    case Deref(a) => OneIf(Arity(p, scope, a) == Some(1))
    case Assign(l, b) => if IsTarget(p, scope, l) && Arity(p, scope, b) == Some(1) then Some(0) else None
    case Swap(targets, b) =>
      if (forall t :: t in targets ==> t.Ident? && t.name in scope) && Arity(p, scope, b) == Some(|targets|)
      then Some(0) else None
    case Call(callee, args) =>
      if && callee.Ident? && callee.name !in scope && callee.name in p
         && Arity(p, scope, args) == Some(|p[callee.name].params|)
      then Some(p[callee.name].results) else None
    case List(es) => ArityAll(p, scope, es)
    case Empty => Some(0)
  }

  function OneIf(b: bool): Option<nat> {
    if b then Some(1) else None
  }

  predicate IsTarget(p: Program, scope: set<string>, l: Expr)
    decreases l, 0
  {
    (l.Ident? && l.name in scope) || (l.Deref? && Arity(p, scope, l.operand) == Some(1))
  }

  function ArityAll(p: Program, scope: set<string>, es: seq<Expr>): Option<nat>
    decreases es, 0
  {
    if es == [] then Some(0) else
    var last, init := Arity(p, scope, es[|es| - 1]), ArityAll(p, scope, es[..|es| - 1]);
    if last.Some? && init.Some? then Some(init.value + last.value) else None
  }

  predicate WfDecls(p: Program, scope: set<string>, ds: seq<Decl>)
    decreases |ds|
  {
    ds == [] ||
    ((ds[0].init.Some? ==> Arity(p, scope, ds[0].init.value) == Some(1)) && WfDecls(p, scope + {ds[0].name}, ds[1..]))
  }

  function ScopeAfterDecls(scope: set<string>, ds: seq<Decl>): set<string>
    decreases |ds|
  {
    if ds == [] then scope else ScopeAfterDecls(scope + {ds[0].name}, ds[1..])
  }

  function ScopeAfter(scope: set<string>, s: Stmt): set<string> {
    if s.Declare? then ScopeAfterDecls(scope, s.decls) else scope
  }

  /** Where a statement stands: inside a loop, with no live local in the blocks around its own. */
  datatype Place = Place(results: nat, inLoop: bool, clean: bool)

  function Inner(at: Place, live: nat): Place {
    at.(clean := at.clean && live == 0)
  }

  predicate WfStmt(p: Program, s: Stmt, scope: set<string>, at: Place, live: nat)
    decreases s, 1
  {
    match s
    case Declare(ds) => WfDecls(p, scope, ds)
    case Compound(body) => WfStmts(p, body, scope, Inner(at, live), 0)
    case If(c, body) => Arity(p, scope, c) == Some(1) && WfStmts(p, body, scope, Inner(at, live), 0)
    case IfElse(c, body, els) =>
      && Arity(p, scope, c) == Some(1) && !BareElse(s)
      && WfStmts(p, body, scope, Inner(at, live), 0) && WfStmt(p, els, scope, Inner(at, live), 0)
    case While(c, body) => Arity(p, scope, c) == Some(1) && WfStmts(p, body, scope, Place(at.results, true, true), 0)
    case Return(e) => Arity(p, scope, e) == Some(at.results)
    case Break => at.inLoop && at.clean
    case Continue => false
    case Eval(e) => Arity(p, scope, e) == Some(0)
  }

  predicate WfStmts(p: Program, ss: seq<Stmt>, scope: set<string>, at: Place, live: nat)
    decreases ss, 0
  {
    ss == [] ||
    (WfStmt(p, ss[0], scope, at, live) && WfStmts(p, ss[1..], ScopeAfter(scope, ss[0]), at, live + Declared(ss[0])))
  }

  function ParamScope(params: seq<string>): set<string> {
    set x | x in params
  }

  predicate WfFunction(p: Program, f: Function) {
    WfStmts(p, f.body, ParamScope(f.params), Place(f.results, false, false), 0)
  }

  predicate WfProgram(p: Program) {
    forall f :: f in p ==> WfFunction(p, p[f])
  }

  // ----- soundness -----

  ghost predicate Covers(env: Env, scope: set<string>, size: nat) {
    env.Keys == scope && forall x :: x in env ==> 0 <= env[x] < size
  }

  ghost predicate ValueOk(r: Value, k: nat) {
    if r.Done? then |r.vals| == k else r.why != IllFormed
  }

  ghost predicate OutcomeOk(o: Outcome, scope: set<string>, at: Place, size: int) {
    match o
    case Next(env, mem) => Covers(env, scope, |mem|)
    case Broke(mem) => at.inLoop && at.clean && |mem| == size
    case Returned(vals, _) => |vals| == at.results
    case Ended(why) => why != IllFormed
  }

  lemma ExprSound(p: Program, e: Expr, scope: set<string>, k: nat, env: Env, mem: seq<int>, fuel: nat)
    requires WfProgram(p) && Covers(env, scope, |mem|) && Arity(p, scope, e) == Some(k)
    ensures ValueOk(EvalExpr(p, e, env, mem, fuel), k)
    decreases fuel, e, 3
  {
    match e
    case Const(_) =>
    case Ident(_) =>
    case Unary(_, a) => ExprSound(p, a, scope, 1, env, mem, fuel);
    case Binary(_, a, b) =>
      ExprSound(p, b, scope, 1, env, mem, fuel);
      var rb := EvalExpr(p, b, env, mem, fuel);
      if rb.Done? {
        ExprSound(p, a, scope, 1, env, rb.mem, fuel);
      }
    case LogOr(_, _) => ShortCircuitSound(p, e, scope, env, mem, fuel);
    case LogAnd(_, _) => ShortCircuitSound(p, e, scope, env, mem, fuel);
    case Ref(l) => TargetSound(p, l, scope, env, mem, fuel);
    case Deref(a) => ExprSound(p, a, scope, 1, env, mem, fuel);
    case Assign(l, b) =>
      ExprSound(p, b, scope, 1, env, mem, fuel);
      var rb := EvalExpr(p, b, env, mem, fuel);
      if rb.Done? {
        TargetSound(p, l, scope, env, rb.mem, fuel);
      }
    case Swap(targets, b) =>
      ExprSound(p, b, scope, |targets|, env, mem, fuel);
      var rb := EvalExpr(p, b, env, mem, fuel);
      if rb.Done? {
        StoresSound(targets, rb.vals, scope, env, rb.mem);
      }
    case Call(callee, args) =>
      ExprSound(p, args, scope, |p[callee.name].params|, env, mem, fuel);
      var ra := EvalExpr(p, args, env, mem, fuel);
      if ra.Done? && fuel > 0 {
        CallSound(p, callee.name, ra.vals, ra.mem, fuel - 1);
      }
    case List(es) => ListSound(p, es, scope, k, env, mem, fuel);
    case Empty =>
  }

  lemma ShortCircuitSound(p: Program, e: Expr, scope: set<string>, env: Env, mem: seq<int>, fuel: nat)
    requires e.LogOr? || e.LogAnd?
    requires WfProgram(p) && Covers(env, scope, |mem|) && Arity(p, scope, e) == Some(1)
    ensures ValueOk(EvalExpr(p, e, env, mem, fuel), 1)
    decreases fuel, e, 2
  {
    ExprSound(p, e.left, scope, 1, env, mem, fuel);
    var ra := EvalExpr(p, e.left, env, mem, fuel);
    if ra.Done? {
      ExprSound(p, e.right, scope, 1, env, ra.mem, fuel);
    }
  }

  lemma TargetSound(p: Program, l: Expr, scope: set<string>, env: Env, mem: seq<int>, fuel: nat)
    requires WfProgram(p) && Covers(env, scope, |mem|) && IsTarget(p, scope, l)
    ensures ValueOk(Address(p, l, env, mem, fuel), 1)
    decreases fuel, l, 4
  {
    if l.Deref? {
      ExprSound(p, l.operand, scope, 1, env, mem, fuel);
    }
  }

  lemma ListSound(p: Program, es: seq<Expr>, scope: set<string>, k: nat, env: Env, mem: seq<int>, fuel: nat)
    requires WfProgram(p) && Covers(env, scope, |mem|) && ArityAll(p, scope, es) == Some(k)
    ensures ValueOk(EvalList(p, es, env, mem, fuel), k)
    decreases fuel, es, 0
  {
    if es != [] {
      var last, init := es[|es| - 1], es[..|es| - 1];
      ExprSound(p, last, scope, Arity(p, scope, last).value, env, mem, fuel);
      var r := EvalExpr(p, last, env, mem, fuel);
      if r.Done? {
        ListSound(p, init, scope, ArityAll(p, scope, init).value, env, r.mem, fuel);
      }
    }
  }

  lemma StoresSound(targets: seq<Expr>, vals: seq<int>, scope: set<string>, env: Env, mem: seq<int>)
    requires Covers(env, scope, |mem|) && |vals| == |targets|
    requires forall t :: t in targets ==> t.Ident? && t.name in scope
    ensures ValueOk(StoreAll(targets, vals, env, mem), 0)
    decreases |targets|
  {
    if targets != [] {
      assert targets[0] in targets;
      var r := Write(mem, env[targets[0].name], vals[0]);
      if r.Done? {
        StoresSound(targets[1..], vals[1..], scope, env, r.mem);
      }
    }
  }

  lemma {:induction false} BindParamsCover(params: seq<string>, base: nat)
    ensures Covers(BindParams(params, base), ParamScope(params), base + |params|)
  {
    if params != [] {
      var init := params[..|params| - 1];
      BindParamsCover(init, base);
      assert params == init + [params[|params| - 1]];
    }
  }

  lemma CallSound(p: Program, f: string, args: seq<int>, mem: seq<int>, fuel: nat)
    requires WfProgram(p) && f in p && |args| == |p[f].params|
    ensures ValueOk(CallFunction(p, p[f], args, mem, fuel), p[f].results)
    decreases fuel, p[f].body, 2
  {
    if Fits(|mem| + |args|) {
      BindParamsCover(p[f].params, |mem|);
      StmtsSound(p, p[f].body, ParamScope(p[f].params), Place(p[f].results, false, false),
                 BindParams(p[f].params, |mem|),
                 mem + args, 0, fuel);
    }
  }

  lemma DeclsSound(p: Program, ds: seq<Decl>, scope: set<string>, at: Place, env: Env, mem: seq<int>, fuel: nat)
    requires WfProgram(p) && Covers(env, scope, |mem|) && WfDecls(p, scope, ds)
    ensures OutcomeOk(DeclareAll(p, ds, env, mem, fuel), ScopeAfterDecls(scope, ds), at, 0)
    decreases fuel, ds, 0
  {
    if ds != [] {
      var d := ds[0];
      if d.init.Some? {
        ExprSound(p, d.init.value, scope, 1, env, mem, fuel);
      }
      var r := if d.init.Some? then Single(EvalExpr(p, d.init.value, env, mem, fuel)) else Done([0], mem);
      if r.Done? && Fits(|r.mem| + 1) {
        DeclsSound(p, ds[1..], scope + {d.name}, at, env[d.name := |r.mem|], r.mem + [r.vals[0]], fuel);
      }
    }
  }

  lemma StmtSound(p: Program, s: Stmt, scope: set<string>, at: Place, env: Env, mem: seq<int>, live: nat, fuel: nat)
    requires WfProgram(p) && Covers(env, scope, |mem|) && WfStmt(p, s, scope, at, live) && live <= |mem|
    ensures OutcomeOk(Exec(p, s, env, mem, live, fuel), ScopeAfter(scope, s), at, |mem| - live)
    decreases fuel, s, 3
  {
    match s
    case Declare(ds) => DeclsSound(p, ds, scope, at, env, mem, fuel);
    case Compound(body) => BlockSound(p, body, scope, Inner(at, live), env, mem, fuel);
    case If(c, body) =>
      ExprSound(p, c, scope, 1, env, mem, fuel);
      var r := Single(EvalExpr(p, c, env, mem, fuel));
      if r.Done? {
        BlockSound(p, body, scope, Inner(at, live), env, r.mem, fuel);
      }
    case IfElse(c, body, els) =>
      ExprSound(p, c, scope, 1, env, mem, fuel);
      var r := Single(EvalExpr(p, c, env, mem, fuel));
      if r.Done? {
        BlockSound(p, body, scope, Inner(at, live), env, r.mem, fuel);
        StmtSound(p, els, scope, Inner(at, live), env, r.mem, 0, fuel);
      }
    case While(_, _) => LoopSound(p, s, scope, at, env, mem, live, fuel);
    case Return(e) => ExprSound(p, e, scope, at.results, env, mem, fuel);
    case Break =>
    case Continue =>
    case Eval(e) => ExprSound(p, e, scope, 0, env, mem, fuel);
  }

  lemma LoopSound(p: Program, s: Stmt, scope: set<string>, at: Place, env: Env, mem: seq<int>, live: nat, fuel: nat)
    requires s.While? && WfProgram(p) && Covers(env, scope, |mem|) && WfStmt(p, s, scope, at, live) && live <= |mem|
    ensures OutcomeOk(ExecWhile(p, s, env, mem, live, fuel), scope, at, |mem| - live)
    decreases fuel, s, 2
  {
    ExprSound(p, s.cond, scope, 1, env, mem, fuel);
    var r := Single(EvalExpr(p, s.cond, env, mem, fuel));
    if r.Done? {
      BlockSound(p, s.body, scope, Place(at.results, true, true), env, r.mem, fuel);
      var o := ExecBlock(p, s.body, env, r.mem, fuel);
      if o.Next? && fuel > 0 {
        LoopSound(p, s, scope, at, env, o.mem, live, fuel - 1);
      }
    }
  }

  lemma StmtsSound(p: Program, ss: seq<Stmt>, scope: set<string>, at: Place, env: Env, mem: seq<int>, live: nat,
                   fuel: nat)
    requires WfProgram(p) && Covers(env, scope, |mem|) && WfStmts(p, ss, scope, at, live) && live <= |mem|
    ensures var o := ExecAll(p, ss, env, mem, live, fuel);
            if o.Next? then true else OutcomeOk(o, scope, at, |mem| - live)
    decreases fuel, ss, 0
  {
    if ss != [] {
      StmtSound(p, ss[0], scope, at, env, mem, live, fuel);
      var o := Exec(p, ss[0], env, mem, live, fuel);
      if o.Next? {
        StmtsSound(p, ss[1..], ScopeAfter(scope, ss[0]), at, o.env, o.mem, live + Declared(ss[0]), fuel);
      }
    }
  }

  lemma BlockSound(p: Program, body: seq<Stmt>, scope: set<string>, at: Place, env: Env, mem: seq<int>, fuel: nat)
    requires WfProgram(p) && Covers(env, scope, |mem|) && WfStmts(p, body, scope, at, 0)
    ensures OutcomeOk(ExecBlock(p, body, env, mem, fuel), scope, at, |mem|)
    decreases fuel, body, 1
  {
    StmtsSound(p, body, scope, at, env, mem, 0, fuel);
  }

  /** No run meets an operation C++ leaves undefined, a global address or a full stack. */
  ghost predicate StaysDefined(p: Program, f: string)
    requires f in p
  {
    forall fuel: nat :: RunResult(p, f, fuel) != Stopped(Undefined)
  }

  /** The main theorem for programs accepted by the static rules: as long as no undefined
      operation is met, interpreting the image and evaluating the program agree on results,
      on failure and on running forever. */
  lemma WellFormedPreservation(p: Program, image: Image, f: string, globals: seq<int>)
    requires Linked(p, image) && WfProgram(p) && f in p && p[f].params == [] && StaysDefined(p, f)
    ensures forall vals :: HaltsWith(image, Start(f, globals), vals) <==> Returns(p, f, vals)
    ensures forall vals :: Returns(p, f, vals) ==> |vals| == p[f].results
    ensures Fails(image, Start(f, globals)) <==> Faults(p, f)
    ensures RunsForever(image, Start(f, globals)) <==> Diverges(p, f)
  {
    hide CallFunction, HaltsWith, Fails, RunsForever, Diverges;
    forall fuel: nat
      ensures ValueOk(RunResult(p, f, fuel), p[f].results)
    {
      CallSound(p, f, [], [], fuel);
    }
    forall vals
      ensures HaltsWith(image, Start(f, globals), vals) <==> Returns(p, f, vals)
      ensures Fails(image, Start(f, globals)) <==> Faults(p, f)
    {
      Preservation(p, image, f, globals, vals);
    }
    Preservation(p, image, f, globals, []);
    DivergencePreserved(p, image, f, globals);
  }

  lemma WellFormedBehaves(p: Program, f: string)
    requires WfProgram(p) && f in p && p[f].params == []
    ensures WellBehaved(p, f)
    ensures forall vals :: Returns(p, f, vals) ==> |vals| == p[f].results
  {
    hide CallFunction;
    forall fuel: nat
      ensures ValueOk(RunResult(p, f, fuel), p[f].results)
    {
      CallSound(p, f, [], [], fuel);
    }
  }

  /** Without globals the interpreter does exactly what a well-formed program does, undefined
      operations included: there it gets stuck. */
  lemma WellFormedExactly(p: Program, image: Image, f: string)
    requires Linked(p, image) && WfProgram(p) && f in p && p[f].params == []
    ensures forall vals :: HaltsWith(image, Start(f, []), vals) <==> Returns(p, f, vals)
    ensures forall vals :: Returns(p, f, vals) ==> |vals| == p[f].results
    ensures Fails(image, Start(f, [])) <==> Faults(p, f)
    ensures RunsForever(image, Start(f, [])) <==> Diverges(p, f)
    ensures Sticks(image, Start(f, [])) <==> !StaysDefined(p, f)
  {
    WellFormedBehaves(p, f);
    hide CallFunction, HaltsWith, Fails, RunsForever, Diverges, Sticks, WfProgram, Returns, RunResult;
    forall vals
      ensures HaltsWith(image, Start(f, []), vals) <==> Returns(p, f, vals)
    {
      ExactPreservation(p, image, f, vals);
    }
    ExactPreservation(p, image, f, []);
    ExactDivergence(p, image, f);
  }
}
