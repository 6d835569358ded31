/**
  The part of the syntax tree the code generator accepts and its meaning: a fuel-indexed
  evaluator over a stack of cells. A pointer is the index of a cell, as in the interpreter.
*/
module Source {
  import opened Word64
  import Ir

  datatype Expr =
    | Const(value: S64)
    | Ident(name: string)
    | Unary(un: UnaryOp, operand: Expr)
    | Binary(bin: BinaryOp, left: Expr, right: Expr)
    | LogOr(left: Expr, right: Expr)
    | LogAnd(left: Expr, right: Expr)
    | Ref(operand: Expr)
    | Deref(operand: Expr)
    | Assign(left: Expr, right: Expr)
    | Swap(targets: seq<Expr>, right: Expr)
    | Call(callee: Expr, args: Expr)
    | List(elements: seq<Expr>)
    | Empty

  datatype Decl = Decl(name: string, init: Option<Expr>)

  datatype Stmt =
    | Declare(decls: seq<Decl>)
    | Compound(body: seq<Stmt>)
    | If(cond: Expr, body: seq<Stmt>)
    | IfElse(cond: Expr, body: seq<Stmt>, otherwise: Stmt)
    | While(cond: Expr, body: seq<Stmt>)
    | Return(value: Expr)
    | Break
    | Continue
    | Eval(expr: Expr)

  datatype Function = Function(params: seq<string>, body: seq<Stmt>, results: nat)

  type Program = map<string, Function>

  /** Name of a visible local to the cell that holds it. */
  type Env = map<string, int>

  /** Why an evaluation has no value: the fuel ran out, an access violation or a missing
      `return`, an operation C++ leaves undefined or memory outside the local stack, or a
      program outside the fragment (unknown name, wrong number of values, bad target). */
  datatype Reason = OutOfFuel | Fault | Undefined | IllFormed

  /** An expression yields a list of values: several for a list or a call with many results,
      none for an assignment. */
  datatype Value = Done(vals: seq<int>, mem: seq<int>) | Stopped(why: Reason)

  datatype Outcome =
    | Next(env: Env, mem: seq<int>)
    | Broke(mem: seq<int>)
    | Returned(vals: seq<int>, mem: seq<int>)
    | Ended(why: Reason)

  predicate Fits(n: int) {
    n <= Ir.GLOBALS_OFFSET
  }

  function Read(mem: seq<int>, addr: int): Value {
    if addr >= Ir.GLOBALS_OFFSET then Stopped(Undefined)
    else if 0 <= addr < |mem| then Done([mem[addr]], mem)
    else Stopped(Fault)
  }

  function Write(mem: seq<int>, addr: int, v: int): (r: Value)
    ensures r.Done? ==> r.vals == [] && |r.mem| == |mem|
  {
    if addr >= Ir.GLOBALS_OFFSET then Stopped(Undefined)
    else if 0 <= addr < |mem| then Done([], mem[addr := v])
    else Stopped(Fault)
  }

  function Single(r: Value): Value {
    if r.Done? && |r.vals| != 1 then Stopped(IllFormed) else r
  }

  /** The cell an lvalue denotes: a visible local or `@e`. */
  function Address(p: Program, lvalue: Expr, env: Env, mem: seq<int>, fuel: nat): (r: Value)
    ensures r.Done? ==> |r.vals| == 1 && |r.mem| == |mem|
    decreases fuel, lvalue, 2
  {
    match lvalue
    case Ident(x) =>
      if x in env && 0 <= env[x] < |mem| then Done([env[x]], mem) else Stopped(IllFormed)
    case Deref(e) => Single(EvalExpr(p, e, env, mem, fuel))
    case _ => Stopped(IllFormed)
  }

  function EvalExpr(p: Program, e: Expr, env: Env, mem: seq<int>, fuel: nat): (r: Value)
    ensures r.Done? ==> |r.mem| == |mem|
    decreases fuel, e, 3
  {
    match e
    case Const(v) => Done([v], mem)
    case Ident(x) =>
      if x in env && 0 <= env[x] < |mem| then Done([mem[env[x]]], mem) else Stopped(IllFormed)
    case Unary(op, a) =>
      var r := Single(EvalExpr(p, a, env, mem, fuel));
      if r.Stopped? then r else Done([EvalUnary(op, r.vals[0])], r.mem)
    case Binary(op, a, b) =>
      var rb := Single(EvalExpr(p, b, env, mem, fuel));
      if rb.Stopped? then rb else
      var ra := Single(EvalExpr(p, a, env, rb.mem, fuel));
      if ra.Stopped? then ra else
      (match EvalBinary(op, ra.vals[0], rb.vals[0])
       case Some(v) => Done([v], ra.mem)
       case None => Stopped(Undefined))
    case LogOr(a, b) =>
      var ra := Single(EvalExpr(p, a, env, mem, fuel));
      if ra.Stopped? || ra.vals[0] != 0 then ra else Single(EvalExpr(p, b, env, ra.mem, fuel))
    case LogAnd(a, b) =>
      var ra := Single(EvalExpr(p, a, env, mem, fuel));
      if ra.Stopped? || ra.vals[0] == 0 then ra else Single(EvalExpr(p, b, env, ra.mem, fuel))
    case Ref(l) => Address(p, l, env, mem, fuel)
    case Deref(a) =>
      var r := Single(EvalExpr(p, a, env, mem, fuel));
      if r.Stopped? then r else Read(r.mem, r.vals[0])
    case Assign(l, b) =>
      var rb := Single(EvalExpr(p, b, env, mem, fuel));
      if rb.Stopped? then rb else
      var rl := Address(p, l, env, rb.mem, fuel);
      if rl.Stopped? then rl else Write(rl.mem, rl.vals[0], rb.vals[0])
    case Swap(targets, b) =>
      var rb := EvalExpr(p, b, env, mem, fuel);
      if rb.Stopped? then rb else StoreAll(targets, rb.vals, env, rb.mem)
    case Call(callee, args) =>
      var ra := EvalExpr(p, args, env, mem, fuel);
      if ra.Stopped? then ra
      else if !callee.Ident? || callee.name in env || callee.name !in p then Stopped(IllFormed)
      else if fuel == 0 then Stopped(OutOfFuel)
      else CallFunction(p, p[callee.name], ra.vals, ra.mem, fuel - 1)
    case List(es) => EvalList(p, es, env, mem, fuel)
    case Empty => Done([], mem)
  }

  /** Lists are evaluated from the last element to the first. */
  function EvalList(p: Program, es: seq<Expr>, env: Env, mem: seq<int>, fuel: nat): (r: Value)
    ensures r.Done? ==> |r.mem| == |mem|
    decreases fuel, es, 0
  {
    if es == [] then Done([], mem) else
    var last := EvalExpr(p, es[|es| - 1], env, mem, fuel);
    if last.Stopped? then last else
    var init := EvalList(p, es[..|es| - 1], env, last.mem, fuel);
    if init.Stopped? then init else Done(init.vals + last.vals, init.mem)
  }

  /** `x1, …, xn = v1, …, vn` once the values are known. */
  function StoreAll(targets: seq<Expr>, vals: seq<int>, env: Env, mem: seq<int>): (r: Value)
    ensures r.Done? ==> r.vals == [] && |r.mem| == |mem|
  {
    if targets == [] then if vals == [] then Done([], mem) else Stopped(IllFormed)
    else if vals == [] || !targets[0].Ident? || targets[0].name !in env then Stopped(IllFormed)
    else
      var r := Write(mem, env[targets[0].name], vals[0]);
      if r.Stopped? then r else StoreAll(targets[1..], vals[1..], env, r.mem)
  }

  function BindParams(params: seq<string>, base: int): Env {
    if params == [] then map[]
    else BindParams(params[..|params| - 1], base)[params[|params| - 1] := base + |params| - 1]
  }

  function CallFunction(p: Program, f: Function, args: seq<int>, mem: seq<int>, fuel: nat): (r: Value)
    ensures r.Done? ==> |r.mem| == |mem|
    decreases fuel, f.body, 1
  {
    if |args| != |f.params| then Stopped(IllFormed)
    else if !Fits(|mem| + |args|) then Stopped(Undefined)
    else
      match ExecAll(p, f.body, BindParams(f.params, |mem|), mem + args, 0, fuel)
      case Next(_, m) => if f.results == 0 then Done([], m[..|mem|]) else Stopped(Fault)
      case Returned(vals, m) => Done(vals, m[..|mem|])
      case Broke(_) => Stopped(IllFormed)
      case Ended(why) => Stopped(why)
  }

  function DeclareAll(p: Program, ds: seq<Decl>, env: Env, mem: seq<int>, fuel: nat): (o: Outcome)
    ensures o.Next? || o.Ended?
    ensures o.Next? ==> |o.mem| == |mem| + |ds|
    decreases fuel, ds, 0
  {
    if ds == [] then Next(env, mem) else
    var d := ds[0];
    var r := if d.init.Some? then Single(EvalExpr(p, d.init.value, env, mem, fuel)) else Done([0], mem);
    if r.Stopped? then Ended(r.why)
    else if !Fits(|r.mem| + 1) then Ended(Undefined)
    else DeclareAll(p, ds[1..], env[d.name := |r.mem|], r.mem + [r.vals[0]], fuel)
  }

  /** `live` is the number of locals the enclosing block has declared so far. */
  function Exec(p: Program, s: Stmt, env: Env, mem: seq<int>, live: nat, fuel: nat): (o: Outcome)
    ensures o.Next? ==> |o.mem| == |mem| + Declared(s) && !BareElse(s)
    ensures o.Returned? ==> |o.mem| >= |mem|
    decreases fuel, s, 3
  {
    match s
    case Declare(ds) => DeclareAll(p, ds, env, mem, fuel)
    case Compound(body) => ExecBlock(p, body, env, mem, fuel)
    case If(c, body) =>
      var r := Single(EvalExpr(p, c, env, mem, fuel));
      if r.Stopped? then Ended(r.why)
      else if r.vals[0] != 0 then ExecBlock(p, body, env, r.mem, fuel)
      else Next(env, r.mem)
    case IfElse(c, body, els) =>
      var r := Single(EvalExpr(p, c, env, mem, fuel));
      if BareElse(s) then Ended(IllFormed)
      else if r.Stopped? then Ended(r.why)
      else if r.vals[0] != 0 then ExecBlock(p, body, env, r.mem, fuel)
      else Exec(p, els, env, r.mem, 0, fuel)
    case While(_, _) => ExecWhile(p, s, env, mem, live, fuel)
    case Return(e) =>
      var r := EvalExpr(p, e, env, mem, fuel);
      if r.Stopped? then Ended(r.why) else Returned(r.vals, r.mem)
    case Break => if live <= |mem| then Broke(mem[..|mem| - live]) else Ended(IllFormed)
    case Continue => Ended(IllFormed)
    case Eval(e) =>
      var r := EvalExpr(p, e, env, mem, fuel);
      if r.Stopped? then Ended(r.why) else if r.vals != [] then Ended(IllFormed) else Next(env, r.mem)
  }

  function ExecWhile(p: Program, s: Stmt, env: Env, mem: seq<int>, live: nat, fuel: nat): (o: Outcome)
    requires s.While?
    ensures o.Next? ==> |o.mem| == |mem|
    ensures o.Returned? ==> |o.mem| >= |mem|
    decreases fuel, s, 2
  {
    var r := Single(EvalExpr(p, s.cond, env, mem, fuel));
    if r.Stopped? then Ended(r.why)
    else if r.vals[0] == 0 then Next(env, r.mem)
    else
      match ExecBlock(p, s.body, env, r.mem, fuel)
      case Next(_, m) => if fuel == 0 then Ended(OutOfFuel) else Exec(p, s, env, m, live, fuel - 1)
      case Broke(m) => Next(env, m)
      case o => o
  }

  /** An `else` (or the last of a chain of `else if`) directly followed by a declaration. */
  predicate BareElse(s: Stmt) {
    s.IfElse? && (s.otherwise.Declare? || BareElse(s.otherwise))
  }

  function Declared(s: Stmt): nat {
    if s.Declare? then |s.decls| else 0
  }

  function DeclaredAll(ss: seq<Stmt>): nat {
    if ss == [] then 0 else Declared(ss[0]) + DeclaredAll(ss[1..])
  }

  function ExecAll(p: Program, ss: seq<Stmt>, env: Env, mem: seq<int>, live: nat, fuel: nat): (o: Outcome)
    ensures o.Next? ==> |o.mem| == |mem| + DeclaredAll(ss)
    ensures o.Returned? ==> |o.mem| >= |mem|
    decreases fuel, ss, 0
  {
    if ss == [] then Next(env, mem) else
    match Exec(p, ss[0], env, mem, live, fuel)
    case Next(env', mem') => ExecAll(p, ss[1..], env', mem', live + Declared(ss[0]), fuel)
    case o => o
  }

  /** A `break` may only leave blocks that hold no live local, other than its own. */
  function ExecBlock(p: Program, body: seq<Stmt>, env: Env, mem: seq<int>, fuel: nat): (o: Outcome)
    ensures o.Next? ==> |o.mem| == |mem|
    ensures o.Broke? ==> |o.mem| == |mem|
    ensures o.Returned? ==> |o.mem| >= |mem|
    decreases fuel, body, 1
  {
    match ExecAll(p, body, env, mem, 0, fuel)
    case Next(_, m) => Next(env, m[..|mem|])
    case Broke(m) => if |m| == |mem| then Broke(m) else Ended(IllFormed)
    case o => o
  }
}
