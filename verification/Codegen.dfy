/**
  What the code generator (src/ir.cpp) emits, as functions of the syntax tree. `last`
  is the position of the opcode an enclosing node may still rewrite.
*/
module Codegen {
  import opened Word64
  import opened Ir
  import opened Source

  /** Frame slots (counted from one) of the visible locals. */
  type Slots = map<string, int>

  datatype Emit = Emit(code: seq<Op>, last: Option<nat>, valid: bool)

  function Plain(code: OpCode, operand: int): Op {
    Op(code, operand, "")
  }

  predicate IsJump(op: Op) {
    op.operation.Jump? || op.operation.JumpIf? || op.operation.JumpIfNot?
  }

  predicate WellEmitted(g: Emit) {
    g.last.Some? ==> g.last.value < |g.code|
  }

  /** The opcode that produces an address instead of the value found there. */
  function AddressOp(code: OpCode): OpCode {
    match code
    case PushGlobal => PushGea
    case PushStack => PushSea
    case Load => Nop
    case _ => Invalid
  }

  /** How an assignment rewrites the last opcode of its target. */
  function TargetOp(code: OpCode): OpCode {
    match code
    case PushGlobal => PushGea
    case PushStack => PushSea
    case Load => Store
    case _ => Invalid
  }

  function Rewrite(g: Emit, code: OpCode): (r: Emit)
    requires WellEmitted(g) && g.last.Some?
    ensures WellEmitted(r) && |r.code| == |g.code|
  {
    g.(code := g.code[g.last.value := g.code[g.last.value].(operation := code)])
  }

  /** Code emitted before `g` moves the position of its last opcode. */
  function After(code: seq<Op>, valid: bool, g: Emit): (r: Emit)
    requires WellEmitted(g)
    ensures WellEmitted(r)
  {
    Emit(code + g.code, if g.last.Some? then Some(|code| + g.last.value) else None, valid && g.valid)
  }

  function Append(g: Emit, code: seq<Op>): (r: Emit)
    requires WellEmitted(g)
    ensures WellEmitted(r)
  {
    g.(code := g.code + code)
  }

  function GenIdent(x: string, slots: Slots): (r: Emit)
    ensures WellEmitted(r)
  {
    Emit([if x in slots then Op(PushStack, slots[x], x) else Op(PushGlobal, 0, x)], Some(0), true)
  }

  function GenShortCircuit(jump: OpCode, a: Emit, b: Emit): (r: Emit)
    requires WellEmitted(a) && WellEmitted(b)
    ensures WellEmitted(r) && r.last == a.last && r.valid == (a.valid && b.valid)
    ensures |r.code| == |a.code| + 3 + |b.code|
  {
    Emit(a.code + [Plain(Clone, 0), Plain(jump, 1 + |b.code|), Plain(OpCode.Pop, 0)] + b.code,
         a.last, a.valid && b.valid)
  }

  function GenAssign(l: Emit): (r: Emit)
    requires WellEmitted(l)
    ensures WellEmitted(r) && r.last == l.last && r.valid == (l.valid && l.last.Some?)
  {
    if l.last.None? then l.(valid := false)
    else
      var op := l.code[l.last.value].operation;
      var r := Rewrite(l, TargetOp(op));
      if op == Load then r.(code := r.code[l.last.value := r.code[l.last.value].(operand := 0)])
      else if op == PushGlobal || op == PushStack then Append(r, [Plain(Store, 0)])
      else r
  }

  function Gen(e: Expr, slots: Slots): (r: Emit)
    ensures WellEmitted(r)
    decreases e, 1
  {
    match e
    case Const(v) => Emit([Plain(PushSign, v)], None, true)
    case Ident(x) => GenIdent(x, slots)
    case Unary(op, a) => Append(Gen(a, slots), [Plain(OpCode.Unary(op), 0)])
    case Binary(op, a, b) =>
      var gb := Gen(b, slots);
      Append(After(gb.code, gb.valid, Gen(a, slots)), [Plain(OpCode.Binary(op), 0)])
    case LogOr(a, b) => GenShortCircuit(JumpIf, Gen(a, slots), Gen(b, slots))
    case LogAnd(a, b) => GenShortCircuit(JumpIfNot, Gen(a, slots), Gen(b, slots))
    case Ref(a) =>
      var g := Gen(a, slots);
      if g.last.None? then g.(valid := false) else Rewrite(g, AddressOp(g.code[g.last.value].operation))
    case Deref(a) =>
      var g := Gen(a, slots);
      Emit(g.code + [Plain(Load, 0)], Some(|g.code|), g.valid)
    case Assign(l, b) =>
      var gb := Gen(b, slots);
      After(gb.code, gb.valid, GenAssign(Gen(l, slots)))
    case Swap(targets, b) =>
      var gb := Gen(b, slots);
      var gt := GenTargets(targets, slots);
      Emit(gb.code + gt.code, None, gb.valid && gt.valid)
    case Call(callee, args) =>
      var ga := Gen(args, slots);
      var gc := Gen(callee, slots);
      After(ga.code, ga.valid, if gc.last.Some? then Rewrite(gc, OpCode.Call) else gc)
    case List(es) => GenList(es, slots)
    case Empty => Emit([], None, true)
  }

  /** Elements are compiled from the last to the first, so the first value ends on top. */
  function GenList(es: seq<Expr>, slots: Slots): (r: Emit)
    ensures WellEmitted(r) && r.last.None?
    decreases es, 0
  {
    if es == [] then Emit([], None, true) else
    var last := Gen(es[|es| - 1], slots);
    var init := GenList(es[..|es| - 1], slots);
    Emit(last.code + init.code, None, last.valid && init.valid)
  }

  /** A `@e` target becomes a store and ends the list of targets. */
  function GenTargets(targets: seq<Expr>, slots: Slots): (r: Emit)
    ensures WellEmitted(r)
    decreases targets, 0
  {
    if targets == [] then Emit([], None, true) else
    var g := Gen(targets[0], slots);
    if g.last.None? then
      var rest := GenTargets(targets[1..], slots);
      Emit(g.code + rest.code, None, false)
    else
      var op := g.code[g.last.value].operation;
      var g' := Rewrite(g, TargetOp(op));
      if op == Load then Emit(g'.code, None, g.valid)
      else
        var rest := GenTargets(targets[1..], slots);
        Emit(g'.code + [Plain(Store, 0)] + rest.code, None, g.valid && rest.valid)
  }

  predicate EndsInLoad(e: Expr, slots: Slots) {
    var g := Gen(e, slots);
    g.last.Some? && g.code[g.last.value].operation == Load
  }

  /** Does compiling `e` visit a list node? Doing so resets the shared `reverse` stack. */
  predicate VisitsList(e: Expr, slots: Slots)
    decreases e, 1
  {
    match e
    case Const(_) => false
    case Ident(_) => false
    case Unary(_, a) => VisitsList(a, slots)
    case Binary(_, a, b) => VisitsList(a, slots) || VisitsList(b, slots)
    case LogOr(a, b) => VisitsList(a, slots) || VisitsList(b, slots)
    case LogAnd(a, b) => VisitsList(a, slots) || VisitsList(b, slots)
    case Ref(a) => VisitsList(a, slots)
    case Deref(a) => VisitsList(a, slots)
    case Assign(l, b) => VisitsList(l, slots) || VisitsList(b, slots)
    case Swap(targets, b) => VisitsList(b, slots) || VisitsListTargets(targets, slots)
    case Call(callee, args) => VisitsList(callee, slots) || VisitsList(args, slots)
    case List(_) => true
    case Empty => false
  }

  predicate VisitsListTargets(targets: seq<Expr>, slots: Slots)
    decreases targets, 0
  {
    targets != [] &&
    (VisitsList(targets[0], slots) || (!EndsInLoad(targets[0], slots) && VisitsListTargets(targets[1..], slots)))
  }

  /** The trees the generator gets through without dereferencing a null pointer: a callee
      always leaves an opcode to rewrite, and only the first element of a list nests lists. */
  predicate Compilable(e: Expr, slots: Slots)
    decreases e, 1
  {
    match e
    case Const(_) => true
    case Ident(_) => true
    case Unary(_, a) => Compilable(a, slots)
    case Binary(_, a, b) => Compilable(b, slots) && Compilable(a, slots)
    case LogOr(a, b) => Compilable(a, slots) && Compilable(b, slots)
    case LogAnd(a, b) => Compilable(a, slots) && Compilable(b, slots)
    case Ref(a) => Compilable(a, slots)
    case Deref(a) => Compilable(a, slots)
    case Assign(l, b) => Compilable(b, slots) && Compilable(l, slots)
    case Swap(targets, b) => Compilable(b, slots) && CompilableTargets(targets, slots)
    case Call(callee, args) =>
      Compilable(args, slots) && Compilable(callee, slots) && Gen(callee, slots).last.Some?
    case List(es) => CompilableList(es, slots)
    case Empty => true
  }

  predicate CompilableList(es: seq<Expr>, slots: Slots)
    decreases es, 0
  {
    es == [] ||
    (var last := es[|es| - 1];
     && Compilable(last, slots)
     && (|es| > 1 ==> !VisitsList(last, slots))
     && CompilableList(es[..|es| - 1], slots))
  }

  predicate CompilableTargets(targets: seq<Expr>, slots: Slots)
    decreases targets, 0
  {
    targets == [] ||
    (Compilable(targets[0], slots) && (EndsInLoad(targets[0], slots) || CompilableTargets(targets[1..], slots)))
  }

  // ----- statements -----

  /** Code of a statement; `breaks` and `continues` are the positions of the jumps that
      still wait for the end of the enclosing loop. */
  datatype Piece = Piece(code: seq<Op>, breaks: seq<nat>, continues: seq<nat>)

  function Shift(ps: seq<nat>, d: nat): (r: seq<nat>)
    ensures |r| == |ps|
    ensures forall i :: 0 <= i < |ps| ==> r[i] == ps[i] + d
  {
    seq(|ps|, i requires 0 <= i < |ps| => ps[i] + d)
  }

  function Join(a: Piece, b: Piece): Piece {
    Piece(a.code + b.code, a.breaks + Shift(b.breaks, |a.code|), a.continues + Shift(b.continues, |a.code|))
  }

  function Straight(code: seq<Op>): Piece {
    Piece(code, [], [])
  }

  function FreeOps(live: int): seq<Op> {
    if live != 0 then [Plain(Free, live)] else []
  }

  /** Distance left to the exit of the enclosing loop; `None` while it is still unknown. */
  type Exit = Option<nat>

  function ExitOperand(exit: Exit): int {
    if exit.Some? then exit.value else 0
  }

  function Farther(exit: Exit, d: nat): Exit {
    if exit.Some? then Some(exit.value + d) else None
  }

  function SlotsAfterDecls(ds: seq<Decl>, slots: Slots, index: int): Slots {
    if ds == [] then slots else SlotsAfterDecls(ds[1..], slots[ds[0].name := index + 1], index + 1)
  }

  /** A declaration standing right after `else` moves `stack_index` of the block around it. */
  function SlotsAfter(s: Stmt, slots: Slots, index: int): Slots {
    match s
    case Declare(ds) => SlotsAfterDecls(ds, slots, index)
    case IfElse(_, _, els) => SlotsAfter(els, slots, index)
    case _ => slots
  }

  function IndexAfter(s: Stmt, index: int): int {
    match s
    case Declare(ds) => index + |ds|
    case IfElse(_, _, els) => IndexAfter(els, index)
    case _ => index
  }

  function GenDecl(d: Decl, slots: Slots): seq<Op> {
    (if d.init.Some? then Gen(d.init.value, slots).code else [Plain(PushUnsign, 0)]) +
    [Plain(Alloc, 1), Plain(Store, 0)]
  }

  function GenDecls(ds: seq<Decl>, slots: Slots, index: int): seq<Op> {
    if ds == [] then [] else GenDecl(ds[0], slots) + GenDecls(ds[1..], slots[ds[0].name := index + 1], index + 1)
  }

  function IfElsePiece(cond: seq<Op>, body: Piece, els: Piece): Piece {
    Join(Join(Straight(cond + [Plain(JumpIfNot, |body.code| + 1)]), body),
         Join(Straight([Plain(Jump, |els.code|)]), els))
  }

  function LoopCode(cond: seq<Op>, body: seq<Op>): seq<Op> {
    cond + [Plain(JumpIfNot, |body| + 1)] + body + [Plain(Jump, -(|cond| + |body| + 2))]
  }

  /** `index` is `stack_index`, `live` the `alloc_count` handed to `compile_statement`. */
  function GenStmt(s: Stmt, slots: Slots, index: int, live: nat, exit: Exit): Piece
    decreases s, 2
  {
    match s
    case Declare(ds) => Straight(GenDecls(ds, slots, index))
    case Compound(body) => GenBlock(body, slots, index, false, exit)
    case If(c, body) =>
      var b := GenBlock(body, slots, index, false, exit);
      Join(Straight(Gen(c, slots).code + [Plain(JumpIfNot, |b.code|)]), b)
    case IfElse(c, body, els) =>
      var e := GenStmt(els, slots, index, 0, exit);
      var b := GenBlock(body, slots, index, false, Farther(exit, 1 + |e.code|));
      IfElsePiece(Gen(c, slots).code, b, e)
    case While(c, body) =>
      var b := GenBlock(body, slots, index, false, Some(1));
      Straight(LoopCode(Gen(c, slots).code, b.code))
    case Return(e) =>
      Straight(Gen(e, slots).code + FreeOps(live) + [Plain(StackFramePop, 0), Plain(Ret, 0)])
    case Break => Piece(FreeOps(live) + [Plain(Jump, ExitOperand(exit))], [|FreeOps(live)|], [])
    case Continue => Piece(FreeOps(live) + [Plain(Jump, ExitOperand(exit))], [], [|FreeOps(live)|])
    case Eval(e) => Straight(Gen(e, slots).code)
  }

  function GenStmts(ss: seq<Stmt>, slots: Slots, index: int, live: nat, exit: Exit): Piece
    decreases ss, 0
  {
    if ss == [] then Straight([]) else
    var n := Declared(ss[0]);
    var rest := GenStmts(ss[1..], SlotsAfter(ss[0], slots, index), IndexAfter(ss[0], index), live + n, exit);
    Join(GenStmt(ss[0], slots, index, live, Farther(exit, |rest.code|)), rest)
  }

  /** A block frees its locals at the end, except the body of a function. */
  function GenBlock(ss: seq<Stmt>, slots: Slots, index: int, frameFree: bool, exit: Exit): Piece
    decreases ss, 1
  {
    var tail := if frameFree then [] else FreeOps(DeclaredAll(ss));
    Join(GenStmts(ss, slots, index, 0, Farther(exit, |tail|)), Straight(tail))
  }

  function ParamOps(n: nat): seq<Op> {
    if n == 0 then [] else [Plain(Alloc, 1), Plain(Store, 0)] + ParamOps(n - 1)
  }

  function ParamSlots(params: seq<string>): Slots {
    if params == [] then map[]
    else ParamSlots(params[..|params| - 1])[params[|params| - 1] := |params|]
  }

  /** Falling off the end returns, or is an invalid opcode where results are due. */
  function Epilogue(f: Function): seq<Op> {
    if f.results == 0 then [Plain(StackFramePop, 0), Plain(Ret, 0)] else [Plain(Invalid, 0)]
  }

  function FunctionPiece(f: Function): Piece {
    Join(Join(Straight([Plain(StackFramePush, 0)] + ParamOps(|f.params|)),
              GenBlock(f.body, ParamSlots(f.params), |f.params|, true, None)),
         Straight(Epilogue(f)))
  }

  function GenFunction(f: Function): seq<Op> {
    FunctionPiece(f).code
  }

  // ----- does the generator survive, and does it accept the tree? -----

  /** `None` when the generator crashes, otherwise whether it leaves `is_valid` alone. */
  type Verdict = Option<bool>

  function Both(a: Verdict, b: Verdict): Verdict {
    if a.Some? && b.Some? then Some(a.value && b.value) else None
  }

  function ExprVerdict(e: Expr, slots: Slots): Verdict {
    if Compilable(e, slots) then Some(Gen(e, slots).valid) else None
  }

  function DeclVerdict(d: Decl, slots: Slots): Verdict {
    if d.init.Some? then ExprVerdict(d.init.value, slots) else Some(true)
  }

  function DeclsVerdict(ds: seq<Decl>, slots: Slots, index: int): Verdict {
    if ds == [] then Some(true)
    else Both(DeclVerdict(ds[0], slots), DeclsVerdict(ds[1..], slots[ds[0].name := index + 1], index + 1))
  }

  function StmtVerdict(s: Stmt, slots: Slots, index: int): Verdict
    decreases s, 1
  {
    match s
    case Declare(ds) => DeclsVerdict(ds, slots, index)
    case Compound(body) => StmtsVerdict(body, slots, index)
    case If(c, body) => Both(ExprVerdict(c, slots), StmtsVerdict(body, slots, index))
    case IfElse(c, body, els) =>
      Both(Both(ExprVerdict(c, slots), StmtsVerdict(body, slots, index)), StmtVerdict(els, slots, index))
    case While(c, body) => Both(ExprVerdict(c, slots), StmtsVerdict(body, slots, index))
    case Return(e) => ExprVerdict(e, slots)
    case Break => Some(true)
    case Continue => Some(true)
    case Eval(e) => ExprVerdict(e, slots)
  }

  function StmtsVerdict(ss: seq<Stmt>, slots: Slots, index: int): Verdict
    decreases ss, 0
  {
    if ss == [] then Some(true)
    else Both(StmtVerdict(ss[0], slots, index),
              StmtsVerdict(ss[1..], SlotsAfter(ss[0], slots, index), IndexAfter(ss[0], index)))
  }

  function FunctionVerdict(f: Function): Verdict {
    StmtsVerdict(f.body, ParamSlots(f.params), |f.params|)
  }
}
