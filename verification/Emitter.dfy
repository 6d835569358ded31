/**
  The code generator of src/ir.cpp as an object: opcodes are appended to the current
  function, earlier ones are rewritten in place and jumps are patched once their target is
  known. Every method is tied to the functions of `Codegen`.
*/
module Emitter {
  import opened Word64
  import opened Ir
  import opened Source
  import opened Codegen
  import opened Patching

  function Shifted(last: Option<nat>, d: nat): Option<nat> {
    if last.Some? then Some(d + last.value) else None
  }

  /** The part of the generator one expression changes. */
  datatype Output = Output(code: seq<Op>, valid: bool, reverse: seq<Expr>)

  /** `after` is `before` with the code of `e` appended, unless the generator crashed. */
  ghost predicate Emitted(e: Expr, slots: Slots, ok: bool, last: Option<nat>, before: Output, after: Output) {
    && ok == Compilable(e, slots)
    && (ok ==>
          && after.code == before.code + Gen(e, slots).code
          && after.valid == (before.valid && Gen(e, slots).valid)
          && last == Shifted(Gen(e, slots).last, |before.code|)
          && after.reverse == if VisitsList(e, slots) then [] else before.reverse)
  }

  /** The generator survived exactly when it should, and `is_valid` has the right value. */
  ghost predicate Judged(ok: bool, verdict: Verdict, before: bool, after: bool) {
    if ok then Both(Some(before), verdict) == Some(after) else verdict.None?
  }

  lemma JoinStraight(a: Piece, code: seq<Op>)
    ensures Join(a, Straight(code)) == Piece(a.code + code, a.breaks, a.continues)
    ensures Join(a, Straight([])) == a
  {
    assert Shift([], |a.code|) == [];
  }

  lemma ShiftTwice(ps: seq<nat>, qs: seq<nat>, d: nat, k: nat)
    ensures Shift(ps + Shift(qs, k), d) == Shift(ps, d) + Shift(qs, d + k)
  {
  }

  lemma JoinAssociative(a: Piece, b: Piece, c: Piece)
    ensures Join(Join(a, b), c) == Join(a, Join(b, c))
  {
    hide Shift;
    ShiftTwice(b.breaks, c.breaks, |a.code|, |b.code|);
    ShiftTwice(b.continues, c.continues, |a.code|, |b.code|);
  }

  /** Patching one opcode of code that is already surrounded by other code. */
  lemma PatchInside(a: Piece, g: seq<Op>, op: Op, c: Piece, operand: int)
    ensures var before := Join(Join(a, Straight(g + [op])), c);
            var after := Join(Join(a, Straight(g + [op.(operand := operand)])), c);
            var at := |a.code| + |g|;
            && |before.code| == at + 1 + |c.code| && before.code[at] == op
            && Piece(before.code[at := op.(operand := operand)], before.breaks, before.continues) == after
  {
  }

  lemma IfElseJoined(a: Piece, g: seq<Op>, b: Piece, e: Piece)
    ensures Join(Join(Join(Join(a, Straight(g + [Plain(JumpIfNot, |b.code| + 1)])), b),
                      Straight([Plain(Jump, |e.code|)])), e) ==
            Join(a, IfElsePiece(g, b, e))
  {
    var head, over := Straight(g + [Plain(JumpIfNot, |b.code| + 1)]), Straight([Plain(Jump, |e.code|)]);
    JoinAssociative(a, head, b);
    JoinAssociative(Join(a, Join(head, b)), over, e);
    JoinAssociative(a, Join(head, b), Join(over, e));
  }

  function LoopHead(a: Piece, g: seq<Op>, size: nat): seq<Op> {
    a.code + (g + [Plain(JumpIfNot, size + 1)])
  }

  function LoopBack(g: seq<Op>, size: nat): seq<Op> {
    [Plain(Jump, -(|g| + size + 2))]
  }

  /** Code of the loop once the condition jump is patched and the jump back emitted. */
  function LoopUnpatched(a: Piece, g: seq<Op>, raw: Piece): seq<Op> {
    LoopHead(a, g, |raw.code|) + raw.code + LoopBack(g, |raw.code|)
  }

  /** Which jumps the body left pending on top of the two stacks, and where they are. */
  lemma LoopPending(a: Piece, g: seq<Op>, raw: Piece)
    ensures var before := Join(Join(a, Straight(g + [Plain(JumpIfNot, 0)])), raw);
            var n := |LoopHead(a, g, |raw.code|)|;
            && n == |a.code| + |g| + 1
            && |before.code| == n + |raw.code| && before.code[n - 1] == Plain(JumpIfNot, 0)
            && (before.code + LoopBack(g, |raw.code|))[n - 1 := Plain(JumpIfNot, |raw.code| + 1)] ==
               LoopUnpatched(a, g, raw)
            && before.breaks == a.breaks + Shift(raw.breaks, n)
            && before.continues == a.continues + Shift(raw.continues, n)
  {
    assert Shift([], |a.code|) == [];
  }

  lemma LoopJoined(a: Piece, g: seq<Op>, raw: Piece, b: Piece)
    requires Patched(raw, b, 1)
    ensures var n, full := |LoopHead(a, g, |raw.code|)|, LoopUnpatched(a, g, raw);
            && (forall k :: 0 <= k < |raw.continues| ==> Shift(raw.continues, n)[k] < |full|)
            && (forall k :: 0 <= k < |raw.breaks| ==> Shift(raw.breaks, n)[k] < |full|)
            && PatchAll(PatchAll(full, Shift(raw.continues, n), |full|), Shift(raw.breaks, n), |full|) ==
               a.code + LoopCode(g, b.code)
  {
    PatchedLength(raw, b, 1);
    hide Patched, PatchAll;
    var head, back := LoopHead(a, g, |raw.code|), LoopBack(g, |raw.code|);
    LoopPatched(head, raw, b, back);
    AppendTail(a.code, g + [Plain(JumpIfNot, |raw.code| + 1)], b.code);
    AppendTail(a.code, g + [Plain(JumpIfNot, |raw.code| + 1)] + b.code, back);
  }

  lemma {:induction false} ParamOpsNext(n: nat)
    ensures ParamOps(n + 1) == ParamOps(n) + [Plain(Alloc, 1)] + [Plain(Store, 0)]
    ensures ParamOps(n + 1) == ParamOps(n) + [Plain(Alloc, 1), Plain(Store, 0)]
  {
    if n > 0 {
      ParamOpsNext(n - 1);
    }
  }

  lemma JoinEmpty(a: Piece, b: Piece)
    requires a.code == []
    ensures Join(a, b).code == b.code
  {
  }

  lemma UpdateTail(pre: seq<Op>, c: seq<Op>, i: nat, op: Op)
    requires i < |c|
    ensures (pre + c)[|pre| + i := op] == pre + c[i := op] && (pre + c)[|pre| + i] == c[i]
  {
  }

  lemma AppendTail(pre: seq<Op>, a: seq<Op>, b: seq<Op>)
    ensures (pre + a) + b == pre + (a + b)
  {
  }

  lemma ShortCircuitPatched(base: seq<Op>, pre: seq<Op>, full: seq<Op>, a: Emit, b: Emit, jump: OpCode, end: nat)
    requires WellEmitted(a) && WellEmitted(b)
    requires pre == base + a.code && end == |pre| + 1
    requires full == pre + [Plain(Clone, 0), Plain(jump, 0), Plain(OpCode.Pop, 0)] + b.code
    ensures full[end := full[end].(operand := |full| - 1 - end)] == base + GenShortCircuit(jump, a, b).code
  {
    assert full[end] == Plain(jump, 0);
    assert |full| - 1 - end == 1 + |b.code|;
  }

  lemma ShortCircuitCase(e: Expr, jump: OpCode, a: Expr, b: Expr, slots: Slots)
    requires (jump == JumpIf && e == LogOr(a, b)) || (jump == JumpIfNot && e == LogAnd(a, b))
    ensures Gen(e, slots) == GenShortCircuit(jump, Gen(a, slots), Gen(b, slots))
    ensures Compilable(e, slots) == (Compilable(a, slots) && Compilable(b, slots))
    ensures VisitsList(e, slots) == (VisitsList(a, slots) || VisitsList(b, slots))
  {
    hide GenShortCircuit;
  }

  lemma ListUnfold(es: seq<Expr>, slots: Slots, k: nat)
    requires 0 < k <= |es|
    ensures var last, init := Gen(es[k - 1], slots), GenList(es[..k - 1], slots);
            && GenList(es[..k], slots).code == last.code + init.code
            && GenList(es[..k], slots).valid == (last.valid && init.valid)
    ensures CompilableList(es[..k], slots) ==
            (Compilable(es[k - 1], slots) && (k > 1 ==> !VisitsList(es[k - 1], slots))
             && CompilableList(es[..k - 1], slots))
  {
    assert es[..k][..k - 1] == es[..k - 1];
  }

  lemma ListEnds(es: seq<Expr>, slots: Slots)
    ensures es[..|es|] == es && GenList(es[..0], slots) == Emit([], None, true) && CompilableList(es[..0], slots)
    ensures Gen(List(es), slots) == GenList(es, slots) && VisitsList(List(es), slots)
    ensures Compilable(List(es), slots) == CompilableList(es, slots)
  {
    assert es[..|es|] == es;
  }

  /** What one target contributes: its rewritten code and whether it is the last one compiled. */
  function TargetCode(e: Expr, slots: Slots): seq<Op> {
    var g := Gen(e, slots);
    if g.last.None? then g.code
    else if EndsInLoad(e, slots) then Rewrite(g, Store).code
    else Rewrite(g, TargetOp(g.code[g.last.value].operation)).code + [Plain(Store, 0)]
  }

  lemma TargetsUnfold(targets: seq<Expr>, slots: Slots, i: nat)
    requires i < |targets|
    ensures var g, rest, stop := Gen(targets[i], slots), targets[i + 1..], EndsInLoad(targets[i], slots);
            && GenTargets(targets[i..], slots).code ==
               TargetCode(targets[i], slots) + (if stop then [] else GenTargets(rest, slots).code)
            && GenTargets(targets[i..], slots).valid ==
               (g.valid && g.last.Some? && (stop || GenTargets(rest, slots).valid))
            && CompilableTargets(targets[i..], slots) ==
               (Compilable(targets[i], slots) && (stop || CompilableTargets(rest, slots)))
            && VisitsListTargets(targets[i..], slots) ==
               (VisitsList(targets[i], slots) || (!stop && VisitsListTargets(rest, slots)))
  {
    assert targets[i..][1..] == targets[i + 1..];
  }

  const GLOBALS_FUNCTION: string := "__internal_compile_globals"

  /** Code of the function that initialises no globals. */
  function NoGlobals(): seq<Op> {
    [Plain(StackFramePush, 0), Plain(StackFramePop, 0), Plain(Ret, 0)]
  }

  class State {
    var code: seq<Op>
    var slots: Slots
    var stackIndex: int
    var breakStmt: seq<nat>
    var continueStmt: seq<nat>
    var reverse: seq<Expr>
    var valid: bool

    constructor ()
      ensures code == [] && slots == map[] && stackIndex == 0
      ensures breakStmt == [] && continueStmt == [] && reverse == [] && valid
    {
      code, slots, stackIndex := [], map[], 0;
      breakStmt, continueStmt, reverse, valid := [], [], [], true;
    }

    ghost function Out(): Output
      reads this`code, this`valid, this`reverse
    {
      Output(code, valid, reverse)
    }

    method EmitOp(op: Op) returns (index: nat)
      modifies this`code
      ensures code == old(code) + [op] && index == |old(code)|
    {
      index := |code|;
      code := code + [op];
    }

    /** Overwrite the operation of an opcode emitted earlier. */
    method RewriteOp(at: nat, operation: OpCode)
      requires at < |code|
      modifies this`code
      ensures code == old(code)[at := old(code)[at].(operation := operation)]
    {
      code := code[at := code[at].(operation := operation)];
    }

    /** Overwrite the operand of an opcode emitted earlier. */
    method PatchOperand(at: nat, operand: int)
      requires at < |code|
      modifies this`code
      ensures code == old(code)[at := old(code)[at].(operand := operand)]
    {
      code := code[at := code[at].(operand := operand)];
    }

    method CompileExpression(e: Expr) returns (ok: bool, last: Option<nat>)
      modifies this`code, this`valid, this`reverse
      ensures Emitted(e, slots, ok, last, old(Out()), Out())
      decreases e, 2
    {
      last := None;
      match e
      case Const(v) =>
        ok := true;
        var _ := EmitOp(Plain(PushSign, v));
      case Ident(x) =>
        ok := true;
        var at := EmitOp(if x in slots then Op(PushStack, slots[x], x) else Op(PushGlobal, 0, x));
        last := Some(at);
      case Unary(op, a) =>
        ok, last := CompileExpression(a);
        if ok {
          var _ := EmitOp(Plain(OpCode.Unary(op), 0));
        }
      case Binary(_, _, _) => ok, last := CompileBinary(e);
      case LogOr(a, b) => ok, last := CompileShortCircuit(e, JumpIf, a, b);
      case LogAnd(a, b) => ok, last := CompileShortCircuit(e, JumpIfNot, a, b);
      case Ref(_) => ok, last := CompileRef(e);
      case Deref(a) =>
        ok, last := CompileExpression(a);
        if ok {
          var at := EmitOp(Plain(Load, 0));
          last := Some(at);
        }
      case Assign(_, _) => ok, last := CompileAssign(e);
      case Swap(_, _) => ok, last := CompileSwap(e);
      case Call(_, _) => ok, last := CompileCall(e);
      case List(es) => ok := CompileList(es);
      case Empty => ok := true;
    }

    method CompileRef(e: Expr) returns (ok: bool, last: Option<nat>)
      requires e.Ref?
      modifies this`code, this`valid, this`reverse
      ensures Emitted(e, slots, ok, last, old(Out()), Out())
      decreases e, 1
    {
      hide AddressOp;
      ok, last := CompileExpression(e.operand);
      if ok {
        if last.None? {
          valid := false;
        } else {
          RewriteOp(last.value, AddressOp(code[last.value].operation));
        }
      }
    }

    method CompileBinary(e: Expr) returns (ok: bool, last: Option<nat>)
      requires e.Binary?
      modifies this`code, this`valid, this`reverse
      ensures Emitted(e, slots, ok, last, old(Out()), Out())
      decreases e, 1
    {
      ghost var ga, gb := Gen(e.left, slots), Gen(e.right, slots);
      ok, last := CompileExpression(e.right);
      if ok {
        ok, last := CompileExpression(e.left);
      }
      if ok {
        AppendTail(old(code), gb.code, ga.code);
        AppendTail(old(code), gb.code + ga.code, [Plain(OpCode.Binary(e.bin), 0)]);
        var _ := EmitOp(Plain(OpCode.Binary(e.bin), 0));
      }
    }

    /** The jump over the right operand is patched after that operand was compiled. */
    method CompileShortCircuit(e: Expr, jump: OpCode, a: Expr, b: Expr) returns (ok: bool, last: Option<nat>)
      requires (jump == JumpIf && e == LogOr(a, b)) || (jump == JumpIfNot && e == LogAnd(a, b))
      modifies this`code, this`valid, this`reverse
      ensures Emitted(e, slots, ok, last, old(Out()), Out())
      decreases e, 1
    {
      hide Gen, GenShortCircuit, Compilable, VisitsList;
      ghost var ga, gb := Gen(a, slots), Gen(b, slots);
      ShortCircuitCase(e, jump, a, b, slots);
      ok, last := CompileExpression(a);
      if ok {
        ghost var pre := code;
        var _ := EmitOp(Plain(Clone, 0));
        var end := EmitOp(Plain(jump, 0));
        var _ := EmitOp(Plain(OpCode.Pop, 0));
        assert code == pre + ([Plain(Clone, 0), Plain(jump, 0), Plain(OpCode.Pop, 0)]);
        var unused: Option<nat>;
        ok, unused := CompileExpression(b);
        if ok {
          ShortCircuitPatched(old(code), pre, code, ga, gb, jump, end);
          PatchOperand(end, |code| - 1 - end);
        }
      }
    }

    /** Turn the code of an assignment target, just emitted, into a store. */
    method StoreTo(last: Option<nat>, ghost pre: seq<Op>, ghost l: Emit)
      requires WellEmitted(l) && code == pre + l.code && last == Shifted(l.last, |pre|)
      modifies this`code, this`valid
      ensures code == pre + GenAssign(l).code
      ensures valid == (old(valid) && l.last.Some?)
    {
      if last.None? {
        valid := false;
      } else {
        var operation := code[last.value].operation;
        ghost var i := l.last.value;
        ghost var op1 := l.code[i].(operation := TargetOp(operation));
        UpdateTail(pre, l.code, i, op1);
        RewriteOp(last.value, TargetOp(operation));
        if operation == Load {
          UpdateTail(pre, l.code[i := op1], i, op1.(operand := 0));
          PatchOperand(last.value, 0);
        } else if operation == PushGlobal || operation == PushStack {
          AppendTail(pre, l.code[i := op1], [Plain(Store, 0)]);
          var _ := EmitOp(Plain(Store, 0));
        }
      }
    }

    method CompileAssign(e: Expr) returns (ok: bool, last: Option<nat>)
      requires e.Assign?
      modifies this`code, this`valid, this`reverse
      ensures Emitted(e, slots, ok, last, old(Out()), Out())
      decreases e, 1
    {
      hide GenAssign;
      ghost var gl, gb := Gen(e.left, slots), Gen(e.right, slots);
      ok, last := CompileExpression(e.right);
      if ok {
        ok, last := CompileExpression(e.left);
      }
      if ok {
        StoreTo(last, old(code) + gb.code, gl);
        AppendTail(old(code), gb.code, GenAssign(gl).code);
      }
    }

    method CompileCall(e: Expr) returns (ok: bool, last: Option<nat>)
      requires e.Call?
      modifies this`code, this`valid, this`reverse
      ensures Emitted(e, slots, ok, last, old(Out()), Out())
      decreases e, 1
    {
      ghost var ga, gc := Gen(e.args, slots), Gen(e.callee, slots);
      ok, last := CompileExpression(e.args);
      if ok {
        ok, last := CompileExpression(e.callee);
      }
      if ok {
        if last.None? {
          ok := false;
        } else {
          ghost var i := gc.last.value;
          UpdateTail(old(code) + ga.code, gc.code, i, gc.code[i].(operation := OpCode.Call));
          AppendTail(old(code), ga.code, Rewrite(gc, OpCode.Call).code);
          RewriteOp(last.value, OpCode.Call);
        }
      }
    }

    /** All elements are pushed on the shared stack and popped in reverse; an element that
        nests a list clears the stack, so the next pop yields a null node. */
    method CompileList(es: seq<Expr>) returns (ok: bool)
      modifies this`code, this`valid, this`reverse
      ensures Emitted(List(es), slots, ok, None, old(Out()), Out())
      decreases es, 1
    {
      hide Gen, GenList, Compilable, CompilableList, VisitsList;
      ListEnds(es, slots);
      reverse := [];
      for i := 0 to |es|
        invariant reverse == es[..i] && code == old(code) && valid == old(valid)
      {
        reverse := reverse + [es[i]];
      }
      var left := |es|;
      while left > 0
        invariant 0 <= left <= |es|
        invariant reverse == es[..left] || (reverse == [] && !CompilableList(es, slots))
        invariant reverse == es[..left] ==> CompilableList(es, slots) == CompilableList(es[..left], slots)
        invariant code + GenList(es[..left], slots).code == old(code) + GenList(es, slots).code
        invariant (valid && GenList(es[..left], slots).valid) == (old(valid) && GenList(es, slots).valid)
      {
        if reverse == [] {
          return false;
        }
        var node := reverse[|reverse| - 1];
        reverse := reverse[..|reverse| - 1];
        ListUnfold(es, slots, left);
        ghost var before := code;
        var compiled, last := CompileExpression(node);
        if !compiled {
          return false;
        }
        AppendTail(before, Gen(node, slots).code, GenList(es[..left - 1], slots).code);
        left := left - 1;
      }
      ok := true;
    }

    /** Targets are turned into stores one by one; a `@e` target leaves the loop early. */
    method CompileSwap(e: Expr) returns (ok: bool, last: Option<nat>)
      requires e.Swap?
      modifies this`code, this`valid, this`reverse
      ensures Emitted(e, slots, ok, last, old(Out()), Out())
      decreases e, 1
    {
      ghost var gb := Gen(e.right, slots);
      ok, last := CompileExpression(e.right);
      if ok {
        AppendTail(old(code), gb.code, GenTargets(e.targets, slots).code);
        ok := CompileTargets(e.targets);
      }
      last := None;
    }

    method CompileTargets(targets: seq<Expr>) returns (ok: bool)
      modifies this`code, this`valid, this`reverse
      ensures ok == CompilableTargets(targets, slots)
      ensures ok ==> code == old(code) + GenTargets(targets, slots).code
      ensures ok ==> valid == (old(valid) && GenTargets(targets, slots).valid)
      ensures ok ==> reverse == if VisitsListTargets(targets, slots) then [] else old(reverse)
      decreases targets, 1
    {
      hide Gen, GenTargets, Compilable, CompilableTargets, VisitsList, VisitsListTargets, EndsInLoad;
      var i := 0;
      assert targets[0..] == targets;
      while i < |targets|
        invariant 0 <= i <= |targets|
        invariant CompilableTargets(targets, slots) == CompilableTargets(targets[i..], slots)
        invariant code + GenTargets(targets[i..], slots).code == old(code) + GenTargets(targets, slots).code
        invariant (valid && GenTargets(targets[i..], slots).valid) == (old(valid) && GenTargets(targets, slots).valid)
        invariant reverse == [] || reverse == old(reverse)
        invariant (reverse == [] || VisitsListTargets(targets[i..], slots)) ==
                  (old(reverse) == [] || VisitsListTargets(targets, slots))
      {
        ghost var before := code;
        TargetsUnfold(targets, slots, i);
        var compiled, stop := CompileTarget(targets[i]);
        if !compiled {
          return false;
        }
        if stop {
          return true;
        }
        AppendTail(before, TargetCode(targets[i], slots), GenTargets(targets[i + 1..], slots).code);
        i := i + 1;
      }
      NoTargets(targets, slots);
      ok := true;
    }

    /** Rewrite the last opcode of a target; all but a `@e` target need a store behind it. */
    method MakeTarget(at: nat, ghost pre: seq<Op>, ghost g: Emit) returns (stop: bool)
      requires WellEmitted(g) && g.last.Some? && code == pre + g.code && at == |pre| + g.last.value
      modifies this`code
      ensures stop == (g.code[g.last.value].operation == Load)
      ensures code == pre + (if stop then Rewrite(g, Store).code
                             else Rewrite(g, TargetOp(g.code[g.last.value].operation)).code + [Plain(Store, 0)])
    {
      var operation := code[at].operation;
      stop := operation == Load;
      ghost var op := g.code[g.last.value].(operation := TargetOp(operation));
      UpdateTail(pre, g.code, g.last.value, op);
      RewriteOp(at, TargetOp(operation));
      if !stop {
        AppendTail(pre, g.code[g.last.value := op], [Plain(Store, 0)]);
        var _ := EmitOp(Plain(Store, 0));
      }
    }

    method CompileTarget(e: Expr) returns (ok: bool, stop: bool)
      modifies this`code, this`valid, this`reverse
      ensures ok == Compilable(e, slots)
      ensures ok ==> stop == EndsInLoad(e, slots)
      ensures ok ==> code == old(code) + TargetCode(e, slots)
      ensures ok ==> valid == (old(valid) && Gen(e, slots).valid && Gen(e, slots).last.Some?)
      ensures ok ==> reverse == if VisitsList(e, slots) then [] else old(reverse)
      decreases e, 3
    {
      hide Gen, Compilable, VisitsList;
      ghost var g := Gen(e, slots);
      stop := false;
      var last: Option<nat>;
      ok, last := CompileExpression(e);
      if ok {
        if last.None? {
          valid := false;
        } else {
          stop := MakeTarget(last.value, old(code), g);
        }
      }
    }

    // ----- statements -----

    /** Code and pending jumps of the current function. */
    ghost function Emission(): Piece
      reads this`code, this`breakStmt, this`continueStmt
    {
      Piece(code, breakStmt, continueStmt)
    }

    method CompileVariable(d: Decl) returns (ok: bool)
      modifies this`code, this`valid, this`reverse, this`slots, this`stackIndex
      ensures Judged(ok, DeclVerdict(d, old(slots)), old(valid), valid)
      ensures ok ==> code == old(code) + GenDecl(d, old(slots))
      ensures ok ==> stackIndex == old(stackIndex) + 1 && slots == old(slots)[d.name := stackIndex]
    {
      ok := true;
      if d.init.Some? {
        var last: Option<nat>;
        ok, last := CompileExpression(d.init.value);
      } else {
        var _ := EmitOp(Plain(PushUnsign, 0));
      }
      if ok {
        ghost var value := if d.init.Some? then Gen(d.init.value, slots).code else [Plain(PushUnsign, 0)];
        AppendTail(old(code), value, [Plain(Alloc, 1), Plain(Store, 0)]);
        assert [Plain(Alloc, 1), Plain(Store, 0)] == [Plain(Alloc, 1)] + [Plain(Store, 0)];
        AppendTail(old(code) + value, [Plain(Alloc, 1)], [Plain(Store, 0)]);
        stackIndex := stackIndex + 1;
        slots := slots[d.name := stackIndex];
        var _ := EmitOp(Plain(Alloc, 1));
        var _ := EmitOp(Plain(Store, 0));
      }
    }

    method CompileVariables(ds: seq<Decl>) returns (ok: bool, count: nat)
      modifies this`code, this`valid, this`reverse, this`slots, this`stackIndex
      ensures Judged(ok, DeclsVerdict(ds, old(slots), old(stackIndex)), old(valid), valid)
      ensures ok ==> code == old(code) + GenDecls(ds, old(slots), old(stackIndex))
      ensures ok ==> slots == SlotsAfterDecls(ds, old(slots), old(stackIndex))
      ensures ok ==> stackIndex == old(stackIndex) + |ds| && count == |ds|
    {
      hide GenDecl, DeclVerdict;
      count := 0;
      assert ds[0..] == ds;
      while count < |ds|
        invariant 0 <= count <= |ds| && stackIndex == old(stackIndex) + count
        invariant Both(Some(valid), DeclsVerdict(ds[count..], slots, stackIndex)) ==
                  Both(Some(old(valid)), DeclsVerdict(ds, old(slots), old(stackIndex)))
        invariant code + GenDecls(ds[count..], slots, stackIndex) ==
                  old(code) + GenDecls(ds, old(slots), old(stackIndex))
        invariant SlotsAfterDecls(ds[count..], slots, stackIndex) == SlotsAfterDecls(ds, old(slots), old(stackIndex))
      {
        ghost var d, rest, before := ds[count], ds[count + 1..], code;
        assert ds[count..][1..] == rest;
        ghost var slots' := slots[d.name := stackIndex + 1];
        AppendTail(before, GenDecl(d, slots), GenDecls(rest, slots', stackIndex + 1));
        ok := CompileVariable(ds[count]);
        if !ok {
          return;
        }
        count := count + 1;
      }
      ok := true;
    }

    /** Returns how many cells the enclosing block has to free for the statement. */
    method CompileStatement(s: Stmt, live: nat) returns (ok: bool, count: nat)
      modifies this
      ensures Judged(ok, StmtVerdict(s, old(slots), old(stackIndex)), old(valid), valid)
      ensures ok ==> Emission() == Join(old(Emission()), GenStmt(s, old(slots), old(stackIndex), live, None))
      ensures ok ==> slots == SlotsAfter(s, old(slots), old(stackIndex)) && stackIndex == IndexAfter(s, old(stackIndex))
      ensures ok ==> count == Declared(s)
      decreases s, 3
    {
      count := 0;
      match s
      case Declare(ds) =>
        ok, count := CompileVariables(ds);
        if ok {
          JoinStraight(old(Emission()), GenDecls(ds, old(slots), old(stackIndex)));
        }
      case Compound(body) => ok := CompileBlock(body, false);
      case If(_, _) => ok := CompileIf(s, live);
      case IfElse(_, _, _) => ok := CompileIfElse(s, live);
      case While(_, _) => ok := CompileWhile(s, live);
      case Return(e) => ok := CompileReturn(s, live);
      case Break => ok := CompileJumpOut(s, live);
      case Continue => ok := CompileJumpOut(s, live);
      case Eval(e) =>
        var last: Option<nat>;
        ok, last := CompileExpression(e);
        if ok {
          JoinStraight(old(Emission()), Gen(e, slots).code);
        }
    }

    method EmitFree(live: nat)
      modifies this`code
      ensures code == old(code) + FreeOps(live)
    {
      if live != 0 {
        var _ := EmitOp(Plain(Free, live));
      }
    }

    method CompileReturn(s: Stmt, live: nat) returns (ok: bool)
      requires s.Return?
      modifies this`code, this`valid, this`reverse
      ensures Judged(ok, StmtVerdict(s, slots, stackIndex), old(valid), valid)
      ensures ok ==> Emission() == Join(old(Emission()), GenStmt(s, slots, stackIndex, live, None))
      decreases s, 2
    {
      var last: Option<nat>;
      ok, last := CompileExpression(s.value);
      if ok {
        ghost var g := Gen(s.value, slots).code;
        EmitFree(live);
        var _ := EmitOp(Plain(StackFramePop, 0));
        var _ := EmitOp(Plain(Ret, 0));
        assert code == old(code) + (g + FreeOps(live) + [Plain(StackFramePop, 0), Plain(Ret, 0)]);
        JoinStraight(old(Emission()), g + FreeOps(live) + [Plain(StackFramePop, 0), Plain(Ret, 0)]);
      }
    }

    /** `break` and `continue`: a jump whose target the enclosing loop fills in. */
    method CompileJumpOut(s: Stmt, live: nat) returns (ok: bool)
      requires s.Break? || s.Continue?
      modifies this`code, this`breakStmt, this`continueStmt
      ensures Judged(ok, StmtVerdict(s, slots, stackIndex), valid, valid)
      ensures ok ==> Emission() == Join(old(Emission()), GenStmt(s, slots, stackIndex, live, None))
      decreases s, 2
    {
      EmitFree(live);
      var at := EmitOp(Plain(Jump, 0));
      if s.Break? {
        breakStmt := breakStmt + [at];
      } else {
        continueStmt := continueStmt + [at];
      }
      assert Shift([|FreeOps(live)|], |old(code)|) == [at];
      ok := true;
    }

    method CompileCondition(e: Expr) returns (ok: bool, branch: nat)
      modifies this`code, this`valid, this`reverse
      ensures Judged(ok, ExprVerdict(e, slots), old(valid), valid)
      ensures ok ==> code == old(code) + Gen(e, slots).code + [Plain(JumpIfNot, 0)]
      ensures ok ==> branch == |old(code)| + |Gen(e, slots).code|
      decreases e, 3
    {
      branch := 0;
      var last: Option<nat>;
      ok, last := CompileExpression(e);
      if ok {
        branch := EmitOp(Plain(JumpIfNot, 0));
      }
    }

    method CompileBlock(body: seq<Stmt>, frameFree: bool) returns (ok: bool)
      modifies this
      ensures Judged(ok, StmtsVerdict(body, old(slots), old(stackIndex)), old(valid), valid)
      ensures ok ==> Emission() == Join(old(Emission()), GenBlock(body, old(slots), old(stackIndex), frameFree, None))
      ensures ok ==> slots == old(slots) && stackIndex == old(stackIndex)
      decreases body, 2
    {
      hide GenStmt, StmtVerdict, SlotsAfter, IndexAfter, Join;
      var slots0, si := slots, stackIndex;
      var live: nat := 0;
      var i := 0;
      assert body[0..] == body;
      while i < |body|
        invariant 0 <= i <= |body|
        invariant live + DeclaredAll(body[i..]) == DeclaredAll(body)
        invariant Both(Some(valid), StmtsVerdict(body[i..], slots, stackIndex)) ==
                  Both(Some(old(valid)), StmtsVerdict(body, slots0, si))
        invariant Join(Emission(), GenStmts(body[i..], slots, stackIndex, live, None)) ==
                  Join(old(Emission()), GenStmts(body, slots0, si, 0, None))
      {
        ghost var s, rest := body[i], body[i + 1..];
        assert body[i..][1..] == rest;
        ghost var slots', index' := SlotsAfter(s, slots, stackIndex), IndexAfter(s, stackIndex);
        JoinAssociative(Emission(), GenStmt(s, slots, stackIndex, live, None),
                        GenStmts(rest, slots', index', live + Declared(s), None));
        var count: nat;
        ok, count := CompileStatement(body[i], live);
        if !ok {
          return;
        }
        live := live + count;
        i := i + 1;
      }
      JoinStraight(Emission(), []);
      var tail := if frameFree then [] else FreeOps(live);
      JoinAssociative(old(Emission()), GenStmts(body, slots0, si, 0, None), Straight(tail));
      JoinStraight(Emission(), tail);
      if !frameFree {
        EmitFree(live);
      }
      stackIndex := si;
      slots := slots0;
      ok := true;
    }

    method CompileIf(s: Stmt, live: nat) returns (ok: bool)
      requires s.If?
      modifies this
      ensures Judged(ok, StmtVerdict(s, old(slots), old(stackIndex)), old(valid), valid)
      ensures ok ==> Emission() == Join(old(Emission()), GenStmt(s, old(slots), old(stackIndex), live, None))
      ensures ok ==> slots == old(slots) && stackIndex == old(stackIndex)
      decreases s, 2
    {
      hide GenBlock, StmtsVerdict, Join, ExprVerdict;
      ghost var start, g, b := Emission(), Gen(s.cond, slots).code, GenBlock(s.body, slots, stackIndex, false, None);
      var branch;
      ok, branch := CompileCondition(s.cond);
      if ok {
        JoinStraight(start, g + [Plain(JumpIfNot, 0)]);
        AppendTail(start.code, g, [Plain(JumpIfNot, 0)]);
        ok := CompileBlock(s.body, false);
      }
      if ok {
        PatchInside(start, g, Plain(JumpIfNot, 0), b, |b.code|);
        PatchOperand(branch, |code| - 1 - branch);
        JoinAssociative(start, Straight(g + [Plain(JumpIfNot, |b.code|)]), b);
      }
    }

    method CompileIfElse(s: Stmt, live: nat) returns (ok: bool)
      requires s.IfElse?
      modifies this
      ensures Judged(ok, StmtVerdict(s, old(slots), old(stackIndex)), old(valid), valid)
      ensures ok ==> Emission() == Join(old(Emission()), GenStmt(s, old(slots), old(stackIndex), live, None))
      ensures ok ==> slots == SlotsAfter(s, old(slots), old(stackIndex)) && stackIndex == IndexAfter(s, old(stackIndex))
      decreases s, 2
    {
      hide GenBlock, StmtsVerdict, Join, ExprVerdict, Gen;
      ghost var start, g := Emission(), Gen(s.cond, slots).code;
      ghost var b, e :=
        GenBlock(s.body, slots, stackIndex, false, None), GenStmt(s.otherwise, slots, stackIndex, 0, None);
      var branch;
      ok, branch := CompileCondition(s.cond);
      if ok {
        JoinStraight(start, g + [Plain(JumpIfNot, 0)]);
        AppendTail(start.code, g, [Plain(JumpIfNot, 0)]);
        ok := CompileBlock(s.body, false);
      }
      if ok {
        PatchInside(start, g, Plain(JumpIfNot, 0), b, |b.code| + 1);
        var end := |code|;
        PatchOperand(branch, end - branch);
        ghost var middle := Emission();
        JoinStraight(middle, [Plain(Jump, 0)]);
        end := EmitOp(Plain(Jump, 0));
        var count: nat;
        ok, count := CompileStatement(s.otherwise, 0);
        if ok {
          assert [] + [Plain(Jump, 0)] == [Plain(Jump, 0)] && [] + [Plain(Jump, |e.code|)] == [Plain(Jump, |e.code|)];
          PatchInside(middle, [], Plain(Jump, 0), e, |e.code|);
          PatchOperand(end, |code| - 1 - end);
          IfElseJoined(start, g, b, e);
        }
      }
    }

    /** Pop and patch the pending jumps above `start` to land behind the emitted code. */
    method PatchBreaks(start: nat)
      requires start <= |breakStmt|
      requires forall k :: start <= k < |breakStmt| ==> breakStmt[k] < |code|
      modifies this`code, this`breakStmt
      ensures code == PatchAll(old(code), old(breakStmt)[start..], |old(code)|)
      ensures breakStmt == old(breakStmt)[..start]
    {
      assert breakStmt[..|breakStmt|] == breakStmt;
      while start < |breakStmt|
        invariant start <= |breakStmt| <= |old(breakStmt)| && breakStmt == old(breakStmt)[..|breakStmt|]
        invariant |code| == |old(code)|
        invariant PatchAll(code, breakStmt[start..], |code|) ==
                  PatchAll(old(code), old(breakStmt)[start..], |old(code)|)
      {
        var at := breakStmt[|breakStmt| - 1];
        assert breakStmt[start..][..|breakStmt| - start - 1] == breakStmt[..|breakStmt| - 1][start..];
        breakStmt := breakStmt[..|breakStmt| - 1];
        PatchOperand(at, |code| - 1 - at);
      }
    }

    method PatchContinues(start: nat)
      requires start <= |continueStmt|
      requires forall k :: start <= k < |continueStmt| ==> continueStmt[k] < |code|
      modifies this`code, this`continueStmt
      ensures code == PatchAll(old(code), old(continueStmt)[start..], |old(code)|)
      ensures continueStmt == old(continueStmt)[..start]
    {
      assert continueStmt[..|continueStmt|] == continueStmt;
      while start < |continueStmt|
        invariant start <= |continueStmt| <= |old(continueStmt)| && continueStmt == old(continueStmt)[..|continueStmt|]
        invariant |code| == |old(code)|
        invariant PatchAll(code, continueStmt[start..], |code|) ==
                  PatchAll(old(code), old(continueStmt)[start..], |old(code)|)
      {
        var at := continueStmt[|continueStmt| - 1];
        assert continueStmt[start..][..|continueStmt| - start - 1] == continueStmt[..|continueStmt| - 1][start..];
        continueStmt := continueStmt[..|continueStmt| - 1];
        PatchOperand(at, |code| - 1 - at);
      }
    }

    /** Only the jumps pushed while the body was compiled are popped: they belong to this loop. */
    method CompileWhile(s: Stmt, live: nat) returns (ok: bool)
      requires s.While?
      modifies this
      ensures Judged(ok, StmtVerdict(s, old(slots), old(stackIndex)), old(valid), valid)
      ensures ok ==> Emission() == Join(old(Emission()), GenStmt(s, old(slots), old(stackIndex), live, None))
      ensures ok ==> slots == old(slots) && stackIndex == old(stackIndex)
      decreases s, 2
    {
      hide GenBlock, StmtsVerdict, Join, ExprVerdict, Gen, LoopCode, Patched, PatchAll, LoopUnpatched;
      ghost var start, g := Emission(), Gen(s.cond, slots).code;
      ghost var raw, b :=
        GenBlock(s.body, slots, stackIndex, false, None), GenBlock(s.body, slots, stackIndex, false, Some(1));
      var pos := |code|;
      var startContinue, startBreak := |continueStmt|, |breakStmt|;
      var end;
      ok, end := CompileCondition(s.cond);
      if ok {
        JoinStraight(start, g + [Plain(JumpIfNot, 0)]);
        AppendTail(start.code, g, [Plain(JumpIfNot, 0)]);
        ok := CompileBlock(s.body, false);
      }
      if ok {
        PatchedBlock(s.body, slots, stackIndex, false, 1);
        LoopPending(start, g, raw);
        LoopJoined(start, g, raw, b);
        var _ := EmitOp(Plain(Jump, -((|code| + 1) - pos)));
        PatchOperand(end, |code| - end - 1);
        assert code == LoopUnpatched(start, g, raw);
        PatchContinues(startContinue);
        PatchBreaks(startBreak);
        JoinStraight(start, LoopCode(g, b.code));
      }
    }

    /** One parameter: a fresh cell that takes the value on top of the exec stack. */
    method CompileParameter(x: string)
      modifies this`code, this`slots, this`stackIndex
      ensures code == old(code) + [Plain(Alloc, 1), Plain(Store, 0)]
      ensures stackIndex == old(stackIndex) + 1 && slots == old(slots)[x := stackIndex]
    {
      stackIndex := stackIndex + 1;
      slots := slots[x := stackIndex];
      var _ := EmitOp(Plain(Alloc, 1));
      var _ := EmitOp(Plain(Store, 0));
    }

    method CompileFunction(f: Function) returns (ok: bool)
      modifies this
      ensures Judged(ok, FunctionVerdict(f), old(valid), valid)
      ensures ok ==> code == GenFunction(f)
      ensures ok ==> Emission() == Join(Piece([], old(breakStmt), old(continueStmt)), FunctionPiece(f))
    {
      hide GenBlock, StmtsVerdict, Join;
      code, slots, stackIndex := [], map[], 0;
      ghost var start := Emission();
      var _ := EmitOp(Plain(StackFramePush, 0));
      for i := 0 to |f.params|
        invariant code == [Plain(StackFramePush, 0)] + ParamOps(i)
        invariant stackIndex == i && slots == ParamSlots(f.params[..i])
        invariant breakStmt == start.breaks && continueStmt == start.continues && valid == old(valid)
      {
        ParamOpsNext(i);
        assert f.params[..i + 1][..i] == f.params[..i];
        CompileParameter(f.params[i]);
      }
      assert f.params[..|f.params|] == f.params;
      ghost var head, b := code, GenBlock(f.body, slots, stackIndex, true, None);
      JoinStraight(start, head);
      assert [] + head == head;
      ok := CompileBlock(f.body, true);
      if ok {
        JoinAssociative(start, Straight(head), b);
        JoinStraight(Emission(), Epilogue(f));
        JoinAssociative(start, Join(Straight(head), b), Straight(Epilogue(f)));
        if f.results == 0 {
          var _ := EmitOp(Plain(StackFramePop, 0));
          var _ := EmitOp(Plain(Ret, 0));
          assert [Plain(StackFramePop, 0), Plain(Ret, 0)] == [Plain(StackFramePop, 0)] + [Plain(Ret, 0)];
          AppendTail(Join(Join(start, Straight(head)), b).code, [Plain(StackFramePop, 0)], [Plain(Ret, 0)]);
        } else {
          var _ := EmitOp(Plain(Invalid, 0));
        }
        JoinEmpty(start, FunctionPiece(f));
      }
    }

    method CompileInto(p: Program, f: string, ghost done: set<string>, image: Image) returns (ok: bool, image': Image)
      requires f in p && ImageOf(p, done, image)
      modifies this
      ensures ok == FunctionVerdict(p[f]).Some?
      ensures ok ==> ImageOf(p, done + {f}, image') && valid == (old(valid) && FunctionVerdict(p[f]) == Some(true))
    {
      hide ImageOf;
      ok := CompileFunction(p[f]);
      image' := image[f := code];
      if ok {
        ImageGrows(p, done, image, f);
      }
    }

    method CompileGlobals()
      modifies this`code
      ensures code == NoGlobals()
    {
      code := [];
      var _ := EmitOp(Plain(StackFramePush, 0));
      var _ := EmitOp(Plain(StackFramePop, 0));
      var _ := EmitOp(Plain(Ret, 0));
    }

    /** The image of a program holds the code of each of its functions, and a function that
        initialises the globals, of which there are none. */
    method CompileProgram(p: Program) returns (ok: bool, image: Image)
      modifies this
      ensures ok <==> forall f :: f in p ==> FunctionVerdict(p[f]).Some?
      ensures ok ==> ImageOf(p, p.Keys, image)
      ensures ok ==> valid == (old(valid) && AllValid(p, p.Keys))
    {
      hide *;
      CompileGlobals();
      image := map[GLOBALS_FUNCTION := code];
      ImageStarts(p);
      var todo := p.Keys;
      ghost var done: set<string> := {};
      while todo != {}
        invariant todo + done == p.Keys && ImageOf(p, done, image)
        invariant valid == (old(valid) && AllValid(p, done))
        decreases todo
      {
        var f :| f in todo;
        AllValidMore(p, done, f);
        ok, image := CompileInto(p, f, done, image);
        if !ok {
          return;
        }
        todo, done := todo - {f}, done + {f};
      }
      ImageEnds(p, image);
      ok := true;
    }
  }

  /** The image holds the code of the functions in `done`, and of the one for the globals. */
  ghost predicate ImageOf(p: Program, done: set<string>, image: Image) {
    && done <= p.Keys && image.Keys == done + {GLOBALS_FUNCTION}
    && (forall f :: f in done ==> image[f] == GenFunction(p[f]) && FunctionVerdict(p[f]).Some?)
    && (GLOBALS_FUNCTION !in p ==> image[GLOBALS_FUNCTION] == NoGlobals())
  }

  ghost predicate AllValid(p: Program, done: set<string>) {
    forall f :: f in done && f in p ==> FunctionVerdict(p[f]) == Some(true)
  }

  lemma ImageStarts(p: Program)
    ensures ImageOf(p, {}, map[GLOBALS_FUNCTION := NoGlobals()]) && AllValid(p, {})
  {
  }

  lemma ImageEnds(p: Program, image: Image)
    requires ImageOf(p, p.Keys, image)
    ensures forall f :: f in p ==> FunctionVerdict(p[f]).Some?
  {
    hide FunctionVerdict;
  }

  lemma AllValidMore(p: Program, done: set<string>, f: string)
    requires f in p
    ensures AllValid(p, done + {f}) == (AllValid(p, done) && FunctionVerdict(p[f]) == Some(true))
  {
    hide FunctionVerdict;
  }

  lemma ImageGrows(p: Program, done: set<string>, image: Image, f: string)
    requires ImageOf(p, done, image) && f in p && FunctionVerdict(p[f]).Some?
    ensures ImageOf(p, done + {f}, image[f := GenFunction(p[f])])
  {
    hide GenFunction, FunctionVerdict;
  }

  lemma NoTargets(targets: seq<Expr>, slots: Slots)
    ensures GenTargets(targets[|targets|..], slots) == Emit([], None, true)
    ensures CompilableTargets(targets[|targets|..], slots) && !VisitsListTargets(targets[|targets|..], slots)
  {
  }
}
