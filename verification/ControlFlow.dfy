/**
  Where the jumps of generated code go, and what a `continue` compiles to.
*/
module ControlFlow {
  import opened Word64
  import opened Ir
  import opened Source
  import opened Codegen
  import opened Patching

  /** Every jump of `code` lands inside it or at most `slack` opcodes behind its end. */
  ghost predicate JumpsWithin(code: seq<Op>, slack: nat) {
    forall i :: 0 <= i < |code| && IsJump(code[i]) ==> 0 <= i + 1 + code[i].operand <= |code| + slack
  }

  lemma Concatenated(a: seq<Op>, b: seq<Op>, slack: nat)
    requires JumpsWithin(a, |b| + slack) && JumpsWithin(b, slack)
    ensures JumpsWithin(a + b, slack)
  {
  }

  lemma Wider(code: seq<Op>, slack: nat, slack': nat)
    requires JumpsWithin(code, slack) && slack <= slack'
    ensures JumpsWithin(code, slack')
  {
  }

  lemma RewriteKeepsJumps(g: Emit, code: OpCode, slack: nat)
    requires WellEmitted(g) && g.last.Some? && JumpsWithin(g.code, slack)
    requires !code.Jump? && !code.JumpIf? && !code.JumpIfNot?
    ensures JumpsWithin(Rewrite(g, code).code, slack)
  {
  }

  lemma AssignKeepsJumps(g: Emit)
    requires WellEmitted(g) && JumpsWithin(g.code, 0)
    ensures JumpsWithin(GenAssign(g).code, 0)
  {
  }

  /** Expressions jump only inside their own code. */
  lemma ExprJumps(e: Expr, slots: Slots)
    ensures JumpsWithin(Gen(e, slots).code, 0)
    decreases e, 1
  {
    hide JumpsWithin;
    match e
    case Const(_) => NoJumps(Gen(e, slots).code);
    case Ident(_) => NoJumps(Gen(e, slots).code);
    case Unary(op, a) => ExprJumps(a, slots); Followed(Gen(a, slots).code, [Plain(OpCode.Unary(op), 0)]);
    case Binary(op, a, b) =>
      ExprJumps(a, slots);
      ExprJumps(b, slots);
      BothWithin(Gen(b, slots).code, Gen(a, slots).code);
      Followed(Gen(b, slots).code + Gen(a, slots).code, [Plain(OpCode.Binary(op), 0)]);
    case LogOr(a, b) => ExprJumps(a, slots); ExprJumps(b, slots);
      ShortCircuitJumps(JumpIf, Gen(a, slots), Gen(b, slots));
    case LogAnd(a, b) => ExprJumps(a, slots); ExprJumps(b, slots);
      ShortCircuitJumps(JumpIfNot, Gen(a, slots), Gen(b, slots));
    case Ref(a) =>
      ExprJumps(a, slots);
      var g := Gen(a, slots);
      if g.last.Some? {
        RewriteKeepsJumps(g, AddressOp(g.code[g.last.value].operation), 0);
      }
    case Deref(a) => ExprJumps(a, slots); Followed(Gen(a, slots).code, [Plain(Load, 0)]);
    case Assign(l, b) =>
      ExprJumps(l, slots);
      ExprJumps(b, slots);
      AssignKeepsJumps(Gen(l, slots));
      BothWithin(Gen(b, slots).code, GenAssign(Gen(l, slots)).code);
    case Swap(targets, b) =>
      ExprJumps(b, slots);
      TargetsJumps(targets, slots);
      BothWithin(Gen(b, slots).code, GenTargets(targets, slots).code);
    case Call(callee, args) =>
      ExprJumps(args, slots);
      ExprJumps(callee, slots);
      var g := Gen(callee, slots);
      if g.last.Some? {
        RewriteKeepsJumps(g, OpCode.Call, 0);
        BothWithin(Gen(args, slots).code, Rewrite(g, OpCode.Call).code);
      } else {
        BothWithin(Gen(args, slots).code, g.code);
      }
    case List(es) => ListJumps(es, slots);
    case Empty => NoJumps([]);
  }

  lemma NoJumps(code: seq<Op>)
    requires forall op :: op in code ==> !IsJump(op)
    ensures JumpsWithin(code, 0)
  {
  }

  lemma Followed(a: seq<Op>, b: seq<Op>)
    requires JumpsWithin(a, 0) && forall op :: op in b ==> !IsJump(op)
    ensures JumpsWithin(a + b, 0)
  {
  }

  lemma BothWithin(a: seq<Op>, b: seq<Op>)
    requires JumpsWithin(a, 0) && JumpsWithin(b, 0)
    ensures JumpsWithin(a + b, 0)
  {
  }

  lemma ShortCircuitJumps(jump: OpCode, a: Emit, b: Emit)
    requires WellEmitted(a) && WellEmitted(b) && JumpsWithin(a.code, 0) && JumpsWithin(b.code, 0)
    ensures JumpsWithin(GenShortCircuit(jump, a, b).code, 0)
  {
  }

  lemma ListJumps(es: seq<Expr>, slots: Slots)
    ensures JumpsWithin(GenList(es, slots).code, 0)
    decreases es, 0
  {
    hide JumpsWithin;
    if es == [] {
      NoJumps([]);
    } else {
      ExprJumps(es[|es| - 1], slots);
      ListJumps(es[..|es| - 1], slots);
      BothWithin(Gen(es[|es| - 1], slots).code, GenList(es[..|es| - 1], slots).code);
    }
  }

  lemma TargetsJumps(targets: seq<Expr>, slots: Slots)
    ensures JumpsWithin(GenTargets(targets, slots).code, 0)
    decreases targets, 0
  {
    hide JumpsWithin;
    if targets == [] {
      NoJumps([]);
    } else {
      var g, rest := Gen(targets[0], slots), GenTargets(targets[1..], slots).code;
      ExprJumps(targets[0], slots);
      TargetsJumps(targets[1..], slots);
      if g.last.None? {
        BothWithin(g.code, rest);
      } else {
        var r := Rewrite(g, TargetOp(g.code[g.last.value].operation)).code;
        RewriteKeepsJumps(g, TargetOp(g.code[g.last.value].operation), 0);
        Followed(r, [Plain(Store, 0)]);
        BothWithin(r + [Plain(Store, 0)], rest);
      }
    }
  }

  /** How far behind its own end a statement may jump: to the exit of the enclosing loop. */
  function Slack(exit: Exit): nat {
    if exit.Some? then exit.value else 0
  }

  lemma StmtJumps(s: Stmt, slots: Slots, index: int, live: nat, exit: Exit)
    ensures JumpsWithin(GenStmt(s, slots, index, live, exit).code, Slack(exit))
    decreases s, 3
  {
    hide JumpsWithin;
    match s
    case Declare(ds) =>
      DeclsJumps(ds, slots, index);
      Wider(GenDecls(ds, slots, index), 0, Slack(exit));
    case Compound(body) => BlockJumps(body, slots, index, false, exit);
    case If(_, _) => IfJumps(s, slots, index, live, exit);
    case IfElse(_, _, _) => IfElseJumps(s, slots, index, live, exit);
    case While(_, _) => WhileJumps(s, slots, index, live, exit);
    case Return(e) =>
      ExprJumps(e, slots);
      Followed(Gen(e, slots).code, FreeOps(live));
      Followed(Gen(e, slots).code + FreeOps(live), [Plain(StackFramePop, 0), Plain(Ret, 0)]);
      Wider(GenStmt(s, slots, index, live, exit).code, 0, Slack(exit));
    case Break => JumpOut(live, exit);
    case Continue => JumpOut(live, exit);
    case Eval(e) =>
      ExprJumps(e, slots);
      Wider(Gen(e, slots).code, 0, Slack(exit));
  }

  lemma JumpOut(live: nat, exit: Exit)
    ensures JumpsWithin(FreeOps(live) + [Plain(Jump, ExitOperand(exit))], Slack(exit))
  {
  }

  lemma DeclsJumps(ds: seq<Decl>, slots: Slots, index: int)
    ensures JumpsWithin(GenDecls(ds, slots, index), 0)
    decreases ds, 0
  {
    hide JumpsWithin;
    if ds == [] {
      NoJumps([]);
    } else {
      var store := [Plain(Alloc, 1), Plain(Store, 0)];
      if ds[0].init.Some? {
        ExprJumps(ds[0].init.value, slots);
        Followed(Gen(ds[0].init.value, slots).code, store);
      } else {
        NoJumps([Plain(PushUnsign, 0)] + store);
      }
      DeclsJumps(ds[1..], slots[ds[0].name := index + 1], index + 1);
      BothWithin(GenDecl(ds[0], slots), GenDecls(ds[1..], slots[ds[0].name := index + 1], index + 1));
    }
  }

  lemma ConditionJumps(e: Expr, slots: Slots, d: nat, slack: nat)
    requires d <= slack
    ensures JumpsWithin(Gen(e, slots).code + [Plain(JumpIfNot, d)], slack)
  {
    ExprJumps(e, slots);
    Wider(Gen(e, slots).code, 0, 1 + slack);
    Concatenated(Gen(e, slots).code, [Plain(JumpIfNot, d)], slack);
  }

  lemma IfJumps(s: Stmt, slots: Slots, index: int, live: nat, exit: Exit)
    requires s.If?
    ensures JumpsWithin(GenStmt(s, slots, index, live, exit).code, Slack(exit))
    decreases s, 2
  {
    hide JumpsWithin, Gen, GenBlock;
    var b := GenBlock(s.body, slots, index, false, exit);
    BlockJumps(s.body, slots, index, false, exit);
    ConditionJumps(s.cond, slots, |b.code|, |b.code| + Slack(exit));
    Concatenated(Gen(s.cond, slots).code + [Plain(JumpIfNot, |b.code|)], b.code, Slack(exit));
  }

  lemma IfElseJumps(s: Stmt, slots: Slots, index: int, live: nat, exit: Exit)
    requires s.IfElse?
    ensures JumpsWithin(GenStmt(s, slots, index, live, exit).code, Slack(exit))
    decreases s, 2
  {
    hide JumpsWithin, Gen, GenBlock;
    var e := GenStmt(s.otherwise, slots, index, 0, exit);
    var far := Farther(exit, 1 + |e.code|);
    var b := GenBlock(s.body, slots, index, false, far);
    var head, over := Gen(s.cond, slots).code + [Plain(JumpIfNot, |b.code| + 1)], [Plain(Jump, |e.code|)];
    var slack := 1 + |e.code| + Slack(exit);
    StmtJumps(s.otherwise, slots, index, 0, exit);
    BlockJumps(s.body, slots, index, false, far);
    ConditionJumps(s.cond, slots, |b.code| + 1, |b.code| + slack);
    Wider(b.code, Slack(far), slack);
    Concatenated(head, b.code, slack);
    OneJump(|e.code|, |e.code| + Slack(exit));
    Concatenated(over, e.code, Slack(exit));
    Concatenated(head + b.code, over + e.code, Slack(exit));
  }

  lemma OneJump(d: nat, slack: nat)
    requires d <= slack
    ensures JumpsWithin([Plain(Jump, d)], slack)
  {
  }

  /** A whole loop jumps at most to the opcode right behind it. */
  lemma WhileJumps(s: Stmt, slots: Slots, index: int, live: nat, exit: Exit)
    requires s.While?
    ensures JumpsWithin(GenStmt(s, slots, index, live, exit).code, Slack(exit))
    decreases s, 2
  {
    var b := GenBlock(s.body, slots, index, false, Some(1));
    var head := Gen(s.cond, slots).code + [Plain(JumpIfNot, |b.code| + 1)];
    BlockJumps(s.body, slots, index, false, Some(1));
    ConditionJumps(s.cond, slots, |b.code| + 1, |b.code| + 1);
    Concatenated(head, b.code, 1);
    LoopBackJumps(head + b.code);
    Wider(head + b.code + [Plain(Jump, -(|head| + |b.code| + 1))], 0, Slack(exit));
  }

  lemma LoopBackJumps(front: seq<Op>)
    requires JumpsWithin(front, 1)
    ensures JumpsWithin(front + [Plain(Jump, -(|front| + 1))], 0)
  {
  }

  lemma StmtsJumps(ss: seq<Stmt>, slots: Slots, index: int, live: nat, exit: Exit)
    ensures JumpsWithin(GenStmts(ss, slots, index, live, exit).code, Slack(exit))
    decreases ss, 0
  {
    hide JumpsWithin, GenStmt, SlotsAfter, IndexAfter;
    if ss == [] {
      NoJumps([]);
      Wider([], 0, Slack(exit));
    } else {
      var slots', index', live' := SlotsAfter(ss[0], slots, index), IndexAfter(ss[0], index), live + Declared(ss[0]);
      var rest := GenStmts(ss[1..], slots', index', live', exit).code;
      var near := Farther(exit, |rest|);
      StmtJumps(ss[0], slots, index, live, near);
      StmtsJumps(ss[1..], slots', index', live', exit);
      Wider(GenStmt(ss[0], slots, index, live, near).code, Slack(near), |rest| + Slack(exit));
      Concatenated(GenStmt(ss[0], slots, index, live, near).code, rest, Slack(exit));
    }
  }

  lemma BlockJumps(ss: seq<Stmt>, slots: Slots, index: int, frameFree: bool, exit: Exit)
    ensures JumpsWithin(GenBlock(ss, slots, index, frameFree, exit).code, Slack(exit))
    decreases ss, 1
  {
    hide JumpsWithin, GenStmts;
    var tail := if frameFree then [] else FreeOps(DeclaredAll(ss));
    var body := GenStmts(ss, slots, index, 0, Farther(exit, |tail|)).code;
    StmtsJumps(ss, slots, index, 0, Farther(exit, |tail|));
    Wider(body, Slack(Farther(exit, |tail|)), |tail| + Slack(exit));
    NoJumps(tail);
    Wider(tail, 0, Slack(exit));
    Concatenated(body, tail, Slack(exit));
  }

  /** In a finished function every jump target is the index of an opcode. */
  lemma FunctionJumps(f: Function)
    ensures var code := GenFunction(f);
            forall i :: 0 <= i < |code| && IsJump(code[i]) ==> 0 <= i + 1 + code[i].operand < |code|
  {
    var head := [Plain(StackFramePush, 0)] + ParamOps(|f.params|);
    var body := GenBlock(f.body, ParamSlots(f.params), |f.params|, true, None).code;
    ParamsDontJump(|f.params|);
    BlockJumps(f.body, ParamSlots(f.params), |f.params|, true, None);
    NoJumps(head);
    BothWithin(head, body);
    hide GenBlock, ParamOps;
    assert GenFunction(f) == (head + body) + Epilogue(f);
    forall i | 0 <= i < |GenFunction(f)| && IsJump(GenFunction(f)[i])
      ensures 0 <= i + 1 + GenFunction(f)[i].operand < |GenFunction(f)|
    {
      assert i < |head + body|;
      assert GenFunction(f)[i] == (head + body)[i];
    }
  }

  lemma {:induction false} ParamsDontJump(n: nat)
    ensures forall op :: op in ParamOps(n) ==> !IsJump(op)
  {
    if n > 0 {
      ParamsDontJump(n - 1);
    }
  }

  lemma PendingAimed(g: seq<Op>, raw: Piece, b: Piece, k: nat)
    requires Patched(raw, b, 1) && (k in raw.breaks || k in raw.continues)
    ensures var code, at := LoopCode(g, b.code), |g| + 1 + k;
            at < |code| && code[at].operation.Jump? && at + 1 + code[at].operand == |code|
  {
  }

  /** Every jump the body leaves pending ends up right behind this loop, the innermost one. */
  lemma LoopExits(c: Expr, body: seq<Stmt>, slots: Slots, index: int, live: nat, exit: Exit, k: nat)
    requires k in GenBlock(body, slots, index, false, None).breaks
             || k in GenBlock(body, slots, index, false, None).continues
    ensures var code, at := GenStmt(While(c, body), slots, index, live, exit).code, |Gen(c, slots).code| + 1 + k;
            at < |code| && code[at].operation.Jump? && at + 1 + code[at].operand == |code|
  {
    hide GenBlock, Gen, Patched, LoopCode;
    PatchedBlock(body, slots, index, false, 1);
    PendingAimed(Gen(c, slots).code, GenBlock(body, slots, index, false, None),
                 GenBlock(body, slots, index, false, Some(1)), k);
  }

  // ----- continue -----

  /** The statement with every `continue` written as `break`. */
  function ContinueAsBreak(s: Stmt): Stmt
    decreases s, 1
  {
    match s
    case Compound(body) => Compound(ContinuesAsBreaks(body))
    case If(c, body) => If(c, ContinuesAsBreaks(body))
    case IfElse(c, body, els) => IfElse(c, ContinuesAsBreaks(body), ContinueAsBreak(els))
    case While(c, body) => While(c, ContinuesAsBreaks(body))
    case Continue => Break
    case _ => s
  }

  function ContinuesAsBreaks(ss: seq<Stmt>): (r: seq<Stmt>)
    ensures |r| == |ss|
    decreases ss, 0
  {
    if ss == [] then [] else [ContinueAsBreak(ss[0])] + ContinuesAsBreaks(ss[1..])
  }

  lemma SameDeclarations(s: Stmt, slots: Slots, index: int)
    ensures var t := ContinueAsBreak(s);
            Declared(t) == Declared(s) && SlotsAfter(t, slots, index) == SlotsAfter(s, slots, index) &&
            IndexAfter(t, index) == IndexAfter(s, index)
  {
  }

  lemma SameDeclared(ss: seq<Stmt>)
    ensures DeclaredAll(ContinuesAsBreaks(ss)) == DeclaredAll(ss)
  {
  }

  lemma SameCode(c: seq<Op>, b: Piece, b': Piece, e: Piece, e': Piece)
    requires b.code == b'.code && e.code == e'.code
    ensures IfElsePiece(c, b, e).code == IfElsePiece(c, b', e').code
    ensures Join(Straight(c), b).code == Join(Straight(c), b').code
  {
  }

  /** Both are patched to the end of the loop: a `continue` leaves it just like a `break`. */
  lemma ContinueLeavesTheLoop(s: Stmt, slots: Slots, index: int, live: nat, exit: Exit)
    ensures GenStmt(ContinueAsBreak(s), slots, index, live, exit).code == GenStmt(s, slots, index, live, exit).code
    decreases s, 2
  {
    hide Gen, GenBlock, IfElsePiece, Join, LoopCode, GenDecls;
    var t := ContinueAsBreak(s);
    match s
    case Compound(body) => SameBlock(body, slots, index, false, exit);
    case If(c, body) =>
      SameBlock(body, slots, index, false, exit);
      var b := GenBlock(body, slots, index, false, exit);
      var b' := GenBlock(ContinuesAsBreaks(body), slots, index, false, exit);
      SameCode(Gen(c, slots).code + [Plain(JumpIfNot, |b.code|)], b, b', Straight([]), Straight([]));
    case IfElse(c, body, els) =>
      ContinueLeavesTheLoop(els, slots, index, 0, exit);
      var e, e' := GenStmt(els, slots, index, 0, exit), GenStmt(ContinueAsBreak(els), slots, index, 0, exit);
      var far := Farther(exit, 1 + |e.code|);
      SameBlock(body, slots, index, false, far);
      SameCode(Gen(c, slots).code, GenBlock(body, slots, index, false, far),
               GenBlock(ContinuesAsBreaks(body), slots, index, false, far), e, e');
    case While(_, body) => SameBlock(body, slots, index, false, Some(1));
    case _ =>
  }

  lemma SameJoin(a: Piece, a': Piece, b: Piece, b': Piece)
    requires a.code == a'.code && b.code == b'.code
    ensures Join(a, b).code == Join(a', b').code
  {
  }

  lemma SameStmts(ss: seq<Stmt>, slots: Slots, index: int, live: nat, exit: Exit)
    ensures GenStmts(ContinuesAsBreaks(ss), slots, index, live, exit).code ==
            GenStmts(ss, slots, index, live, exit).code
    decreases ss, 0
  {
    if ss != [] {
      hide GenStmt, Join, SlotsAfter, IndexAfter, Declared, ContinueAsBreak;
      var s, t := ss[0], ContinueAsBreak(ss[0]);
      var slots', index', live' := SlotsAfter(s, slots, index), IndexAfter(s, index), live + Declared(s);
      var ts := ContinuesAsBreaks(ss);
      assert ts[0] == t && ts[1..] == ContinuesAsBreaks(ss[1..]);
      SameDeclarations(s, slots, index);
      SameStmts(ss[1..], slots', index', live', exit);
      var rest, rest' := GenStmts(ss[1..], slots', index', live', exit), GenStmts(ts[1..], slots', index', live', exit);
      var near := Farther(exit, |rest.code|);
      ContinueLeavesTheLoop(s, slots, index, live, near);
      SameJoin(GenStmt(t, slots, index, live, near), GenStmt(s, slots, index, live, near), rest', rest);
    }
  }

  lemma SameBlock(ss: seq<Stmt>, slots: Slots, index: int, frameFree: bool, exit: Exit)
    ensures GenBlock(ContinuesAsBreaks(ss), slots, index, frameFree, exit).code ==
            GenBlock(ss, slots, index, frameFree, exit).code
    decreases ss, 1
  {
    SameDeclared(ss);
    var tail := if frameFree then [] else FreeOps(DeclaredAll(ss));
    SameStmts(ss, slots, index, 0, Farther(exit, |tail|));
  }
}
