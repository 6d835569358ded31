/**
  The corners of the machine no well-formed program reaches: global addresses, blocks of several
  cells, addresses of results, and declarations behind `else`.
*/
module MachineLaws {
  import opened Word64
  import opened Ir
  import opened Source
  import opened Codegen
  import opened Simulation

  // ----- short runs -----

  lemma OneStep(image: Image, c: Ctx, pos: int, a: Op, exec: seq<int>, mem: seq<int>)
    requires CodeAt(image, c, pos, [a])
    ensures Run(image, Conf(c, pos, exec, mem), 1) == Execute(image, a, Conf(c, pos + 1, exec, mem))
  {
    StepAt(image, c, pos, a, exec, mem);
    hide Step, Conf, Execute, CodeAt;
    var m := Conf(c, pos, exec, mem);
    assert Run(image, m, 1) == Run(image, Step(image, m), 0);
  }

  /** `a` leaves `exec1` and `mem1`, then `b` is executed. */
  lemma TwoSteps(image: Image, c: Ctx, pos: int, a: Op, b: Op, exec: seq<int>, mem: seq<int>, exec1: seq<int>,
                 mem1: seq<int>)
    requires CodeAt(image, c, pos, [a, b])
    requires Execute(image, a, Conf(c, pos + 1, exec, mem)) == Conf(c, pos + 1, exec1, mem1)
    ensures Run(image, Conf(c, pos, exec, mem), 2) == Execute(image, b, Conf(c, pos + 2, exec1, mem1))
  {
    hide Step, Conf, Execute, CodeAt;
    assert [a, b] == [a] + [b];
    CodeSplit(image, c, pos, [a], [b]);
    OneStep(image, c, pos, a, exec, mem);
    OneStep(image, c, pos + 1, b, exec1, mem1);
    RunAdd(image, Conf(c, pos, exec, mem), 1, 1);
  }

  lemma ThreeSteps(image: Image, c: Ctx, pos: int, a: Op, b: Op, d: Op, exec: seq<int>, mem: seq<int>, exec1: seq<int>,
                   exec2: seq<int>)
    requires CodeAt(image, c, pos, [a, b, d])
    requires Execute(image, a, Conf(c, pos + 1, exec, mem)) == Conf(c, pos + 1, exec1, mem)
    requires Execute(image, b, Conf(c, pos + 2, exec1, mem)) == Conf(c, pos + 2, exec2, mem)
    ensures Run(image, Conf(c, pos, exec, mem), 3) == Execute(image, d, Conf(c, pos + 3, exec2, mem))
  {
    hide Step, Conf, Execute, CodeAt;
    assert [a, b, d] == [a, b] + [d];
    CodeSplit(image, c, pos, [a, b], [d]);
    TwoSteps(image, c, pos, a, b, exec, mem, exec1, mem);
    OneStep(image, c, pos + 2, d, exec2, mem);
    RunAdd(image, Conf(c, pos, exec, mem), 2, 1);
  }

  // ----- one address space -----

  /** Below 512 MiB an address is a cell of the data stack, from there on the index of a global. */
  lemma LoadsFrom(image: Image, c: Ctx, pos: int, a: int, exec: seq<int>, mem: seq<int>)
    requires CodeAt(image, c, pos, [Plain(PushSign, a), Plain(Load, 0)])
    ensures var m := Run(image, Conf(c, pos, exec, mem), 2);
            && (0 <= a < |mem| && a < 0x2000_0000 ==> m == Conf(c, pos + 2, exec + [mem[a]], mem))
            && (0 <= a - 0x2000_0000 < |c.globals| ==> m == Conf(c, pos + 2, exec + [c.globals[a - 0x2000_0000]], mem))
            && (a < 0x2000_0000 && !(0 <= a < |mem|) ==> m.status.Failed?)
            && (a - 0x2000_0000 >= |c.globals| ==> m.status.Stuck?)
  {
    hide Run, CodeAt, UnitBlocks;
    TwoSteps(image, c, pos, Plain(PushSign, a), Plain(Load, 0), exec, mem, exec + [a], mem);
  }

  /** A store changes one cell; at the address of a global it pushes the global and changes nothing. */
  lemma StoresTo(image: Image, c: Ctx, pos: int, v: int, a: int, exec: seq<int>, mem: seq<int>)
    requires CodeAt(image, c, pos, [Plain(PushSign, v), Plain(PushSign, a), Plain(Store, 0)])
    ensures var m := Run(image, Conf(c, pos, exec, mem), 3);
            && (0 <= a < |mem| && a < 0x2000_0000 ==> m == Conf(c, pos + 3, exec, mem[a := v]))
            && (0 <= a - 0x2000_0000 < |c.globals| ==> m == Conf(c, pos + 3, exec + [c.globals[a - 0x2000_0000]], mem))
            && (a < 0x2000_0000 && !(0 <= a < |mem|) ==> m.status.Failed?)
            && (a - 0x2000_0000 >= |c.globals| ==> m.status.Stuck?)
  {
    hide Run, CodeAt, UnitBlocks;
    ThreeSteps(image, c, pos, Plain(PushSign, v), Plain(PushSign, a), Plain(Store, 0), exec, mem, exec + [v],
               exec + [v] + [a]);
  }

  /** `PUSH_GEA k` counts in bytes, the interpreter in words: it reaches global `8 * k`. */
  lemma GlobalAddress(image: Image, c: Ctx, pos: int, k: nat, exec: seq<int>, mem: seq<int>)
    requires CodeAt(image, c, pos, [Plain(PushGea, k), Plain(Load, 0)])
    ensures var m := Run(image, Conf(c, pos, exec, mem), 2);
            if 8 * k < |c.globals| then m == Conf(c, pos + 2, exec + [c.globals[8 * k]], mem) else m.status.Stuck?
  {
    hide Run, CodeAt, UnitBlocks;
    TwoSteps(image, c, pos, Plain(PushGea, k), Plain(Load, 0), exec, mem, exec + [0x2000_0000 + 8 * k], mem);
  }

  // ----- names that are no locals -----

  /** A name that is no local, such as that of a function, is read as zero, whatever the globals hold. */
  lemma GlobalReadsZero(image: Image, c: Ctx, pos: int, x: string, slots: Slots, exec: seq<int>, mem: seq<int>)
    requires x !in slots && CodeAt(image, c, pos, Gen(Ident(x), slots).code)
    ensures Run(image, Conf(c, pos, exec, mem), 1) == Conf(c, pos + 1, exec + [0], mem)
  {
    hide Run, CodeAt, UnitBlocks;
    OneStep(image, c, pos, Op(PushGlobal, 0, x), exec, mem);
  }

  /** Its address is that of the first global. */
  lemma GlobalThroughPointer(image: Image, c: Ctx, pos: int, x: string, slots: Slots, exec: seq<int>, mem: seq<int>)
    requires x !in slots && c.globals != [] && CodeAt(image, c, pos, Gen(Deref(Ref(Ident(x))), slots).code)
    ensures Run(image, Conf(c, pos, exec, mem), 2) == Conf(c, pos + 2, exec + [c.globals[0]], mem)
  {
    var a, b := Op(PushGea, 0, x), Plain(Load, 0);
    assert Gen(Ref(Ident(x)), slots).code == [a];
    assert Gen(Deref(Ref(Ident(x))), slots).code == [a, b];
    hide Run, CodeAt, UnitBlocks, Gen;
    TwoSteps(image, c, pos, a, b, exec, mem, exec + [0x2000_0000], mem);
  }

  lemma GlobalAssignmentCode(x: string, v: S64, slots: Slots)
    requires x !in slots
    ensures Gen(Assign(Ident(x), Const(v)), slots).code == [Plain(PushSign, v), Op(PushGea, 0, x), Plain(Store, 0)]
  {
    var g := GenIdent(x, slots);
    assert GenAssign(g).code == [Op(PushGea, 0, x), Plain(Store, 0)];
    assert Gen(Ident(x), slots) == g;
    hide GenAssign, GenIdent;
  }

  /** An assignment to it is lost, and leaves the first global on the exec stack. */
  lemma GlobalAssignmentLost(image: Image, c: Ctx, pos: int, x: string, v: S64, slots: Slots, exec: seq<int>,
                             mem: seq<int>)
    requires x !in slots && c.globals != [] && CodeAt(image, c, pos, Gen(Assign(Ident(x), Const(v)), slots).code)
    ensures Run(image, Conf(c, pos, exec, mem), 3) == Conf(c, pos + 3, exec + [c.globals[0]], mem)
  {
    var a, b, d := Plain(PushSign, v), Op(PushGea, 0, x), Plain(Store, 0);
    GlobalAssignmentCode(x, v, slots);
    hide Run, CodeAt, UnitBlocks, Gen;
    ThreeSteps(image, c, pos, a, b, d, exec, mem, exec + [v], exec + [v] + [0x2000_0000]);
  }

  /** What `SETUP_GLOBAL` writes is what a load from the address of the global reads. */
  lemma GlobalSetUp(image: Image, k: nat, v: int, m: Machine)
    requires k < |m.globals|
    ensures var m1 := Execute(image, Plain(SetupGlobal, k), Push(m, v));
            && m1 == m.(globals := m.globals[k := v])
            && Execute(image, Plain(Load, 0), Push(m1, 0x2000_0000 + k)) == Push(m1, v)
  {
    hide Top, Rest;
    PushedThenPopped(m.exec, v);
    PushedThenPopped(m.exec, 0x2000_0000 + k);
  }

  lemma PushedThenPopped(s: seq<int>, v: int)
    ensures Top(s + [v]) == v && Rest(s + [v]) == s
  {
  }

  // ----- dead ends -----

  /** A call of a function that is not there, a breakpoint and a function without its `RET` leave the
      interpreter in a failed assertion; only an invalid opcode is reported as an error. */
  lemma DeadEnds(image: Image, c: Ctx, pos: int, f: string, exec: seq<int>, mem: seq<int>)
    requires c.funcs != [] && c.funcs[|c.funcs| - 1] in image
    ensures CodeAt(image, c, pos, [Op(OpCode.Call, 0, f)]) && f !in image ==>
              Run(image, Conf(c, pos, exec, mem), 1).status.Stuck?
    ensures CodeAt(image, c, pos, [Plain(Brk, 0)]) ==> Run(image, Conf(c, pos, exec, mem), 1).status.Stuck?
    ensures CodeAt(image, c, pos, [Plain(OpCode.Invalid, 0)]) ==> Run(image, Conf(c, pos, exec, mem), 1).status.Failed?
    ensures pos == |image[c.funcs[|c.funcs| - 1]]| ==> Run(image, Conf(c, pos, exec, mem), 1).status.Stuck?
  {
    hide Run, UnitBlocks, CodeAt;
    if CodeAt(image, c, pos, [Op(OpCode.Call, 0, f)]) {
      OneStep(image, c, pos, Op(OpCode.Call, 0, f), exec, mem);
    }
    if CodeAt(image, c, pos, [Plain(Brk, 0)]) {
      OneStep(image, c, pos, Plain(Brk, 0), exec, mem);
    }
    if CodeAt(image, c, pos, [Plain(OpCode.Invalid, 0)]) {
      OneStep(image, c, pos, Plain(OpCode.Invalid, 0), exec, mem);
    }
    NoOpcode(image, Conf(c, pos, exec, mem));
  }

  lemma NoOpcode(image: Image, m: Machine)
    ensures NextOp(image, m).None? && m.status.Running? ==> Run(image, m, 1).status.Stuck?
  {
    assert Run(image, m, 1) == Run(image, Step(image, m), 0) == Step(image, m);
  }

  /** An empty exec stack yields zeros. */
  lemma EmptyStackYieldsZero(image: Image, c: Ctx, pos: int, mem: seq<int>)
    requires CodeAt(image, c, pos, [Plain(Clone, 0)])
    ensures Run(image, Conf(c, pos, [], mem), 1) == Conf(c, pos + 1, [0, 0], mem)
  {
    hide Run, UnitBlocks, CodeAt;
    OneStep(image, c, pos, Plain(Clone, 0), [], mem);
  }

  // ----- results have no address -----

  /** The address of a call compiles without a report, to an opcode that stops the machine. */
  lemma AddressOfCallFails(image: Image, c: Ctx, pos: int, f: string, slots: Slots, exec: seq<int>, mem: seq<int>)
    requires CodeAt(image, c, pos, Gen(Ref(Expr.Call(Ident(f), Expr.Empty)), slots).code)
    ensures ExprVerdict(Ref(Expr.Call(Ident(f), Expr.Empty)), slots) == Some(true)
    ensures Run(image, Conf(c, pos, exec, mem), 1).status.Failed?
  {
    CallAddressCode(f, slots);
    var op := GenIdent(f, slots).code[0].(operation := OpCode.Invalid);
    hide Run, CodeAt, UnitBlocks, Gen, Compilable;
    OneStep(image, c, pos, op, exec, mem);
  }

  lemma CallAddressCode(f: string, slots: Slots)
    ensures var e, op := Ref(Expr.Call(Ident(f), Expr.Empty)), GenIdent(f, slots).code[0];
            && Compilable(e, slots) && Gen(e, slots).valid
            && Gen(e, slots).code == [op.(operation := OpCode.Invalid)]
  {
    var e, op := Expr.Call(Ident(f), Expr.Empty), GenIdent(f, slots).code[0];
    assert Gen(Ident(f), slots) == Emit([op], Some(0), true);
    assert Compilable(e, slots);
    hide GenIdent;
    assert Gen(Expr.Empty, slots) == Emit([], None, true);
    assert Gen(e, slots) == Emit([op.(operation := OpCode.Call)], Some(0), true);
  }

  // ----- blocks -----

  type BlockSize = n: int | 0 < n witness 1

  /** The machine after allocating blocks of these sizes. */
  function Allocating(image: Image, m: Machine, sizes: seq<BlockSize>): Machine {
    if sizes == [] then m
    else Execute(image, Plain(Alloc, sizes[|sizes| - 1]), Allocating(image, m, sizes[..|sizes| - 1]))
  }

  /** New cells lie behind all others and hold zero. */
  lemma {:induction false} AllocatedCells(image: Image, m: Machine, sizes: seq<BlockSize>)
    ensures var m' := Allocating(image, m, sizes);
            && m.data <= m'.data && (forall i :: |m.data| <= i < |m'.data| ==> m'.data[i] == 0)
            && |m'.allocations| == |m.allocations| + |sizes| && m' == m.(data := m'.data, exec := m'.exec,
               allocations := m'.allocations)
  {
    if sizes != [] {
      AllocatedCells(image, m, sizes[..|sizes| - 1]);
    }
  }

  /** Freeing what `m'` has more cells than `m` gives data stack and blocks of `m`. */
  predicate FreesTo(m': Machine, m: Machine) {
    FreeMemory(m'.allocations, m'.data, |m'.data| - |m.data|) == Some((m.allocations, m.data))
  }

  /** Releasing as many cells as were allocated, in blocks of any sizes, restores data stack and
      blocks. */
  lemma {:induction false} FreeUndoesAlloc(image: Image, m: Machine, sizes: seq<BlockSize>)
    ensures FreesTo(Allocating(image, m, sizes), m)
  {
    if sizes == [] {
    } else {
      hide *;
      var init := sizes[..|sizes| - 1];
      FreeUndoesAlloc(image, m, init);
      DataGrows(image, m, init);
      LastAllocated(image, m, sizes);
      LastFreed(m, Allocating(image, m, init), Allocating(image, m, sizes), sizes[|sizes| - 1]);
    }
  }

  lemma LastFreed(m: Machine, m1: Machine, m': Machine, n: BlockSize)
    requires FreesTo(m1, m) && |m.data| <= |m1.data| && m'.data == m1.data + Zeros(n)
    requires m'.allocations == m1.allocations + [Block(n, |m1.data|)]
    ensures FreesTo(m', m)
  {
    assert |Zeros(n)| == n;
    hide FreeMemory, Zeros;
    LastBlockFreed(m1.allocations, m1.data, n, |m1.data| + n - |m.data|);
  }

  lemma StacksOnly(image: Image, m: Machine, sizes: seq<BlockSize>)
    ensures var m' := Allocating(image, m, sizes);
            m' == m.(data := m'.data, exec := m'.exec, allocations := m'.allocations)
  {
    AllocatedCells(image, m, sizes);
  }

  lemma DataGrows(image: Image, m: Machine, sizes: seq<BlockSize>)
    ensures |m.data| <= |Allocating(image, m, sizes).data|
  {
    AllocatedCells(image, m, sizes);
  }

  lemma LastAllocated(image: Image, m: Machine, sizes: seq<BlockSize>)
    requires sizes != []
    ensures var m1, m' := Allocating(image, m, sizes[..|sizes| - 1]), Allocating(image, m, sizes);
            var n := sizes[|sizes| - 1];
            && m'.data == m1.data + Zeros(n) && |m'.data| == |m1.data| + n
            && m'.allocations == m1.allocations + [Block(n, |m1.data|)]
  {
  }

  lemma LastBlockFreed(blocks: seq<Block>, data: seq<int>, n: nat, size: int)
    requires n > 0 && size > 0
    ensures FreeMemory(blocks + [Block(n, |data|)], data + Zeros(n), size) == FreeMemory(blocks, data, size - n)
  {
    assert (blocks + [Block(n, |data|)])[..|blocks|] == blocks;
    assert (data + Zeros(n))[..|data|] == data;
  }

  /** So a frame that is left takes everything allocated in it along. */
  lemma FrameLeft(image: Image, m: Machine, sizes: seq<BlockSize>)
    requires m.status.Running?
    ensures var m1 := Allocating(image, Execute(image, Plain(StackFramePush, 0), m), sizes);
            Execute(image, Plain(StackFramePop, 0), m1) == m.(exec := m1.exec)
  {
    hide FreeMemory, Allocating, FreesTo;
    var m0 := m.(fp := m.fp + [|m.data|]);
    FramePushed(image, m);
    FreeUndoesAlloc(image, m0, sizes);
    StacksOnly(image, m0, sizes);
    hide Execute;
    var m1 := Allocating(image, m0, sizes);
    FreesAlike(m1, m0, m);
    FramePopped(image, m, m1);
  }

  lemma FramePushed(image: Image, m: Machine)
    ensures Execute(image, Plain(StackFramePush, 0), m) == m.(fp := m.fp + [|m.data|])
  {
  }

  lemma FreesAlike(m1: Machine, m0: Machine, m: Machine)
    requires FreesTo(m1, m0) && m0.data == m.data && m0.allocations == m.allocations
    ensures FreesTo(m1, m)
  {
    hide FreeMemory;
  }

  lemma FramePopped(image: Image, m: Machine, m1: Machine)
    requires m1 == m.(fp := m.fp + [|m.data|], data := m1.data, exec := m1.exec, allocations := m1.allocations)
    requires FreesTo(m1, m)
    ensures Execute(image, Plain(StackFramePop, 0), m1) == m.(exec := m1.exec)
  {
    hide FreeMemory;
    assert (m.fp + [|m.data|])[..|m.fp|] == m.fp;
  }

  /** The cells in the blocks. */
  function Cells(blocks: seq<Block>): int {
    if blocks == [] then 0 else Cells(Rest(blocks)) + blocks[|blocks| - 1].size
  }

  /** Freeing ends exactly when the blocks hold enough cells; it releases as few blocks from the top
      as that takes. */
  lemma {:induction false} FreesWhatIsThere(blocks: seq<Block>, data: seq<int>, size: nat)
    requires forall i :: 0 <= i < |blocks| ==> blocks[i].size > 0
    ensures FreeMemory(blocks, data, size).None? <==> size > Cells(blocks)
    ensures var r := FreeMemory(blocks, data, size);
            r.Some? ==>
              var n := |r.value.0|;
              && r.value.0 <= blocks && Cells(blocks[..n]) <= Cells(blocks) - size
              && (n < |blocks| ==> Cells(blocks[..n + 1]) > Cells(blocks) - size)
    decreases |blocks|
  {
    CellsPositive(blocks);
    assert blocks[..|blocks|] == blocks;
    if size > 0 && blocks != [] {
      var block := blocks[|blocks| - 1];
      var data' := if 0 <= block.start <= |data| then data[..block.start] else data;
      var rest := Rest(blocks);
      assert forall k :: 0 <= k <= |rest| ==> rest[..k] == blocks[..k];
      if size > block.size {
        FreesWhatIsThere(rest, data', size - block.size);
      } else {
        CellsPositive(rest);
        assert FreeMemory(rest, data', size - block.size) == Some((rest, data'));
      }
    }
  }

  lemma {:induction false} CellsPositive(blocks: seq<Block>)
    requires forall i :: 0 <= i < |blocks| ==> blocks[i].size > 0
    ensures Cells(blocks) >= |blocks|
  {
    if blocks != [] {
      CellsPositive(Rest(blocks));
    }
  }

  // ----- targets of a parallel assignment -----

  /** A target `@e` is stored to, and whatever targets stand behind it are not compiled. */
  lemma PointerTargetEndsList(e: Expr, others: seq<Expr>, slots: Slots)
    ensures GenTargets([Deref(e)] + others, slots).code == Gen(e, slots).code + [Plain(Store, 0)]
  {
    var g := Gen(e, slots);
    var targets := [Deref(e)] + others;
    assert targets[0] == Deref(e);
    var d := Gen(Deref(e), slots);
    assert d == Emit(g.code + [Plain(Load, 0)], Some(|g.code|), g.valid);
    hide Gen;
    assert (g.code + [Plain(Load, 0)])[|g.code| := Plain(Store, 0)] == g.code + [Plain(Store, 0)];
  }

  /** So `@e, y = v, w;` stores `v` only, and `w` stays on the exec stack. */
  lemma PointerTargetKeepsOthers(e: Expr, y: string, b: Expr, slots: Slots)
    ensures Gen(Swap([Deref(e), Ident(y)], b), slots).code ==
            Gen(b, slots).code + Gen(e, slots).code + [Plain(Store, 0)]
  {
    PointerTargetEndsList(e, [Ident(y)], slots);
    assert [Deref(e)] + [Ident(y)] == [Deref(e), Ident(y)];
    assert Gen(Swap([Deref(e), Ident(y)], b), slots).code ==
           Gen(b, slots).code + GenTargets([Deref(e), Ident(y)], slots).code;
  }

  // ----- declarations behind `else` -----

  lemma ElseScope(c: Expr, body: seq<Stmt>, x: string, slots: Slots, index: int)
    ensures var s := IfElse(c, body, Declare([Decl(x, None)]));
            && SlotsAfter(s, slots, index) == slots[x := index + 1] && IndexAfter(s, index) == index + 1
            && Declared(s) == 0
  {
    var ds, slots' := [Decl(x, None)], slots[x := index + 1];
    assert ds[1..] == [];
    assert SlotsAfterDecls([], slots', index + 1) == slots';
    assert SlotsAfterDecls(ds, slots, index) == slots';
    hide SlotsAfterDecls;
  }

  lemma ReturnedLocal(x: string, slots: Slots, index: int, exit: Exit)
    requires x in slots
    ensures GenStmts([Return(Ident(x))], slots, index, 0, exit).code ==
            [Op(PushStack, slots[x], x), Plain(StackFramePop, 0), Plain(Ret, 0)]
  {
    var r := Return(Ident(x));
    var code := [Op(PushStack, slots[x], x), Plain(StackFramePop, 0), Plain(Ret, 0)];
    assert [r][1..] == [];
    assert forall far :: GenStmt(r, slots, index, 0, far).code == code;
    hide GenStmt;
    assert code + [] == code;
  }

  /** A local declared right behind `else` stays visible in the block around it, in the next slot,
      and is not released at the end of that block. */
  lemma ElseDeclarationLeaks(c: Expr, body: seq<Stmt>, x: string, slots: Slots, index: int, exit: Exit)
    ensures var s := IfElse(c, body, Declare([Decl(x, None)]));
            var code := GenBlock([s, Return(Ident(x))], slots, index, false, exit).code;
            && |code| >= 3
            && code[|code| - 3..] == [Op(PushStack, index + 1, x), Plain(StackFramePop, 0), Plain(Ret, 0)]
  {
    var s, r := IfElse(c, body, Declare([Decl(x, None)])), Return(Ident(x));
    ElseScope(c, body, x, slots, index);
    ReturnedLocal(x, slots[x := index + 1], index + 1, Farther(exit, 0));
    hide GenStmt, SlotsAfter, IndexAfter;
    var first := BlockOfTwo(s, r, slots, index, exit);
  }

  lemma BlockOfTwo(s: Stmt, r: Stmt, slots: Slots, index: int, exit: Exit) returns (first: seq<Op>)
    requires Declared(s) == 0 && Declared(r) == 0
    ensures var rest := GenStmts([r], SlotsAfter(s, slots, index), IndexAfter(s, index), 0, Farther(exit, 0)).code;
            GenBlock([s, r], slots, index, false, exit).code == first + rest
  {
    hide GenStmt, SlotsAfter, IndexAfter;
    var ss := [s, r];
    assert ss[1..] == [r];
    NothingDeclared(s, r);
    hide DeclaredAll;
    var rest := GenStmts([r], SlotsAfter(s, slots, index), IndexAfter(s, index), 0, Farther(exit, 0));
    first := GenStmt(s, slots, index, 0, Farther(Farther(exit, 0), |rest.code|)).code;
    assert GenStmts(ss, slots, index, 0, Farther(exit, 0)).code == first + rest.code;
    assert GenBlock(ss, slots, index, false, exit).code == first + rest.code + [];
  }

  lemma NothingDeclared(s: Stmt, r: Stmt)
    requires Declared(s) == 0 && Declared(r) == 0
    ensures DeclaredAll([s, r]) == 0
  {
    assert [s, r][1..] == [r] && [r][1..] == [];
    assert DeclaredAll([r]) == Declared(r) + DeclaredAll([]);
    assert DeclaredAll([s, r]) == Declared(s) + DeclaredAll([r]);
  }
}
