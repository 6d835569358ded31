/**
  How single opcodes and short opcode sequences move the abstract machine between the
  states a compiled activation goes through.
*/
module Simulation {
  import opened Word64
  import opened Ir
  import opened Source
  import opened Codegen

  /** The part of the machine one activation leaves alone. */
  datatype Ctx = Ctx(fp: seq<int>, ipStack: seq<int>, funcs: seq<string>, globals: seq<int>)

  function UnitBlocks(n: nat): seq<Block> {
    seq(n, i => Block(1, i))
  }

  function Conf(c: Ctx, ip: int, exec: seq<int>, mem: seq<int>): Machine {
    Machine(Running, ip, c.fp, c.ipStack, exec, mem, UnitBlocks(|mem|), c.funcs, c.globals)
  }

  function Reverse(s: seq<int>): (r: seq<int>)
    ensures |r| == |s|
  {
    seq(|s|, i requires 0 <= i < |s| => s[|s| - 1 - i])
  }

  /** Every function of the program is present in the image with its code. */
  ghost predicate Linked(p: Program, image: Image) {
    forall g :: g in p ==> g in image && image[g] == GenFunction(p[g])
  }

  /** The running function has `code` at `pos`. */
  ghost predicate CodeAt(image: Image, c: Ctx, pos: int, code: seq<Op>) {
    && c.funcs != []
    && c.funcs[|c.funcs| - 1] in image
    && var full := image[c.funcs[|c.funcs| - 1]];
       0 <= pos <= pos + |code| <= |full| && full[pos..pos + |code|] == code
  }

  ghost predicate EnvOk(env: Env, slots: Slots, c: Ctx, size: nat, index: int) {
    && c.fp != [] && Top(c.fp) >= 0 && index >= 0
    && size == Top(c.fp) + index && Fits(size)
    && env.Keys == slots.Keys
    && forall x :: x in env ==> env[x] == Top(c.fp) + slots[x] - 1 && 0 <= env[x] < size
  }

  /** What `n` steps from `m` must have reached, given the evaluator's verdict. Where there are no
      globals, an undefined operation leaves the interpreter in a failed assertion or a crash. */
  ghost predicate Matches(image: Image, m: Machine, n: nat, r: Value, c: Ctx, pos: int, exec: seq<int>, fuel: nat) {
    var m' := Run(image, m, n);
    match r
    case Done(vals, mem) => m' == Conf(c, pos, exec + Reverse(vals), mem)
    case Stopped(OutOfFuel) => n >= fuel && m'.status.Running?
    case Stopped(Fault) => m'.status.Failed?
    case Stopped(Undefined) => c.globals == [] ==> m'.status.Stuck?
    case _ => true
  }

  // ----- single steps -----

  lemma CodeSplit(image: Image, c: Ctx, pos: int, a: seq<Op>, b: seq<Op>)
    requires CodeAt(image, c, pos, a + b)
    ensures CodeAt(image, c, pos, a) && CodeAt(image, c, pos + |a|, b)
  {
    var full := image[c.funcs[|c.funcs| - 1]];
    assert full[pos..pos + |a|] == (a + b)[..|a|];
    assert full[pos + |a|..pos + |a| + |b|] == (a + b)[|a|..];
  }

  lemma StepAt(image: Image, c: Ctx, pos: int, op: Op, exec: seq<int>, mem: seq<int>)
    requires CodeAt(image, c, pos, [op])
    ensures Step(image, Conf(c, pos, exec, mem)) == Execute(image, op, Conf(c, pos + 1, exec, mem))
  {
    hide Execute, UnitBlocks;
    var full := image[c.funcs[|c.funcs| - 1]];
    assert full[pos..pos + 1][0] == full[pos];
  }

  /** One more step after `n`. */
  lemma Extend(image: Image, m: Machine, n: nat)
    ensures Run(image, m, n + 1) == Step(image, Run(image, m, n))
  {
    RunAdd(image, m, n, 1);
    assert Run(image, Run(image, m, n), 1) == Run(image, Step(image, Run(image, m, n)), 0);
  }

  lemma {:induction false} FindUnit(n: nat, addr: int, from: nat)
    requires from <= addr < n
    ensures FindBlock(UnitBlocks(n), addr, from) == Some(addr)
    decreases addr - from
  {
    if from < addr {
      FindUnit(n, addr, from + 1);
    }
  }

  lemma SlotAddress(c: Ctx, ip: int, exec: seq<int>, mem: seq<int>, slot: int)
    requires 0 <= Top(c.fp) + slot < |mem|
    ensures VariableAddress(Conf(c, ip, exec, mem), slot) == Some(Top(c.fp) + slot)
  {
    FindUnit(|mem|, Top(c.fp) + slot, 0);
  }

  lemma ReverseOne(v: int)
    ensures Reverse([v]) == [v] && Reverse([]) == []
  {
  }

  lemma ReverseConcat(a: seq<int>, b: seq<int>)
    ensures Reverse(a + b) == Reverse(b) + Reverse(a)
  {
  }

  lemma OneStep(image: Image, m: Machine)
    ensures Run(image, m, 1) == Step(image, m)
  {
  }

  lemma UnaryStep(image: Image, c: Ctx, pos: int, op: UnaryOp, exec: seq<int>, v: int, mem: seq<int>, fuel: nat)
    requires CodeAt(image, c, pos, [Plain(OpCode.Unary(op), 0)])
    ensures Matches(image, Conf(c, pos, exec + [v], mem), 1, Done([EvalUnary(op, v)], mem), c, pos + 1, exec, fuel)
  {
  }

  lemma BinaryStep(image: Image, c: Ctx, pos: int, op: BinaryOp, exec: seq<int>, a: int, b: int, mem: seq<int>,
                   fuel: nat)
    requires CodeAt(image, c, pos, [Plain(OpCode.Binary(op), 0)])
    requires EvalBinary(op, a, b).Some?
    ensures Matches(image, Conf(c, pos, exec + [b] + [a], mem), 1,
                    Done([EvalBinary(op, a, b).value], mem), c, pos + 1, exec, fuel)
  {
  }

  lemma BinarySticks(image: Image, c: Ctx, pos: int, op: BinaryOp, exec: seq<int>, a: int, b: int, mem: seq<int>,
                     fuel: nat)
    requires CodeAt(image, c, pos, [Plain(OpCode.Binary(op), 0)])
    requires EvalBinary(op, a, b).None?
    ensures Matches(image, Conf(c, pos, exec + [b] + [a], mem), 1, Stopped(Undefined), c, pos + 1, exec, fuel)
  {
  }

  lemma PushStep(image: Image, c: Ctx, pos: int, op: Op, exec: seq<int>, mem: seq<int>, fuel: nat)
    requires CodeAt(image, c, pos, [op])
    requires op.operation.PushSign? || op.operation.PushUnsign?
    ensures Matches(image, Conf(c, pos, exec, mem), 1, Done([op.operand], mem), c, pos + 1, exec, fuel)
  {
  }

  lemma SlotStep(image: Image, c: Ctx, pos: int, op: Op, exec: seq<int>, mem: seq<int>, fuel: nat)
    requires CodeAt(image, c, pos, [op])
    requires op.operation.PushStack? || op.operation.PushSea?
    requires 0 <= Top(c.fp) + op.operand - 1 < |mem|
    ensures var a := Top(c.fp) + op.operand - 1;
            Matches(image, Conf(c, pos, exec, mem), 1,
                    Done([if op.operation.PushSea? then a else mem[a]], mem), c, pos + 1, exec, fuel)
  {
    OneStep(image, Conf(c, pos, exec, mem));
    StepAt(image, c, pos, op, exec, mem);
    SlotAddress(c, pos + 1, exec, mem, op.operand - 1);
    ReverseOne(Top(c.fp) + op.operand - 1);
    ReverseOne(mem[Top(c.fp) + op.operand - 1]);
  }

  lemma LoadStep(image: Image, c: Ctx, pos: int, exec: seq<int>, a: int, mem: seq<int>, fuel: nat)
    requires CodeAt(image, c, pos, [Plain(Load, 0)])
    ensures Matches(image, Conf(c, pos, exec + [a], mem), 1, Read(mem, a), c, pos + 1, exec, fuel)
  {
    OneStep(image, Conf(c, pos, exec + [a], mem));
    StepAt(image, c, pos, Plain(Load, 0), exec + [a], mem);
    assert Rest(exec + [a]) == exec;
    if 0 <= a < |mem| {
      ReverseOne(mem[a]);
    }
  }

  lemma StoreStep(image: Image, c: Ctx, pos: int, exec: seq<int>, v: int, a: int, mem: seq<int>, fuel: nat)
    requires CodeAt(image, c, pos, [Plain(Store, 0)])
    ensures Matches(image, Conf(c, pos, exec + [v] + [a], mem), 1, Write(mem, a, v), c, pos + 1, exec, fuel)
  {
    OneStep(image, Conf(c, pos, exec + [v] + [a], mem));
    StepAt(image, c, pos, Plain(Store, 0), exec + [v] + [a], mem);
    assert Rest(exec + [v] + [a]) == exec + [v];
    assert Rest(exec + [v]) == exec;
    ReverseOne(v);
    assert exec + Reverse([]) == exec;
  }

  lemma NopStep(image: Image, c: Ctx, pos: int, exec: seq<int>, v: int, mem: seq<int>, fuel: nat)
    requires CodeAt(image, c, pos, [Plain(Nop, 0)])
    ensures Matches(image, Conf(c, pos, exec + [v], mem), 1, Done([v], mem), c, pos + 1, exec, fuel)
  {
  }

  lemma CloneStep(image: Image, c: Ctx, pos: int, exec: seq<int>, v: int, mem: seq<int>)
    requires CodeAt(image, c, pos, [Plain(Clone, 0)])
    ensures Run(image, Conf(c, pos, exec + [v], mem), 1) == Conf(c, pos + 1, exec + [v] + [v], mem)
  {
  }

  lemma PopStep(image: Image, c: Ctx, pos: int, exec: seq<int>, v: int, mem: seq<int>)
    requires CodeAt(image, c, pos, [Plain(OpCode.Pop, 0)])
    ensures Run(image, Conf(c, pos, exec + [v], mem), 1) == Conf(c, pos + 1, exec, mem)
  {
  }

  lemma JumpStep(image: Image, c: Ctx, pos: int, d: int, exec: seq<int>, mem: seq<int>)
    requires CodeAt(image, c, pos, [Plain(Jump, d)])
    ensures Run(image, Conf(c, pos, exec, mem), 1) == Conf(c, pos + 1 + d, exec, mem)
  {
    OneStep(image, Conf(c, pos, exec, mem));
    StepAt(image, c, pos, Plain(Jump, d), exec, mem);
  }

  lemma BranchStep(image: Image, c: Ctx, pos: int, jump: OpCode, d: int, exec: seq<int>, v: int, mem: seq<int>)
    requires jump.JumpIf? || jump.JumpIfNot?
    requires CodeAt(image, c, pos, [Plain(jump, d)])
    ensures Run(image, Conf(c, pos, exec + [v], mem), 1) ==
            Conf(c, if jump.JumpIf? == (v != 0) then pos + 1 + d else pos + 1, exec, mem)
  {
  }

  /** `CLONE; JUMP_IF d; POP`: the value stays and the jump is taken, or it is dropped. */
  lemma ShortCircuitSteps(image: Image, c: Ctx, pos: int, jump: OpCode, d: nat, exec: seq<int>, v: int, mem: seq<int>)
    returns (n: nat)
    requires jump.JumpIf? || jump.JumpIfNot?
    requires CodeAt(image, c, pos, [Plain(Clone, 0)])
    requires CodeAt(image, c, pos + 1, [Plain(jump, 1 + d)])
    requires CodeAt(image, c, pos + 2, [Plain(OpCode.Pop, 0)])
    ensures Run(image, Conf(c, pos, exec + [v], mem), n) ==
            if jump.JumpIf? == (v != 0) then Conf(c, pos + 3 + d, exec + [v], mem) else Conf(c, pos + 3, exec, mem)
  {
    var m := Conf(c, pos, exec + [v], mem);
    CloneStep(image, c, pos, exec, v, mem);
    BranchStep(image, c, pos + 1, jump, 1 + d, exec + [v], v, mem);
    RunAdd(image, m, 1, 1);
    n := 2;
    if jump.JumpIf? != (v != 0) {
      PopStep(image, c, pos + 2, exec, v, mem);
      RunAdd(image, m, 2, 1);
      n := 3;
    }
  }

  // ----- memory steps -----

  lemma {:induction false} FreeUnits(n: nat, data: seq<int>, k: nat)
    requires |data| == n && k <= n
    ensures FreeMemory(UnitBlocks(n), data, k) == Some((UnitBlocks(n - k), data[..n - k]))
    decreases k
  {
    if k == 0 {
      assert data[..n] == data;
    } else {
      assert Rest(UnitBlocks(n)) == UnitBlocks(n - 1);
      FreeUnits(n - 1, data[..n - 1], k - 1);
      assert data[..n - 1][..n - k] == data[..n - k];
    }
  }

  lemma FreeStep(image: Image, c: Ctx, pos: int, k: nat, exec: seq<int>, mem: seq<int>)
    requires k <= |mem|
    requires CodeAt(image, c, pos, [Plain(Free, k)])
    ensures Run(image, Conf(c, pos, exec, mem), 1) == Conf(c, pos + 1, exec, mem[..|mem| - k])
  {
    OneStep(image, Conf(c, pos, exec, mem));
    StepAt(image, c, pos, Plain(Free, k), exec, mem);
    FreeUnits(|mem|, mem, k);
  }

  /** The `FREE` of a block, left out when the block holds no local. */
  lemma FreeOpsSteps(image: Image, c: Ctx, pos: int, k: nat, exec: seq<int>, mem: seq<int>) returns (n: nat)
    requires k <= |mem|
    requires CodeAt(image, c, pos, FreeOps(k))
    ensures Run(image, Conf(c, pos, exec, mem), n) == Conf(c, pos + |FreeOps(k)|, exec, mem[..|mem| - k])
  {
    if k == 0 {
      n := 0;
      assert mem[..|mem|] == mem;
    } else {
      n := 1;
      FreeStep(image, c, pos, k, exec, mem);
    }
  }

  /** `ALLOC 1; STORE` moves the top of the exec stack into a fresh cell. */
  lemma AllocStoreSteps(image: Image, c: Ctx, pos: int, exec: seq<int>, v: int, mem: seq<int>)
    returns (n: nat)
    requires Fits(|mem| + 1)
    requires CodeAt(image, c, pos, [Plain(Alloc, 1), Plain(Store, 0)])
    ensures Run(image, Conf(c, pos, exec + [v], mem), n) == Conf(c, pos + 2, exec, mem + [v])
  {
    var m := Conf(c, pos, exec + [v], mem);
    assert [Plain(Alloc, 1), Plain(Store, 0)] == [Plain(Alloc, 1)] + [Plain(Store, 0)];
    CodeSplit(image, c, pos, [Plain(Alloc, 1)], [Plain(Store, 0)]);
    OneStep(image, m);
    StepAt(image, c, pos, Plain(Alloc, 1), exec + [v], mem);
    assert Zeros(1) == [0];
    assert UnitBlocks(|mem|) + [Block(1, |mem|)] == UnitBlocks(|mem| + 1);
    assert Run(image, m, 1) == Conf(c, pos + 1, exec + [v] + [|mem|], mem + [0]);
    StoreStep(image, c, pos + 1, exec, v, |mem|, mem + [0], 0);
    assert (mem + [0])[|mem| := v] == mem + [v];
    assert exec + Reverse([]) == exec;
    RunAdd(image, m, 1, 1);
    n := 2;
  }

  /** When no address below those of the globals is left, the store finds no global either. */
  lemma AllocSticks(image: Image, c: Ctx, pos: int, exec: seq<int>, v: int, mem: seq<int>)
    requires Fits(|mem|) && !Fits(|mem| + 1) && c.globals == []
    requires CodeAt(image, c, pos, [Plain(Alloc, 1), Plain(Store, 0)])
    ensures Run(image, Conf(c, pos, exec + [v], mem), 2).status.Stuck?
  {
    var m := Conf(c, pos, exec + [v], mem);
    assert [Plain(Alloc, 1), Plain(Store, 0)] == [Plain(Alloc, 1)] + [Plain(Store, 0)];
    CodeSplit(image, c, pos, [Plain(Alloc, 1)], [Plain(Store, 0)]);
    OneStep(image, m);
    StepAt(image, c, pos, Plain(Alloc, 1), exec + [v], mem);
    assert Zeros(1) == [0];
    assert UnitBlocks(|mem|) + [Block(1, |mem|)] == UnitBlocks(|mem| + 1);
    assert Run(image, m, 1) == Conf(c, pos + 1, exec + [v] + [|mem|], mem + [0]);
    StoreStep(image, c, pos + 1, exec, v, |mem|, mem + [0], 0);
    RunAdd(image, m, 1, 1);
  }

  lemma ReverseHead(exec: seq<int>, args: seq<int>)
    requires args != []
    ensures exec + Reverse(args) == exec + Reverse(args[1..]) + [args[0]]
  {
  }

  /** The i-th parameter receives the i-th argument. */
  lemma {:induction false} ParamSteps(image: Image, c: Ctx, pos: int, exec: seq<int>, args: seq<int>, mem: seq<int>)
    returns (n: nat)
    requires Fits(|mem| + |args|)
    requires CodeAt(image, c, pos, ParamOps(|args|))
    ensures Run(image, Conf(c, pos, exec + Reverse(args), mem), n) ==
            Conf(c, pos + |ParamOps(|args|)|, exec, mem + args)
    decreases |args|
  {
    hide Step;
    if args == [] {
      assert exec + Reverse(args) == exec && mem + args == mem;
      n := 0;
    } else {
      var rest := args[1..];
      ReverseHead(exec, args);
      CodeSplit(image, c, pos, [Plain(Alloc, 1), Plain(Store, 0)], ParamOps(|args| - 1));
      var a := AllocStoreSteps(image, c, pos, exec + Reverse(rest), args[0], mem);
      var b := ParamSteps(image, c, pos + 2, exec, rest, mem + [args[0]]);
      assert mem + [args[0]] + rest == mem + args;
      assert |ParamOps(|args|)| == 2 + |ParamOps(|rest|)|;
      var m := Conf(c, pos, exec + Reverse(args), mem);
      assert Run(image, m, a) == Conf(c, pos + 2, exec + Reverse(rest), mem + [args[0]]);
      RunAdd(image, m, a, b);
      n := a + b;
      assert Run(image, m, n) == Conf(c, pos + 2 + |ParamOps(|rest|)|, exec, mem + args);
    }
  }

  /** The first parameter without a cell of its own. */
  lemma {:induction false} ParamSticks(image: Image, c: Ctx, pos: int, exec: seq<int>, args: seq<int>, mem: seq<int>)
    returns (n: nat)
    requires Fits(|mem|) && !Fits(|mem| + |args|) && c.globals == []
    requires CodeAt(image, c, pos, ParamOps(|args|))
    ensures Run(image, Conf(c, pos, exec + Reverse(args), mem), n).status.Stuck?
    decreases |args|
  {
    hide Step;
    var rest, m := args[1..], Conf(c, pos, exec + Reverse(args), mem);
    ReverseHead(exec, args);
    CodeSplit(image, c, pos, [Plain(Alloc, 1), Plain(Store, 0)], ParamOps(|args| - 1));
    if Fits(|mem| + 1) {
      var a := AllocStoreSteps(image, c, pos, exec + Reverse(rest), args[0], mem);
      var b := ParamSticks(image, c, pos + 2, exec, rest, mem + [args[0]]);
      RunAdd(image, m, a, b);
      n := a + b;
    } else {
      AllocSticks(image, c, pos, exec + Reverse(rest), args[0], mem);
      n := 2;
    }
  }

  function Caller(c: Ctx): Ctx {
    Ctx(Rest(c.fp), Rest(c.ipStack), Rest(c.funcs), c.globals)
  }

  /** The state after `SF_POP; RET`: back in the caller, or halted in the entry function. */
  ghost predicate ReturnedTo(c: Ctx, exec: seq<int>, mem: seq<int>, m: Machine)
    requires 0 <= Top(c.fp) <= |mem|
  {
    var kept := mem[..Top(c.fp)];
    if c.ipStack == [] then
      m == Conf(c, m.ip, exec, kept).(fp := Rest(c.fp), status := Halted)
    else
      m == Conf(Caller(c), Top(c.ipStack), exec, kept)
  }

  lemma ReturnSteps(image: Image, c: Ctx, pos: int, exec: seq<int>, mem: seq<int>)
    returns (n: nat)
    requires 0 <= Top(c.fp) <= |mem|
    requires CodeAt(image, c, pos, [Plain(StackFramePop, 0), Plain(Ret, 0)])
    ensures ReturnedTo(c, exec, mem, Run(image, Conf(c, pos, exec, mem), n))
  {
    var m := Conf(c, pos, exec, mem);
    var c1 := c.(fp := Rest(c.fp));
    var kept := mem[..Top(c.fp)];
    assert [Plain(StackFramePop, 0), Plain(Ret, 0)] == [Plain(StackFramePop, 0)] + [Plain(Ret, 0)];
    CodeSplit(image, c, pos, [Plain(StackFramePop, 0)], [Plain(Ret, 0)]);
    OneStep(image, m);
    StepAt(image, c, pos, Plain(StackFramePop, 0), exec, mem);
    FreeUnits(|mem|, mem, |mem| - Top(c.fp));
    assert Run(image, m, 1) == Conf(c1, pos + 1, exec, kept);
    StepAt(image, c1, pos + 1, Plain(Ret, 0), exec, kept);
    Extend(image, m, 1);
    n := 2;
  }
}
