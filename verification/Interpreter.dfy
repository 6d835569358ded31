/**
  The interpreter of src/interop.cpp: an object whose fields every opcode updates. Each
  method is tied to the functions of `Ir` that say what the opcode means.
*/
module Interpreter {
  import opened Word64
  import opened Ir

  predicate OnExecStack(op: Op) {
    match op.operation
    case Nop => true
    case Unary(_) => true
    case Binary(_) => true
    case PushSign => true
    case PushUnsign => true
    case PushGlobal => true
    case PushGea => true
    case Pop => true
    case Clone => true
    case _ => false
  }

  predicate IsControl(op: Op) {
    match op.operation
    case Jump => true
    case JumpIf => true
    case JumpIfNot => true
    case Ret => true
    case Call => true
    case Brk => true
    case Invalid => true
    case _ => false
  }

  class State {
    const image: Image
    var globals: seq<int>
    var running: bool
    var hadError: bool
    var crashed: bool
    var ip: int
    var fp: seq<int>
    var ipStack: seq<int>
    var exec: seq<int>
    var data: seq<int>
    var allocations: seq<Block>
    var currFunc: seq<string>

    constructor (image: Image, globals: seq<int>, entry: string)
      ensures this.image == image && Value() == Start(entry, globals)
    {
      this.image := image;
      this.globals := globals;
      running, hadError, crashed := true, false, false;
      ip, fp, ipStack, exec, data, allocations := 0, [], [], [], [], [];
      currFunc := [entry];
    }

    function Condition(): Status
      reads this
    {
      if crashed then Stuck else if hadError then Failed else if running then Running else Halted
    }

    function Value(): Machine
      reads this
    {
      Machine(Condition(), ip, fp, ipStack, exec, data, allocations, currFunc, globals)
    }

    method Push(v: int)
      modifies this`exec
      ensures exec == old(exec) + [v]
    {
      exec := exec + [v];
    }

    /** An empty stack only logs an error and yields zero. */
    method PopExec() returns (v: int)
      modifies this`exec
      ensures v == Top(old(exec)) && exec == Rest(old(exec))
    {
      if exec == [] {
        v := 0;
      } else {
        v := exec[|exec| - 1];
        exec := exec[..|exec| - 1];
      }
    }

    method AllocateMemory(size: int) returns (addr: int)
      modifies this`data, this`allocations
      ensures data == old(data) + Zeros(size)
      ensures allocations == old(allocations) + [Block(size, |old(data)|)]
      ensures addr == |data| - 1
    {
      var block := Block(size, |data|);
      var i := 0;
      while i < size
        invariant 0 <= i
        invariant i == 0 || i <= size
        invariant data == old(data) + Zeros(i)
        invariant allocations == old(allocations)
      {
        assert Zeros(i + 1) == Zeros(i) + [0];
        data := data + [0];
        i := i + 1;
      }
      allocations := allocations + [block];
      addr := |data| - 1;
    }

    /** `done` is false when the loop would spin on an empty list of blocks. */
    method FreeMemory(size: int) returns (done: bool)
      modifies this`data, this`allocations
      ensures done == Ir.FreeMemory(old(allocations), old(data), size).Some?
      ensures done ==> (allocations, data) == Ir.FreeMemory(old(allocations), old(data), size).value
      ensures !done ==> allocations == old(allocations) && data == old(data)
    {
      var left := size;
      var data0, allocations0 := data, allocations;
      while left > 0
        invariant Ir.FreeMemory(allocations, data, left) == Ir.FreeMemory(allocations0, data0, size)
        decreases |allocations|
      {
        if allocations == [] {
          data, allocations := data0, allocations0;
          return false;
        }
        var block := allocations[|allocations| - 1];
        allocations := allocations[..|allocations| - 1];
        if 0 <= block.start <= |data| {
          data := data[..block.start];
        }
        left := left - block.size;
      }
      done := true;
    }

    method GetVariableAddress(slot: int) returns (addr: Option<int>)
      ensures addr == VariableAddress(Value(), slot)
    {
      var address := Top(fp) + slot;
      var i := 0;
      while i < |allocations|
        invariant 0 <= i <= |allocations|
        invariant FindBlock(allocations, address, i) == FindBlock(allocations, address, 0)
      {
        var block := allocations[i];
        var stop := block.start + (block.size - 1);
        if address >= block.start && address <= stop {
          return Some(block.start);
        }
        i := i + 1;
      }
      addr := None;
    }

    method Load()
      requires Condition().Running?
      modifies this
      ensures running ==> !hadError
      ensures Value() == ExecuteLoad(old(Value()))
    {
      var addr := PopExec();
      if addr >= GLOBALS_OFFSET {
        if addr - GLOBALS_OFFSET < |globals| {
          Push(globals[addr - GLOBALS_OFFSET]);
        } else {
          crashed := true;
        }
      } else if 0 <= addr < |data| {
        Push(data[addr]);
      } else {
        running, hadError := false, true;
      }
    }

    method Store()
      requires Condition().Running?
      modifies this
      ensures running ==> !hadError
      ensures Value() == ExecuteStore(old(Value()))
    {
      var addr := PopExec();
      var val := PopExec();
      if addr >= GLOBALS_OFFSET {
        if addr - GLOBALS_OFFSET < |globals| {
          Push(globals[addr - GLOBALS_OFFSET]);
        } else {
          crashed := true;
        }
      } else if 0 <= addr < |data| {
        data := data[addr := val];
      } else {
        running, hadError := false, true;
      }
    }

    method PushSlot(operand: int, isAddress: bool)
      requires Condition().Running?
      modifies this`exec, this`crashed
      ensures Value() == Execute(image, Op(if isAddress then PushSea else PushStack, operand, ""), old(Value()))
    {
      var addr := GetVariableAddress(operand - 1);
      if addr.None? {
        crashed := true;
      } else if isAddress {
        Push(addr.value);
      } else if 0 <= addr.value < |data| {
        Push(data[addr.value]);
      } else {
        crashed := true;
      }
    }

    method Compute(op: BinaryOp)
      requires Condition().Running?
      modifies this`exec, this`crashed
      ensures Value() == Execute(image, Op(Binary(op), 0, ""), old(Value()))
    {
      hide EvalBinary;
      var a := PopExec();
      var b := PopExec();
      var r := EvalBinary(op, a, b);
      if r.Some? {
        Push(r.value);
      } else {
        crashed := true;
      }
    }

    method Return()
      requires Condition().Running?
      modifies this`running, this`ip, this`ipStack, this`currFunc
      ensures Value() == ExecuteRet(old(Value()))
    {
      if ipStack == [] {
        running := false;
      } else {
        ip := ipStack[|ipStack| - 1];
        ipStack := ipStack[..|ipStack| - 1];
        currFunc := Rest(currFunc);
      }
    }

    method EnterFunction(op: Op)
      requires Condition().Running? && op.operation.Call?
      modifies this`currFunc, this`ipStack, this`ip, this`crashed
      ensures Value() == Execute(image, op, old(Value()))
    {
      if op.name in image {
        currFunc := currFunc + [op.name];
        ipStack := ipStack + [ip];
        ip := 0;
      } else {
        crashed := true;
      }
    }

    method Branch(op: Op)
      requires Condition().Running? && (op.operation.JumpIf? || op.operation.JumpIfNot?)
      modifies this`exec, this`ip
      ensures Value() == Execute(image, op, old(Value()))
    {
      var cond := PopExec();
      if op.operation.JumpIf? == (cond != 0) {
        ip := ip + op.operand;
      }
    }

    method Release(size: int)
      requires Condition().Running?
      modifies this`data, this`allocations, this`crashed
      ensures Value() == Freed(old(Value()), size)
    {
      var done := FreeMemory(size);
      crashed := !done;
    }

    method ExecuteOpcode(op: Op)
      requires Condition().Running?
      modifies this
      ensures Value() == Execute(image, op, old(Value()))
      ensures running ==> !hadError
    {
      hide Execute;
      if OnExecStack(op) {
        ExecuteStack(op);
      } else if IsControl(op) {
        ExecuteControl(op);
      } else {
        ExecuteMemory(op);
      }
    }

    /** The opcodes that only work on the exec stack. */
    method ExecuteStack(op: Op)
      requires Condition().Running? && OnExecStack(op)
      modifies this`exec, this`crashed
      ensures Value() == Execute(image, op, old(Value()))
    {
      hide EvalBinary, EvalUnary;
      match op.operation
      case Nop =>
      case Unary(un) =>
        var a := PopExec();
        Push(EvalUnary(un, a));
      case Binary(bin) => Compute(bin);
      case PushSign => Push(op.operand);
      case PushUnsign => Push(op.operand);
      case PushGlobal => Push(op.operand);
      case PushGea => Push(GLOBALS_OFFSET + op.operand * 8);
      case Pop => var _ := PopExec();
      case Clone =>
        var v := PopExec();
        Push(v);
        Push(v);
    }

    /** The opcodes that use frames, cells or globals. */
    method ExecuteMemory(op: Op)
      requires Condition().Running? && !OnExecStack(op) && !IsControl(op)
      modifies this
      ensures Value() == Execute(image, op, old(Value()))
      ensures running ==> !hadError
    {
      hide Freed, VariableAddress, Zeros, ExecuteLoad, ExecuteStore;
      match op.operation
      case StackFramePush => fp := fp + [|data|];
      case StackFramePop =>
        var base := Top(fp);
        fp := Rest(fp);
        Release(|data| - base);
      case SetupGlobal =>
        var v := PopExec();
        if 0 <= op.operand < |globals| {
          globals := globals[op.operand := v];
        }
      case PushStack => PushSlot(op.operand, false);
      case PushSea => PushSlot(op.operand, true);
      case Alloc =>
        var addr := AllocateMemory(op.operand);
        Push(addr);
      case Free => Release(op.operand);
      case Load => Load();
      case Store => Store();
    }

    /** The opcodes that move the instruction pointer or stop the machine. */
    method ExecuteControl(op: Op)
      requires Condition().Running? && IsControl(op)
      modifies this
      ensures Value() == Execute(image, op, old(Value()))
      ensures running ==> !hadError
    {
      match op.operation
      case Jump => ip := ip + op.operand;
      case JumpIf => Branch(op);
      case JumpIfNot => Branch(op);
      case Ret => Return();
      case Call => EnterFunction(op);
      case Brk => crashed := true;
      case Invalid => running, hadError := false, true;
    }

    /** `interop_func`, cut off after `turns` opcodes. The local `func` is only refreshed when
        the depth of the call stack changed; it is nevertheless always the running function. */
    method Interop(turns: nat) returns (n: nat)
      requires Condition().Running? && |currFunc| == |ipStack| + 1
      modifies this
      ensures n <= turns && (Condition().Running? ==> n == turns)
      ensures Value() == Run(image, old(Value()), n)
    {
      hide Execute, Run;
      ghost var start := Value();
      var i := 0;
      var func := "";
      n := 0;
      RunZero(image, start);
      while running && !crashed && n < turns
        invariant n <= turns
        invariant Value() == Run(image, start, n)
        invariant running ==> !hadError
        invariant running && !crashed ==> |currFunc| == |ipStack| + 1
        invariant 0 < i == |currFunc| ==> func == currFunc[i - 1]
      {
        if i != |currFunc| {
          i := |currFunc|;
          func := currFunc[|currFunc| - 1];
        }
        assert func == currFunc[|currFunc| - 1];
        label Before:
        RunNext(image, start, n);
        if func in image && 0 <= ip < |image[func]| {
          var op := image[func][ip];
          ip := ip + 1;
          CallStackChange(image, op, Value());
          ExecuteOpcode(op);
        } else {
          crashed := true;
        }
        n := n + 1;
      }
    }
  }

  lemma RunZero(image: Image, m: Machine)
    ensures Run(image, m, 0) == m
  {
  }

  lemma RunNext(image: Image, m: Machine, n: nat)
    ensures Run(image, m, n + 1) == Step(image, Run(image, m, n))
  {
    hide Step;
    RunAdd(image, m, n, 1);
    assert Run(image, Run(image, m, n), 1) == Run(image, Step(image, Run(image, m, n)), 0);
  }

  /** One opcode enters a function, leaves one or stays; calls and returns keep the stack of
      functions one deeper than the stack of return positions. */
  lemma CallStackChange(image: Image, op: Op, m: Machine)
    requires m.status.Running?
    ensures var m' := Execute(image, op, m);
            || (m'.currFunc == m.currFunc && m'.ipStack == m.ipStack)
            || (m'.currFunc == m.currFunc + [op.name] && m'.ipStack == m.ipStack + [m.ip])
            || (m.ipStack != [] && m'.currFunc == Rest(m.currFunc) && m'.ipStack == Rest(m.ipStack))
  {
    if !op.operation.Call? && !op.operation.Ret? {
      hide Execute;
      StaysInFunction(image, op, m);
    }
  }

  lemma StaysInFunction(image: Image, op: Op, m: Machine)
    requires m.status.Running? && !op.operation.Call? && !op.operation.Ret?
    ensures var m' := Execute(image, op, m);
            m'.currFunc == m.currFunc && m'.ipStack == m.ipStack
  {
    hide Freed, VariableAddress, EvalBinary, EvalUnary, Zeros, ExecuteLoad, ExecuteStore;
  }
}
