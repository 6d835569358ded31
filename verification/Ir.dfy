/**
  The stack IR (include/ir.h) and what one opcode does to the state of the abstract
  machine (src/interop.cpp). Stacks grow to the right: the top is the last element.
*/
module Ir {
  import opened Word64

  const GLOBALS_OFFSET: int := 0x2000_0000

  datatype OpCode =
    | Nop | SetupGlobal | PushSign | PushUnsign | PushStack | PushGlobal | PushGea | PushSea
    | Pop | Clone | StackFramePush | StackFramePop | Alloc | Free | Load | Store
    | Unary(un: UnaryOp) | Binary(bin: BinaryOp)
    | Jump | JumpIf | JumpIfNot | Ret | Call | Brk | Invalid

  datatype Op = Op(operation: OpCode, operand: int, name: string)

  type Image = map<string, seq<Op>>

  datatype Block = Block(size: int, start: int)

  /** Running, returned from the entry function, `had_error`, or stopped by a crash,
      a failed assertion or an endless loop of the interpreter itself. */
  datatype Status = Running | Halted | Failed | Stuck

  datatype Machine = Machine(
    status: Status,
    ip: int,
    fp: seq<int>,
    ipStack: seq<int>,
    exec: seq<int>,
    data: seq<int>,
    allocations: seq<Block>,
    currFunc: seq<string>,
    globals: seq<int>)

  /** `stack_pop` and `stack_peek` log an error and yield zero on an empty stack. */
  function Top(s: seq<int>): int {
    if s == [] then 0 else s[|s| - 1]
  }

  function Rest<T>(s: seq<T>): seq<T> {
    if s == [] then [] else s[..|s| - 1]
  }

  /** `free_memory`: `None` is the loop that never ends because no block is left. */
  function FreeMemory(allocations: seq<Block>, data: seq<int>, size: int): Option<(seq<Block>, seq<int>)>
    decreases |allocations|
  {
    if size <= 0 then Some((allocations, data))
    else if allocations == [] then None
    else
      var block := allocations[|allocations| - 1];
      var data' := if 0 <= block.start <= |data| then data[..block.start] else data;
      FreeMemory(Rest(allocations), data', size - block.size)
  }

  /** Index of the first block holding `address`, counting from `from`. */
  function FindBlock(allocations: seq<Block>, address: int, from: nat): (r: Option<nat>)
    requires from <= |allocations|
    ensures r.Some? ==> from <= r.value < |allocations|
    decreases |allocations| - from
  {
    if from == |allocations| then None
    else if allocations[from].start <= address <= allocations[from].start + (allocations[from].size - 1) then Some(from)
    else FindBlock(allocations, address, from + 1)
  }

  /** `get_variable_address`: the start of the block the frame slot falls in. */
  function VariableAddress(m: Machine, slot: int): Option<int> {
    match FindBlock(m.allocations, Top(m.fp) + slot, 0)
    case None => None
    case Some(k) => Some(m.allocations[k].start)
  }

  function Push(m: Machine, v: int): Machine {
    m.(exec := m.exec + [v])
  }

  function Freed(m: Machine, size: int): (r: Machine)
    ensures r.currFunc == m.currFunc && r.ipStack == m.ipStack && r.fp == m.fp && r.ip == m.ip
  {
    match FreeMemory(m.allocations, m.data, size)
    case None => m.(status := Stuck)
    case Some(r) => m.(allocations := r.0, data := r.1)
  }

  function ExecuteLoad(m: Machine): (r: Machine)
    ensures r.currFunc == m.currFunc && r.ipStack == m.ipStack && r.fp == m.fp && r.ip == m.ip
  {
    var addr := Top(m.exec);
    var m1 := m.(exec := Rest(m.exec));
    if addr >= GLOBALS_OFFSET then
      if addr - GLOBALS_OFFSET < |m.globals| then Push(m1, m.globals[addr - GLOBALS_OFFSET])
      else m1.(status := Stuck)
    else if 0 <= addr < |m.data| then Push(m1, m.data[addr])
    else m1.(status := Failed)
  }

  /** A store to a global address pushes the global instead of writing it. */
  function ExecuteStore(m: Machine): (r: Machine)
    ensures r.currFunc == m.currFunc && r.ipStack == m.ipStack && r.fp == m.fp && r.ip == m.ip
  {
    var addr := Top(m.exec);
    var val := Top(Rest(m.exec));
    var m1 := m.(exec := Rest(Rest(m.exec)));
    if addr >= GLOBALS_OFFSET then
      if addr - GLOBALS_OFFSET < |m.globals| then Push(m1, m.globals[addr - GLOBALS_OFFSET])
      else m1.(status := Stuck)
    else if 0 <= addr < |m.data| then m1.(data := m.data[addr := val])
    else m1.(status := Failed)
  }

  function ExecuteRet(m: Machine): Machine {
    if m.ipStack == [] then m.(status := Halted)
    else m.(ip := Top(m.ipStack), ipStack := Rest(m.ipStack), currFunc := Rest(m.currFunc))
  }

  /** `execute_ir_opcode`, called after the instruction pointer moved past the opcode. */
  function Execute(image: Image, op: Op, m: Machine): Machine {
    match op.operation
    case Nop => m
    case Unary(un) => Push(m.(exec := Rest(m.exec)), EvalUnary(un, Top(m.exec)))
    case Binary(bin) =>
      var m1 := m.(exec := Rest(Rest(m.exec)));
      (match EvalBinary(bin, Top(m.exec), Top(Rest(m.exec)))
       case Some(v) => Push(m1, v)
       case None => m1.(status := Stuck))
    case StackFramePush => m.(fp := m.fp + [|m.data|])
    case StackFramePop => Freed(m.(fp := Rest(m.fp)), |m.data| - Top(m.fp))
    case SetupGlobal =>
      var m1 := m.(exec := Rest(m.exec));
      if 0 <= op.operand < |m.globals| then m1.(globals := m.globals[op.operand := Top(m.exec)]) else m1
    case PushSign => Push(m, op.operand)
    case PushUnsign => Push(m, op.operand)
    case PushStack =>
      (match VariableAddress(m, op.operand - 1)
       case Some(a) => if 0 <= a < |m.data| then Push(m, m.data[a]) else m.(status := Stuck)
       case None => m.(status := Stuck))
    case PushSea =>
      (match VariableAddress(m, op.operand - 1)
       case Some(a) => Push(m, a)
       case None => m.(status := Stuck))
    case PushGlobal => Push(m, op.operand)
    case PushGea => Push(m, GLOBALS_OFFSET + op.operand * 8)
    case Pop => m.(exec := Rest(m.exec))
    case Clone => m.(exec := Rest(m.exec) + [Top(m.exec), Top(m.exec)])
    case Alloc =>
      Push(m.(data := m.data + Zeros(op.operand), allocations := m.allocations + [Block(op.operand, |m.data|)]),
           |m.data| + |Zeros(op.operand)| - 1)
    case Free => Freed(m, op.operand)
    case Load => ExecuteLoad(m)
    case Store => ExecuteStore(m)
    case Jump => m.(ip := m.ip + op.operand)
    case JumpIf =>
      m.(exec := Rest(m.exec), ip := if Top(m.exec) != 0 then m.ip + op.operand else m.ip)
    case JumpIfNot =>
      m.(exec := Rest(m.exec), ip := if Top(m.exec) == 0 then m.ip + op.operand else m.ip)
    case Ret => ExecuteRet(m)
    case Call =>
      if op.name in image then m.(currFunc := m.currFunc + [op.name], ipStack := m.ipStack + [m.ip], ip := 0)
      else m.(status := Stuck)
    case Brk => m.(status := Stuck)
    case Invalid => m.(status := Failed)
  }

  function Zeros(n: int): seq<int> {
    if n <= 0 then [] else seq(n, _ => 0)
  }

  /** The opcode the machine is about to execute. */
  function NextOp(image: Image, m: Machine): Option<Op> {
    if !m.status.Running? || m.currFunc == [] then None else
    var f := m.currFunc[|m.currFunc| - 1];
    if f in image && 0 <= m.ip < |image[f]| then Some(image[f][m.ip]) else None
  }

  /** One turn of the loop of `interop_func`. */
  function Step(image: Image, m: Machine): Machine {
    if !m.status.Running? then m
    else if m.currFunc == [] then m.(status := Stuck)
    else
      var f := m.currFunc[|m.currFunc| - 1];
      if f in image && 0 <= m.ip < |image[f]| then Execute(image, image[f][m.ip], m.(ip := m.ip + 1))
      else m.(status := Stuck)
  }

  function Run(image: Image, m: Machine, n: nat): Machine
    decreases n
  {
    if n == 0 then m else Run(image, Step(image, m), n - 1)
  }

  function Start(f: string, globals: seq<int>): Machine {
    Machine(Running, 0, [], [], [], [], [], [f], globals)
  }

  lemma {:induction false} RunAdd(image: Image, m: Machine, n: nat, k: nat)
    ensures Run(image, m, n + k) == Run(image, Run(image, m, n), k)
    decreases n
  {
    if n > 0 {
      RunAdd(image, Step(image, m), n - 1, k);
    }
  }

  lemma {:induction false} StoppedStays(image: Image, m: Machine, n: nat)
    requires !m.status.Running?
    ensures Run(image, m, n) == m
  {
    if n > 0 {
      StoppedStays(image, m, n - 1);
    }
  }
}
