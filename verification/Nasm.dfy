/**
  The native back end (src/nasm_backend.cpp): the instructions its templates use, what they
  do on x86-64, and the lowering of one opcode and of a function.
*/
module Nasm {
  import opened Word64
  import opened Ir

  datatype Reg = Rax | Rbx | Rcx | Rdx | Rsp | Rbp | R15

  /** `[r14 + r15 * 8]`, `[rbp - n * 8]` and `[reg]`. */
  datatype Mem = ExecTop | Slot(n: int) | At(reg: Reg)

  datatype Cond = E | Ne | L | G | Le | Ge

  datatype Instr =
    | Load(dst: Reg, from: Mem)
    | Store(to: Mem, src: Reg)
    | StoreImm(to: Mem, imm: int)
    | Lea(dst: Reg, from: Mem)
    | Mov(dst: Reg, src: Reg)
    | MovImm(dst: Reg, imm: int)
    | Inc(reg: Reg) | Dec(reg: Reg)
    | Alu(op: BinaryOp, dst: Reg, src: Reg)
    | AddImm(reg: Reg, imm: int)
    | Neg(reg: Reg) | Not(reg: Reg)
    | Cqo | Idiv(reg: Reg)
    | ShiftCl(op: BinaryOp)
    | Cmp(a: Reg, b: Reg) | CmpImm(a: Reg, imm: int)
    | CMov(cond: Cond, dst: Reg, src: Reg)
    | SetNeAl | XorAl(imm: int) | AndAl(imm: int) | MovzxAl
    | Push(reg: Reg) | Pop(reg: Reg)
    | Jmp(target: int) | Jcc(cond: Cond, target: int)
    | Call(name: string) | Ret
    | Nop | Trap

  /** A qword holds a number or the return position behind a call. */
  datatype Word = Int(value: int) | Return(func: string, at: int) | Startup

  datatype Flags = Unset | Flags(zero: bool, sign: bool, overflow: bool)

  /** `block` is the number of the `.IROP_` label, `k` the instruction behind it. */
  datatype Pc = Pc(func: string, block: int, k: int) | Exit | Dead

  datatype Regs = Regs(rax: int, rbx: int, rcx: int, rdx: int, rsp: int, rbp: int, r15: int)

  /** Registers, flags and the two memory segments the program touches. The word of the
      stack segment with index `q` lies at `stackTop - 8 * (q + 1)`. */
  datatype Cpu = Cpu(r: Regs, flags: Flags, execSeg: seq<Word>, stackSeg: seq<Word>, pc: Pc)

  /** Where the segments lie, how many words they have, and `rbp` at startup. */
  datatype Layout = Layout(execBase: int, execWords: nat, stackTop: int, stackWords: nat, rbp0: int)

  type Text = map<string, seq<seq<Instr>>>

  function Get(r: Regs, reg: Reg): int {
    match reg
    case Rax => r.rax
    case Rbx => r.rbx
    case Rcx => r.rcx
    case Rdx => r.rdx
    case Rsp => r.rsp
    case Rbp => r.rbp
    case R15 => r.r15
  }

  function Set(r: Regs, reg: Reg, v: int): Regs {
    match reg
    case Rax => r.(rax := v)
    case Rbx => r.(rbx := v)
    case Rcx => r.(rcx := v)
    case Rdx => r.(rdx := v)
    case Rsp => r.(rsp := v)
    case Rbp => r.(rbp := v)
    case R15 => r.(r15 := v)
  }

  function Effective(l: Layout, r: Regs, m: Mem): int {
    match m
    case ExecTop => l.execBase + r.r15 * 8
    case Slot(n) => r.rbp - n * 8
    case At(reg) => Get(r, reg)
  }

  /** Index of the word of the exec segment at an address, if there is one. */
  predicate InExec(l: Layout, c: Cpu, a: int) {
    l.execBase <= a < l.execBase + 8 * |c.execSeg| && (a - l.execBase) % 8 == 0
  }

  predicate InStack(l: Layout, c: Cpu, a: int) {
    l.stackTop - 8 * |c.stackSeg| <= a < l.stackTop && (l.stackTop - a) % 8 == 0
  }

  function ReadMem(l: Layout, c: Cpu, a: int): Option<Word> {
    if InExec(l, c, a) then Some(c.execSeg[(a - l.execBase) / 8])
    else if InStack(l, c, a) then Some(c.stackSeg[(l.stackTop - a) / 8 - 1])
    else None
  }

  function WriteMem(l: Layout, c: Cpu, a: int, w: Word): Cpu {
    if InExec(l, c, a) then c.(execSeg := c.execSeg[(a - l.execBase) / 8 := w])
    else if InStack(l, c, a) then c.(stackSeg := c.stackSeg[(l.stackTop - a) / 8 - 1 := w])
    else c.(pc := Dead)
  }

  /** `cmp a, b` subtracts and keeps only the flags. */
  function Compare(a: int, b: int): Flags {
    var d := Wrap(a - b);
    Flags(d == 0, d < 0, d != a - b)
  }

  function Holds(cond: Cond, f: Flags): Option<bool> {
    if f.Unset? then None else
    Some(match cond
         case E => f.zero
         case Ne => !f.zero
         case L => f.sign != f.overflow
         case Ge => f.sign == f.overflow
         case G => !f.zero && f.sign == f.overflow
         case Le => f.zero || f.sign != f.overflow)
  }

  function WithAl(rax: int, al: int): int {
    rax - rax % 256 + al
  }

  function Next(c: Cpu): Cpu {
    if c.pc.Pc? then c.(pc := c.pc.(k := c.pc.k + 1)) else c
  }

  function SetReg(c: Cpu, reg: Reg, v: int): Cpu {
    Next(c.(r := Set(c.r, reg, v)))
  }

  /** Instructions that neither touch memory nor jump. */
  function ExecRegs(i: Instr, c: Cpu): Cpu {
    match i
    case Mov(dst, src) => SetReg(c, dst, Get(c.r, src))
    case MovImm(dst, v) => SetReg(c, dst, v)
    case Inc(reg) => SetReg(c.(flags := Unset), reg, Get(c.r, reg) + 1)
    case Dec(reg) => SetReg(c.(flags := Unset), reg, Get(c.r, reg) - 1)
    case Alu(op, dst, src) =>
      (match EvalBinary(op, Get(c.r, dst), Get(c.r, src))
       case Some(v) => SetReg(c.(flags := Unset), dst, v)
       case None => c.(pc := Dead))
    case AddImm(reg, v) => SetReg(c.(flags := Unset), reg, Get(c.r, reg) + v)
    case Neg(reg) => SetReg(c.(flags := Unset), reg, Wrap(-Get(c.r, reg)))
    case Not(reg) => SetReg(c, reg, -1 - Get(c.r, reg))
    case Cqo => SetReg(c, Rdx, if c.r.rax < 0 then -1 else 0)
    case Idiv(reg) =>
      var dividend, b := c.r.rdx * TWO_64 + Unsigned(c.r.rax), Get(c.r, reg);
      if b == 0 || !(-TWO_63 <= TruncDiv(dividend, b) < TWO_63) then c.(pc := Dead)
      else Next(c.(flags := Unset, r := c.r.(rax := TruncDiv(dividend, b), rdx := TruncMod(dividend, b))))
    case ShiftCl(op) =>
      (match EvalBinary(op, c.r.rax, c.r.rcx % 64)
       case Some(v) => SetReg(c.(flags := Unset), Rax, v)
       case None => c.(pc := Dead))
    case Cmp(a, b) => Next(c.(flags := Compare(Get(c.r, a), Get(c.r, b))))
    case CmpImm(a, v) => Next(c.(flags := Compare(Get(c.r, a), v)))
    case CMov(cond, dst, src) =>
      (match Holds(cond, c.flags)
       case Some(b) => if b then SetReg(c, dst, Get(c.r, src)) else Next(c)
       case None => c.(pc := Dead))
    case SetNeAl =>
      (match Holds(Ne, c.flags)
       case Some(b) => SetReg(c, Rax, WithAl(c.r.rax, Bool(b)))
       case None => c.(pc := Dead))
    case XorAl(v) => SetReg(c.(flags := Unset), Rax, WithAl(c.r.rax, Bits(BitXor, c.r.rax % 256, v % 256, 8)))
    case AndAl(v) => SetReg(c.(flags := Unset), Rax, WithAl(c.r.rax, Bits(BitAnd, c.r.rax % 256, v % 256, 8)))
    case MovzxAl => SetReg(c, Rax, c.r.rax % 256)
    case Nop => Next(c)
    case _ => c.(pc := Dead)
  }

  function LoadReg(l: Layout, c: Cpu, dst: Reg, a: int): Cpu {
    match ReadMem(l, c, a)
    case Some(Int(v)) => SetReg(c, dst, v)
    case _ => c.(pc := Dead)
  }

  function ExecInstr(l: Layout, i: Instr, c: Cpu): Cpu
    requires c.pc.Pc?
  {
    match i
    case Load(dst, from) => LoadReg(l, c, dst, Effective(l, c.r, from))
    case Store(to, src) => WriteMem(l, Next(c), Effective(l, c.r, to), Int(Get(c.r, src)))
    case StoreImm(to, v) => WriteMem(l, Next(c), Effective(l, c.r, to), Int(v))
    case Lea(dst, from) => SetReg(c, dst, Effective(l, c.r, from))
    case Push(reg) => WriteMem(l, Next(c.(r := c.r.(rsp := c.r.rsp - 8))), c.r.rsp - 8, Int(Get(c.r, reg)))
    case Pop(reg) => LoadReg(l, c.(r := c.r.(rsp := c.r.rsp + 8)), reg, c.r.rsp)
    case Jmp(target) => c.(pc := Pc(c.pc.func, target, 0))
    case Jcc(cond, target) =>
      (match Holds(cond, c.flags)
       case Some(b) => if b then c.(pc := Pc(c.pc.func, target, 0)) else Next(c)
       case None => c.(pc := Dead))
    case Call(f) =>
      WriteMem(l, c.(r := c.r.(rsp := c.r.rsp - 8), pc := Pc(f, 0, 0)), c.r.rsp - 8, Return(c.pc.func, c.pc.block + 1))
    case Ret =>
      (match ReadMem(l, c, c.r.rsp)
       case Some(Return(f, at)) => c.(r := c.r.(rsp := c.r.rsp + 8), pc := Pc(f, at, 0))
       case Some(Startup) => c.(r := c.r.(rsp := c.r.rsp + 8), pc := Exit)
       case _ => c.(pc := Dead))
    case _ => ExecRegs(i, c)
  }

  /** Running off the end of the code of one opcode enters the next one. */
  function Settle(text: Text, c: Cpu): Cpu {
    if c.pc.Pc? && c.pc.func in text && 0 <= c.pc.block < |text[c.pc.func]| && c.pc.k >= |text[c.pc.func][c.pc.block]|
    then c.(pc := Pc(c.pc.func, c.pc.block + 1, 0)) else c
  }

  function StepCpu(l: Layout, text: Text, c: Cpu): Cpu {
    if !c.pc.Pc? then c
    else if c.pc.func in text && 0 <= c.pc.block < |text[c.pc.func]| && 0 <= c.pc.k < |text[c.pc.func][c.pc.block]|
    then Settle(text, ExecInstr(l, text[c.pc.func][c.pc.block][c.pc.k], c))
    else c.(pc := Dead)
  }

  function RunCpu(l: Layout, text: Text, c: Cpu, n: nat): Cpu
    decreases n
  {
    if n == 0 then c else RunCpu(l, text, StepCpu(l, text, c), n - 1)
  }

  // ----- templates -----

  /** LOAD: pop the exec stack into a register. */
  function PopTo(reg: Reg): seq<Instr> {
    [Dec(R15), Instr.Load(reg, ExecTop)]
  }

  /** STORE: push a register on the exec stack. */
  function PushFrom(reg: Reg): seq<Instr> {
    [Instr.Store(ExecTop, reg), Inc(R15)]
  }

  function CondOf(op: BinaryOp): Cond {
    match op
    case CmpEq => E
    case CmpNeq => Ne
    case CmpLt => L
    case CmpGt => G
    case CmpLte => Le
    case _ => Ge
  }

  predicate IsCompare(op: BinaryOp) {
    op.CmpEq? || op.CmpNeq? || op.CmpLt? || op.CmpGt? || op.CmpLte? || op.CmpGte?
  }

  /** DIVOP, SHIFTOP, BINCMPOP and BINOP. */
  function LowerBinary(op: BinaryOp): seq<Instr> {
    if op.Div? || op.Mod? then
      PopTo(Rax) + [Cqo] + PopTo(Rbx) + [Idiv(Rbx)] + PushFrom(if op.Div? then Rax else Rdx)
    else if op.ShiftLeft? || op.ShiftRight? then
      PopTo(Rax) + PopTo(Rcx) + [ShiftCl(op)] + PushFrom(Rax)
    else if IsCompare(op) then
      [Alu(BitXor, Rcx, Rcx)] + (PopTo(Rax) + PopTo(Rbx)) + CompareCore(op) + PushFrom(Rcx)
    else
      PopTo(Rax) + PopTo(Rbx) + [Alu(op, Rax, Rbx)] + PushFrom(Rax)
  }

  function CompareCore(op: BinaryOp): seq<Instr> {
    [Cmp(Rax, Rbx), MovImm(Rax, 1), CMov(CondOf(op), Rcx, Rax)]
  }

  function UnaryCore(op: UnaryOp): seq<Instr> {
    match op
    case Negate => [Neg(Rax)]
    case BitNot => [Not(Rax)]
    case LogNot => [CmpImm(Rax, 0), SetNeAl, XorAl(-1), AndAl(1), MovzxAl]
  }

  function LowerUnary(op: UnaryOp): seq<Instr> {
    PopTo(Rax) + UnaryCore(op) + PushFrom(Rax)
  }

  /** The instructions behind label `.IROP_i`. Globals and large allocations are not part of
      this model. */
  function Lower(op: Op, i: int): seq<Instr> {
    match op.operation
    case Nop => [Instr.Nop]
    case StackFramePush => [Instr.Push(Rbp), Mov(Rbp, Rsp)]
    case StackFramePop => [Mov(Rsp, Rbp), Instr.Pop(Rbp)]
    case PushSign => [StoreImm(ExecTop, op.operand), Inc(R15)]
    case PushUnsign => [StoreImm(ExecTop, op.operand), Inc(R15)]
    case PushStack => [Instr.Load(Rax, Slot(op.operand))] + PushFrom(Rax)
    case PushSea => [Lea(Rax, Slot(op.operand))] + PushFrom(Rax)
    case Pop => PopTo(Rax)
    case Clone => PopTo(Rax) + PushFrom(Rax) + PushFrom(Rax)
    case Alloc => [AddImm(Rsp, -8 * op.operand), StoreImm(At(Rsp), 0)] + PushFrom(Rsp)
    case Free => [AddImm(Rsp, 8 * op.operand)]
    case Unary(un) => LowerUnary(un)
    case Binary(bin) => LowerBinary(bin)
    case Load => PopTo(Rbx) + [Instr.Load(Rax, At(Rbx))] + PushFrom(Rax)
    case Store => PopTo(Rbx) + PopTo(Rax) + [Instr.Store(At(Rbx), Rax)]
    case Jump => [Jmp(i + 1 + op.operand)]
    case JumpIf => PopTo(Rax) + [CmpImm(Rax, 0), Jcc(Ne, i + 1 + op.operand)]
    case JumpIfNot => PopTo(Rax) + [CmpImm(Rax, 0), Jcc(E, i + 1 + op.operand)]
    case Call => [Instr.Call(op.name)]
    case Ret => [Instr.Ret]
    case _ => [Trap]
  }

  /** The text of a function: one group of lines per opcode, under its number as label. */
  function LowerAll(code: seq<Op>): (r: seq<seq<Instr>>)
    ensures |r| == |code|
  {
    seq(|code|, i requires 0 <= i < |code| => Lower(code[i], i))
  }

  class Writer {
    var text: Text

    constructor ()
      ensures text == map[]
    {
      text := map[];
    }

    /** `nasm_compile_func`: one labelled group of lines per opcode, in order. */
    method CompileFunction(name: string, code: seq<Op>)
      modifies this
      ensures text == old(text)[name := LowerAll(code)]
    {
      var lines: seq<seq<Instr>> := [];
      for i := 0 to |code|
        invariant |lines| == i && forall k :: 0 <= k < i ==> lines[k] == Lower(code[k], k)
      {
        lines := lines + [Lower(code[i], i)];
      }
      assert lines == LowerAll(code);
      text := text[name := lines];
    }
  }
}
