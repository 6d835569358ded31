/**
  Effect of the instruction templates: what each one leaves in the registers and segments.
*/
module NasmBlocks {
  import opened Word64
  import opened Nasm
  import opened NasmArithmetic
  import opened NativeStack

  predicate IsControl(i: Instr) {
    i.Jmp? || i.Jcc? || i.Call? || i.Ret?
  }

  /** Instructions of one label, executed one after the other. */
  function ExecBlock(l: Layout, block: seq<Instr>, c: Cpu): Cpu
    decreases |block|
  {
    if block == [] || !c.pc.Pc? then c else ExecBlock(l, block[1..], ExecInstr(l, block[0], c))
  }

  lemma StraightStep(l: Layout, i: Instr, c: Cpu)
    requires c.pc.Pc? && !IsControl(i)
    ensures ExecInstr(l, i, c).pc == c.pc.(k := c.pc.k + 1) || ExecInstr(l, i, c).pc == Dead
  {
    hide ReadMem, InExec, InStack, Effective, ExecRegs;
    RegsStraight(i, c);
  }

  lemma RegsStraight(i: Instr, c: Cpu)
    requires c.pc.Pc?
    ensures ExecRegs(i, c).pc == c.pc.(k := c.pc.k + 1) || ExecRegs(i, c).pc == Dead
  {
    hide EvalBinary, Holds, Compare, WithAl, Bits, TruncDiv, TruncMod, Wrap, Set, Get;
  }

  lemma {:induction false} DeadStays(l: Layout, text: Text, c: Cpu, n: nat)
    requires !c.pc.Pc?
    ensures RunCpu(l, text, c, n) == c
    decreases n
  {
    if n > 0 {
      DeadStays(l, text, c, n - 1);
    }
  }

  lemma {:induction false} RunCpuAdd(l: Layout, text: Text, c: Cpu, n: nat, k: nat)
    ensures RunCpu(l, text, c, n + k) == RunCpu(l, text, RunCpu(l, text, c, n), k)
    decreases n
  {
    hide StepCpu;
    if n > 0 {
      RunCpuAdd(l, text, StepCpu(l, text, c), n - 1, k);
    }
  }

  /** Stepping through a label is executing its instructions and entering the next label. */
  lemma {:induction false} RunBlock(l: Layout, text: Text, c: Cpu, f: string, b: nat, pre: seq<Instr>, rest: seq<Instr>)
    requires f in text && b < |text[f]| && text[f][b] == pre + rest && rest != []
    requires c.pc == Pc(f, b, |pre|)
    requires forall i :: 0 <= i < |rest| - 1 ==> !IsControl(rest[i])
    ensures RunCpu(l, text, c, |rest|) == Settle(text, ExecBlock(l, rest, c))
    decreases |rest|
  {
    hide ExecInstr;
    var c1 := ExecInstr(l, rest[0], c);
    assert text[f][b][|pre|] == rest[0];
    assert StepCpu(l, text, c) == Settle(text, c1);
    assert RunCpu(l, text, c, |rest|) == RunCpu(l, text, Settle(text, c1), |rest| - 1);
    if |rest| > 1 {
      StraightStep(l, rest[0], c);
      if c1.pc.Pc? {
        assert pre + rest == (pre + [rest[0]]) + rest[1..];
        RunBlock(l, text, c1, f, b, pre + [rest[0]], rest[1..]);
      } else {
        DeadStays(l, text, c1, |rest| - 1);
      }
    } else {
      assert rest[1..] == [];
      assert ExecBlock(l, rest, c) == ExecBlock(l, [], c1);
    }
  }

  lemma {:induction false} ExecAppend(l: Layout, a: seq<Instr>, b: seq<Instr>, c: Cpu)
    ensures ExecBlock(l, a + b, c) == ExecBlock(l, b, ExecBlock(l, a, c))
    decreases |a|
  {
    hide ExecInstr;
    if a == [] {
      assert a + b == b;
    } else if c.pc.Pc? {
      assert (a + b)[1..] == a[1..] + b;
      ExecAppend(l, a[1..], b, ExecInstr(l, a[0], c));
    }
  }

  lemma ExecNone(l: Layout, c: Cpu)
    ensures ExecBlock(l, [], c) == c
  {
  }

  lemma ExecOne(l: Layout, i: Instr, c: Cpu)
    requires c.pc.Pc?
    ensures ExecBlock(l, [i], c) == ExecInstr(l, i, c)
  {
  }

  function Skip(c: Cpu, d: int): Cpu
    requires c.pc.Pc?
  {
    c.(pc := c.pc.(k := c.pc.k + d))
  }

  ghost predicate ExecReady(l: Layout, c: Cpu) {
    && c.pc.Pc? && 0 <= c.r.r15 <= |c.execSeg|
    && l.execBase + 8 * |c.execSeg| <= l.stackTop - 8 * |c.stackSeg|
  }

  lemma ReadExec(l: Layout, c: Cpu, k: nat, w: Word)
    requires k < |c.execSeg|
    ensures InExec(l, c, l.execBase + k * 8) && ReadMem(l, c, l.execBase + k * 8) == Some(c.execSeg[k])
    ensures WriteMem(l, c, l.execBase + k * 8, w) == c.(execSeg := c.execSeg[k := w])
  {
  }


  lemma ReadStack(l: Layout, c: Cpu, q: nat, w: Word)
    requires ExecReady(l, c) && q < |c.stackSeg|
    ensures ReadMem(l, c, StackAddr(l, q)) == Some(c.stackSeg[q])
    ensures WriteMem(l, c, StackAddr(l, q), w) == c.(stackSeg := c.stackSeg[q := w])
  {
  }

  lemma PopEffect(l: Layout, c: Cpu, reg: Reg, v: int)
    requires ExecReady(l, c) && c.r.r15 > 0 && reg != R15
    requires c.execSeg[c.r.r15 - 1] == Int(v)
    ensures ExecBlock(l, PopTo(reg), c) == Skip(c.(flags := Unset, r := Set(c.r.(r15 := c.r.r15 - 1), reg, v)), 2)
  {
  }

  lemma PushEffect(l: Layout, c: Cpu, reg: Reg)
    requires ExecReady(l, c) && c.r.r15 < |c.execSeg| && reg != R15
    ensures ExecBlock(l, PushFrom(reg), c) ==
            Skip(c.(flags := Unset, execSeg := c.execSeg[c.r.r15 := Int(Get(c.r, reg))], r := c.r.(r15 := c.r.r15 + 1)),
                 2)
  {
  }

  // ----- whole templates, up to scratch registers and flags -----

  function Visible(c: Cpu): Cpu {
    c.(flags := Unset, r := c.r.(rax := 0, rbx := 0, rcx := 0, rdx := 0))
  }

  /** The exec stack now has `v` on top of its lowest `keep` words, `d` instructions later. */
  function WithResult(c: Cpu, keep: int, v: int, d: int): Cpu
    requires c.pc.Pc? && 0 <= keep < |c.execSeg|
  {
    Skip(c.(execSeg := c.execSeg[keep := Int(v)], r := c.r.(r15 := keep + 1)), d)
  }

  lemma RegsStep(l: Layout, i: Instr, c: Cpu)
    requires c.pc.Pc? && (i.Alu? || i.Neg? || i.Not? || i.Cqo? || i.Idiv? || i.ShiftCl?)
    ensures ExecBlock(l, [i], c) == ExecRegs(i, c)
  {
  }

  /** A template is operands, an operation and the push of its result. */
  lemma Template(l: Layout, pops: seq<Instr>, core: seq<Instr>, reg: Reg, c: Cpu, c1: Cpu, c2: Cpu)
    requires c1 == ExecBlock(l, pops, c) && c2 == ExecBlock(l, core, c1)
    requires ExecReady(l, c2) && c2.r.r15 < |c2.execSeg| && reg != R15
    ensures Visible(ExecBlock(l, pops + core + PushFrom(reg), c)) ==
            Visible(WithResult(c2, c2.r.r15, Get(c2.r, reg), 2))
  {
    hide ExecBlock, ExecInstr;
    ExecAppend(l, pops, core, c);
    ExecAppend(l, pops + core, PushFrom(reg), c);
    PushEffect(l, c2, reg);
  }

  lemma PopsTwo(l: Layout, c: Cpu, first: Reg, second: Reg, a: int, b: int)
    requires ExecReady(l, c) && c.r.r15 >= 2 && first != R15 && second != R15
    requires c.execSeg[c.r.r15 - 1] == Int(a) && c.execSeg[c.r.r15 - 2] == Int(b)
    ensures ExecBlock(l, PopTo(first) + PopTo(second), c) ==
            Skip(c.(flags := Unset, r := Set(Set(c.r.(r15 := c.r.r15 - 2), first, a), second, b)), 4)
  {
    hide ExecBlock, ExecInstr;
    ExecAppend(l, PopTo(first), PopTo(second), c);
    PopEffect(l, c, first, a);
    PopEffect(l, ExecBlock(l, PopTo(first), c), second, b);
  }

  lemma ExecFirst(l: Layout, block: seq<Instr>, c: Cpu)
    requires c.pc.Pc? && block != []
    ensures ExecBlock(l, block, c) == ExecBlock(l, block[1..], ExecInstr(l, block[0], c))
  {
  }

  lemma TestByte(l: Layout, c: Cpu) returns (c': Cpu)
    requires c.pc.Pc? && InRange(c.r.rax)
    ensures ExecInstr(l, CmpImm(Rax, 0), c).pc.Pc? && c' == ExecInstr(l, SetNeAl, ExecInstr(l, CmpImm(Rax, 0), c))
    ensures Visible(c') == Visible(Skip(c, 2)) && c'.r.rax == WithAl(c.r.rax, Bool(c.r.rax != 0))
  {
    hide ReadMem, WriteMem, LoadReg, Effective, WithAl;
    c' := ExecInstr(l, SetNeAl, ExecInstr(l, CmpImm(Rax, 0), c));
  }

  lemma NegateByte(l: Layout, c: Cpu, rax: int, flag: int) returns (c': Cpu)
    requires c.pc.Pc? && c.r.rax == WithAl(rax, flag) && (flag == 0 || flag == 1)
    ensures ExecInstr(l, XorAl(-1), c).pc.Pc? && ExecInstr(l, AndAl(1), ExecInstr(l, XorAl(-1), c)).pc.Pc?
    ensures c' == ExecInstr(l, MovzxAl, ExecInstr(l, AndAl(1), ExecInstr(l, XorAl(-1), c)))
    ensures Visible(c') == Visible(Skip(c, 3)) && c'.r.rax == 1 - flag
  {
    hide WithAl, Bits, ExecInstr;
    RegsOnly(l, XorAl(-1), c);
    var c1 := ExecInstr(l, XorAl(-1), c);
    RegsOnly(l, AndAl(1), c1);
    var c2 := ExecInstr(l, AndAl(1), c1);
    RegsOnly(l, MovzxAl, c2);
    c' := ExecInstr(l, MovzxAl, c2);
    NotSequence(rax, flag);
    assert -1 % 256 == 255;
  }

  lemma RegsOnly(l: Layout, i: Instr, c: Cpu)
    requires c.pc.Pc? && (i.XorAl? || i.AndAl? || i.MovzxAl?)
    ensures ExecInstr(l, i, c) == ExecRegs(i, c)
  {
    hide ExecRegs;
  }

  lemma LogNotEffect(l: Layout, c: Cpu)
    requires c.pc.Pc? && InRange(c.r.rax)
    ensures Visible(ExecBlock(l, UnaryCore(LogNot), c)) == Visible(Skip(c, 5))
    ensures ExecBlock(l, UnaryCore(LogNot), c).r.rax == EvalUnary(LogNot, c.r.rax)
  {
    hide ExecBlock, ExecInstr, WithAl;
    var core := UnaryCore(LogNot);
    var c2 := TestByte(l, c);
    var c5 := NegateByte(l, c2, c.r.rax, Bool(c.r.rax != 0));
    ExecFirst(l, core, c);
    ExecFirst(l, core[1..], ExecInstr(l, CmpImm(Rax, 0), c));
    ExecFirst(l, core[1..][1..], c2);
    ExecFirst(l, core[1..][1..][1..], ExecInstr(l, XorAl(-1), c2));
    assert core[1..][1..][1..][1..] == [MovzxAl];
    ExecOne(l, MovzxAl, ExecInstr(l, AndAl(1), ExecInstr(l, XorAl(-1), c2)));
  }

  lemma UnaryEffect(l: Layout, c: Cpu, op: UnaryOp, v: int)
    requires ExecReady(l, c) && c.r.r15 >= 1 && c.execSeg[c.r.r15 - 1] == Int(v) && InRange(v)
    ensures Visible(ExecBlock(l, LowerUnary(op), c)) ==
            Visible(WithResult(c, c.r.r15 - 1, EvalUnary(op, v), |LowerUnary(op)|))
  {
    hide ExecBlock, ExecInstr, ReadMem, WriteMem, Bits;
    PopEffect(l, c, Rax, v);
    var c1 := ExecBlock(l, PopTo(Rax), c);
    var c2 := ExecBlock(l, UnaryCore(op), c1);
    match op {
      case LogNot => LogNotEffect(l, c1);
      case Negate => RegsStep(l, Neg(Rax), c1);
      case BitNot => RegsStep(l, Not(Rax), c1);
    }
    Template(l, PopTo(Rax), UnaryCore(op), Rax, c, c1, c2);
  }

  lemma CompareEffect(l: Layout, c: Cpu, op: BinaryOp)
    requires c.pc.Pc? && InRange(c.r.rax) && InRange(c.r.rbx) && IsCompare(op) && c.r.rcx == 0
    ensures Visible(ExecBlock(l, CompareCore(op), c)) == Visible(Skip(c, 3))
    ensures EvalBinary(op, c.r.rax, c.r.rbx) == Some(ExecBlock(l, CompareCore(op), c).r.rcx)
  {
    hide ExecBlock;
    var c1 := ExecInstr(l, Cmp(Rax, Rbx), c);
    var c2 := ExecInstr(l, MovImm(Rax, 1), c1);
    var core := CompareCore(op);
    ExecFirst(l, core, c);
    ExecFirst(l, core[1..], c1);
    assert core[1..][1..] == [CMov(CondOf(op), Rcx, Rax)];
    ExecOne(l, CMov(CondOf(op), Rcx, Rax), c2);
    CompareDecides(op, c.r.rax, c.r.rbx);
  }

  /** `dec` and `mov` of the second LOAD stand between `cqo` and `idiv`. */
  lemma DivideEffect(l: Layout, c: Cpu, a: int, b: int)
    requires ExecReady(l, c) && c.r.r15 >= 2 && InRange(a) && InRange(b)
    requires c.execSeg[c.r.r15 - 1] == Int(a) && c.execSeg[c.r.r15 - 2] == Int(b)
    ensures var c' := ExecBlock(l, PopTo(Rax) + [Cqo] + PopTo(Rbx) + [Idiv(Rbx)], c);
            if b == 0 || (a == -TWO_63 && b == -1) then c'.pc == Dead
            else c'.r.rax == TruncDiv(a, b) && c'.r.rdx == TruncMod(a, b) &&
                 Visible(c') == Visible(Skip(c.(r := c.r.(r15 := c.r.r15 - 2)), 6))
  {
    hide ExecBlock, ExecInstr, TruncDiv, TruncMod;
    PopEffect(l, c, Rax, a);
    var c1 := ExecBlock(l, PopTo(Rax), c);
    RegsStep(l, Cqo, c1);
    var c2 := ExecBlock(l, [Cqo], c1);
    PopEffect(l, c2, Rbx, b);
    var c3 := ExecBlock(l, PopTo(Rbx), c2);
    RegsStep(l, Idiv(Rbx), c3);
    ExecAppend(l, PopTo(Rax), [Cqo], c);
    ExecAppend(l, PopTo(Rax) + [Cqo], PopTo(Rbx), c);
    ExecAppend(l, PopTo(Rax) + [Cqo] + PopTo(Rbx), [Idiv(Rbx)], c);
    SignExtension(a);
    if b != 0 {
      QuotientInRange(a, b);
    }
  }

  lemma BinaryEffect(l: Layout, c: Cpu, op: BinaryOp, a: int, b: int, v: int)
    requires ExecReady(l, c) && c.r.r15 >= 2 && InRange(a) && InRange(b)
    requires c.execSeg[c.r.r15 - 1] == Int(a) && c.execSeg[c.r.r15 - 2] == Int(b)
    requires EvalBinary(op, a, b) == Some(v) && ((op.Div? || op.Mod?) ==> b != 0)
    ensures Visible(ExecBlock(l, LowerBinary(op), c)) == Visible(WithResult(c, c.r.r15 - 2, v, |LowerBinary(op)|))
  {
    hide ExecBlock, ExecInstr, ReadMem, WriteMem, Bits, TruncDiv, TruncMod, CompareCore;
    if op.Div? || op.Mod? {
      DivideEffect(l, c, a, b);
      var pops := PopTo(Rax) + [Cqo] + PopTo(Rbx);
      ExecAppend(l, pops, [Idiv(Rbx)], c);
      Template(l, pops, [Idiv(Rbx)], if op.Div? then Rax else Rdx, c, ExecBlock(l, pops, c),
               ExecBlock(l, pops + [Idiv(Rbx)], c));
    } else if op.ShiftLeft? || op.ShiftRight? {
      ShiftEffect(l, c, op, a, b, v);
    } else if IsCompare(op) {
      CompareTemplate(l, c, op, a, b, v);
    } else {
      PopsTwo(l, c, Rax, Rbx, a, b);
      var c1 := ExecBlock(l, PopTo(Rax) + PopTo(Rbx), c);
      RegsStep(l, Alu(op, Rax, Rbx), c1);
      Template(l, PopTo(Rax) + PopTo(Rbx), [Alu(op, Rax, Rbx)], Rax, c, c1, ExecBlock(l, [Alu(op, Rax, Rbx)], c1));
    }
  }

  lemma ShiftCount(op: BinaryOp, a: int, b: int)
    requires (op.ShiftLeft? || op.ShiftRight?) && EvalBinary(op, a, b).Some?
    ensures b % 64 == b
  {
  }

  lemma ShiftEffect(l: Layout, c: Cpu, op: BinaryOp, a: int, b: int, v: int)
    requires ExecReady(l, c) && c.r.r15 >= 2 && (op.ShiftLeft? || op.ShiftRight?)
    requires c.execSeg[c.r.r15 - 1] == Int(a) && c.execSeg[c.r.r15 - 2] == Int(b)
    requires EvalBinary(op, a, b) == Some(v)
    ensures Visible(ExecBlock(l, LowerBinary(op), c)) == Visible(WithResult(c, c.r.r15 - 2, v, |LowerBinary(op)|))
  {
    hide ExecBlock, ExecInstr, ReadMem, WriteMem, EvalBinary;
    ShiftCount(op, a, b);
    PopsTwo(l, c, Rax, Rcx, a, b);
    var c1 := ExecBlock(l, PopTo(Rax) + PopTo(Rcx), c);
    RegsStep(l, ShiftCl(op), c1);
    Template(l, PopTo(Rax) + PopTo(Rcx), [ShiftCl(op)], Rax, c, c1, ExecBlock(l, [ShiftCl(op)], c1));
  }

  lemma CompareTemplate(l: Layout, c: Cpu, op: BinaryOp, a: int, b: int, v: int)
    requires ExecReady(l, c) && c.r.r15 >= 2 && IsCompare(op) && InRange(a) && InRange(b)
    requires c.execSeg[c.r.r15 - 1] == Int(a) && c.execSeg[c.r.r15 - 2] == Int(b)
    requires EvalBinary(op, a, b) == Some(v)
    ensures Visible(ExecBlock(l, LowerBinary(op), c)) == Visible(WithResult(c, c.r.r15 - 2, v, |LowerBinary(op)|))
  {
    hide ExecBlock, ExecInstr, ReadMem, WriteMem, Bits;
    var clear := [Alu(BitXor, Rcx, Rcx)];
    RegsStep(l, clear[0], c);
    XorSelf(Unsigned(c.r.rcx), 64);
    var c0 := ExecBlock(l, clear, c);
    PopsTwo(l, c0, Rax, Rbx, a, b);
    ExecAppend(l, clear, PopTo(Rax) + PopTo(Rbx), c);
    var c1 := ExecBlock(l, PopTo(Rax) + PopTo(Rbx), c0);
    CompareEffect(l, c1, op);
    Template(l, clear + (PopTo(Rax) + PopTo(Rbx)), CompareCore(op), Rcx, c, c1, ExecBlock(l, CompareCore(op), c1));
  }
}
