/**
  The native code of a program simulates the interpreter, opcode by opcode and over whole
  runs, as long as the run keeps numbers and addresses apart and stays inside the machine's
  limits.
*/
module NativeSimulation {
  import opened Word64
  import opened Ir
  import opened Nasm
  import opened NasmArithmetic
  import opened NasmBlocks
  import opened NativeStack
  import opened Simulation

  datatype Tags = Tags(exec: seq<Tag>, data: seq<Tag>)

  function StacksOf(m: Machine, t: Tags): Stacks {
    Stacks(m.fp, m.ipStack, m.currFunc, m.data, t.data)
  }

  /** NASM sign-extends the 32-bit immediate of a `mov` to memory. */
  predicate Imm32(v: int) {
    -0x8000_0000 <= v < 0x8000_0000
  }

  /** The data cell slot `n` of the running frame names, if it is allocated. */
  function SlotCell(m: Machine, n: int): Option<nat> {
    if m.fp != [] && Top(m.fp) >= 0 && n >= 1 && Top(m.fp) + n - 1 < |m.data| then Some(Top(m.fp) + n - 1) else None
  }

  /** The cell the address on top of the exec stack names, if it is still that cell. */
  function LiveCell(m: Machine, t: Tags): Option<nat> {
    if t.exec == [] || m.exec == [] then None else
    var a := Top(m.exec);
    if 0 <= a < |m.data| && a < GLOBALS_OFFSET && t.exec[|t.exec| - 1] == Pointer(CellWord(m.fp, a))
    then Some(a) else None
  }

  predicate Numbers(t: Tags, n: nat) {
    |t.exec| >= n && forall k :: |t.exec| - n <= k < |t.exec| ==> t.exec[k] == Number
  }

  function Pushed(t: Tags, keep: int, tag: Tag): Tags
    requires 0 <= keep <= |t.exec|
  {
    t.(exec := t.exec[..keep] + [tag])
  }

  function Dropped(t: Tags, n: nat): Tags
    requires n <= |t.exec|
  {
    t.(exec := t.exec[..|t.exec| - n])
  }

  /** The tags after one opcode, or `None` where native code and interpreter part: a number
      used as an address or the other way round, an address of a freed cell, a division by
      zero, an immediate of more than 32 bits, a full stack, globals and arrays. */
  function TagStep(l: Layout, image: Image, op: Op, m: Machine, t: Tags): Option<Tags> {
    var room := |t.exec| < l.execWords;
    var space := Height(StacksOf(m, t)) < l.stackWords;
    var framed := Framed(StacksOf(m, t));
    match op.operation
    case Nop => Some(t)
    case PushSign => if room && Imm32(op.operand) then Some(Pushed(t, |t.exec|, Number)) else None
    case PushUnsign => if room && Imm32(op.operand) then Some(Pushed(t, |t.exec|, Number)) else None
    case PushStack =>
      (match SlotCell(m, op.operand)
       case Some(a) => if room && a < |t.data| then Some(Pushed(t, |t.exec|, t.data[a])) else None
       case None => None)
    case PushSea =>
      (match SlotCell(m, op.operand)
       case Some(a) => if room then Some(Pushed(t, |t.exec|, Pointer(CellWord(m.fp, a)))) else None
       case None => None)
    case Pop => if t.exec != [] then Some(Dropped(t, 1)) else None
    case Clone => if room && t.exec != [] then Some(Pushed(t, |t.exec|, t.exec[|t.exec| - 1])) else None
    case Unary(_) => if Numbers(t, 1) then Some(t) else None
    case Binary(bin) =>
      if Numbers(t, 2) && ((bin.Div? || bin.Mod?) ==> Top(Rest(m.exec)) != 0)
         && EvalBinary(bin, Top(m.exec), Top(Rest(m.exec))).Some?
      then Some(Pushed(t, |t.exec| - 2, Number)) else None
    case Load =>
      (match LiveCell(m, t)
       case Some(a) => if a < |t.data| then Some(Pushed(t, |t.exec| - 1, t.data[a])) else None
       case None => None)
    case Store =>
      (match LiveCell(m, t)
       case Some(a) =>
         if a < |t.data| && |t.exec| >= 2 then Some(Dropped(t, 2).(data := t.data[a := t.exec[|t.exec| - 2]])) else None
       case None => None)
    case Alloc =>
      if room && space && framed && op.operand == 1
      then Some(Pushed(t, |t.exec|, Pointer(Height(StacksOf(m, t)))).(data := t.data + [Number])) else None
    case Free =>
      if framed && op.operand >= 0 && Top(m.fp) <= |m.data| - op.operand <= |t.data| && Top(m.fp) >= 0
      then Some(t.(data := t.data[..|m.data| - op.operand])) else None
    case StackFramePush => if space && !framed then Some(t) else None
    case StackFramePop =>
      if framed && 0 <= Top(m.fp) <= |t.data| then Some(t.(data := t.data[..Top(m.fp)])) else None
    case Jump => Some(t)
    case JumpIf => if Numbers(t, 1) then Some(Dropped(t, 1)) else None
    case JumpIfNot => if Numbers(t, 1) then Some(Dropped(t, 1)) else None
    case Call => if space && framed && op.name in image then Some(t) else None
    case Ret => if !framed then Some(t) else None
    case Invalid => Some(t)
    case _ => None
  }

  // ----- the relation -----

  ghost predicate ExecOk(l: Layout, exec: seq<int>, tags: seq<Tag>, seg: seq<Word>) {
    && |exec| == |tags| <= |seg|
    && forall k :: 0 <= k < |exec| ==> WordOk(l, tags[k], exec[k], seg[k])
  }

  predicate Geometry(l: Layout, c: Cpu) {
    && |c.execSeg| == l.execWords && |c.stackSeg| == l.stackWords
    && l.execBase + 8 * l.execWords <= l.stackTop - 8 * l.stackWords
  }

  ghost predicate RegistersOk(l: Layout, m: Machine, t: Tags, c: Cpu) {
    && c.r.r15 == |m.exec|
    && c.r.rsp == StackAddr(l, Height(StacksOf(m, t)) - 1)
    && c.r.rbp == FramePointer(l, m.fp)
  }

  /** Exec cell `k` is the word `[r14 + 8k]`, a data cell is its word of the native stack, the
      frame and return stacks are the words in between, `ip` is the label; `had_error` is a trap. */
  ghost predicate Related(l: Layout, m: Machine, t: Tags, c: Cpu) {
    && Geometry(l, c) && ExecOk(l, m.exec, t.exec, c.execSeg)
    && match m.status
       case Running =>
         && m.currFunc != [] && c.pc == Pc(m.currFunc[|m.currFunc| - 1], m.ip, 0)
         && m.allocations == UnitBlocks(|m.data|)
         && StackOk(l, StacksOf(m, t), c.stackSeg) && RegistersOk(l, m, t, c)
       case Halted => c.pc == Exit && c.r.r15 == |m.exec|
       case Failed => c.pc == Dead
       case Stuck => false
  }

  predicate Assembled(image: Image, text: Text) {
    text.Keys == image.Keys && forall f :: f in image ==> text[f] == LowerAll(image[f])
  }

  predicate AtOp(image: Image, text: Text, m: Machine, op: Op) {
    && m.status.Running? && m.currFunc != []
    && var f := m.currFunc[|m.currFunc| - 1];
       f in image && 0 <= m.ip < |image[f]| && image[f][m.ip] == op && f in text && text[f] == LowerAll(image[f])
  }

  // ----- exec-stack opcodes -----

  lemma ExecPushed(l: Layout, exec: seq<int>, tags: seq<Tag>, seg: seq<Word>, keep: nat, v: int, tag: Tag, w: Word)
    requires ExecOk(l, exec, tags, seg) && keep <= |exec| && keep < |seg| && WordOk(l, tag, v, w)
    ensures ExecOk(l, exec[..keep] + [v], tags[..keep] + [tag], seg[keep := w])
  {
  }

  lemma ExecDropped(l: Layout, exec: seq<int>, tags: seq<Tag>, seg: seq<Word>, keep: nat)
    requires ExecOk(l, exec, tags, seg) && keep <= |exec|
    ensures ExecOk(l, exec[..keep], tags[..keep], seg)
  {
  }

  lemma LowerNotEmpty(op: Op, i: int)
    ensures |Lower(op, i)| > 0
  {
  }

  /** After straight-line code the next label is entered; jumps go where they say. */
  lemma Settled(image: Image, text: Text, m: Machine, op: Op, c: Cpu)
    requires AtOp(image, text, m, op)
    requires c.pc.Pc? && c.pc.func == m.currFunc[|m.currFunc| - 1]
    ensures c.pc.k == |Lower(op, m.ip)| && c.pc.block == m.ip ==>
            Settle(text, c) == c.(pc := Pc(c.pc.func, m.ip + 1, 0))
    ensures c.pc.k == 0 ==> Settle(text, c) == c
  {
    hide Lower;
    var code := image[c.pc.func];
    if 0 <= c.pc.block < |code| {
      LowerNotEmpty(code[c.pc.block], c.pc.block);
    }
  }

  /** Enough for an opcode that only changes the exec stack. */
  lemma ExecOnly(l: Layout, image: Image, text: Text, m: Machine, op: Op, t: Tags, c: Cpu, c': Cpu, m': Machine,
                 t': Tags)
    requires Related(l, m, t, c) && AtOp(image, text, m, op)
    requires m' == m.(ip := m.ip + 1, exec := m'.exec) && t'.data == t.data
    requires Visible(c') == Visible(Skip(c.(execSeg := c'.execSeg, r := c.r.(r15 := |m'.exec|)), |Lower(op, m.ip)|))
    requires |c'.execSeg| == |c.execSeg| && ExecOk(l, m'.exec, t'.exec, c'.execSeg)
    ensures Related(l, m', t', Settle(text, c'))
  {
    hide Lower, ExecOk, StackOk, LowerAll;
    Settled(image, text, m, op, c');
    assert StacksOf(m', t') == StacksOf(m, t);
  }

  lemma RelatedReady(l: Layout, m: Machine, t: Tags, c: Cpu)
    requires Related(l, m, t, c) && m.status.Running?
    ensures ExecReady(l, c) && |t.exec| == |m.exec| && |t.data| == |m.data| && Height(StacksOf(m, t)) <= |c.stackSeg|
  {
  }

  /** `mov`, then `inc r15`: the immediate forms. */
  lemma ImmediateEffect(l: Layout, c: Cpu, v: int)
    requires ExecReady(l, c) && c.r.r15 < |c.execSeg|
    ensures Visible(ExecBlock(l, [StoreImm(ExecTop, v), Inc(R15)], c)) == Visible(WithResult(c, c.r.r15, v, 2))
  {
    hide ExecBlock, WriteMem, ReadMem;
    var c1 := ExecInstr(l, StoreImm(ExecTop, v), c);
    ReadExec(l, Next(c), c.r.r15, Int(v));
    var block := [StoreImm(ExecTop, v), Inc(R15)];
    ExecFirst(l, block, c);
    assert block[1..] == [Inc(R15)];
    ExecOne(l, Inc(R15), c1);
  }

  // ----- one opcode -----

  ghost predicate Ready(l: Layout, image: Image, text: Text, m: Machine, op: Op, t: Tags, c: Cpu) {
    Related(l, m, t, c) && AtOp(image, text, m, op) && TagStep(l, image, op, m, t).Some?
  }

  /** The code of one opcode does to the processor what the opcode does to the machine. */
  ghost predicate Simulates(l: Layout, image: Image, text: Text, m: Machine, op: Op, t: Tags, c: Cpu)
    requires TagStep(l, image, op, m, t).Some?
  {
    Related(l, Execute(image, op, m.(ip := m.ip + 1)), TagStep(l, image, op, m, t).value,
            Settle(text, ExecBlock(l, Lower(op, m.ip), c)))
  }

  function Native(l: Layout, tag: Tag, v: int): int {
    match tag
    case Number => v
    case Pointer(q) => StackAddr(l, q)
  }

  lemma TopWord(l: Layout, m: Machine, t: Tags, c: Cpu, n: nat)
    requires Related(l, m, t, c) && 1 <= n <= |m.exec|
    ensures |t.exec| == |m.exec|
    ensures c.execSeg[|m.exec| - n] == Int(Native(l, t.exec[|m.exec| - n], m.exec[|m.exec| - n]))
    ensures t.exec[|m.exec| - n].Number? ==> InRange(m.exec[|m.exec| - n])
    ensures WordOk(l, t.exec[|m.exec| - n], m.exec[|m.exec| - n], c.execSeg[|m.exec| - n])
  {
    hide StackOk;
  }

  /** Every allocated cell is a word of the native stack with the related value. */
  lemma CellIsWord(l: Layout, m: Machine, t: Tags, c: Cpu, a: nat)
    requires Related(l, m, t, c) && m.status.Running? && a < |m.data|
    ensures |t.data| == |m.data| && 0 <= CellWord(m.fp, a) < |c.stackSeg|
    ensures c.stackSeg[CellWord(m.fp, a)] == Int(Native(l, t.data[a], m.data[a]))
    ensures WordOk(l, t.data[a], m.data[a], c.stackSeg[CellWord(m.fp, a)])
  {
    WordsApart(StacksOf(m, t), a);
  }

  /** Slot `n` of the frame is `[rbp - 8n]`, and the interpreter finds the same cell. */
  lemma SlotIsWord(l: Layout, m: Machine, t: Tags, c: Cpu, n: int)
    requires Related(l, m, t, c) && m.status.Running? && SlotCell(m, n).Some?
    ensures var a := SlotCell(m, n).value;
            StackAddr(l, CellWord(m.fp, a)) == c.r.rbp - n * 8 && VariableAddress(m.(ip := m.ip + 1), n - 1) == Some(a)
  {
    hide StackOk, ExecOk;
    FindUnit(|m.data|, SlotCell(m, n).value, 0);
  }

  lemma LoadEffect(l: Layout, pops: seq<Instr>, from: Mem, c: Cpu, c1: Cpu, v: int)
    requires c1 == ExecBlock(l, pops, c) && ExecReady(l, c1) && c1.r.r15 < |c1.execSeg|
    requires ReadMem(l, c1, Effective(l, c1.r, from)) == Some(Int(v))
    ensures Visible(ExecBlock(l, pops + [Instr.Load(Rax, from)] + PushFrom(Rax), c)) ==
            Visible(WithResult(c1, c1.r.r15, v, 3))
  {
    hide ExecBlock, ReadMem, WriteMem, Effective;
    var core := [Instr.Load(Rax, from)];
    ExecOne(l, core[0], c1);
    Template(l, pops, core, Rax, c, c1, ExecBlock(l, core, c1));
  }

  lemma ImmediateOk(l: Layout, image: Image, text: Text, m: Machine, op: Op, t: Tags, c: Cpu)
    requires Ready(l, image, text, m, op, t, c) && (op.operation.PushSign? || op.operation.PushUnsign?)
    ensures Simulates(l, image, text, m, op, t, c)
  {
    hide ExecOk, StackOk, ExecBlock, LowerAll;
    RelatedReady(l, m, t, c);
    var v := op.operand;
    ImmediateEffect(l, c, v);
    PushesOne(l, m, t, c, v, Number, v);
    ExecOnly(l, image, text, m, op, t, c, ExecBlock(l, Lower(op, m.ip), c), Execute(image, op, m.(ip := m.ip + 1)),
             TagStep(l, image, op, m, t).value);
  }

  /** Pushing one related word on both exec stacks. */
  lemma PushesOne(l: Layout, m: Machine, t: Tags, c: Cpu, v: int, tag: Tag, w: int)
    requires ExecOk(l, m.exec, t.exec, c.execSeg) && |m.exec| < |c.execSeg| && WordOk(l, tag, v, Int(w))
    ensures ExecOk(l, m.exec + [v], Pushed(t, |t.exec|, tag).exec, c.execSeg[|m.exec| := Int(w)])
  {
    ExecPushed(l, m.exec, t.exec, c.execSeg, |m.exec|, v, tag, Int(w));
    assert m.exec[..|m.exec|] == m.exec;
  }

  lemma SlotOk(l: Layout, image: Image, text: Text, m: Machine, op: Op, t: Tags, c: Cpu)
    requires Ready(l, image, text, m, op, t, c) && (op.operation.PushStack? || op.operation.PushSea?)
    ensures Simulates(l, image, text, m, op, t, c)
  {
    hide ExecOk, StackOk, ExecBlock, LowerAll, ReadMem, WriteMem, VariableAddress, CellWord, Height;
    RelatedReady(l, m, t, c);
    var a := SlotCell(m, op.operand).value;
    SlotIsWord(l, m, t, c, op.operand);
    CellIsWord(l, m, t, c, a);
    var q := CellWord(m.fp, a);
    ExecNone(l, c);
    if op.operation.PushStack? {
      assert [] + [Instr.Load(Rax, Slot(op.operand))] == [Instr.Load(Rax, Slot(op.operand))];
      ReadStack(l, c, q, Startup);
      LoadEffect(l, [], Slot(op.operand), c, c, Native(l, t.data[a], m.data[a]));
      PushesOne(l, m, t, c, m.data[a], t.data[a], Native(l, t.data[a], m.data[a]));
    } else {
      var core := [Lea(Rax, Slot(op.operand))];
      assert [] + core == core;
      ExecOne(l, core[0], c);
      Template(l, [], core, Rax, c, c, ExecBlock(l, core, c));
      PushesOne(l, m, t, c, a, Pointer(q), StackAddr(l, q));
    }
    ExecOnly(l, image, text, m, op, t, c, ExecBlock(l, Lower(op, m.ip), c), Execute(image, op, m.(ip := m.ip + 1)),
             TagStep(l, image, op, m, t).value);
  }

  lemma PopOk(l: Layout, image: Image, text: Text, m: Machine, op: Op, t: Tags, c: Cpu)
    requires Ready(l, image, text, m, op, t, c) && op.operation.Pop?
    ensures Simulates(l, image, text, m, op, t, c)
  {
    hide StackOk, ExecBlock, LowerAll, ReadMem, WriteMem, ExecInstr;
    RelatedReady(l, m, t, c);
    TopWord(l, m, t, c, 1);
    PopEffect(l, c, Rax, Native(l, t.exec[|m.exec| - 1], Top(m.exec)));
    ExecDropped(l, m.exec, t.exec, c.execSeg, |m.exec| - 1);
    ExecOnly(l, image, text, m, op, t, c, ExecBlock(l, Lower(op, m.ip), c), Execute(image, op, m.(ip := m.ip + 1)),
             TagStep(l, image, op, m, t).value);
  }

  lemma CloneOk(l: Layout, image: Image, text: Text, m: Machine, op: Op, t: Tags, c: Cpu)
    requires Ready(l, image, text, m, op, t, c) && op.operation.Clone?
    ensures Simulates(l, image, text, m, op, t, c)
  {
    hide StackOk, ExecBlock, LowerAll, ReadMem, WriteMem, ExecInstr;
    RelatedReady(l, m, t, c);
    TopWord(l, m, t, c, 1);
    var top := |m.exec| - 1;
    var v := Native(l, t.exec[top], m.exec[top]);
    PopEffect(l, c, Rax, v);
    var c1 := ExecBlock(l, PopTo(Rax), c);
    PushEffect(l, c1, Rax);
    Template(l, PopTo(Rax), PushFrom(Rax), Rax, c, c1, ExecBlock(l, PushFrom(Rax), c1));
    PushesOne(l, m, t, c, m.exec[top], t.exec[top], v);
    assert c.execSeg[top := Int(v)] == c.execSeg;
    assert m.exec[..top] + [m.exec[top], m.exec[top]] == m.exec + [m.exec[top]];
    ExecOnly(l, image, text, m, op, t, c, ExecBlock(l, Lower(op, m.ip), c), Execute(image, op, m.(ip := m.ip + 1)),
             TagStep(l, image, op, m, t).value);
  }

  lemma UnaryOpOk(l: Layout, image: Image, text: Text, m: Machine, op: Op, t: Tags, c: Cpu)
    requires Ready(l, image, text, m, op, t, c) && op.operation.Unary?
    ensures Simulates(l, image, text, m, op, t, c)
  {
    hide StackOk, ExecBlock, LowerAll, ReadMem, WriteMem, ExecInstr, LowerUnary, EvalUnary;
    RelatedReady(l, m, t, c);
    TopWord(l, m, t, c, 1);
    var top := |m.exec| - 1;
    var v := EvalUnary(op.operation.un, m.exec[top]);
    UnaryEffect(l, c, op.operation.un, m.exec[top]);
    UnaryInRange(op.operation.un, m.exec[top]);
    ExecPushed(l, m.exec, t.exec, c.execSeg, top, v, Number, Int(v));
    assert t.exec[..top] + [Number] == t.exec;
    ExecOnly(l, image, text, m, op, t, c, ExecBlock(l, Lower(op, m.ip), c), Execute(image, op, m.(ip := m.ip + 1)),
             TagStep(l, image, op, m, t).value);
  }

  lemma BinaryOpOk(l: Layout, image: Image, text: Text, m: Machine, op: Op, t: Tags, c: Cpu)
    requires Ready(l, image, text, m, op, t, c) && op.operation.Binary?
    ensures Simulates(l, image, text, m, op, t, c)
  {
    hide StackOk, ExecBlock, LowerAll, ReadMem, WriteMem, ExecInstr, LowerBinary, EvalBinary;
    RelatedReady(l, m, t, c);
    TopWord(l, m, t, c, 1);
    TopWord(l, m, t, c, 2);
    var top := |m.exec| - 1;
    var bin := op.operation.bin;
    var v := EvalBinary(bin, m.exec[top], m.exec[top - 1]).value;
    BinaryEffect(l, c, bin, m.exec[top], m.exec[top - 1], v);
    BinaryInRange(bin, m.exec[top], m.exec[top - 1]);
    ExecPushed(l, m.exec, t.exec, c.execSeg, top - 1, v, Number, Int(v));
    assert Rest(Rest(m.exec)) == m.exec[..top - 1];
    ExecOnly(l, image, text, m, op, t, c, ExecBlock(l, Lower(op, m.ip), c), Execute(image, op, m.(ip := m.ip + 1)),
             TagStep(l, image, op, m, t).value);
  }

  lemma LoadOk(l: Layout, image: Image, text: Text, m: Machine, op: Op, t: Tags, c: Cpu)
    requires Ready(l, image, text, m, op, t, c) && op.operation.Load?
    ensures Simulates(l, image, text, m, op, t, c)
  {
    hide StackOk, ExecBlock, LowerAll, ReadMem, WriteMem, ExecInstr, CellWord;
    RelatedReady(l, m, t, c);
    TopWord(l, m, t, c, 1);
    var top := |m.exec| - 1;
    var a := LiveCell(m, t).value;
    CellIsWord(l, m, t, c, a);
    var q := CellWord(m.fp, a);
    var v := Native(l, t.data[a], m.data[a]);
    PopEffect(l, c, Rbx, StackAddr(l, q));
    var c1 := ExecBlock(l, PopTo(Rbx), c);
    ReadStack(l, c1, q, Startup);
    LoadEffect(l, PopTo(Rbx), Mem.At(Rbx), c, c1, v);
    ExecPushed(l, m.exec, t.exec, c.execSeg, top, m.data[a], t.data[a], Int(v));
    ExecOnly(l, image, text, m, op, t, c, ExecBlock(l, Lower(op, m.ip), c), Execute(image, op, m.(ip := m.ip + 1)),
             TagStep(l, image, op, m, t).value);
  }

  // ----- opcodes on the native stack -----

  lemma StoreOk(l: Layout, image: Image, text: Text, m: Machine, op: Op, t: Tags, c: Cpu)
    requires Ready(l, image, text, m, op, t, c) && op.operation.Store?
    ensures Simulates(l, image, text, m, op, t, c)
  {
    hide StackOk, ExecBlock, LowerAll, ReadMem, WriteMem, CellWord, Height, Settle;
    RelatedReady(l, m, t, c);
    TopWord(l, m, t, c, 1);
    TopWord(l, m, t, c, 2);
    var top := |m.exec| - 1;
    var a := LiveCell(m, t).value;
    CellIsWord(l, m, t, c, a);
    var q := CellWord(m.fp, a);
    var v := Native(l, t.exec[top - 1], m.exec[top - 1]);
    PopsTwo(l, c, Rbx, Rax, StackAddr(l, q), v);
    var pops := PopTo(Rbx) + PopTo(Rax);
    var c1 := ExecBlock(l, pops, c);
    ReadStack(l, Next(c1), q, Int(v));
    ExecAppend(l, pops, [Instr.Store(Mem.At(Rbx), Rax)], c);
    ExecOne(l, Instr.Store(Mem.At(Rbx), Rax), c1);
    StoredOk(l, StacksOf(m, t), c.stackSeg, a, m.exec[top - 1], t.exec[top - 1], Int(v));
    ExecDropped(l, m.exec, t.exec, c.execSeg, top - 1);
    Settled(image, text, m, op, ExecBlock(l, Lower(op, m.ip), c));
    StoredHeight(StacksOf(m, t), a, m.exec[top - 1], t.exec[top - 1]);
  }

  lemma StoredHeight(s: Stacks, a: nat, v: int, tag: Tag)
    requires a < |s.data| == |s.tags|
    ensures Height(Stored(s, a, v, tag)) == Height(s)
  {
  }

  lemma AllocOk(l: Layout, image: Image, text: Text, m: Machine, op: Op, t: Tags, c: Cpu)
    requires Ready(l, image, text, m, op, t, c) && op.operation.Alloc?
    ensures Simulates(l, image, text, m, op, t, c)
  {
    hide StackOk, ExecBlock, LowerAll, ReadMem, WriteMem, CellWord, Settle;
    RelatedReady(l, m, t, c);
    var s := StacksOf(m, t);
    var h := Height(s);
    var block := [AddImm(Rsp, -8), StoreImm(Mem.At(Rsp), 0)];
    assert Lower(op, m.ip) == block + PushFrom(Rsp);
    var c1 := ExecInstr(l, AddImm(Rsp, -8), c);
    ReadStack(l, Next(c1), h, Int(0));
    ExecFirst(l, block, c);
    assert block[1..] == [StoreImm(Mem.At(Rsp), 0)];
    ExecOne(l, block[1], c1);
    var c2 := ExecBlock(l, block, c);
    ExecNone(l, c);
    Template(l, [], block, Rsp, c, c, c2);
    assert [] + block == block;
    GrownOk(l, s, c.stackSeg);
    PushesOne(l, m, t, c, |m.data|, Pointer(h), StackAddr(l, h));
    assert Zeros(1) == [0];
    assert UnitBlocks(|m.data|) + [Block(1, |m.data|)] == UnitBlocks(|m.data| + 1);
    Settled(image, text, m, op, ExecBlock(l, Lower(op, m.ip), c));
  }

  lemma FreeOk(l: Layout, image: Image, text: Text, m: Machine, op: Op, t: Tags, c: Cpu)
    requires Ready(l, image, text, m, op, t, c) && op.operation.Free?
    ensures Simulates(l, image, text, m, op, t, c)
  {
    hide StackOk, ExecOk, ExecBlock, LowerAll, ReadMem, WriteMem, Settle, FreeMemory;
    RelatedReady(l, m, t, c);
    var size := |m.data| - op.operand;
    ExecOne(l, AddImm(Rsp, 8 * op.operand), c);
    CutOk(l, StacksOf(m, t), c.stackSeg, size);
    FreeUnits(|m.data|, m.data, op.operand);
    Settled(image, text, m, op, ExecBlock(l, Lower(op, m.ip), c));
  }

  lemma FramePushOk(l: Layout, image: Image, text: Text, m: Machine, op: Op, t: Tags, c: Cpu)
    requires Ready(l, image, text, m, op, t, c) && op.operation.StackFramePush?
    ensures Simulates(l, image, text, m, op, t, c)
  {
    hide StackOk, ExecOk, ExecBlock, LowerAll, ReadMem, WriteMem, Settle, FramePointer;
    RelatedReady(l, m, t, c);
    var s := StacksOf(m, t);
    var h := Height(s);
    var block := [Instr.Push(Rbp), Mov(Rbp, Rsp)];
    ReadStack(l, Next(c.(r := c.r.(rsp := c.r.rsp - 8))), h, Int(c.r.rbp));
    var c1 := ExecInstr(l, block[0], c);
    ExecFirst(l, block, c);
    assert block[1..] == [Mov(Rbp, Rsp)];
    ExecOne(l, block[1], c1);
    FramePushedOk(l, s, c.stackSeg);
    Settled(image, text, m, op, ExecBlock(l, Lower(op, m.ip), c));
  }

  lemma FramePopOk(l: Layout, image: Image, text: Text, m: Machine, op: Op, t: Tags, c: Cpu)
    requires Ready(l, image, text, m, op, t, c) && op.operation.StackFramePop?
    ensures Simulates(l, image, text, m, op, t, c)
  {
    hide ExecOk, ExecBlock, LowerAll, ReadMem, WriteMem, Settle, FreeMemory, FramePointer, StackOk;
    RelatedReady(l, m, t, c);
    var s := StacksOf(m, t);
    FramePoppedOk(l, s, c.stackSeg);
    var s' := Cut(s, Top(m.fp)).(fp := Rest(s.fp));
    var block := [Mov(Rsp, Rbp), Instr.Pop(Rbp)];
    var c1 := ExecInstr(l, block[0], c);
    ReadStack(l, c1.(r := c1.r.(rsp := c1.r.rsp + 8)), Height(s'), Startup);
    ExecFirst(l, block, c);
    assert block[1..] == [Instr.Pop(Rbp)];
    ExecOne(l, block[1], c1);
    FreeUnits(|m.data|, m.data, |m.data| - Top(m.fp));
    Settled(image, text, m, op, ExecBlock(l, Lower(op, m.ip), c));
  }

  lemma JumpOk(l: Layout, image: Image, text: Text, m: Machine, op: Op, t: Tags, c: Cpu)
    requires Ready(l, image, text, m, op, t, c) && op.operation.Jump?
    ensures Simulates(l, image, text, m, op, t, c)
  {
    hide StackOk, ExecOk, ExecBlock, LowerAll, ReadMem, WriteMem, Settle;
    ExecOne(l, Jmp(m.ip + 1 + op.operand), c);
    Settled(image, text, m, op, ExecBlock(l, Lower(op, m.ip), c));
  }

  lemma BranchEffect(l: Layout, c: Cpu, cond: Cond, target: int, v: int)
    requires ExecReady(l, c) && c.r.r15 >= 1 && c.execSeg[c.r.r15 - 1] == Int(v) && InRange(v)
             && (cond == E || cond == Ne)
    ensures var c' := ExecBlock(l, PopTo(Rax) + [CmpImm(Rax, 0), Jcc(cond, target)], c);
            var c1 := c.(r := c.r.(r15 := c.r.r15 - 1));
            Visible(c') == Visible(if (v == 0) == (cond == E) then c1.(pc := Pc(c.pc.func, target, 0)) else Skip(c1, 4))
  {
    hide ExecBlock, ReadMem, WriteMem;
    PopEffect(l, c, Rax, v);
    var c1 := ExecBlock(l, PopTo(Rax), c);
    var block := [CmpImm(Rax, 0), Jcc(cond, target)];
    ExecAppend(l, PopTo(Rax), block, c);
    ExecFirst(l, block, c1);
    assert block[1..] == [Jcc(cond, target)];
    ExecOne(l, Jcc(cond, target), ExecInstr(l, CmpImm(Rax, 0), c1));
  }

  lemma BranchOk(l: Layout, image: Image, text: Text, m: Machine, op: Op, t: Tags, c: Cpu)
    requires Ready(l, image, text, m, op, t, c) && (op.operation.JumpIf? || op.operation.JumpIfNot?)
    ensures Simulates(l, image, text, m, op, t, c)
  {
    hide StackOk, ExecBlock, LowerAll, ReadMem, WriteMem, ExecInstr, Settle;
    RelatedReady(l, m, t, c);
    TopWord(l, m, t, c, 1);
    BranchEffect(l, c, if op.operation.JumpIf? then Ne else E, m.ip + 1 + op.operand, Top(m.exec));
    ExecDropped(l, m.exec, t.exec, c.execSeg, |m.exec| - 1);
    Settled(image, text, m, op, ExecBlock(l, Lower(op, m.ip), c));
  }

  lemma CallOk(l: Layout, image: Image, text: Text, m: Machine, op: Op, t: Tags, c: Cpu)
    requires Ready(l, image, text, m, op, t, c) && op.operation.Call? && Assembled(image, text)
    ensures Simulates(l, image, text, m, op, t, c)
  {
    hide StackOk, ExecOk, ExecBlock, LowerAll, ReadMem, WriteMem, Settle;
    RelatedReady(l, m, t, c);
    var s := StacksOf(m, t);
    ReadStack(l, c.(r := c.r.(rsp := c.r.rsp - 8), pc := Pc(op.name, 0, 0)), Height(s), Return(c.pc.func, m.ip + 1));
    ExecOne(l, Instr.Call(op.name), c);
    EnteredOk(l, s, c.stackSeg, op.name, m.ip + 1);
    EntryStays(image, text, ExecBlock(l, Lower(op, m.ip), c));
  }

  lemma EntryStays(image: Image, text: Text, c: Cpu)
    requires Assembled(image, text) && (c.pc.Pc? ==> c.pc.k == 0)
    ensures Settle(text, c) == c
  {
    hide Lower;
    if c.pc.Pc? && c.pc.func in image && 0 <= c.pc.block < |image[c.pc.func]| {
      var f := c.pc.func;
      LowerNotEmpty(image[f][c.pc.block], c.pc.block);
    }
  }

  lemma RetOk(l: Layout, image: Image, text: Text, m: Machine, op: Op, t: Tags, c: Cpu)
    requires Ready(l, image, text, m, op, t, c) && op.operation.Ret? && Assembled(image, text)
    ensures Simulates(l, image, text, m, op, t, c)
  {
    hide StackOk, ExecOk, ExecBlock, LowerAll, ReadMem, WriteMem, Settle, FramePointer;
    RelatedReady(l, m, t, c);
    var s := StacksOf(m, t);
    LeftOk(l, s, c.stackSeg);
    ReadStack(l, c, Height(s) - 1, Startup);
    ExecOne(l, Instr.Ret, c);
    EntryStays(image, text, ExecBlock(l, Lower(op, m.ip), c));
  }

  lemma OpSimulates(l: Layout, image: Image, text: Text, m: Machine, op: Op, t: Tags, c: Cpu)
    requires Ready(l, image, text, m, op, t, c) && Assembled(image, text)
    ensures Simulates(l, image, text, m, op, t, c)
  {
    hide Related, Simulates, Assembled, AtOp;
    match op.operation
    case Nop => NopOk(l, image, text, m, op, t, c);
    case PushSign => ImmediateOk(l, image, text, m, op, t, c);
    case PushUnsign => ImmediateOk(l, image, text, m, op, t, c);
    case PushStack => SlotOk(l, image, text, m, op, t, c);
    case PushSea => SlotOk(l, image, text, m, op, t, c);
    case Pop => PopOk(l, image, text, m, op, t, c);
    case Clone => CloneOk(l, image, text, m, op, t, c);
    case Unary(_) => UnaryOpOk(l, image, text, m, op, t, c);
    case Binary(_) => BinaryOpOk(l, image, text, m, op, t, c);
    case Load => LoadOk(l, image, text, m, op, t, c);
    case Store => StoreOk(l, image, text, m, op, t, c);
    case Alloc => AllocOk(l, image, text, m, op, t, c);
    case Free => FreeOk(l, image, text, m, op, t, c);
    case StackFramePush => FramePushOk(l, image, text, m, op, t, c);
    case StackFramePop => FramePopOk(l, image, text, m, op, t, c);
    case Jump => JumpOk(l, image, text, m, op, t, c);
    case JumpIf => BranchOk(l, image, text, m, op, t, c);
    case JumpIfNot => BranchOk(l, image, text, m, op, t, c);
    case Call => CallOk(l, image, text, m, op, t, c);
    case Ret => RetOk(l, image, text, m, op, t, c);
    case Invalid => InvalidOk(l, image, text, m, op, t, c);
    case _ =>
  }

  lemma InvalidOk(l: Layout, image: Image, text: Text, m: Machine, op: Op, t: Tags, c: Cpu)
    requires Ready(l, image, text, m, op, t, c) && op.operation.Invalid?
    ensures Simulates(l, image, text, m, op, t, c)
  {
    hide StackOk, ExecOk, ExecBlock, LowerAll;
    ExecOne(l, Trap, c);
  }

  lemma NopOk(l: Layout, image: Image, text: Text, m: Machine, op: Op, t: Tags, c: Cpu)
    requires Ready(l, image, text, m, op, t, c) && op.operation.Nop?
    ensures Simulates(l, image, text, m, op, t, c)
  {
    hide StackOk, ExecOk, ExecBlock, LowerAll, Settle;
    ExecOne(l, Instr.Nop, c);
    Settled(image, text, m, op, ExecBlock(l, Lower(op, m.ip), c));
  }

  // ----- whole runs -----

  /** The tags after `n` opcodes, if none of them breaks the discipline. */
  function TagRun(l: Layout, image: Image, m: Machine, t: Tags, n: nat): Option<Tags>
    decreases n
  {
    if n == 0 || m.status.Halted? || m.status.Failed? then Some(t) else
    match NextOp(image, m)
    case None => None
    case Some(op) =>
      match TagStep(l, image, op, m, t)
      case None => None
      case Some(t') => TagRun(l, image, Step(image, m), t', n - 1)
  }

  /** The instructions executed for the next `n` opcodes. */
  function NativeSteps(image: Image, m: Machine, n: nat): nat
    decreases n
  {
    if n == 0 then 0 else
    match NextOp(image, m)
    case None => 0
    case Some(op) => |Lower(op, m.ip)| + NativeSteps(image, Step(image, m), n - 1)
  }

  lemma BinaryStraight(op: BinaryOp)
    ensures forall k :: 0 <= k < |LowerBinary(op)| ==> !IsControl(LowerBinary(op)[k])
  {
    hide CondOf;
  }

  lemma UnaryStraight(op: UnaryOp)
    ensures forall k :: 0 <= k < |LowerUnary(op)| ==> !IsControl(LowerUnary(op)[k])
  {
  }

  lemma StraightExceptLast(op: Op, i: int)
    ensures forall k :: 0 <= k < |Lower(op, i)| - 1 ==> !IsControl(Lower(op, i)[k])
  {
    hide LowerBinary, LowerUnary;
    if op.operation.Binary? {
      BinaryStraight(op.operation.bin);
    } else if op.operation.Unary? {
      UnaryStraight(op.operation.un);
    }
  }

  /** One opcode of the interpreter is one label of native code. */
  lemma StepSimulated(l: Layout, image: Image, text: Text, m: Machine, op: Op, t: Tags, c: Cpu)
    requires Ready(l, image, text, m, op, t, c) && Assembled(image, text)
    ensures Related(l, Step(image, m), TagStep(l, image, op, m, t).value, RunCpu(l, text, c, |Lower(op, m.ip)|))
  {
    hide Lower, Execute, TagStep, StackOk, ExecOk, ExecBlock, RunCpu, Settle;
    OpSimulates(l, image, text, m, op, t, c);
    var f := m.currFunc[|m.currFunc| - 1];
    var block := Lower(op, m.ip);
    LowerNotEmpty(op, m.ip);
    StraightExceptLast(op, m.ip);
    assert [] + block == text[f][m.ip];
    RunBlock(l, text, c, f, m.ip, [], block);
  }

  /** Native simulation of whole runs: whatever the program, as long as the run keeps to the
      discipline the processor ends up in the state related to the interpreter's. */
  lemma {:induction false} RunSimulated(l: Layout, image: Image, text: Text, m: Machine, t: Tags, c: Cpu, n: nat)
    requires Related(l, m, t, c) && Assembled(image, text) && TagRun(l, image, m, t, n).Some?
    ensures Related(l, Run(image, m, n), TagRun(l, image, m, t, n).value, RunCpu(l, text, c, NativeSteps(image, m, n)))
    decreases n
  {
    hide Related, Lower, Assembled, Step, TagStep, StepCpu;
    if n > 0 && !m.status.Halted? && !m.status.Failed? {
      var op := NextOp(image, m).value;
      StepReady(l, image, text, m, t, c);
      StepSimulated(l, image, text, m, op, t, c);
      var c1 := RunCpu(l, text, c, |Lower(op, m.ip)|);
      RunSimulated(l, image, text, Step(image, m), TagStep(l, image, op, m, t).value, c1, n - 1);
      RunCpuAdd(l, text, c, |Lower(op, m.ip)|, NativeSteps(image, Step(image, m), n - 1));
    } else if n > 0 {
      StoppedStays(image, m, n);
    }
  }

  lemma StepReady(l: Layout, image: Image, text: Text, m: Machine, t: Tags, c: Cpu)
    requires Related(l, m, t, c) && Assembled(image, text) && NextOp(image, m).Some?
    requires TagStep(l, image, NextOp(image, m).value, m, t).Some?
    ensures Ready(l, image, text, m, NextOp(image, m).value, t, c)
  {
    hide Related, TagStep, LowerAll;
  }
}
