/**
  Compiled programs without pointers keep the discipline of the native code by themselves: for
  them only the limits of the machine remain as assumptions.
*/
module NativeCompiled {
  import opened Word64
  import opened Ir
  import opened Source
  import opened Codegen
  import opened ControlFlow
  import opened Simulation
  import opened Theorems
  import opened Typing
  import opened Stages
  import opened StageFlows
  import opened Heights
  import opened Nasm
  import opened NativeStack
  import opened NativeSimulation
  import opened NativeTheorems

  /** Words of the native stack in use. */
  function Words(m: Machine): nat {
    |m.data| + |m.fp| + |m.ipStack| + 1
  }

  /** What the processor cannot do like the interpreter: divide by zero, hold an immediate of
      more than 32 bits, or go on when a stack is full. */
  predicate WithinLimits(l: Layout, op: Op, m: Machine) {
    match op.operation
    case PushSign => |m.exec| < l.execWords && Imm32(op.operand)
    case PushUnsign => |m.exec| < l.execWords && Imm32(op.operand)
    case PushStack => |m.exec| < l.execWords
    case PushSea => |m.exec| < l.execWords
    case Clone => |m.exec| < l.execWords
    case Alloc => |m.exec| < l.execWords && Words(m) < l.stackWords
    case StackFramePush => Words(m) < l.stackWords
    case Call => Words(m) < l.stackWords
    case Binary(bin) =>
      && ((bin.Div? || bin.Mod?) ==> Top(Rest(m.exec)) != 0)
      && EvalBinary(bin, Top(m.exec), Top(Rest(m.exec))).Some?
    case _ => true
  }

  ghost predicate LimitedRun(l: Layout, image: Image, m: Machine) {
    forall n: nat :: NextOp(image, Run(image, m, n)).Some? ==>
      WithinLimits(l, NextOp(image, Run(image, m, n)).value, Run(image, m, n))
  }

  /** What no amount of memory helps with. */
  predicate Portable(op: Op, m: Machine) {
    match op.operation
    case PushSign => -0x8000_0000 <= op.operand <= 0x7fff_ffff
    case PushUnsign => -0x8000_0000 <= op.operand <= 0x7fff_ffff
    case Binary(bin) =>
      && ((bin.Div? || bin.Mod?) ==> Top(Rest(m.exec)) != 0)
      && EvalBinary(bin, Top(m.exec), Top(Rest(m.exec))).Some?
    case _ => true
  }

  ghost predicate PortableRun(image: Image, m: Machine) {
    forall n: nat :: NextOp(image, Run(image, m, n)).Some? ==>
      Portable(NextOp(image, Run(image, m, n)).value, Run(image, m, n))
  }

  predicate Roomy(l: Layout, m: Machine) {
    |m.exec| < l.execWords && Words(m) < l.stackWords
  }

  lemma RoomyLimits(l: Layout, op: Op, m: Machine)
    ensures WithinLimits(l, op, m) ==> Portable(op, m)
    ensures Roomy(l, m) && Portable(op, m) ==> WithinLimits(l, op, m)
  {
  }

  /** A run that stops is within the limits of a machine with enough memory exactly when it neither
      divides by zero nor needs an immediate of more than 32 bits. */
  lemma EnoughMemory(image: Image, m: Machine, n: nat)
    requires !Run(image, m, n).status.Running?
    ensures PortableRun(image, m) <==> exists l :: LimitedRun(l, image, m)
  {
    hide Run, NextOp, WithinLimits, Portable, Roomy;
    if PortableRun(image, m) {
      var l := RoomFor(image, m, n);
      forall k: nat | NextOp(image, Run(image, m, k)).Some?
        ensures WithinLimits(l, NextOp(image, Run(image, m, k)).value, Run(image, m, k))
      {
        StillRunning(image, m, n, k);
        RoomyLimits(l, NextOp(image, Run(image, m, k)).value, Run(image, m, k));
      }
      assert LimitedRun(l, image, m);
    }
    if l :| LimitedRun(l, image, m) {
      forall k: nat | NextOp(image, Run(image, m, k)).Some?
        ensures Portable(NextOp(image, Run(image, m, k)).value, Run(image, m, k))
      {
        RoomyLimits(l, NextOp(image, Run(image, m, k)).value, Run(image, m, k));
      }
    }
  }

  lemma StillRunning(image: Image, m: Machine, n: nat, k: nat)
    requires !Run(image, m, n).status.Running? && NextOp(image, Run(image, m, k)).Some?
    ensures k < n
  {
    if k >= n {
      RunAdd(image, m, n, k - n);
      StoppedStays(image, Run(image, m, n), k - n);
    }
  }

  lemma {:induction false} RoomFor(image: Image, m: Machine, n: nat) returns (l: Layout)
    ensures forall k: nat :: k < n ==> Roomy(l, Run(image, m, k))
  {
    hide Run;
    l := Layout(0, 0, 0, 0, 0);
    if n > 0 {
      var before := RoomFor(image, m, n - 1);
      var last := Run(image, m, n - 1);
      l := Layout(0, before.execWords + |last.exec| + 1, 0, before.stackWords + Words(last) + 1, 0);
    }
  }

  /** Numbers everywhere, except for the address on top of the exec stack where one is due. */
  ghost predicate TagShape(m: Machine, t: Tags, addr: bool) {
    && |t.exec| == |m.exec| && |t.data| == |m.data|
    && (forall a :: 0 <= a < |t.data| ==> t.data[a] == Number)
    && (forall k :: 0 <= k < |t.exec| - (if addr then 1 else 0) ==> t.exec[k] == Number)
    && (addr ==>
          && m.exec != [] && 0 <= Top(m.exec) < |m.data|
          && t.exec[|t.exec| - 1] == Pointer(CellWord(m.fp, Top(m.exec))))
  }

  /** What the notes know about the stacks at a position of stage `s`. */
  ghost predicate Stands(l: Layout, m: Machine, s: Stage) {
    && m.status.Running? && m.allocations == UnitBlocks(|m.data|) && |m.exec| >= s.depth
    && Words(m) <= l.stackWords <= GLOBALS_OFFSET
    && (if s.In? then |m.fp| == |m.ipStack| + 1 && 0 <= Top(m.fp) && |m.data| == Top(m.fp) + s.slots
        else |m.fp| == |m.ipStack|)
  }

  ghost predicate OpReady(l: Layout, r: Rules, op: Op, m: Machine, t: Tags, s: Stage, s': Stage) {
    r.strict && Effect(r, op, s) == Some(s') && Stands(l, m, s) && TagShape(m, t, AddressDue(s))
      && WithinLimits(l, op, m)
  }

  /** The opcode keeps the discipline, and its tags are as the next stage says. */
  ghost predicate OpKeeps(l: Layout, image: Image, op: Op, m: Machine, t: Tags, s': Stage) {
    && Tame(op, m) && TagStep(l, image, op, m, t).Some?
    && var m' := Execute(image, op, m.(ip := m.ip + 1));
       !m'.status.Stuck? &&
       (m'.status.Running? || m'.status.Halted? ==>
          TagShape(m', TagStep(l, image, op, m, t).value, AddressDue(s')) && Words(m') <= l.stackWords)
  }

  lemma PushKeeps(l: Layout, r: Rules, image: Image, op: Op, m: Machine, t: Tags, s: Stage, s': Stage)
    requires OpReady(l, r, op, m, t, s, s')
    requires op.operation.PushSign? || op.operation.PushUnsign? || op.operation.Clone?
    ensures OpKeeps(l, image, op, m, t, s')
  {
  }

  lemma SlotKeeps(l: Layout, r: Rules, image: Image, op: Op, m: Machine, t: Tags, s: Stage, s': Stage)
    requires OpReady(l, r, op, m, t, s, s') && (op.operation.PushStack? || op.operation.PushSea?)
    ensures OpKeeps(l, image, op, m, t, s')
  {
    hide CellWord;
    FindUnit(|m.data|, Top(m.fp) + op.operand - 1, 0);
  }

  lemma ComputeKeeps(l: Layout, r: Rules, image: Image, op: Op, m: Machine, t: Tags, s: Stage, s': Stage)
    requires OpReady(l, r, op, m, t, s, s')
    requires op.operation.Unary? || op.operation.Binary? || op.operation.Pop?
    ensures OpKeeps(l, image, op, m, t, s')
  {
  }

  lemma JumpKeeps(l: Layout, r: Rules, image: Image, op: Op, m: Machine, t: Tags, s: Stage, s': Stage)
    requires OpReady(l, r, op, m, t, s, s') && IsJump(op)
    ensures OpKeeps(l, image, op, m, t, s')
  {
  }

  /** The address `ALLOC` leaves is the one of the word it takes. */
  lemma AllocKeeps(l: Layout, r: Rules, image: Image, op: Op, m: Machine, t: Tags, s: Stage, s': Stage)
    requires OpReady(l, r, op, m, t, s, s') && op.operation.Alloc?
    ensures OpKeeps(l, image, op, m, t, s')
  {
  }

  lemma StoreKeeps(l: Layout, r: Rules, image: Image, op: Op, m: Machine, t: Tags, s: Stage, s': Stage)
    requires OpReady(l, r, op, m, t, s, s') && op.operation.Store?
    ensures OpKeeps(l, image, op, m, t, s')
  {
  }

  lemma FreeKeeps(l: Layout, r: Rules, image: Image, op: Op, m: Machine, t: Tags, s: Stage, s': Stage)
    requires OpReady(l, r, op, m, t, s, s') && (op.operation.Free? || op.operation.StackFramePop?)
    ensures OpKeeps(l, image, op, m, t, s')
  {
    hide CellWord, FreeMemory;
    FreeUnits(|m.data|, m.data, if op.operation.Free? then op.operand else |m.data| - Top(m.fp));
  }

  lemma ControlKeeps(l: Layout, r: Rules, image: Image, op: Op, m: Machine, t: Tags, s: Stage, s': Stage)
    requires OpReady(l, r, op, m, t, s, s') && (op.operation.Call? ==> op.name in image)
    requires op.operation.StackFramePush? || op.operation.Call? || op.operation.Ret? || op.operation.Invalid?
    ensures OpKeeps(l, image, op, m, t, s')
  {
  }

  lemma OpKeepsDiscipline(l: Layout, r: Rules, image: Image, op: Op, m: Machine, t: Tags, s: Stage, s': Stage)
    requires OpReady(l, r, op, m, t, s, s') && (op.operation.Call? ==> op.name in image)
    ensures OpKeeps(l, image, op, m, t, s')
  {
    hide OpKeeps, Stands, TagShape, WithinLimits;
    match op.operation
    case PushSign => PushKeeps(l, r, image, op, m, t, s, s');
    case PushUnsign => PushKeeps(l, r, image, op, m, t, s, s');
    case Clone => PushKeeps(l, r, image, op, m, t, s, s');
    case PushStack => SlotKeeps(l, r, image, op, m, t, s, s');
    case PushSea => SlotKeeps(l, r, image, op, m, t, s, s');
    case Unary(_) => ComputeKeeps(l, r, image, op, m, t, s, s');
    case Binary(_) => ComputeKeeps(l, r, image, op, m, t, s, s');
    case Pop => ComputeKeeps(l, r, image, op, m, t, s, s');
    case Jump => JumpKeeps(l, r, image, op, m, t, s, s');
    case JumpIf => JumpKeeps(l, r, image, op, m, t, s, s');
    case JumpIfNot => JumpKeeps(l, r, image, op, m, t, s, s');
    case Alloc => AllocKeeps(l, r, image, op, m, t, s, s');
    case Store => StoreKeeps(l, r, image, op, m, t, s, s');
    case Free => FreeKeeps(l, r, image, op, m, t, s, s');
    case StackFramePop => FreeKeeps(l, r, image, op, m, t, s, s');
    case StackFramePush => ControlKeeps(l, r, image, op, m, t, s, s');
    case Call => ControlKeeps(l, r, image, op, m, t, s, s');
    case Ret => ControlKeeps(l, r, image, op, m, t, s, s');
    case Invalid => ControlKeeps(l, r, image, op, m, t, s, s');
    case _ =>
  }

  // ----- whole runs -----

  lemma StandsAt(p: Program, notes: Notes, l: Layout, m: Machine, bases: seq<nat>)
    requires MachineOk(p, notes, m, bases, true) && Words(m) <= l.stackWords <= GLOBALS_OFFSET
    ensures m.currFunc != [] && Noted(notes, m.currFunc[|m.currFunc| - 1], m.ip)
    ensures Stands(l, m, notes[m.currFunc[|m.currFunc| - 1]][m.ip])
  {
    FramesBounded(p, notes, ProfileOf(m, true), bases);
  }

  /** One opcode of a compiled program, within the limits. */
  lemma StepDisciplined(p: Program, image: Image, notes: Notes, l: Layout, m: Machine, op: Op, bases: seq<nat>, t: Tags)
    returns (bases': seq<nat>)
    requires Linked(p, image) && Annotated(p, notes, true) && MachineOk(p, notes, m, bases, true)
             && NextOp(image, m) == Some(op)
    requires TagShape(m, t, DueHere(notes, m)) && Words(m) <= l.stackWords <= GLOBALS_OFFSET && WithinLimits(l, op, m)
    ensures TagStep(l, image, op, m, t).Some? && !Step(image, m).status.Stuck?
    ensures var m', t' := Step(image, m), TagStep(l, image, op, m, t).value;
            && (m'.status.Running? ==>
                  MachineOk(p, notes, m', bases', true) && TagShape(m', t', DueHere(notes, m'))
                    && Words(m') <= l.stackWords)
            && (m'.status.Halted? ==> TagShape(m', t', false))
  {
    hide Linked, Annotated, HeightsOk, Effect, Execute, TagStep, WithinLimits, Flows;
    var s' := NotedStep(p, image, notes, true, m, op, bases, true);
    StandsAt(p, notes, l, m, bases);
    var f := m.currFunc[|m.currFunc| - 1];
    var r, s := RulesOf(p, f, true), notes[f][m.ip];
    EffectCases(r, op, s, s');
    CalleePresent(p, image, r, op);
    OpKeepsDiscipline(l, r, image, op, m, t, s, s');
    bases' := StepHeights(p, image, notes, true, m, op, bases, true);
    if Step(image, m).status.Running? {
      DueNext(p, image, notes, m, op, bases, bases', s');
    } else if Step(image, m).status.Halted? {
      HaltsWithoutAddress(image, op, m, s', r, s);
    }
  }

  lemma CalleePresent(p: Program, image: Image, r: Rules, op: Op)
    requires Linked(p, image) && r.p == p
    ensures op.operation.Call? && op.name in p ==> op.name in image
  {
  }

  lemma HaltsWithoutAddress(image: Image, op: Op, m: Machine, s': Stage, r: Rules, s: Stage)
    requires Effect(r, op, s) == Some(s') && m.status.Running? && Execute(image, op, m.(ip := m.ip + 1)).status.Halted?
    ensures !AddressDue(s')
  {
  }

  lemma LimitedNext(l: Layout, image: Image, m: Machine)
    requires LimitedRun(l, image, m)
    ensures LimitedRun(l, image, Step(image, m))
  {
    hide Step, WithinLimits;
    forall n: nat
      ensures Run(image, Step(image, m), n) == Run(image, m, n + 1)
    {
    }
  }

  lemma {:induction false} RunDisciplined(p: Program, image: Image, notes: Notes, l: Layout, m: Machine,
                                          bases: seq<nat>, t: Tags, n: nat)
    requires Linked(p, image) && Annotated(p, notes, true) && MachineOk(p, notes, m, bases, true)
    requires TagShape(m, t, DueHere(notes, m)) && Words(m) <= l.stackWords <= GLOBALS_OFFSET && LimitedRun(l, image, m)
    ensures TagRun(l, image, m, t, n).Some?
    ensures Run(image, m, n).status.Halted? ==> TagShape(Run(image, m, n), TagRun(l, image, m, t, n).value, false)
    decreases n
  {
    hide Linked, Annotated, HeightsOk, Step, TagStep, WithinLimits, LimitedRun, DueHere;
    if n > 0 {
      var op := NextNoted(p, image, notes, m, bases, l);
      var bases' := StepDisciplined(p, image, notes, l, m, op, bases, t);
      var m', t' := Step(image, m), TagStep(l, image, op, m, t).value;
      LimitedNext(l, image, m);
      if m'.status.Running? {
        RunDisciplined(p, image, notes, l, m', bases', t', n - 1);
      } else {
        StoppedStays(image, m', n - 1);
      }
    }
  }

  /** A running compiled program has a next opcode: no path runs off the end of the code. */
  lemma NextNoted(p: Program, image: Image, notes: Notes, m: Machine, bases: seq<nat>, l: Layout) returns (op: Op)
    requires Linked(p, image) && Annotated(p, notes, true) && MachineOk(p, notes, m, bases, true)
             && LimitedRun(l, image, m)
    ensures NextOp(image, m) == Some(op) && WithinLimits(l, op, m)
  {
    hide GenFunction;
    var f := m.currFunc[|m.currFunc| - 1];
    assert FunctionNoted(p, f, notes[f], true);
    op := NextOp(image, m).value;
    assert Run(image, m, 0) == m;
  }

  lemma CompiledDisciplined(p: Program, image: Image, l: Layout, f: string, globals: seq<int>)
    requires Linked(p, image) && WfProgram(p) && ScalarProgram(p) && f in p && p[f].params == []
    requires 1 <= l.stackWords <= GLOBALS_OFFSET && LimitedRun(l, image, Start(f, globals))
    ensures Disciplined(l, image, Start(f, globals))
  {
    hide Linked, WfProgram, ScalarProgram, Annotated, HeightsOk, LimitedRun, Run, TagRun;
    var m := Start(f, globals);
    var notes := NotesExist(p, true);
    StartHeights(p, notes, true, f, globals, true);
    EntryNoted(p, notes, true, f);
    forall n: nat
      ensures TagRun(l, image, m, StartTags(), n).Some?
      ensures Run(image, m, n).status.Halted? ==>
                forall tag :: tag in TagRun(l, image, m, StartTags(), n).value.exec ==> tag == Number
    {
      RunDisciplined(p, image, notes, l, m, [0], StartTags(), n);
    }
  }

  // ----- labels -----

  /** A jump goes to the number of an opcode of the function, a call to a function there is. */
  predicate Resolved(p: Program, labels: nat, i: Instr) {
    match i
    case Jmp(target) => 0 <= target < labels
    case Jcc(_, target) => 0 <= target < labels
    case Call(f) => f in p
    case _ => true
  }

  lemma OpResolved(p: Program, labels: nat, op: Op, at: nat)
    requires IsJump(op) ==> 0 <= at + 1 + op.operand < labels
    requires op.operation.Call? ==> op.name in p
    ensures forall k :: 0 <= k < |Lower(op, at)| ==> Resolved(p, labels, Lower(op, at)[k])
  {
    hide LowerBinary, LowerUnary;
    if op.operation.Binary? {
      BinaryStraight(op.operation.bin);
    } else if op.operation.Unary? {
      UnaryStraight(op.operation.un);
    } else {
      hide Lower;
      StraightExceptLast(op, at);
      LastResolved(p, labels, op, at);
    }
  }

  lemma LastResolved(p: Program, labels: nat, op: Op, at: nat)
    requires !op.operation.Binary? && !op.operation.Unary?
    requires IsJump(op) ==> 0 <= at + 1 + op.operand < labels
    requires op.operation.Call? ==> op.name in p
    ensures Lower(op, at) != [] && Resolved(p, labels, Lower(op, at)[|Lower(op, at)| - 1])
  {
    hide LowerBinary, LowerUnary;
  }

  /** The text of a well-formed program can be assembled: no label and no function is missing. */
  lemma TextResolved(p: Program, f: string)
    requires WfProgram(p) && f in p
    ensures var text := LowerAll(GenFunction(p[f]));
            forall i, k :: 0 <= i < |text| && 0 <= k < |text[i]| ==> Resolved(p, |text|, text[i][k])
  {
    hide GenFunction, Effect, Lower, WfProgram, ScalarProgram;
    var code := GenFunction(p[f]);
    var notes := NotesExist(p, false);
    assert FunctionNoted(p, f, notes[f], false);
    FunctionJumps(p[f]);
    forall i | 0 <= i < |code|
      ensures forall k :: 0 <= k < |LowerAll(code)[i]| ==> Resolved(p, |code|, LowerAll(code)[i][k])
    {
      assert StepOk(RulesOf(p, f, false), code, notes[f], i, {});
      EffectCases(RulesOf(p, f, false), code[i], notes[f][i], Effect(RulesOf(p, f, false), code[i], notes[f][i]).value);
      OpResolved(p, |code|, code[i], i);
    }
  }

  /** The main theorem for the processor. A well-formed program without pointers, compiled,
      assembled and launched, exits with exactly the values the program returns, traps exactly
      when the program faults and runs on exactly when it diverges, provided the run stays
      within the limits of the machine. */
  lemma CompiledPreservation(p: Program, image: Image, text: Text, f: string, globals: seq<int>, l: Layout, c: Cpu,
                             vals: seq<int>)
    requires Linked(p, image) && WfProgram(p) && ScalarProgram(p) && f in p && p[f].params == [] && StaysDefined(p, f)
    requires Assembled(image, text) && Launched(l, f, c)
    requires l.stackWords <= GLOBALS_OFFSET && LimitedRun(l, image, Start(f, globals))
    ensures ExitsWith(l, text, c, vals) <==> Returns(p, f, vals)
    ensures Traps(l, text, c) <==> Faults(p, f)
    ensures RunsOn(l, text, c) <==> Diverges(p, f)
  {
    hide Linked, WfProgram, ScalarProgram, LimitedRun, Assembled, CallFunction, ExitsWith, Returns, Traps, Faults,
         RunsOn, Diverges;
    forall fuel: nat
      ensures ValueOk(RunResult(p, f, fuel), p[f].results)
    {
      CallSound(p, f, [], [], fuel);
    }
    CompiledDisciplined(p, image, l, f, globals);
    NativePreservation(p, image, text, f, globals, l, c, vals);
  }

  /** Within the limits a pointer-free program without globals meets no undefined operation: every
      such operation would have been beyond them. */
  lemma LimitedDefined(p: Program, image: Image, f: string, l: Layout)
    requires Linked(p, image) && WfProgram(p) && ScalarProgram(p) && f in p && p[f].params == []
    requires 1 <= l.stackWords <= GLOBALS_OFFSET && LimitedRun(l, image, Start(f, []))
    ensures StaysDefined(p, f)
  {
    hide Linked, WfProgram, ScalarProgram, LimitedRun, CallFunction, StaysDefined, Disciplined, Sticks;
    CompiledDisciplined(p, image, l, f, []);
    DisciplinedNeverSticks(l, image, Start(f, []));
    WellFormedExactly(p, image, f);
  }

  /** So for these only the limits of the machine have to be assumed. */
  lemma CompiledExactly(p: Program, image: Image, text: Text, f: string, l: Layout, c: Cpu, vals: seq<int>)
    requires Linked(p, image) && WfProgram(p) && ScalarProgram(p) && f in p && p[f].params == []
    requires Assembled(image, text) && Launched(l, f, c)
    requires l.stackWords <= GLOBALS_OFFSET && LimitedRun(l, image, Start(f, []))
    ensures ExitsWith(l, text, c, vals) <==> Returns(p, f, vals)
    ensures Traps(l, text, c) <==> Faults(p, f)
    ensures RunsOn(l, text, c) <==> Diverges(p, f)
  {
    hide Linked, WfProgram, ScalarProgram, LimitedRun, Assembled, CallFunction, ExitsWith, Returns, Traps, Faults,
         RunsOn, Diverges, StaysDefined;
    LimitedDefined(p, image, f, l);
    CompiledPreservation(p, image, text, f, [], l, c, vals);
  }
}
