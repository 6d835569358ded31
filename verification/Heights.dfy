/**
  At every reachable position of a program the heights of the interpreter's stacks are the
  ones known at compile time: the exec stack of the activation has the depth of the position,
  and the data stack ends `stack_index` cells above the frame pointer.
*/
module Heights {
  import opened Word64
  import opened Ir
  import opened Source
  import opened Codegen
  import opened ControlFlow
  import opened Correctness
  import opened Simulation
  import opened Typing
  import opened FrameIndex
  import opened Stages
  import opened StageFlows

  /** Stages of every position of every function. */
  type Notes = map<string, seq<Stage>>

  function RulesOf(p: Program, f: string, strict: bool): Rules
    requires f in p
  {
    Rules(p, p[f].results, strict)
  }

  ghost predicate Annotated(p: Program, notes: Notes, strict: bool) {
    notes.Keys == p.Keys && forall f :: f in p ==> FunctionNoted(p, f, notes[f], strict)
  }

  ghost predicate FunctionNoted(p: Program, f: string, ann: seq<Stage>, strict: bool)
    requires f in p
  {
    exists end :: Flows(RulesOf(p, f, strict), GenFunction(p[f]), ann, Before(|p[f].params|), end, {})
  }

  /** The notes have the frame at `stack_index` wherever it is open. */
  ghost predicate Indexed(p: Program, notes: Notes) {
    forall f :: f in p && f in notes ==> Marked(notes[f], StackIndexes(p[f]))
  }

  /** Every well-formed program has such notes. */
  lemma NotesExist(p: Program, strict: bool) returns (notes: Notes)
    requires WfProgram(p) && (strict ==> ScalarProgram(p))
    ensures Annotated(p, notes, strict) && Indexed(p, notes)
  {
    hide Flows, GenFunction, WfFunction, Marked, StackIndexes;
    var todo := p.Keys;
    notes := map[];
    while todo != {}
      invariant todo <= p.Keys && notes.Keys == p.Keys - todo
      invariant forall f :: f in notes ==> FunctionNoted(p, f, notes[f], strict) && Marked(notes[f], StackIndexes(p[f]))
      decreases |todo|
    {
      var f :| f in todo;
      var ann, end := FunctionFlows(RulesOf(p, f, strict), p[f]);
      notes := notes[f := ann];
      todo := todo - {f};
    }
  }

  /** The heights of the stacks, and where the activations stand. Only what is said of an
      `exact` profile goes for the exec stack, too. */
  datatype Profile =
    Profile(ip: int, fp: seq<int>, ipStack: seq<int>, funcs: seq<string>, exec: nat, data: nat, exact: bool)

  function ProfileOf(m: Machine, exact: bool): Profile {
    Profile(m.ip, m.fp, m.ipStack, m.currFunc, |m.exec|, |m.data|, exact)
  }

  function FrameEnd(x: Profile, j: nat): int {
    if j + 1 < |x.fp| then x.fp[j + 1] else x.data
  }

  /** An opcode of `f` stands at `ip`; the last note is the one behind the code. */
  ghost predicate Noted(notes: Notes, f: string, ip: int) {
    f in notes && 0 <= ip < |notes[f]| - 1
  }

  /** Activation `j` waits behind a call; `bases` are the exec heights the activations start from. */
  ghost predicate Waiting(p: Program, notes: Notes, x: Profile, bases: seq<nat>, j: nat)
    requires j < |x.ipStack| < |x.funcs| == |bases| && |x.ipStack| <= |x.fp|
  {
    && Noted(notes, x.funcs[j], x.ipStack[j]) && x.funcs[j + 1] in p
    && match notes[x.funcs[j]][x.ipStack[j]]
       case In(d, k, addr) =>
         && !addr && FrameEnd(x, j) == x.fp[j] + k
         && (x.exact ==> bases[j + 1] + p[x.funcs[j + 1]].results == bases[j] + d)
       case _ => false
  }

  ghost predicate Standing(notes: Notes, x: Profile, bases: seq<nat>)
    requires |x.funcs| == |bases| == |x.ipStack| + 1 && |x.ipStack| <= |x.fp|
  {
    var d := |x.ipStack|;
    && Noted(notes, x.funcs[d], x.ip)
    && match notes[x.funcs[d]][x.ip]
       case In(depth, k, _) => |x.fp| == d + 1 && (x.exact ==> x.exec == bases[d] + depth) && x.data == x.fp[d] + k
       case s => |x.fp| == d && (x.exact ==> x.exec == bases[d] + s.depth)
  }

  ghost predicate HeightsOk(p: Program, notes: Notes, x: Profile, bases: seq<nat>) {
    && |x.funcs| == |bases| == |x.ipStack| + 1 && |x.ipStack| <= |x.fp| && bases[0] == 0
    && (forall j :: 0 <= j < |x.funcs| ==> x.funcs[j] in p)
    && (if x.fp == [] then x.data == 0 else x.fp[0] == 0)
    && Standing(notes, x, bases)
    && forall j :: 0 <= j < |x.ipStack| ==> Waiting(p, notes, x, bases, j)
  }

  /** Frames lie one behind the other. */
  lemma {:induction false} FramesRise(p: Program, notes: Notes, x: Profile, bases: seq<nat>, i: nat, j: nat)
    requires HeightsOk(p, notes, x, bases) && i <= j < |x.fp|
    ensures x.fp[i] <= x.fp[j]
    decreases j
  {
    if i < j {
      FramesRise(p, notes, x, bases, i, j - 1);
      assert Waiting(p, notes, x, bases, j - 1);
    }
  }

  lemma FramesBounded(p: Program, notes: Notes, x: Profile, bases: seq<nat>)
    requires HeightsOk(p, notes, x, bases)
    ensures forall i, j :: 0 <= i <= j < |x.fp| ==> 0 <= x.fp[i] <= x.fp[j] <= x.data
  {
    forall i, j | 0 <= i <= j < |x.fp|
      ensures 0 <= x.fp[i] <= x.fp[j] <= x.data
    {
      FramesRise(p, notes, x, bases, 0, i);
      FramesRise(p, notes, x, bases, i, j);
      FramesRise(p, notes, x, bases, j, |x.fp| - 1);
      if |x.fp| == |x.ipStack| {
        assert Waiting(p, notes, x, bases, |x.fp| - 1);
      }
    }
  }

  // ----- one opcode -----

  /** The stage the activation on top stands at. */
  ghost function Here(notes: Notes, x: Profile): Stage
    requires x.funcs != [] && Noted(notes, x.funcs[|x.funcs| - 1], x.ip)
  {
    notes[x.funcs[|x.funcs| - 1]][x.ip]
  }

  /** A change inside the frame on top. */
  lemma MovesInFrame(p: Program, notes: Notes, x: Profile, x': Profile, bases: seq<nat>)
    requires HeightsOk(p, notes, x, bases) && Here(notes, x).In?
    requires x' == x.(ip := x'.ip, exec := x'.exec, data := x'.data)
    requires Noted(notes, x.funcs[|x.funcs| - 1], x'.ip) && Here(notes, x').In?
    requires x.exact ==> x'.exec == x.exec - Here(notes, x).depth + Here(notes, x').depth
    requires x'.data == x.data - Here(notes, x).slots + Here(notes, x').slots
    ensures HeightsOk(p, notes, x', bases)
  {
    forall j | 0 <= j < |x'.ipStack|
      ensures Waiting(p, notes, x', bases, j)
    {
      assert Waiting(p, notes, x, bases, j);
    }
  }

  lemma OpensFrame(p: Program, notes: Notes, x: Profile, x': Profile, bases: seq<nat>)
    requires HeightsOk(p, notes, x, bases) && Here(notes, x).Before?
    requires x' == x.(ip := x'.ip, fp := x.fp + [x.data])
    requires Noted(notes, x.funcs[|x.funcs| - 1], x'.ip) && Here(notes, x') == In(Here(notes, x).depth, 0, false)
    ensures HeightsOk(p, notes, x', bases)
  {
    forall j | 0 <= j < |x'.ipStack|
      ensures Waiting(p, notes, x', bases, j)
    {
      assert Waiting(p, notes, x, bases, j);
    }
  }

  lemma ClosesFrame(p: Program, notes: Notes, x: Profile, x': Profile, bases: seq<nat>)
    requires HeightsOk(p, notes, x, bases) && Here(notes, x).In?
    requires x' == x.(ip := x'.ip, fp := Rest(x.fp), data := x'.data) && x'.data == x.fp[|x.fp| - 1]
    requires Noted(notes, x.funcs[|x.funcs| - 1], x'.ip) && Here(notes, x') == After(Here(notes, x).depth)
    ensures HeightsOk(p, notes, x', bases)
  {
    forall j | 0 <= j < |x'.ipStack|
      ensures Waiting(p, notes, x', bases, j)
    {
      assert Waiting(p, notes, x, bases, j);
    }
  }

  /** The arguments become the bottom of the exec stack of the new activation. */
  lemma EntersFunction(p: Program, notes: Notes, x: Profile, x': Profile, bases: seq<nat>, g: string)
    returns (bases': seq<nat>)
    requires HeightsOk(p, notes, x, bases) && Here(notes, x).In? && g in p && Here(notes, x).depth >= |p[g].params|
    requires x' == x.(ip := 0, ipStack := x.ipStack + [x.ip + 1], funcs := x.funcs + [g])
    requires Noted(notes, g, 0) && notes[g][0] == Before(|p[g].params|)
    requires Noted(notes, x.funcs[|x.funcs| - 1], x.ip + 1)
    requires notes[x.funcs[|x.funcs| - 1]][x.ip + 1] ==
             In(Here(notes, x).depth - |p[g].params| + p[g].results, Here(notes, x).slots, false)
    ensures HeightsOk(p, notes, x', bases')
  {
    bases' := bases + [if x.exact then x.exec - |p[g].params| else 0];
    forall j | 0 <= j < |x'.ipStack|
      ensures Waiting(p, notes, x', bases', j)
    {
      if j < |x.ipStack| {
        assert Waiting(p, notes, x, bases, j);
        assert x'.funcs[j + 1] == x.funcs[j + 1] && bases'[j + 1] == bases[j + 1];
      }
    }
  }

  /** A return finds the caller as the call left it, the results in place of the arguments. */
  lemma LeavesFunction(p: Program, notes: Notes, x: Profile, x': Profile, bases: seq<nat>) returns (bases': seq<nat>)
    requires HeightsOk(p, notes, x, bases) && x.ipStack != []
    requires Here(notes, x).After? && Here(notes, x).depth == p[x.funcs[|x.funcs| - 1]].results
    requires x' == x.(ip := Top(x.ipStack), ipStack := Rest(x.ipStack), funcs := Rest(x.funcs))
    ensures HeightsOk(p, notes, x', bases')
  {
    var d := |x.ipStack|;
    bases' := bases[..d];
    assert Waiting(p, notes, x, bases, d - 1);
    forall j | 0 <= j < |x'.ipStack|
      ensures Waiting(p, notes, x', bases', j)
    {
      assert Waiting(p, notes, x, bases, j);
    }
  }

  /** A store to a global address would push instead of popping. */
  predicate Tame(op: Op, m: Machine) {
    op.operation.Store? ==> Top(m.exec) < GLOBALS_OFFSET
  }

  ghost predicate MachineOk(p: Program, notes: Notes, m: Machine, bases: seq<nat>, exact: bool) {
    m.status.Running? && m.allocations == UnitBlocks(|m.data|) && HeightsOk(p, notes, ProfileOf(m, exact), bases)
  }

  /** The heights after an opcode inside the frame are those of its effect. */
  ghost predicate HeightsFollow(op: Op, m: Machine, m': Machine, s: Stage, s': Stage, exact: bool)
    requires s.In? && s'.In?
  {
    && !m'.status.Halted?
    && (m'.status.Running? ==>
          && ProfileOf(m', exact) == ProfileOf(m, exact).(ip := m'.ip, exec := |m'.exec|, data := |m'.data|)
          && (exact ==> |m'.exec| == |m.exec| - s.depth + s'.depth) && |m'.data| == |m.data| - s.slots + s'.slots
          && m'.allocations == UnitBlocks(|m'.data|)
          && ((m'.ip == m.ip + 1 && FallsThrough(op)) || (m'.ip == m.ip + 1 + op.operand && IsJump(op))))
  }

  ghost predicate InFrameReady(r: Rules, op: Op, m: Machine, s: Stage, s': Stage, exact: bool) {
    && s.In? && s'.In? && Effect(r, op, s) == Some(s') && !op.operation.Call? && !op.operation.Invalid?
    && m.status.Running? && m.allocations == UnitBlocks(|m.data|)
    && |m.data| >= s.slots && (exact ==> |m.exec| >= s.depth && Tame(op, m))
  }

  lemma InFrameEffect(r: Rules, image: Image, op: Op, m: Machine, s: Stage, s': Stage, exact: bool)
    requires InFrameReady(r, op, m, s, s', exact)
    ensures HeightsFollow(op, m, Execute(image, op, m.(ip := m.ip + 1)), s, s', exact)
  {
    hide EvalBinary, EvalUnary, FreeMemory, VariableAddress, UnitBlocks, HeightsFollow, InFrameReady, Execute;
    if op.operation.Load? || op.operation.Store? || op.operation.Free? || op.operation.Alloc? {
      MemoryEffect(r, image, op, m, s, s', exact);
    } else {
      ExecEffect(r, image, op, m, s, s', exact);
    }
  }

  lemma MemoryEffect(r: Rules, image: Image, op: Op, m: Machine, s: Stage, s': Stage, exact: bool)
    requires InFrameReady(r, op, m, s, s', exact)
    requires op.operation.Load? || op.operation.Store? || op.operation.Free? || op.operation.Alloc?
    ensures HeightsFollow(op, m, Execute(image, op, m.(ip := m.ip + 1)), s, s', exact)
  {
    hide EvalBinary, EvalUnary, FreeMemory, VariableAddress, UnitBlocks;
    match op.operation
    case Free => FreeUnits(|m.data|, m.data, op.operand);
    case Alloc => OneUnitMore(|m.data|);
    case _ =>
  }

  lemma ExecEffect(r: Rules, image: Image, op: Op, m: Machine, s: Stage, s': Stage, exact: bool)
    requires InFrameReady(r, op, m, s, s', exact)
    requires !op.operation.Load? && !op.operation.Store? && !op.operation.Free? && !op.operation.Alloc?
    ensures HeightsFollow(op, m, Execute(image, op, m.(ip := m.ip + 1)), s, s', exact)
  {
    hide EvalBinary, EvalUnary, FreeMemory, VariableAddress, UnitBlocks, ExecuteLoad, ExecuteStore, Freed;
  }

  lemma OneUnitMore(n: nat)
    ensures UnitBlocks(n) + [Block(1, n)] == UnitBlocks(n + 1) && Zeros(1) == [0]
  {
  }

  /** The code of a function does not fall off its end. */
  lemma LastStops(f: Function)
    ensures var code := GenFunction(f);
            code != [] && !FallsThrough(code[|code| - 1])
  {
    hide BodyCode, ParamOps;
    FunctionCode(f);
    var front := [Plain(StackFramePush, 0)] + (ParamOps(|f.params|) + BodyCode(f));
    assert GenFunction(f) == front + Epilogue(f);
  }

  /** What the notes say about the opcode under way. */
  lemma NotedStep(p: Program, image: Image, notes: Notes, strict: bool, m: Machine, op: Op, bases: seq<nat>,
                  exact: bool)
    returns (s': Stage)
    requires Linked(p, image) && Annotated(p, notes, strict) && MachineOk(p, notes, m, bases, exact)
             && NextOp(image, m) == Some(op)
    ensures var f := m.currFunc[|m.currFunc| - 1];
            && f in p && Noted(notes, f, m.ip)
            && Effect(RulesOf(p, f, strict), op, notes[f][m.ip]) == Some(s')
            && (FallsThrough(op) ==> Noted(notes, f, m.ip + 1) && notes[f][m.ip + 1] == s')
            && (IsJump(op) ==> Noted(notes, f, m.ip + 1 + op.operand) && notes[f][m.ip + 1 + op.operand] == s')
  {
    hide Effect, GenFunction;
    var f := m.currFunc[|m.currFunc| - 1];
    assert f in p;
    assert FunctionNoted(p, f, notes[f], strict);
    FunctionJumps(p[f]);
    LastStops(p[f]);
    assert StepOk(RulesOf(p, f, strict), GenFunction(p[f]), notes[f], m.ip, {});
    s' := Effect(RulesOf(p, f, strict), op, notes[f][m.ip]).value;
  }

  lemma EntryNoted(p: Program, notes: Notes, strict: bool, g: string)
    requires Annotated(p, notes, strict) && g in p
    ensures Noted(notes, g, 0) && notes[g][0] == Before(|p[g].params|)
  {
    hide GenFunction;
    LastStops(p[g]);
    assert FunctionNoted(p, g, notes[g], strict);
  }

  /** The heights at the end of a run: the results on the exec stack, an empty data stack. */
  ghost predicate Finished(p: Program, m: Machine, exact: bool) {
    && m.fp == [] && m.data == [] && m.ipStack == [] && |m.currFunc| == 1 && m.currFunc[0] in p
    && (exact ==> |m.exec| == p[m.currFunc[0]].results)
  }

  /** One opcode keeps the heights, whichever it is. */
  lemma StepHeights(p: Program, image: Image, notes: Notes, strict: bool, m: Machine, op: Op, bases: seq<nat>,
                    exact: bool)
    returns (bases': seq<nat>)
    requires Linked(p, image) && Annotated(p, notes, strict) && MachineOk(p, notes, m, bases, exact)
    requires NextOp(image, m) == Some(op) && (exact ==> Tame(op, m))
    ensures var m' := Step(image, m);
            && (m'.status.Running? ==> MachineOk(p, notes, m', bases', exact))
            && (m'.status.Halted? ==> Finished(p, m', exact))
  {
    hide Linked, Annotated, HeightsOk, Effect, Execute, Tame;
    var s' := NotedStep(p, image, notes, strict, m, op, bases, exact);
    var x, m' := ProfileOf(m, exact), Step(image, m);
    var f := m.currFunc[|m.currFunc| - 1];
    var s := notes[f][m.ip];
    bases' := bases;
    EffectCases(RulesOf(p, f, strict), op, s, s');
    StandsHere(p, notes, m, bases, exact);
    match op.operation
    case StackFramePush => FramePushHeights(p, notes, image, m, op, bases, exact);
    case StackFramePop => FramePopHeights(p, notes, image, m, op, bases, exact);
    case Call => bases' := CallHeights(p, notes, strict, image, m, op, bases, exact);
    case Ret => bases' := RetHeights(p, notes, image, m, op, bases, exact);
    case Invalid => InvalidStops(image, op, m);
    case _ => MoveHeights(p, notes, strict, image, m, op, bases, s', exact);
  }

  lemma MoveHeights(p: Program, notes: Notes, strict: bool, image: Image, m: Machine, op: Op, bases: seq<nat>,
                    s': Stage, exact: bool)
    requires MachineOk(p, notes, m, bases, exact) && (exact ==> Tame(op, m)) && !op.operation.Call?
             && !op.operation.Invalid?
    requires var f := m.currFunc[|m.currFunc| - 1];
             && f in p && Noted(notes, f, m.ip) && notes[f][m.ip].In? && s'.In?
             && Effect(RulesOf(p, f, strict), op, notes[f][m.ip]) == Some(s')
             && (FallsThrough(op) ==> Noted(notes, f, m.ip + 1) && notes[f][m.ip + 1] == s')
             && (IsJump(op) ==> Noted(notes, f, m.ip + 1 + op.operand) && notes[f][m.ip + 1 + op.operand] == s')
    ensures var m' := Execute(image, op, m.(ip := m.ip + 1));
            !m'.status.Halted? && (m'.status.Running? ==> MachineOk(p, notes, m', bases, exact))
  {
    hide HeightsOk, Effect, Execute, Tame, UnitBlocks;
    StandsHere(p, notes, m, bases, exact);
    var f := m.currFunc[|m.currFunc| - 1];
    var m' := Execute(image, op, m.(ip := m.ip + 1));
    InFrameEffect(RulesOf(p, f, strict), image, op, m, notes[f][m.ip], s', exact);
    if m'.status.Running? {
      MovesInFrame(p, notes, ProfileOf(m, exact), ProfileOf(m', exact), bases);
    }
  }

  lemma InvalidStops(image: Image, op: Op, m: Machine)
    requires op.operation.Invalid?
    ensures Execute(image, op, m.(ip := m.ip + 1)).status.Failed?
  {
  }

  lemma EffectCases(r: Rules, op: Op, s: Stage, s': Stage)
    requires Effect(r, op, s) == Some(s')
    ensures op.operation.StackFramePush? ==> s.Before? && s' == In(s.depth, 0, false)
    ensures op.operation.StackFramePop? ==> s.In? && s' == After(s.depth)
    ensures op.operation.Ret? ==> s.After? && s' == s && s.depth == r.results
    ensures op.operation.Call? ==>
              && s.In? && op.name in r.p && s.depth >= |r.p[op.name].params|
              && s' == In(s.depth - |r.p[op.name].params| + r.p[op.name].results, s.slots, false)
    ensures !op.operation.StackFramePush? && !op.operation.StackFramePop? && !op.operation.Ret? ==> s.In? && s'.In?
  {
  }

  lemma StandsHere(p: Program, notes: Notes, m: Machine, bases: seq<nat>, exact: bool)
    requires MachineOk(p, notes, m, bases, exact)
    ensures m.currFunc != [] && Noted(notes, m.currFunc[|m.currFunc| - 1], m.ip)
    ensures var s := notes[m.currFunc[|m.currFunc| - 1]][m.ip];
            (exact ==> |m.exec| >= s.depth) && (s.In? ==> |m.data| >= s.slots && |m.fp| == |m.ipStack| + 1)
  {
    FramesBounded(p, notes, ProfileOf(m, exact), bases);
  }

  lemma FramePushHeights(p: Program, notes: Notes, image: Image, m: Machine, op: Op, bases: seq<nat>, exact: bool)
    requires MachineOk(p, notes, m, bases, exact) && op.operation.StackFramePush?
    requires var f := m.currFunc[|m.currFunc| - 1];
             && Noted(notes, f, m.ip + 1) && notes[f][m.ip].Before?
             && notes[f][m.ip + 1] == In(notes[f][m.ip].depth, 0, false)
    ensures MachineOk(p, notes, Execute(image, op, m.(ip := m.ip + 1)), bases, exact)
  {
    hide HeightsOk;
    StandsHere(p, notes, m, bases, exact);
    OpensFrame(p, notes, ProfileOf(m, exact), ProfileOf(Execute(image, op, m.(ip := m.ip + 1)), exact), bases);
  }

  lemma FramePopMachine(image: Image, op: Op, m: Machine)
    requires op.operation.StackFramePop? && m.status.Running? && m.allocations == UnitBlocks(|m.data|)
    requires m.fp != [] && 0 <= Top(m.fp) <= |m.data|
    ensures Execute(image, op, m.(ip := m.ip + 1)) ==
            m.(ip := m.ip + 1, fp := Rest(m.fp), data := m.data[..Top(m.fp)], allocations := UnitBlocks(Top(m.fp)))
  {
    FreeUnits(|m.data|, m.data, |m.data| - Top(m.fp));
  }

  lemma FramePopHeights(p: Program, notes: Notes, image: Image, m: Machine, op: Op, bases: seq<nat>, exact: bool)
    requires MachineOk(p, notes, m, bases, exact) && op.operation.StackFramePop?
    requires var f := m.currFunc[|m.currFunc| - 1];
             Noted(notes, f, m.ip + 1) && notes[f][m.ip].In? && notes[f][m.ip + 1] == After(notes[f][m.ip].depth)
    ensures MachineOk(p, notes, Execute(image, op, m.(ip := m.ip + 1)), bases, exact)
  {
    hide HeightsOk, Execute;
    StandsHere(p, notes, m, bases, exact);
    FramesBounded(p, notes, ProfileOf(m, exact), bases);
    assert 0 <= m.fp[|m.fp| - 1] <= |m.data|;
    FramePopMachine(image, op, m);
    hide UnitBlocks;
    ClosesFrame(p, notes, ProfileOf(m, exact), ProfileOf(Execute(image, op, m.(ip := m.ip + 1)), exact), bases);
  }

  lemma CallHeights(p: Program, notes: Notes, strict: bool, image: Image, m: Machine, op: Op, bases: seq<nat>,
                    exact: bool)
    returns (bases': seq<nat>)
    requires MachineOk(p, notes, m, bases, exact) && Annotated(p, notes, strict) && op.operation.Call? && op.name in p
    requires var f := m.currFunc[|m.currFunc| - 1];
             && Noted(notes, f, m.ip + 1) && notes[f][m.ip].In? && notes[f][m.ip].depth >= |p[op.name].params|
             && notes[f][m.ip + 1] ==
                In(notes[f][m.ip].depth - |p[op.name].params| + p[op.name].results, notes[f][m.ip].slots, false)
    ensures var m' := Execute(image, op, m.(ip := m.ip + 1));
            m'.status.Running? ==> MachineOk(p, notes, m', bases', exact)
    ensures !Execute(image, op, m.(ip := m.ip + 1)).status.Halted?
  {
    hide HeightsOk, Annotated, Execute, UnitBlocks;
    bases' := bases;
    var m' := Execute(image, op, m.(ip := m.ip + 1));
    CallProfile(image, op, m, exact);
    EntryNoted(p, notes, strict, op.name);
    StandsHere(p, notes, m, bases, exact);
    if m'.status.Running? {
      bases' := EntersFunction(p, notes, ProfileOf(m, exact), ProfileOf(m', exact), bases, op.name);
    }
  }

  lemma CallProfile(image: Image, op: Op, m: Machine, exact: bool)
    requires op.operation.Call? && m.status.Running?
    ensures var m' := Execute(image, op, m.(ip := m.ip + 1));
            && !m'.status.Halted?
            && (m'.status.Running? ==>
                  && ProfileOf(m', exact) ==
                     ProfileOf(m, exact).(ip := 0, ipStack := m.ipStack + [m.ip + 1], funcs := m.currFunc + [op.name])
                  && m'.allocations == m.allocations)
  {
  }

  lemma RetHeights(p: Program, notes: Notes, image: Image, m: Machine, op: Op, bases: seq<nat>, exact: bool)
    returns (bases': seq<nat>)
    requires MachineOk(p, notes, m, bases, exact) && op.operation.Ret? && m.currFunc[|m.currFunc| - 1] in p
    requires var f := m.currFunc[|m.currFunc| - 1];
             Noted(notes, f, m.ip) && notes[f][m.ip].After? && notes[f][m.ip].depth == p[f].results
    ensures var m' := Execute(image, op, m.(ip := m.ip + 1));
            && (m'.status.Running? ==> MachineOk(p, notes, m', bases', exact))
            && (m'.status.Halted? ==> Finished(p, m', exact))
  {
    bases' := bases;
    if m.ipStack != [] {
      hide HeightsOk;
      bases' := LeavesFunction(p, notes, ProfileOf(m, exact), ProfileOf(Execute(image, op, m.(ip := m.ip + 1)), exact),
                               bases);
    }
  }

  // ----- addresses on the exec stack -----

  predicate AddressDue(s: Stage) {
    s.In? && s.addr
  }

  /** Whether an address is due on top of the exec stack at the position of the machine. */
  ghost predicate DueHere(notes: Notes, m: Machine) {
    && m.currFunc != [] && Noted(notes, m.currFunc[|m.currFunc| - 1], m.ip)
    && AddressDue(notes[m.currFunc[|m.currFunc| - 1]][m.ip])
  }

  lemma NextPosition(image: Image, op: Op, m: Machine)
    requires m.status.Running? && !op.operation.Call? && !op.operation.Ret?
    ensures var m' := Execute(image, op, m.(ip := m.ip + 1));
            m'.status.Running? ==>
              && m'.currFunc == m.currFunc
              && ((m'.ip == m.ip + 1 && FallsThrough(op)) || (m'.ip == m.ip + 1 + op.operand && IsJump(op)))
  {
    if !IsJump(op) {
      hide Execute;
      StraightPosition(image, op, m);
    }
  }

  lemma StraightPosition(image: Image, op: Op, m: Machine)
    requires m.status.Running? && !op.operation.Call? && !op.operation.Ret? && !IsJump(op)
    ensures var m' := Execute(image, op, m.(ip := m.ip + 1));
            m'.status.Running? ==> m'.currFunc == m.currFunc && m'.ip == m.ip + 1 && FallsThrough(op)
  {
    hide EvalBinary, EvalUnary, VariableAddress, Zeros, Freed, ExecuteLoad, ExecuteStore;
  }

  lemma RetProfile(image: Image, op: Op, m: Machine)
    requires op.operation.Ret? && m.status.Running?
    ensures var m' := Execute(image, op, m.(ip := m.ip + 1));
            if m.ipStack == [] then m'.status.Halted? else m'.ip == Top(m.ipStack) && m'.currFunc == Rest(m.currFunc)
  {
  }

  /** The stage behind the opcode decides whether an address is due at the next position. */
  lemma DueNext(p: Program, image: Image, notes: Notes, m: Machine, op: Op, bases: seq<nat>, bases': seq<nat>,
                s': Stage)
    requires MachineOk(p, notes, m, bases, true) && MachineOk(p, notes, Step(image, m), bases', true)
             && NextOp(image, m) == Some(op)
    requires Annotated(p, notes, true)
    requires var f := m.currFunc[|m.currFunc| - 1];
             && f in p && Noted(notes, f, m.ip)
             && Effect(RulesOf(p, f, true), op, notes[f][m.ip]) == Some(s')
             && (FallsThrough(op) ==> Noted(notes, f, m.ip + 1) && notes[f][m.ip + 1] == s')
             && (IsJump(op) ==> Noted(notes, f, m.ip + 1 + op.operand) && notes[f][m.ip + 1 + op.operand] == s')
    ensures DueHere(notes, Step(image, m)) ==> AddressDue(s')
    ensures AddressDue(s') ==> DueHere(notes, Step(image, m))
  {
    hide Execute, Effect, Annotated;
    var m' := Step(image, m);
    var f := m.currFunc[|m.currFunc| - 1];
    EffectCases(RulesOf(p, f, true), op, notes[f][m.ip], s');
    if op.operation.Call? {
      CallProfile(image, op, m, true);
      EntryNoted(p, notes, true, op.name);
    } else if op.operation.Ret? {
      RetProfile(image, op, m);
      assert Waiting(p, notes, ProfileOf(m, true), bases, |m.ipStack| - 1);
    } else {
      NextPosition(image, op, m);
    }
  }

  // ----- every reachable state -----

  /** No opcode of the first `n` stores to a global address. */
  predicate TameRun(image: Image, m: Machine, n: nat)
    decreases n
  {
    n == 0 || ((NextOp(image, m).Some? ==> Tame(NextOp(image, m).value, m)) && TameRun(image, Step(image, m), n - 1))
  }

  lemma {:induction false} RunHeights(p: Program, image: Image, notes: Notes, strict: bool, m: Machine, bases: seq<nat>,
                                      n: nat, exact: bool)
    returns (bases': seq<nat>)
    requires Linked(p, image) && Annotated(p, notes, strict) && MachineOk(p, notes, m, bases, exact)
    requires exact ==> TameRun(image, m, n)
    ensures var m' := Run(image, m, n);
            && (m'.status.Running? ==> MachineOk(p, notes, m', bases', exact))
            && (m'.status.Halted? ==> Finished(p, m', exact))
    decreases n
  {
    hide Linked, Annotated, HeightsOk, Execute, Tame;
    bases' := bases;
    if n > 0 {
      var m1 := Step(image, m);
      if NextOp(image, m).Some? {
        bases' := StepHeights(p, image, notes, strict, m, NextOp(image, m).value, bases, exact);
      }
      if m1.status.Running? {
        bases' := RunHeights(p, image, notes, strict, m1, bases', n - 1, exact);
      } else {
        StoppedStays(image, m1, n - 1);
      }
    }
  }

  lemma StartHeights(p: Program, notes: Notes, strict: bool, f: string, globals: seq<int>, exact: bool)
    requires Annotated(p, notes, strict) && f in p && p[f].params == []
    ensures MachineOk(p, notes, Start(f, globals), [0], exact)
  {
    hide Flows, GenFunction;
    EntryNoted(p, notes, strict, f);
    assert UnitBlocks(0) == [];
  }

  /** Does the frame of the activation stand open in front of the opcode? */
  predicate InsideFrame(op: Op) {
    !op.operation.StackFramePush? && !op.operation.Ret?
  }

  /** Slot addressing at every reachable position of every well-formed program, recursion and
      pointers included: the data stack ends `stack_index` cells above the frame pointer. */
  lemma ReachableIndex(p: Program, image: Image, f: string, globals: seq<int>, n: nat)
    requires Linked(p, image) && WfProgram(p) && f in p && p[f].params == []
    ensures var m := Run(image, Start(f, globals), n);
            m.status.Running? ==>
              && NextOp(image, m).Some? && m.currFunc[|m.currFunc| - 1] in p
              && var indexes := StackIndexes(p[m.currFunc[|m.currFunc| - 1]]);
                 && m.ip < |indexes|
                 && if InsideFrame(NextOp(image, m).value)
                    then |m.fp| == |m.ipStack| + 1 && |m.data| == Top(m.fp) + indexes[m.ip]
                    else |m.fp| == |m.ipStack|
    ensures var m := Run(image, Start(f, globals), n);
            m.status.Halted? ==> m.fp == [] && m.data == []
  {
    hide Run, Linked, Annotated, Indexed;
    var notes := NotesExist(p, false);
    StartHeights(p, notes, false, f, globals, false);
    var bases := RunHeights(p, image, notes, false, Start(f, globals), [0], n, false);
    var m := Run(image, Start(f, globals), n);
    if m.status.Running? {
      StandsAtIndex(p, image, notes, m, bases);
    }
  }

  lemma StandsAtIndex(p: Program, image: Image, notes: Notes, m: Machine, bases: seq<nat>)
    requires Linked(p, image) && Annotated(p, notes, false) && Indexed(p, notes) && MachineOk(p, notes, m, bases, false)
    ensures NextOp(image, m).Some? && m.currFunc[|m.currFunc| - 1] in p
    ensures var indexes := StackIndexes(p[m.currFunc[|m.currFunc| - 1]]);
            && m.ip < |indexes|
            && if InsideFrame(NextOp(image, m).value)
               then |m.fp| == |m.ipStack| + 1 && |m.data| == Top(m.fp) + indexes[m.ip]
               else |m.fp| == |m.ipStack|
  {
    hide GenFunction, StackIndexes, Effect;
    var f := m.currFunc[|m.currFunc| - 1];
    assert f in p;
    assert FunctionNoted(p, f, notes[f], false);
    var op := NextOp(image, m).value;
    var s' := NotedStep(p, image, notes, false, m, op, bases, false);
    EffectCases(RulesOf(p, f, false), op, notes[f][m.ip], s');
  }

  /** Both stacks as the notes say: unless a store meets a global address, the part of the exec
      stack that belongs to the activation has the depth of the position, too. */
  lemma ReachableHeights(p: Program, image: Image, notes: Notes, f: string, globals: seq<int>, n: nat)
    requires Linked(p, image) && Annotated(p, notes, false) && f in p && p[f].params == []
    requires TameRun(image, Start(f, globals), n)
    ensures var m := Run(image, Start(f, globals), n);
            m.status.Running? ==>
              && m.currFunc != [] && Noted(notes, m.currFunc[|m.currFunc| - 1], m.ip)
              && match notes[m.currFunc[|m.currFunc| - 1]][m.ip]
                 case In(depth, k, _) => |m.fp| == |m.ipStack| + 1 && |m.data| == Top(m.fp) + k && |m.exec| >= depth
                 case s => |m.fp| == |m.ipStack| && |m.exec| >= s.depth
    ensures var m := Run(image, Start(f, globals), n);
            m.status.Halted? ==> Finished(p, m, true)
  {
    hide Run, Linked, Annotated, TameRun;
    StartHeights(p, notes, false, f, globals, true);
    var bases := RunHeights(p, image, notes, false, Start(f, globals), [0], n, true);
  }

  // ----- programs without pointers -----

  /** Where an address is due, the one of a cell lies on top of the exec stack. */
  ghost predicate AddressThere(notes: Notes, m: Machine) {
    DueHere(notes, m) ==> m.exec != [] && 0 <= Top(m.exec) < |m.data|
  }

  /** The data stack stays below the address space of the globals. */
  ghost predicate BelowGlobals(image: Image, m: Machine, n: nat) {
    forall k: nat :: k <= n ==> |Run(image, m, k).data| <= GLOBALS_OFFSET
  }

  /** Only the two opcodes that push the address of a cell leave one behind. */
  lemma AddressLeft(p: Program, image: Image, notes: Notes, m: Machine, op: Op, bases: seq<nat>, r: Rules, s: Stage,
                    s': Stage)
    requires MachineOk(p, notes, m, bases, true)
    requires Noted(notes, m.currFunc[|m.currFunc| - 1], m.ip) && s == notes[m.currFunc[|m.currFunc| - 1]][m.ip]
    requires r.strict && Effect(r, op, s) == Some(s') && AddressDue(s')
    ensures var m' := Execute(image, op, m.(ip := m.ip + 1));
            m'.status.Running? ==> m'.exec != [] && 0 <= Top(m'.exec) < |m'.data|
  {
    StandsHere(p, notes, m, bases, true);
    FramesBounded(p, notes, ProfileOf(m, true), bases);
    hide HeightsOk;
    AddressOps(r, op, s, s');
    if op.operation.PushSea? {
      assert m.fp[|m.fp| - 1] <= |m.data|;
      FindUnit(|m.data|, Top(m.fp) + op.operand - 1, 0);
    }
  }

  lemma AddressOps(r: Rules, op: Op, s: Stage, s': Stage)
    requires r.strict && Effect(r, op, s) == Some(s') && AddressDue(s')
    ensures (op.operation.PushSea? && s.In? && 1 <= op.operand <= s.slots) || (op.operation.Alloc? && op.operand == 1)
  {
  }

  lemma StoreTame(r: Rules, op: Op, m: Machine, s: Stage)
    requires r.strict && Effect(r, op, s).Some? && |m.data| <= GLOBALS_OFFSET
    requires AddressDue(s) ==> m.exec != [] && 0 <= Top(m.exec) < |m.data|
    ensures Tame(op, m)
  {
  }

  lemma {:induction false} RunTame(p: Program, image: Image, notes: Notes, m: Machine, bases: seq<nat>, n: nat)
    requires Linked(p, image) && Annotated(p, notes, true) && MachineOk(p, notes, m, bases, true)
    requires AddressThere(notes, m) && BelowGlobals(image, m, n)
    ensures TameRun(image, m, n)
    decreases n
  {
    hide Linked, Annotated, HeightsOk, Step, Effect, Tame, BelowGlobals, DueHere;
    if n > 0 && NextOp(image, m).Some? {
      var op := NextOp(image, m).value;
      BelowNext(image, m, n);
      var bases' := StepTame(p, image, notes, m, op, bases);
      var m' := Step(image, m);
      if m'.status.Running? {
        RunTame(p, image, notes, m', bases', n - 1);
      } else {
        StoppedTame(image, m', n - 1);
      }
    } else if n > 0 {
      NothingNext(image, m);
      StoppedTame(image, Step(image, m), n - 1);
    }
  }

  lemma NothingNext(image: Image, m: Machine)
    requires NextOp(image, m).None?
    ensures !Step(image, m).status.Running?
  {
  }

  lemma BelowNext(image: Image, m: Machine, n: nat)
    requires n > 0 && BelowGlobals(image, m, n)
    ensures |m.data| <= GLOBALS_OFFSET && BelowGlobals(image, Step(image, m), n - 1)
  {
    hide Step;
    assert Run(image, m, 0) == m;
    forall k: nat | k <= n - 1
      ensures |Run(image, Step(image, m), k).data| <= GLOBALS_OFFSET
    {
      assert Run(image, m, k + 1) == Run(image, Step(image, m), k);
    }
  }

  lemma {:induction false} StoppedTame(image: Image, m: Machine, n: nat)
    requires !m.status.Running?
    ensures TameRun(image, m, n)
    decreases n
  {
    if n > 0 {
      StoppedTame(image, m, n - 1);
    }
  }

  lemma StepTame(p: Program, image: Image, notes: Notes, m: Machine, op: Op, bases: seq<nat>) returns (bases': seq<nat>)
    requires Linked(p, image) && Annotated(p, notes, true) && MachineOk(p, notes, m, bases, true)
    requires AddressThere(notes, m) && NextOp(image, m) == Some(op) && |m.data| <= GLOBALS_OFFSET
    ensures Tame(op, m)
    ensures var m' := Step(image, m);
            m'.status.Running? ==> MachineOk(p, notes, m', bases', true) && AddressThere(notes, m')
  {
    hide Linked, Annotated, HeightsOk, Effect, Execute, Tame;
    var f := m.currFunc[|m.currFunc| - 1];
    var s' := NotedStep(p, image, notes, true, m, op, bases, true);
    var r, s := RulesOf(p, f, true), notes[f][m.ip];
    StoreTame(r, op, m, s);
    bases' := StepHeights(p, image, notes, true, m, op, bases, true);
    if Step(image, m).status.Running? {
      DueNext(p, image, notes, m, op, bases, bases', s');
      if AddressDue(s') {
        AddressLeft(p, image, notes, m, op, bases, r, s, s');
      }
    }
  }

  /** Programs without pointers only store to cells, so their runs are tame. */
  lemma ScalarTame(p: Program, image: Image, f: string, globals: seq<int>, n: nat)
    requires Linked(p, image) && WfProgram(p) && ScalarProgram(p) && f in p && p[f].params == []
    requires BelowGlobals(image, Start(f, globals), n)
    ensures TameRun(image, Start(f, globals), n)
  {
    hide Linked, WfProgram, ScalarProgram, Annotated, HeightsOk, BelowGlobals, TameRun;
    var notes := NotesExist(p, true);
    StartHeights(p, notes, true, f, globals, true);
    EntryNoted(p, notes, true, f);
    RunTame(p, image, notes, Start(f, globals), [0], n);
  }
}
