/**
  From source to processor: a program whose run keeps to the discipline of the native code
  returns its values on the processor, exactly when the program returns them.
*/
module NativeTheorems {
  import opened Ir
  import opened Source
  import opened Simulation
  import opened Theorems
  import opened Nasm
  import opened NasmBlocks
  import opened NativeStack
  import opened NativeSimulation

  /** The processor at the first label of `f`, called by the startup code. */
  ghost predicate Launched(l: Layout, f: string, c: Cpu) {
    && Geometry(l, c) && l.stackWords > 0 && c.stackSeg[0] == Startup
    && c.pc == Pc(f, 0, 0) && c.r.r15 == 0 && c.r.rsp == StackAddr(l, 0) && c.r.rbp == l.rbp0
  }

  function StartTags(): Tags {
    Tags([], [])
  }

  /** No opcode of the run breaks the discipline, and what the run returns are numbers. */
  ghost predicate Disciplined(l: Layout, image: Image, m: Machine) {
    forall n: nat :: TagRun(l, image, m, StartTags(), n).Some? &&
      (Run(image, m, n).status.Halted? ==>
         forall tag :: tag in TagRun(l, image, m, StartTags(), n).value.exec ==> tag == Number)
  }

  /** The startup code gets control back with these values on the exec stack, first on top. */
  ghost predicate ExitsAs(c: Cpu, vals: seq<int>) {
    && c.pc == Exit && c.r.r15 == |vals| <= |c.execSeg|
    && forall i :: 0 <= i < |vals| ==> c.execSeg[|vals| - 1 - i] == Int(vals[i])
  }

  ghost predicate ExitsWith(l: Layout, text: Text, c: Cpu, vals: seq<int>) {
    exists k: nat :: ExitsAs(RunCpu(l, text, c, k), vals)
  }

  /** An instruction traps. */
  ghost predicate Traps(l: Layout, text: Text, c: Cpu) {
    exists k: nat :: RunCpu(l, text, c, k).pc == Dead
  }

  ghost predicate RunsOn(l: Layout, text: Text, c: Cpu) {
    forall k: nat :: RunCpu(l, text, c, k).pc.Pc?
  }

  /** A disciplined run never gets stuck. */
  lemma DisciplinedNeverSticks(l: Layout, image: Image, m: Machine)
    requires Disciplined(l, image, m)
    ensures !Sticks(image, m)
  {
    hide Run, TagRun;
    if n: nat :| Run(image, m, n).status.Stuck? {
      NeverStuck(l, image, m, StartTags(), n);
    }
  }

  lemma {:induction false} NeverStuck(l: Layout, image: Image, m: Machine, t: Tags, n: nat)
    requires TagRun(l, image, m, t, n + 1).Some?
    ensures !Run(image, m, n).status.Stuck?
    decreases n
  {
    hide Step, TagStep;
    if m.status.Halted? || m.status.Failed? {
      StoppedStays(image, m, n);
    } else if n > 0 {
      NeverStuck(l, image, Step(image, m), TagStep(l, image, NextOp(image, m).value, m, t).value, n - 1);
    }
  }

  lemma LaunchRelated(l: Layout, f: string, globals: seq<int>, c: Cpu)
    requires Launched(l, f, c)
    ensures Related(l, Start(f, globals), StartTags(), c)
  {
  }

  lemma {:induction false} StepsAtLeast(l: Layout, image: Image, m: Machine, t: Tags, n: nat)
    requires TagRun(l, image, m, t, n).Some? && Run(image, m, n).status.Running?
    ensures NativeSteps(image, m, n) >= n
    decreases n
  {
    hide Step, Lower, TagStep;
    if n > 0 && !m.status.Halted? && !m.status.Failed? {
      var op := NextOp(image, m).value;
      LowerNotEmpty(op, m.ip);
      StepsAtLeast(l, image, Step(image, m), TagStep(l, image, op, m, t).value, n - 1);
    } else if n > 0 {
      StoppedStays(image, m, n);
    }
  }

  /** While the interpreter runs, so does the processor. */
  lemma RunsAlong(l: Layout, image: Image, text: Text, f: string, globals: seq<int>, c: Cpu, n: nat)
    requires Launched(l, f, c) && Assembled(image, text) && Disciplined(l, image, Start(f, globals))
    requires Run(image, Start(f, globals), n).status.Running?
    ensures RunCpu(l, text, c, n).pc.Pc?
  {
    hide Run, TagRun, RunCpu, Assembled, StackOk, ExecOk, Launched;
    var m := Start(f, globals);
    LaunchRelated(l, f, globals, c);
    RunSimulated(l, image, text, m, StartTags(), c, n);
    StepsAtLeast(l, image, m, StartTags(), n);
    var k := NativeSteps(image, m, n);
    RunCpuAdd(l, text, c, n, k - n);
    if !RunCpu(l, text, c, n).pc.Pc? {
      DeadStays(l, text, RunCpu(l, text, c, n), k - n);
    }
  }

  /** When the interpreter halts with values, the processor exits with them. */
  lemma ExitsAlong(l: Layout, image: Image, text: Text, f: string, globals: seq<int>, c: Cpu, n: nat, vals: seq<int>)
    requires Launched(l, f, c) && Assembled(image, text) && Disciplined(l, image, Start(f, globals))
    requires Run(image, Start(f, globals), n).status.Halted? && Run(image, Start(f, globals), n).exec == Reverse(vals)
    ensures ExitsWith(l, text, c, vals)
  {
    hide Run, TagRun, RunCpu, Assembled, StackOk, Launched;
    var m := Start(f, globals);
    LaunchRelated(l, f, globals, c);
    RunSimulated(l, image, text, m, StartTags(), c, n);
    var t := TagRun(l, image, m, StartTags(), n).value;
    assert forall k :: 0 <= k < |t.exec| ==> t.exec[k] in t.exec;
    var k := NativeSteps(image, m, n);
    var c' := RunCpu(l, text, c, k);
    forall i | 0 <= i < |vals|
      ensures c'.execSeg[|vals| - 1 - i] == Int(vals[i])
    {
      assert t.exec[|vals| - 1 - i] == Number;
    }
    assert ExitsAs(c', vals);
  }

  lemma StoppedOnce(l: Layout, text: Text, c: Cpu, k: nat, k': nat)
    requires !RunCpu(l, text, c, k).pc.Pc? && !RunCpu(l, text, c, k').pc.Pc?
    ensures RunCpu(l, text, c, k) == RunCpu(l, text, c, k')
  {
    hide RunCpu;
    var first, last := if k <= k' then k else k', if k <= k' then k' else k;
    RunCpuAdd(l, text, c, first, last - first);
    DeadStays(l, text, RunCpu(l, text, c, first), last - first);
  }

  lemma ExitUnique(l: Layout, text: Text, c: Cpu, vals: seq<int>, vals': seq<int>)
    requires ExitsWith(l, text, c, vals) && ExitsWith(l, text, c, vals')
    ensures vals == vals' && !Traps(l, text, c)
  {
    hide RunCpu;
    var k: nat :| ExitsAs(RunCpu(l, text, c, k), vals);
    var k': nat :| ExitsAs(RunCpu(l, text, c, k'), vals');
    StoppedOnce(l, text, c, k, k');
    var c' := RunCpu(l, text, c, k);
    forall i | 0 <= i < |vals|
      ensures vals[i] == vals'[i]
    {
      assert c'.execSeg[|vals| - 1 - i] == Int(vals[i]);
    }
    if j: nat :| RunCpu(l, text, c, j).pc == Dead {
      StoppedOnce(l, text, c, k, j);
    }
  }

  /** Compiler correctness down to the processor: it exits with a list of values exactly when
      the program returns them, traps exactly when the program faults, and runs on exactly when
      the program diverges. */
  lemma NativePreservation(p: Program, image: Image, text: Text, f: string, globals: seq<int>, l: Layout, c: Cpu,
                           vals: seq<int>)
    requires Linked(p, image) && f in p && Defined(p, f)
    requires Assembled(image, text) && Launched(l, f, c) && Disciplined(l, image, Start(f, globals))
    ensures ExitsWith(l, text, c, vals) <==> Returns(p, f, vals)
    ensures Traps(l, text, c) <==> Faults(p, f)
    ensures RunsOn(l, text, c) <==> Diverges(p, f)
  {
    hide Run, RunCpu, CallFunction, Launched, Assembled, Disciplined, Linked, Defined;
    var m := Start(f, globals);
    Preservation(p, image, f, globals, vals);
    DivergencePreserved(p, image, f, globals);
    if RunsForever(image, m) {
      forall k: nat
        ensures RunCpu(l, text, c, k).pc.Pc?
      {
        RunsAlong(l, image, text, f, globals, c, k);
      }
    } else {
      StopsAlong(l, image, text, f, globals, c, vals);
    }
  }

  /** A disciplined run that ends was halted by the entry function or failed, and the processor
      did the same. */
  lemma StopsAlong(l: Layout, image: Image, text: Text, f: string, globals: seq<int>, c: Cpu, vals: seq<int>)
    requires !RunsForever(image, Start(f, globals))
    requires Launched(l, f, c) && Assembled(image, text) && Disciplined(l, image, Start(f, globals))
    ensures !RunsOn(l, text, c)
    ensures ExitsWith(l, text, c, vals) <==> HaltsWith(image, Start(f, globals), vals)
    ensures Traps(l, text, c) <==> Fails(image, Start(f, globals))
  {
    hide Run, RunCpu, TagRun, Assembled, StackOk, ExecOk, Launched;
    var m := Start(f, globals);
    var n: nat :| !Run(image, m, n).status.Running?;
    LaunchRelated(l, f, globals, c);
    RunSimulated(l, image, text, m, StartTags(), c, n);
    forall k: nat | !Run(image, m, k).status.Running?
      ensures Run(image, m, k) == Run(image, m, n)
    {
      StoppedAtOnce(image, m, n, k);
    }
    var c' := RunCpu(l, text, c, NativeSteps(image, m, n));
    if Run(image, m, n).status.Halted? {
      HaltsAlong(l, image, text, f, globals, c, n, vals);
    } else {
      assert c'.pc == Dead;
      if k: nat :| ExitsAs(RunCpu(l, text, c, k), vals) {
        StoppedOnce(l, text, c, k, NativeSteps(image, m, n));
      }
    }
  }

  lemma HaltsAlong(l: Layout, image: Image, text: Text, f: string, globals: seq<int>, c: Cpu, n: nat, vals: seq<int>)
    requires Run(image, Start(f, globals), n).status.Halted?
    requires Launched(l, f, c) && Assembled(image, text) && Disciplined(l, image, Start(f, globals))
    ensures !RunsOn(l, text, c) && !Traps(l, text, c)
    ensures ExitsWith(l, text, c, vals) <==> Run(image, Start(f, globals), n).exec == Reverse(vals)
  {
    hide Run, RunCpu, Assembled, Launched, Disciplined;
    var exec := Run(image, Start(f, globals), n).exec;
    var halted := Reverse(exec);
    assert Reverse(halted) == exec;
    ExitsAlong(l, image, text, f, globals, c, n, halted);
    ExitUnique(l, text, c, halted, halted);
    if ExitsWith(l, text, c, vals) {
      ExitUnique(l, text, c, vals, halted);
    }
    if exec == Reverse(vals) {
      ReverseInjective(vals, halted);
    }
  }
}
