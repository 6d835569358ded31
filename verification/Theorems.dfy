/**
  Whole runs: the interpreter started on the image of a program behaves exactly as the
  evaluator says, for returning, failing and diverging programs.
*/
module Theorems {
  import opened Ir
  import opened Source
  import opened Simulation
  import opened Correctness

  /** Result of the entry function of the program, which takes no argument. */
  function RunResult(p: Program, f: string, fuel: nat): Value
    requires f in p
  {
    CallFunction(p, p[f], [], [], fuel)
  }

  lemma StartConf(f: string, globals: seq<int>)
    ensures Start(f, globals) == Conf(Ctx([], [], [f], globals), 0, [], [])
    ensures [] + Reverse([]) == []
  {
  }

  /** Forward simulation of whole runs. */
  lemma RunPreserved(p: Program, image: Image, f: string, globals: seq<int>, fuel: nat) returns (n: nat)
    requires Linked(p, image) && f in p
    ensures var m := Run(image, Start(f, globals), n);
            match RunResult(p, f, fuel)
            case Done(vals, _) =>
              m.status.Halted? && m.exec == Reverse(vals) && m.data == [] && m.allocations == [] && m.fp == []
                && m.globals == globals
            case Stopped(OutOfFuel) => n >= fuel && m.status.Running?
            case Stopped(Fault) => m.status.Failed?
            case Stopped(Undefined) => globals == [] ==> m.status.Stuck?
            case _ => true
  {
    hide Run, CallFunction;
    StartConf(f, globals);
    n := FunctionOk(p, image, f, Ctx([], [], [f], globals), [], [], [], fuel);
  }

  lemma StoppedAtOnce(image: Image, m: Machine, n: nat, k: nat)
    requires !Run(image, m, n).status.Running? && !Run(image, m, k).status.Running?
    ensures Run(image, m, n) == Run(image, m, k)
  {
    hide Step;
    if n <= k {
      RunAdd(image, m, n, k - n);
      StoppedStays(image, Run(image, m, n), k - n);
    } else {
      RunAdd(image, m, k, n - k);
      StoppedStays(image, Run(image, m, k), n - k);
    }
  }

  lemma RunningBefore(image: Image, m: Machine, n: nat, k: nat)
    requires k <= n && Run(image, m, n).status.Running?
    ensures Run(image, m, k).status.Running?
  {
    hide Step;
    RunAdd(image, m, k, n - k);
    if !Run(image, m, k).status.Running? {
      StoppedStays(image, Run(image, m, k), n - k);
    }
  }

  /** No run of the program leaves the fragment or meets an undefined operation. */
  ghost predicate Defined(p: Program, f: string)
    requires f in p
  {
    forall fuel: nat :: RunResult(p, f, fuel).Done? || RunResult(p, f, fuel).why.OutOfFuel?
      || RunResult(p, f, fuel).why.Fault?
  }

  ghost predicate Returns(p: Program, f: string, vals: seq<int>)
    requires f in p
  {
    exists fuel: nat :: RunResult(p, f, fuel).Done? && RunResult(p, f, fuel).vals == vals
  }

  ghost predicate Faults(p: Program, f: string)
    requires f in p
  {
    exists fuel: nat :: RunResult(p, f, fuel) == Stopped(Fault)
  }

  ghost predicate HaltsWith(image: Image, m: Machine, vals: seq<int>) {
    exists n: nat :: Run(image, m, n).status.Halted? && Run(image, m, n).exec == Reverse(vals)
  }

  ghost predicate Fails(image: Image, m: Machine) {
    exists n: nat :: Run(image, m, n).status.Failed?
  }

  lemma ReverseInjective(a: seq<int>, b: seq<int>)
    requires Reverse(a) == Reverse(b)
    ensures a == b
  {
    forall i | 0 <= i < |a|
      ensures a[i] == b[i]
    {
      assert Reverse(a)[|a| - 1 - i] == Reverse(b)[|a| - 1 - i];
    }
  }

  /** A machine that stopped after `n` steps is explained by the evaluator with fuel `n + 1`. */
  lemma StoppedExplained(p: Program, image: Image, f: string, globals: seq<int>, n: nat)
    requires Linked(p, image) && f in p && Defined(p, f)
    requires !Run(image, Start(f, globals), n).status.Running?
    ensures var m := Run(image, Start(f, globals), n);
            match RunResult(p, f, n + 1)
            case Done(vals, _) => m.status.Halted? && m.exec == Reverse(vals)
            case Stopped(why) => why.Fault? && m.status.Failed?
  {
    hide Run, CallFunction;
    var k := RunPreserved(p, image, f, globals, n + 1);
    var r := RunResult(p, f, n + 1);
    if r.Stopped? && r.why.OutOfFuel? {
      RunningBefore(image, Start(f, globals), k, n);
    } else {
      StoppedAtOnce(image, Start(f, globals), n, k);
    }
  }

  /** Semantic preservation in both directions: the interpreter halts with a result exactly
      when the program returns it, and fails exactly when the program faults. */
  lemma Preservation(p: Program, image: Image, f: string, globals: seq<int>, vals: seq<int>)
    requires Linked(p, image) && f in p && Defined(p, f)
    ensures HaltsWith(image, Start(f, globals), vals) <==> Returns(p, f, vals)
    ensures Fails(image, Start(f, globals)) <==> Faults(p, f)
  {
    hide Run, CallFunction;
    var m := Start(f, globals);
    if Returns(p, f, vals) {
      var fuel: nat :| RunResult(p, f, fuel).Done? && RunResult(p, f, fuel).vals == vals;
      var n := RunPreserved(p, image, f, globals, fuel);
    }
    if Faults(p, f) {
      var fuel: nat :| RunResult(p, f, fuel) == Stopped(Fault);
      var n := RunPreserved(p, image, f, globals, fuel);
    }
    if HaltsWith(image, m, vals) {
      var n: nat :| Run(image, m, n).status.Halted? && Run(image, m, n).exec == Reverse(vals);
      StoppedExplained(p, image, f, globals, n);
      ReverseInjective(vals, RunResult(p, f, n + 1).vals);
    }
    if Fails(image, m) {
      var n: nat :| Run(image, m, n).status.Failed?;
      StoppedExplained(p, image, f, globals, n);
    }
  }

  ghost predicate RunsForever(image: Image, m: Machine) {
    forall n: nat :: Run(image, m, n).status.Running?
  }

  ghost predicate Diverges(p: Program, f: string)
    requires f in p
  {
    forall fuel: nat :: RunResult(p, f, fuel) == Stopped(OutOfFuel)
  }

  /** The interpreter runs forever exactly when no amount of fuel is enough. */
  lemma DivergencePreserved(p: Program, image: Image, f: string, globals: seq<int>)
    requires Linked(p, image) && f in p && Defined(p, f)
    ensures RunsForever(image, Start(f, globals)) <==> Diverges(p, f)
  {
    hide Run, CallFunction;
    var m := Start(f, globals);
    if Diverges(p, f) {
      forall n: nat
        ensures Run(image, m, n).status.Running?
      {
        var k := RunPreserved(p, image, f, globals, n);
        assert RunResult(p, f, n) == Stopped(OutOfFuel);
        RunningBefore(image, m, k, n);
      }
    }
    if RunsForever(image, m) {
      forall fuel: nat
        ensures RunResult(p, f, fuel) == Stopped(OutOfFuel)
      {
        var k := RunPreserved(p, image, f, globals, fuel);
        assert Run(image, m, k).status.Running?;
      }
    }
  }

  // ----- without globals -----

  /** The evaluator never leaves the fragment. */
  ghost predicate WellBehaved(p: Program, f: string)
    requires f in p
  {
    forall fuel: nat :: RunResult(p, f, fuel) != Stopped(IllFormed)
  }

  /** The program meets an operation C++ leaves undefined, or runs out of addresses. */
  ghost predicate MeetsUndefined(p: Program, f: string)
    requires f in p
  {
    exists fuel: nat :: RunResult(p, f, fuel) == Stopped(Undefined)
  }

  /** The interpreter ends in a failed assertion, a trap of the host or a loop of its own. */
  ghost predicate Sticks(image: Image, m: Machine) {
    exists n: nat :: Run(image, m, n).status.Stuck?
  }

  /** A machine without globals that stopped is explained by the evaluator, whatever it met. */
  lemma StoppedExactly(p: Program, image: Image, f: string, n: nat)
    requires Linked(p, image) && f in p && WellBehaved(p, f)
    requires !Run(image, Start(f, []), n).status.Running?
    ensures var m := Run(image, Start(f, []), n);
            match RunResult(p, f, n + 1)
            case Done(vals, _) => m.status.Halted? && m.exec == Reverse(vals)
            case Stopped(why) => (why.Fault? && m.status.Failed?) || (why.Undefined? && m.status.Stuck?)
  {
    hide Run, CallFunction;
    var k := RunPreserved(p, image, f, [], n + 1);
    var r := RunResult(p, f, n + 1);
    if r.Stopped? && r.why.OutOfFuel? {
      RunningBefore(image, Start(f, []), k, n);
    } else {
      StoppedAtOnce(image, Start(f, []), n, k);
    }
  }

  /** Where there are no globals nothing has to be assumed of the run: the interpreter gets stuck
      exactly when the program meets an undefined operation, and agrees with it otherwise. */
  lemma ExactPreservation(p: Program, image: Image, f: string, vals: seq<int>)
    requires Linked(p, image) && f in p && WellBehaved(p, f)
    ensures HaltsWith(image, Start(f, []), vals) <==> Returns(p, f, vals)
    ensures Fails(image, Start(f, [])) <==> Faults(p, f)
    ensures Sticks(image, Start(f, [])) <==> MeetsUndefined(p, f)
  {
    hide Run, CallFunction;
    var m := Start(f, []);
    if Returns(p, f, vals) {
      var fuel: nat :| RunResult(p, f, fuel).Done? && RunResult(p, f, fuel).vals == vals;
      var n := RunPreserved(p, image, f, [], fuel);
    }
    if Faults(p, f) {
      var fuel: nat :| RunResult(p, f, fuel) == Stopped(Fault);
      var n := RunPreserved(p, image, f, [], fuel);
    }
    if MeetsUndefined(p, f) {
      var fuel: nat :| RunResult(p, f, fuel) == Stopped(Undefined);
      var n := RunPreserved(p, image, f, [], fuel);
    }
    if HaltsWith(image, m, vals) {
      var n: nat :| Run(image, m, n).status.Halted? && Run(image, m, n).exec == Reverse(vals);
      StoppedExactly(p, image, f, n);
      ReverseInjective(vals, RunResult(p, f, n + 1).vals);
    }
    if Fails(image, m) {
      var n: nat :| Run(image, m, n).status.Failed?;
      StoppedExactly(p, image, f, n);
    }
    if Sticks(image, m) {
      var n: nat :| Run(image, m, n).status.Stuck?;
      StoppedExactly(p, image, f, n);
    }
  }

  lemma ExactDivergence(p: Program, image: Image, f: string)
    requires Linked(p, image) && f in p && WellBehaved(p, f)
    ensures RunsForever(image, Start(f, [])) <==> Diverges(p, f)
  {
    hide Run, CallFunction;
    var m := Start(f, []);
    if Diverges(p, f) {
      forall n: nat
        ensures Run(image, m, n).status.Running?
      {
        var k := RunPreserved(p, image, f, [], n);
        assert RunResult(p, f, n) == Stopped(OutOfFuel);
        RunningBefore(image, m, k, n);
      }
    }
    if RunsForever(image, m) {
      forall fuel: nat
        ensures RunResult(p, f, fuel) == Stopped(OutOfFuel)
      {
        var k := RunPreserved(p, image, f, [], fuel);
        assert Run(image, m, k).status.Running?;
      }
    }
  }
}
