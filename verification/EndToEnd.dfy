/**
  The code generator and the two executors of its output put together: what becomes of a
  well-formed program.
*/
module EndToEnd {
  import opened Ir
  import opened Source
  import opened Codegen
  import opened Emitter
  import opened Simulation
  import opened Theorems
  import opened Typing
  import opened Acceptance
  import opened StageFlows
  import opened Nasm
  import opened NativeSimulation
  import opened NativeTheorems
  import opened NativeCompiled

  /** Interpreting the image from `f` and evaluating the program agree on results, on failure
      and on running forever. */
  ghost predicate Interprets(p: Program, image: Image, f: string, globals: seq<int>)
    requires f in p
  {
    && (forall vals :: HaltsWith(image, Start(f, globals), vals) <==> Returns(p, f, vals))
    && (forall vals :: Returns(p, f, vals) ==> |vals| == p[f].results)
    && (Fails(image, Start(f, globals)) <==> Faults(p, f))
    && (RunsForever(image, Start(f, globals)) <==> Diverges(p, f))
  }

  /** Without globals they also agree on where the run gets stuck: at an undefined operation. */
  ghost predicate InterpretsExactly(p: Program, image: Image, f: string)
    requires f in p
  {
    Interprets(p, image, f, []) && (Sticks(image, Start(f, [])) <==> !StaysDefined(p, f))
  }

  /** So do the processor on the assembled text and the program. */
  ghost predicate Executes(p: Program, text: Text, f: string, l: Layout, c: Cpu)
    requires f in p
  {
    && (forall vals :: ExitsWith(l, text, c, vals) <==> Returns(p, f, vals))
    && (Traps(l, text, c) <==> Faults(p, f))
    && (RunsOn(l, text, c) <==> Diverges(p, f))
  }

  /** A launch of the assembled image whose run stays within the limits of the processor. */
  ghost predicate LimitedLaunch(image: Image, text: Text, f: string, globals: seq<int>, l: Layout, c: Cpu) {
    && Assembled(image, text) && Launched(l, f, c)
    && l.stackWords <= GLOBALS_OFFSET && LimitedRun(l, image, Start(f, globals))
  }

  /** The functions execution can start from: no parameters, and no operation C++ leaves undefined. */
  ghost predicate Entry(p: Program, f: string) {
    f in p && p[f].params == [] && StaysDefined(p, f)
  }

  predicate Parameterless(p: Program, f: string) {
    f in p && p[f].params == []
  }

  /** What is assembled: the function that initialises globals was interpreted and removed. */
  function ForAssembly(image: Image): Image {
    image - {GLOBALS_FUNCTION}
  }

  /** The compiler interprets this function on every compilation: it ends without an error, leaves
      nothing behind and changes no global. */
  ghost predicate GlobalsReady(image: Image, globals: seq<int>) {
    exists n: nat ::
      var m := Run(image, Start(GLOBALS_FUNCTION, globals), n);
      m.status.Halted? && m.exec == [] && m.data == [] && m.allocations == [] && m.fp == [] && m.globals == globals
  }

  lemma GlobalsHalt(image: Image, globals: seq<int>)
    requires GLOBALS_FUNCTION in image && image[GLOBALS_FUNCTION] == NoGlobals()
    ensures GlobalsReady(image, globals)
  {
    var m0 := Start(GLOBALS_FUNCTION, globals);
    GlobalsSteps(image, globals);
    hide Step, Start, NoGlobals;
    assert Run(image, m0, 0) == m0;
    Extend(image, m0, 0);
    Extend(image, m0, 1);
    Extend(image, m0, 2);
    assert Run(image, m0, 3).status.Halted?;
  }

  lemma GlobalsSteps(image: Image, globals: seq<int>)
    requires GLOBALS_FUNCTION in image && image[GLOBALS_FUNCTION] == NoGlobals()
    ensures var m0 := Start(GLOBALS_FUNCTION, globals);
            && Step(image, m0) == m0.(ip := 1, fp := [0])
            && Step(image, m0.(ip := 1, fp := [0])) == m0.(ip := 2)
            && Step(image, m0.(ip := 2)) == m0.(ip := 3, status := Halted)
            && m0.exec == [] && m0.data == [] && m0.allocations == [] && m0.fp == [] && m0.globals == globals
  {
  }

  /** The generator gets through a well-formed program, without a report, exactly when only first
      elements of lists nest lists. Then the image it leaves behaves as the program does, on the
      interpreter, and on the processor if the program has no pointers and does not use the name
      of the function for the globals itself. */
  method Translate(p: Program) returns (ok: bool, image: Image)
    requires WfProgram(p)
    ensures ok <==> NestsFirstProgram(p)
    ensures ok ==> forall f, globals :: Entry(p, f) ==> Interprets(p, image, f, globals)
    ensures ok && GLOBALS_FUNCTION !in p ==> forall globals :: GlobalsReady(image, globals)
    ensures ok && ScalarProgram(p) && GLOBALS_FUNCTION !in p ==>
              forall f, globals, text, l, c ::
                Entry(p, f) && LimitedLaunch(ForAssembly(image), text, f, globals, l, c) ==> Executes(p, text, f, l, c)
    ensures ok ==> forall f :: Parameterless(p, f) ==> InterpretsExactly(p, image, f)
    ensures ok && ScalarProgram(p) && GLOBALS_FUNCTION !in p ==>
              forall f, text, l, c ::
                Parameterless(p, f) && LimitedLaunch(ForAssembly(image), text, f, [], l, c) ==>
                  Executes(p, text, f, l, c)
  {
    hide *;
    AcceptedProgram(p);
    var generator := new State();
    ok, image := generator.CompileProgram(p);
    ok := ok && generator.valid;
    if ok {
      ImageLinked(p, image);
      ImageInterprets(p, image);
      ImageExact(p, image);
      if GLOBALS_FUNCTION !in p {
        ImageGlobals(p, image);
        if ScalarProgram(p) {
          ImageExecutes(p, ForAssembly(image));
          ImageExecutesExactly(p, ForAssembly(image));
        }
      }
    }
  }

  lemma AcceptedProgram(p: Program)
    requires WfProgram(p)
    ensures (forall f :: f in p ==> FunctionVerdict(p[f]).Some?) <==> NestsFirstProgram(p)
    ensures NestsFirstProgram(p) ==> AllValid(p, p.Keys)
  {
    hide WfProgram, NestsFirstAll, FunctionVerdict;
    forall f | f in p
      ensures FunctionVerdict(p[f]) == Accepted(NestsFirstAll(p[f].body))
    {
      AcceptedExactly(p, f);
    }
  }

  lemma ImageLinked(p: Program, image: Image)
    requires ImageOf(p, p.Keys, image)
    ensures Linked(p, image) && (GLOBALS_FUNCTION !in p ==> Linked(p, ForAssembly(image)))
  {
    hide GenFunction, FunctionVerdict, NoGlobals;
  }

  lemma ImageGlobals(p: Program, image: Image)
    requires ImageOf(p, p.Keys, image) && GLOBALS_FUNCTION !in p
    ensures forall globals :: GlobalsReady(image, globals)
  {
    forall globals
      ensures GlobalsReady(image, globals)
    {
      GlobalsHalt(image, globals);
    }
  }

  lemma ImageInterprets(p: Program, image: Image)
    requires WfProgram(p) && Linked(p, image)
    ensures forall f, globals :: Entry(p, f) ==> Interprets(p, image, f, globals)
  {
    hide WfProgram, Linked, StaysDefined, HaltsWith, Returns, Fails, Faults, RunsForever, Diverges;
    forall f, globals | Entry(p, f)
      ensures Interprets(p, image, f, globals)
    {
      WellFormedPreservation(p, image, f, globals);
    }
  }

  lemma ImageExact(p: Program, image: Image)
    requires WfProgram(p) && Linked(p, image)
    ensures forall f :: Parameterless(p, f) ==> InterpretsExactly(p, image, f)
  {
    hide WfProgram, Linked, StaysDefined, HaltsWith, Returns, Fails, Faults, RunsForever, Diverges, Sticks;
    forall f | Parameterless(p, f)
      ensures InterpretsExactly(p, image, f)
    {
      WellFormedExactly(p, image, f);
    }
  }

  lemma ImageExecutesExactly(p: Program, image: Image)
    requires WfProgram(p) && Linked(p, image) && ScalarProgram(p)
    ensures forall f, text, l, c ::
              Parameterless(p, f) && LimitedLaunch(image, text, f, [], l, c) ==> Executes(p, text, f, l, c)
  {
    hide WfProgram, Linked, ScalarProgram, StaysDefined, LimitedRun, Executes;
    forall f, text, l, c | Parameterless(p, f) && LimitedLaunch(image, text, f, [], l, c)
      ensures Executes(p, text, f, l, c)
    {
      LimitedDefined(p, image, f, l);
      ForEveryResult(p, image, text, f, [], l, c);
    }
  }

  lemma ImageExecutes(p: Program, image: Image)
    requires WfProgram(p) && Linked(p, image) && ScalarProgram(p)
    ensures forall f, globals, text, l, c ::
              Entry(p, f) && LimitedLaunch(image, text, f, globals, l, c) ==> Executes(p, text, f, l, c)
  {
    forall f, globals, text, l, c | Entry(p, f) && LimitedLaunch(image, text, f, globals, l, c)
      ensures Executes(p, text, f, l, c)
    {
      ForEveryResult(p, image, text, f, globals, l, c);
    }
  }

  lemma ForEveryResult(p: Program, image: Image, text: Text, f: string, globals: seq<int>, l: Layout, c: Cpu)
    requires WfProgram(p) && Linked(p, image) && ScalarProgram(p)
    requires Entry(p, f) && LimitedLaunch(image, text, f, globals, l, c)
    ensures Executes(p, text, f, l, c)
  {
    hide WfProgram, Linked, ScalarProgram, StaysDefined, Assembled, Launched, LimitedRun, ExitsWith, Returns, Traps,
         Faults;
    hide RunsOn, Diverges;
    forall vals
      ensures ExitsWith(l, text, c, vals) <==> Returns(p, f, vals)
      ensures Traps(l, text, c) <==> Faults(p, f)
      ensures RunsOn(l, text, c) <==> Diverges(p, f)
    {
      CompiledPreservation(p, image, text, f, globals, l, c, vals);
    }
    CompiledPreservation(p, image, text, f, globals, l, c, []);
  }
}
