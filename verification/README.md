# Solum compiler, verified model

Solum is a small compiler: a scanner and a Pratt parser, an analyzer, a generator of stack code
(IR), an interpreter of that code used for compile-time evaluation, and a NASM back end. This
project models its hard core in Dafny and proves that the parts fit together.

* **Code generator** (`Emitter.dfy`, against `Codegen.dfy` and `Patching.dfy`): an object that
  appends opcodes, rewrites opcodes emitted earlier through saved positions, keeps the stacks of
  pending `break` and `continue` jumps and the shared `reverse` stack. Every method is tied to a
  function of the syntax tree, including whether the generator would crash.
  `Verdicts.dfy` says for every tree, from its shape alone, whether the generator crashes on it,
  reports it or accepts it.
* **Interpreter** (`Interpreter.dfy`, against `Ir.dfy`): the fields of the interpreter state and
  every opcode. `WordLaws.dfy` and `BitLaws.dfy` say what the operators compute, `MachineLaws.dfy`
  how addresses, globals, blocks and frames behave outside what well-formed programs reach.
* **Source language** (`Source.dfy`): 64-bit integers, scalar locals, pointers to cells, all unary
  and binary operators, short-circuit operators, assignment, parallel assignment, blocks, if,
  else, while, break, return, calls with several results, with a fuel-indexed evaluator.
* **Compiler correctness** (`Simulation.dfy`, `Correctness.dfy`, `Theorems.dfy`, `Typing.dfy`):
  the interpreter halts with a result, fails or runs forever exactly when the source program
  does. `Acceptance.dfy` says exactly for which well-formed programs the generator produces code at
  all, and `EndToEnd.dfy` joins generator, interpreter and back end into one statement. `Laws.dfy`
  and `ControlFlow.dfy` add what follows for lvalues, locals, blocks and jumps, `Showcase.dfy` that
  the static rules take in every construct.
* **Stack heights** (`Stages.dfy`, `FrameIndex.dfy`, `StageFlows.dfy`, `Heights.dfy`): at every
  reachable position of every run the stacks have the heights known at compile time, the data
  stack the one the generator counts in `stack_index`.
* **Native back end** (`Nasm.dfy` to `NativeCompiled.dfy`): the instructions of the templates with
  registers, flags and memory; the native stack in which cells, saved frame pointers and return
  addresses are interleaved; simulation of whole runs; and, for compiled programs without
  pointers, agreement of the processor with the source program.
* **Expression parser** (`Parser.dfy`, `Grammar.dfy`, `Operators.dfy`, `Holes.dfy`, `Failures.dfy`,
  `Printer.dfy`): the parser over a token sequence, a grammar by precedence levels it recognises
  exactly, the order of the operators, the operands it lets a program leave out, what it leaves
  behind on an error, and a printer that uses as few tokens as possible.
* **Data structures and helpers**: the hash table (`HashMap.dfy`, `HashLaws.dfy`), the segmented
  array (`SegmentedArray.dfy`), quicksort (`QuickSort.dfy`, `SortLaws.dfy`), the arena
  (`Arena.dfy`), integer constants (`Numbers.dfy`).

Where the code departs from what its comments and names suggest, the model follows the code, and
the exact condition under which the promise holds is proved:

* a list in any but the first element of a list crashes the generator (`Acceptance.AcceptedExactly`);
* a missing operand is accepted in silence (`Holes.CompleteExactly`);
* adding a bound key past a tombstone stores it twice (`HashLaws.StoredTwice`, `HashLaws.HistoryExact`);
* quicksort leaves repeated keys unsorted (`SortLaws.SortsExactly`);
* an assignment to a name that is no local is lost (`MachineLaws.GlobalAssignmentLost`);
* the address of a call is accepted and stops the run (`MachineLaws.AddressOfCallFails`);
* the native division traps where the interpreter yields zero (`NasmBlocks.DivideEffect`).

`continue` compiles to the code of `break` and so always leaves the loop
(`ControlFlow.ContinueLeavesTheLoop`).

Operations C++ leaves undefined (a shift count outside 0..63, the least number divided by minus
one) have no value in the model; signed addition, subtraction, multiplication and negation wrap.
In the model such an operation ends the run of the interpreter, so that for programs without globals
preservation is exact and assumes nothing of the run (`Typing.WellFormedExactly`); with globals it is
stated for runs that meet no undefined operation. Memory is a growing sequence;
running out of it and the widths of indices are not modelled, except for the limits of the native
stacks, which `NativeCompiled.WithinLimits` lists opcode by opcode.

`dafny verify dfyconfig.toml` checks the whole project.

## Model

| member | source | states |
|---|---|---|
| Interpreter.State.constructor | src/interop.cpp:313-319 | the interpreter starts with empty stacks, running, in the entry function |
| Interpreter.State.PopExec | src/interop.cpp:33-49 | popping takes the top of the exec stack; an empty stack yields zero and stays empty |
| Interpreter.State.AllocateMemory | src/interop.cpp:51-64 | one block of `size` zero cells is appended and its last address returned |
| Interpreter.State.FreeMemory | src/interop.cpp:66-72 | whole blocks are released until `size` cells are gone; the endless loop on an empty block list is reported |
| Interpreter.State.GetVariableAddress | src/interop.cpp:74-88 | a frame slot is resolved to the first block that contains it, or to the failed assertion |
| Interpreter.State.Load | src/interop.cpp:221-236 | a load reads a live cell or a global, and is an access violation elsewhere |
| Interpreter.State.Store | src/interop.cpp:238-253 | a store writes a live cell, pushes a global instead of writing it, and is an access violation elsewhere |
| Interpreter.State.PushSlot | src/interop.cpp:186-192 | a frame slot pushes its value or its address |
| Interpreter.State.Compute | src/interop.cpp:33-49 | the top word is the left operand and the word below it the right one; the value of the operator replaces them (what the operators compute: `WordLaws`, `BitLaws`) |
| Interpreter.State.Return | src/interop.cpp:273-281 | a return without caller stops the run, otherwise function and position of the caller come back |
| Interpreter.State.EnterFunction | src/interop.cpp:283-288 | a call pushes the position behind it and the callee, which starts at its first opcode |
| Interpreter.State.Branch | src/interop.cpp:259-271 | a conditional jump pops its condition and moves relative to the next opcode |
| Interpreter.State.Release | src/interop.cpp:165-169 | freeing on behalf of an opcode |
| Interpreter.State.ExecuteOpcode | src/interop.cpp:135-309 | every opcode changes all the fields as its meaning says, and nothing else |
| Interpreter.State.ExecuteStack | src/interop.cpp:135-192 | the opcodes on the exec stack alone: their values, and no other field |
| Interpreter.State.ExecuteMemory | src/interop.cpp:162-257 | the opcodes on frames, cells and globals |
| Interpreter.State.ExecuteControl | src/interop.cpp:259-305 | the opcodes that move the instruction pointer, call, return or stop |
| Interpreter.State.Interop | src/interop.cpp:311-334 | the loop executes the opcodes of the top of the call stack although its `func` is only refreshed when the depth changed |
| Interpreter.CallStackChange | src/interop.cpp:273-288 | one opcode enters one function, leaves one or stays; depth and return stack move together |
| Ir.RunAdd | src/interop.cpp:322-330 | a run of n + k opcodes is a run of n followed by one of k |
| Ir.StoppedStays | src/interop.cpp:322-330 | a stopped interpreter does nothing more |
| WordLaws.Congruent | src/interop.cpp:139-144 | sum, difference, product and negation are the 64-bit numbers congruent to the exact results modulo 2^64 |
| WordLaws.Sums | src/interop.cpp:139 | addition is commutative and associative with zero, whatever overflows |
| WordLaws.Successors | src/interop.cpp:139 | adding one goes through all 64-bit numbers, from the largest on to the least |
| WordLaws.Differences | src/interop.cpp:139-140 | subtraction undoes addition, and addition subtraction |
| WordLaws.Negations | src/interop.cpp:139-144 | a number and its negation add up to zero, and subtracting is adding the negation |
| WordLaws.Products | src/interop.cpp:141 | multiplication is commutative and associative with one and zero, and distributes over addition |
| WordLaws.Quotients | src/interop.cpp:142-143 | quotient and remainder are the only q and r with a = qb + r, r smaller than b in magnitude and zero or of the sign of a; a zero divisor yields zero; undefined only for the least number by minus one |
| WordLaws.Comparisons | src/interop.cpp:153-160 | the six comparisons are one strict order consistent with counting up, its converse, equality and their negations |
| BitLaws.BitsDetermine | src/interop.cpp:146-151 | the 64 bits of a word determine it |
| BitLaws.BitwiseLaws | src/interop.cpp:146-149 | bit k of the results of and, or, exclusive or and not depends on bit k of the operands as it should, for every k |
| BitLaws.ShiftLaws | src/interop.cpp:150-151 | shifting left moves every bit up and fills with zeros, shifting right moves it down and fills with the sign; other distances than 0..63 are undefined |
| MachineLaws.LoadsFrom | src/interop.cpp:221-236 | below 0x20000000 an address is a cell of the data stack, from there on the index of a global; everything else is a reported violation or a failed assertion |
| MachineLaws.StoresTo | src/interop.cpp:238-253 | a store changes one cell; at the address of a global it pushes the global and changes nothing |
| MachineLaws.GlobalAddress | src/interop.cpp:198-200 | `PUSH_GEA k` reaches global 8k: it counts in bytes, loads in words |
| MachineLaws.GlobalSetUp | src/interop.cpp:171-176 | what `SETUP_GLOBAL` writes is what a load from the address of the global reads |
| MachineLaws.DeadEnds | src/interop.cpp:98-130 | a call of a missing function, a breakpoint and code without a return end in a crash or failed assertion, only the invalid opcode in an error |
| MachineLaws.EmptyStackYieldsZero | src/interop.cpp:206-210 | an empty exec stack yields zeros |
| MachineLaws.AllocatedCells | src/interop.cpp:51-64 | blocks of any sizes lie behind all other cells and hold zeros |
| MachineLaws.FreeUndoesAlloc | src/interop.cpp:66-72 | releasing as many cells as were allocated restores data stack and blocks, whatever the sizes |
| MachineLaws.FrameLeft | src/interop.cpp:162-173 | a frame that is left takes everything allocated in it along |
| MachineLaws.FreesWhatIsThere | src/interop.cpp:66-72 | freeing ends if and only if the blocks hold enough cells, and releases no block more than that takes |
| Emitter.State.constructor | src/ir.cpp:779-791 | the generator starts with no code, no pending jump and `is_valid` set |
| Emitter.State.EmitOp | src/ir.cpp:103-138 | an opcode is appended and its index returned; nothing before it changes |
| Emitter.State.RewriteOp | src/ir.cpp:286-294 | rewriting an opcode through its pointer changes its operation only |
| Emitter.State.PatchOperand | src/ir.cpp:322-334 | patching an opcode through its pointer changes its operand only |
| Emitter.State.CompileExpression | src/ir.cpp:199-509 | appends exactly the code of the expression, returns the opcode a parent may rewrite, and says when the generator would dereference null |
| Emitter.State.CompileRef | src/ir.cpp:279-309 | `^l`: the opcode that loads becomes the one that produces the address, or the tree is reported |
| Emitter.State.CompileBinary | src/ir.cpp:15-21 | right operand first, then the left one, whose opcode stays rewritable |
| Emitter.State.CompileShortCircuit | src/ir.cpp:312-335 | the jump over the right operand is patched to its end |
| Emitter.State.StoreTo | src/ir.cpp:428-446 | the code of a target becomes address and store |
| Emitter.State.CompileAssign | src/ir.cpp:424-447 | assignment: value, then the rewritten target |
| Emitter.State.CompileCall | src/ir.cpp:346-350 | call: arguments, then the callee push turned into a call |
| Emitter.State.CompileList | src/ir.cpp:480-494 | lists go through the shared `reverse` stack; an element that nests a list resets it and breaks the generator |
| Emitter.State.CompileSwap | src/ir.cpp:449-478 | parallel assignment: values, then one store per target |
| Emitter.State.CompileTargets | src/ir.cpp:454-476 | a `@e` target ends the loop over the targets early |
| Emitter.State.CompileTarget | src/ir.cpp:455-473 | one target of a parallel assignment |
| Emitter.State.MakeTarget | src/ir.cpp:457-473 | the code of a target becomes its address with a store behind it, or the store itself for `@e` |
| Emitter.State.CompileVariable | src/ir.cpp:535-567 | a local takes its initial value and the next slot, counted from one |
| Emitter.State.CompileVariables | src/ir.cpp:569-581 | several locals declared together take consecutive slots |
| Emitter.State.CompileStatement | src/ir.cpp:583-668 | a statement appends its code and its pending jumps, moves `stack_index` and returns the cells its block has to free |
| Emitter.State.CompileReturn | src/ir.cpp:641-648 | return: values, release of the block, end of the frame |
| Emitter.State.CompileJumpOut | src/ir.cpp:649-660 | break and continue: release of the block and a jump whose target is still open |
| Emitter.State.CompileIf | src/ir.cpp:592-599 | the condition jumps to the statement behind the body |
| Emitter.State.CompileIfElse | src/ir.cpp:600-614 | the condition jumps into the else part, the body over it |
| Emitter.State.CompileWhile | src/ir.cpp:615-640 | the loop jumps back to its condition, and only the jumps pushed by its own body are popped and patched |
| Emitter.State.PatchBreaks | src/ir.cpp:635-638 | exactly the breaks above the saved height are popped and aimed behind the code emitted so far |
| Emitter.State.PatchContinues | src/ir.cpp:630-633 | the same for the continues |
| Emitter.State.CompileBlock | src/ir.cpp:511-533 | a block frees the locals it declared and restores `stack_index` and the visible names |
| Emitter.State.CompileParameter | src/ir.cpp:699-716 | a parameter takes the value on top of the exec stack into the next slot |
| Emitter.State.CompileFunction | src/ir.cpp:670-730 | the finished code of a function, with every jump patched |
| Emitter.State.CompileGlobals | src/ir.cpp:731-777 | the function that initialises globals opens and closes its frame and returns, when there are none |
| Emitter.State.CompileInto | src/ir.cpp:800-813 | one more function of the program is in the image with its finished code |
| Emitter.State.CompileProgram | src/ir.cpp:779-818 | every function of the program is in the image with its finished code, beside the one for the globals; it crashes exactly when one of them does and reports exactly when one of them does |
| Verdicts.ExprVerdictExact | src/ir.cpp:199-509 | for every tree, with any names in sight: the generator dereferences null if and only if a callee leaves no opcode or a later element of a list meets lists; otherwise it reports if and only if the operand of some `^` or a target it compiles has no address |
| Verdicts.VerdictExact | src/ir.cpp:583-730 | the same for functions: one crash on an expression is a crash, else one report a report |
| Verdicts.NoAddressReported | src/ir.cpp:279-284 | `return ^e;` is reported for every e without an address, such as a constant |
| MachineLaws.GlobalReadsZero | src/ir.cpp:256-262 | a name that is no local is read as zero |
| MachineLaws.GlobalThroughPointer | src/ir.cpp:286-290 | its address is that of the first global |
| MachineLaws.GlobalAssignmentLost | src/ir.cpp:428-446 | an assignment to it is lost and leaves a value behind |
| MachineLaws.AddressOfCallFails | src/ir.cpp:279-309 | the address of a call compiles without a report, to an opcode that stops the run |
| MachineLaws.PointerTargetEndsList | src/ir.cpp:454-476 | behind a target `@e` no target of a parallel assignment is compiled |
| MachineLaws.PointerTargetKeepsOthers | src/ir.cpp:449-478 | so `@e, y = v, w` stores v only |
| MachineLaws.ElseDeclarationLeaks | src/ir.cpp:600-614 | a local declared right behind `else` stays visible in the enclosing block, in the next slot, and is not released |
| Patching.LoopPatched | src/ir.cpp:627-638 | patching all pending jumps of a loop body gives the body that knew its exit from the start |
| Patching.PatchedStmt | src/ir.cpp:583-668 | code with pending jumps and code with a known exit differ in those jumps only |
| ControlFlow.ExprJumps | src/ir.cpp:312-335 | expressions jump only inside their own code |
| ControlFlow.StmtJumps | src/ir.cpp:592-654 | a statement jumps inside its code, behind it, or to the exit of the enclosing loop |
| ControlFlow.FunctionJumps | src/ir.cpp:670-730 | in a finished function every jump target is the index of an opcode |
| ControlFlow.LoopExits | src/ir.cpp:615-654 | every break ends up right behind the innermost loop around it, at any nesting |
| ControlFlow.ContinueLeavesTheLoop | src/ir.cpp:630-660 | `continue` compiles to exactly the code of `break`: it is patched to the end of the loop |
| Simulation.ShortCircuitSteps | src/interop.cpp:259-271 | a value that decides a short-circuit or or and is left on the stack without entering the right operand |
| Simulation.ParamSteps | src/ir.cpp:699-716 | the i-th parameter receives the i-th argument, for every number of parameters |
| Simulation.ReturnSteps | src/interop.cpp:165-169 | the end of a frame restores the data stack, the blocks and the frame stack of the caller |
| Correctness.LvalueRewriting | src/ir.cpp:279-309 | rewriting the last opcode of an lvalue leaves the code of its address, for `^l` and for `l = v` |
| Correctness.ExprOk | src/ir.cpp:199-509 | running the code of any expression pushes exactly its values on an untouched exec stack, or fails or keeps running as the evaluation does |
| Correctness.ShortCircuitOk | src/ir.cpp:312-335 | the short-circuit forms of or and and yield `a` without running `b` when `a` decides |
| Correctness.AddressOk | src/ir.cpp:424-440 | the address part of an lvalue pushes the address of its cell |
| Correctness.AssignOk | src/ir.cpp:424-447 | an assignment changes exactly the cell of its target |
| Correctness.StoreAllOk | src/ir.cpp:449-478 | the stores of a parallel assignment take their values in order |
| Correctness.ListOk | src/ir.cpp:480-494 | a list pushes its values with the first on top |
| Correctness.InvokeOk | src/interop.cpp:283-288 | a call consumes its arguments, pushes the results and leaves everything else of the activation as it was |
| Correctness.FunctionOk | src/ir.cpp:670-730 | the code of a function returns its results, restores all stacks of the caller, and faults or runs on as the evaluation does |
| Correctness.StmtOk | src/ir.cpp:583-668 | the code of a statement reaches its end, the exit of the loop or the caller with the evaluated values in all cells |
| Correctness.WhileOk | src/ir.cpp:615-640 | a loop runs as often as the evaluation says, or forever |
| Correctness.BlockOk | src/ir.cpp:511-533 | leaving a block releases its locals and keeps the values of all others |
| Theorems.RunPreserved | src/interop.cpp:311-334 | whatever a program does within some fuel, the interpreter does: same results, same failure, or still running |
| Theorems.Preservation | src/interop.cpp:311-334 | the interpreter halts with a result exactly when the program returns it, and fails exactly when the program faults |
| Theorems.DivergencePreserved | src/interop.cpp:311-334 | the interpreter runs forever exactly when no amount of fuel is enough |
| Theorems.ExactPreservation | src/interop.cpp:311-334 | without globals nothing is assumed of the run: the interpreter halts with a result, fails or gets stuck if and only if the program returns it, faults or meets an undefined operation |
| Theorems.ExactDivergence | src/interop.cpp:311-334 | and runs forever if and only if no fuel is enough |
| Typing.ExprSound | src/ir.cpp:346-350 | a well-formed expression yields the number of values its arity says |
| Typing.StmtSound | src/ir.cpp:583-668 | a well-formed statement never leaves the fragment |
| Typing.CallSound | src/ir.cpp:670-730 | a well-formed function returns as many values as it declares, or faults |
| Typing.WellFormedPreservation | src/interop.cpp:311-334 | wherever the finished code of a program accepted by the static rules exists, interpreting it agrees with the program on results, failure and divergence |
| Typing.WellFormedExactly | src/ir.cpp:779-818 | for a well-formed program without globals, interpreting its code agrees on results, failure, divergence and on getting stuck, with no assumption on the run |
| Showcase.EveryConstruct | src/ir.cpp:583-668 | a program that uses every construct of the language is well formed |
| Showcase.EveryScalarConstruct | src/ir.cpp:583-668 | so is its version without pointers one of those the native code is proved for |
| Acceptance.AcceptedExactly | src/ir.cpp:480-494 | the generator gets through a well-formed function, without a report, if and only if only the first element of any list nests a list; otherwise it dereferences null |
| Acceptance.SecondArgumentCrashes | src/ir.cpp:480-494 | `m() { return f(1, g(2)); }` is well formed and the generator crashes on it |
| EndToEnd.GlobalsHalt | src/compiler.cpp:97-113 | interpreting the function for the globals ends without an error, leaves all stacks empty and changes no global |
| EndToEnd.Translate | src/compiler.cpp:87-120 | a well-formed program is compiled if and only if only first elements of lists nest lists, and then the very image the generator returns behaves as the program, on the interpreter and, without pointers and within the limits, on the processor; its function for the globals halts; without globals the interpreter gets stuck exactly at undefined operations, and on the processor the limits are the only assumption |
| Laws.AddressAndBack | src/ir.cpp:279-309 | `@^l` is `l` and `^@e` is `e` |
| Laws.AddressAndBackRuns | src/ir.cpp:279-309 | on the interpreter the code of `@^l` does what the code of `l` does: same machine behind it, same failure, or both run on |
| Laws.BackAndAddressRuns | src/ir.cpp:279-309 | on the interpreter the code of `^@e` does what the code of `e` does, where `e` has one value |
| Laws.ParamsSeparate | src/ir.cpp:699-716 | parameters live in cells of their own |
| Laws.LocalsStaySeparate | src/ir.cpp:558-563 | after any statement the visible locals live in pairwise distinct cells |
| Laws.AssignmentIsLocal | src/ir.cpp:424-447 | assigning to one local changes no other |
| Laws.ParallelAssignment | src/ir.cpp:449-478 | all right sides are evaluated before the first store, each target receives its own value, nothing else changes |
| Laws.StepKeepsTiles | src/interop.cpp:51-72 | no opcode, arrays included, breaks the tiling of the data stack by the blocks |
| Laws.RunKeepsTiles | src/interop.cpp:51-72 | the blocks tile the data stack in every reachable state |
| Laws.SlotHasOneBlock | src/interop.cpp:74-88 | with tiled blocks the search finds the one block a slot lies in |
| StageFlows.ExprFlows | src/ir.cpp:199-509 | expression code has one exec depth per position, never reaches below its start and ends with its values on top |
| StageFlows.StmtFlows | src/ir.cpp:583-668 | statement code leaves the exec stack empty and the frame at `stack_index` on every way out, breaks included, and has it at `stack_index` at every position inside |
| StageFlows.FunctionFlows | src/ir.cpp:670-730 | from its arguments to its results the code of a function has one stack shape per position, with as many frame cells as `stack_index` says there |
| FrameIndex.ExprMarked | src/ir.cpp:199-509 | inside the code of an expression the frame does not change |
| Heights.NotesExist | src/ir.cpp:670-730 | every well-formed program has such a shape for each position of each function, with the frame at its `stack_index` |
| Heights.LastStops | src/ir.cpp:720-725 | the code of a function does not fall off its end |
| Heights.StepHeights | src/interop.cpp:135-309 | every opcode, calls and returns included, keeps the stacks at the heights known for the position |
| Heights.RunHeights | src/interop.cpp:322-330 | so does every run, recursion included |
| Heights.ReachableIndex | src/interop.cpp:51-88 | at every reachable position of every well-formed program the data stack ends `stack_index` cells above the frame pointer, without any assumption on the run |
| Heights.ReachableHeights | src/interop.cpp:322-330 | unless a store meets a global address, the exec stack of the activation has the depth of the position too, and a halted run left only its results |
| Heights.ScalarTame | src/interop.cpp:238-253 | programs without pointers never store to a global address, as long as the data stack stays below the globals |
| NativeCompiled.TextResolved | src/nasm_backend.cpp:84-330 | in the text of a well-formed program every jump names a label of its function and every call a function that exists |
| Nasm.Writer.CompileFunction | src/nasm_backend.cpp:84-330 | the text of a function is the lowering of its opcodes, in order |
| NasmArithmetic.CompareDecides | src/nasm_backend.cpp:71-82 | the flags of `cmp` decide the signed order, overflow included |
| NasmArithmetic.QuotientInRange | src/nasm_backend.cpp:54-61 | the truncated quotient leaves 64 bits exactly for the least number divided by minus one |
| NasmArithmetic.NotSequence | src/nasm_backend.cpp:242-255 | `setne`, `xor al, -1`, `and al, 1` negate a truth value |
| NasmBlocks.PopEffect | src/nasm_backend.cpp:35-39 | LOAD moves the top exec word into a register |
| NasmBlocks.PushEffect | src/nasm_backend.cpp:41-45 | STORE makes a register the new top exec word |
| NasmBlocks.UnaryEffect | src/nasm_backend.cpp:216-255 | the unary templates replace the top exec word by the interpreter's result |
| NasmBlocks.BinaryEffect | src/nasm_backend.cpp:47-82 | the binary templates replace two exec words by the interpreter's result |
| NasmBlocks.DivideEffect | src/nasm_backend.cpp:54-61 | `cqo` and `idiv` give truncated quotient and remainder, and trap exactly on a zero divisor or on the overflowing quotient |
| NasmBlocks.CompareEffect | src/nasm_backend.cpp:71-82 | BINCMPOP leaves the truth value of the comparison |
| NativeSimulation.BranchEffect | src/nasm_backend.cpp:261-274 | a conditional jump is taken exactly on a zero, or non-zero, top word |
| NativeStack.WordsApart | src/nasm_backend.cpp:124-164 | cells, saved frame pointers and return addresses never share a word of the native stack |
| NativeStack.FramePoppedOk | src/nasm_backend.cpp:131-136 | `mov rsp, rbp; pop rbp` undoes a frame whatever was allocated in it |
| NativeStack.StoredOk | src/nasm_backend.cpp:282-288 | a store through an address changes one cell and no return address or frame pointer |
| NativeStack.EnteredOk | src/nasm_backend.cpp:296-299 | `call` saves the return address above everything in use |
| NativeStack.LeftOk | src/nasm_backend.cpp:301-304 | `ret` finds the return address of the call on top |
| NativeSimulation.OpSimulates | src/nasm_backend.cpp:116-323 | the instructions of every opcode keep processor and interpreter related |
| NativeSimulation.StepSimulated | src/nasm_backend.cpp:116-323 | one opcode of the interpreter is one label of native code |
| NativeSimulation.RunSimulated | src/nasm_backend.cpp:116-323 | whole runs stay related as long as numbers and addresses are kept apart |
| NativeTheorems.NativePreservation | src/nasm_backend.cpp:84-330 | a disciplined run exits with the returned values exactly when the program returns them, traps exactly when it faults, runs on exactly when it diverges |
| NativeTheorems.DisciplinedNeverSticks | src/nasm_backend.cpp:84-330 | a disciplined run never gets stuck |
| NativeCompiled.OpKeepsDiscipline | src/nasm_backend.cpp:116-323 | within the limits of the machine no opcode of a compiled pointer-free program mixes numbers and addresses |
| NativeCompiled.CompiledDisciplined | src/nasm_backend.cpp:116-323 | so every run of such a program keeps the discipline |
| NativeCompiled.CompiledPreservation | src/nasm_backend.cpp:84-330 | the compiled program on the processor agrees with the source program on results, traps and divergence, within the limits of the machine |
| NativeCompiled.EnoughMemory | src/nasm_backend.cpp:100-200 | a run that stops is within the limits of a machine with enough memory if and only if it divides by no zero, leaves no quotient undefined and needs no immediate of more than 32 bits |
| NativeCompiled.LimitedDefined | src/nasm_backend.cpp:84-330 | within the limits a pointer-free program without globals meets no undefined operation |
| NativeCompiled.CompiledExactly | src/nasm_backend.cpp:84-330 | so for these the processor agrees with the program whenever the run is within the limits |
| Parser.State.constructor | src/parser.cpp:13-18 | the parser starts at the first token with nothing reported |
| Parser.State.PeekToken | src/scanner.cpp:567-575 | peeking shows the next token, end of file behind the last one |
| Parser.State.ConsumeToken | src/scanner.cpp:588-618 | the expected token is consumed; any other is reported and left |
| Parser.State.Accept | src/parser.cpp:64-85 | a failed child is reported and not attached |
| Parser.State.ParseExpression | src/parser.cpp:329-465 | consumes and builds exactly what the recursive description of the parser says, on every token sequence |
| Parser.State.ClimbLoop | src/parser.cpp:400-461 | the loop takes postfix and infix operators that bind tightly enough, one after the other |
| Parser.State.PostfixTurn | src/parser.cpp:409-438 | one call or index: what is left to parse behind it is what was left before |
| Parser.State.InfixTurn | src/parser.cpp:442-458 | one infix operator and its right operand, likewise |
| Parser.State.ParseSeparatedExpressions | src/parser.cpp:516-565 | comma-separated lists; a failed element is dropped, a missing one after a comma reported |
| Grammar.Completeness | src/parser.cpp:172-241 | every phrase of the precedence grammar, in front of a token that ends it, is read back as its tree, and parsing stops there |
| Grammar.Soundness | src/parser.cpp:400-461 | whatever is accepted without report is a phrase: its tokens are exactly those consumed, every operator on its left spine binds tightly enough, and nothing that follows belongs to it |
| Grammar.Recognition | src/parser.cpp:329-465 | a tree is accepted if and only if a phrase of the level has that tree, those tokens and that end; missing operands included |
| Grammar.Unambiguous | src/parser.cpp:172-241 | no token sequence is two phrases with different trees |
| Grammar.Precedence | src/parser.cpp:189-229 | of two operators the left one takes the middle operand if and only if the left power of the right one is below its right power |
| Grammar.Associativity | src/parser.cpp:189-229 | chains of any length nest to the right for `=` and `.`, to the left for every other level |
| Operators.EveryOperatorOnce | src/parser.cpp:189-229 | the infix operators are the symbols of eleven levels from `=` to `.`, each on one level |
| Operators.SideBySide | src/parser.cpp:189-229 | of two operators in a row the one on the later level takes the operand between them; on one level the left one does, except for `=` and `.` |
| Operators.LaterLevelInside | src/parser.cpp:189-229 | whichever of two operators comes first, the one on the later level is innermost |
| Operators.ChainsOfOneLevel | src/parser.cpp:189-229 | chains of any length on one level nest left, those of `=` and `.` right |
| Operators.PrefixOperators | src/parser.cpp:172-187 | in front of an operand exactly `-`, `!`, `@`, `^` and `~` are prefix operators |
| Operators.PrefixAndInfix | src/parser.cpp:172-229 | a prefix operator takes its operand from every infix operator but `.` |
| Operators.PrefixesStack | src/parser.cpp:350-362 | prefix operators stack |
| Operators.SuffixAndPrefix | src/parser.cpp:172-241 | call and index take their target from a prefix operator |
| Operators.SuffixAndInfix | src/parser.cpp:189-241 | and from every infix operator in front but `.` |
| Operators.SuffixThenInfix | src/parser.cpp:189-241 | and come before every infix operator behind them |
| Operators.SuffixesStack | src/parser.cpp:409-438 | call and index stack, in order |
| Operators.BracketsMatch | src/parser.cpp:423-433 | an argument list is accepted if and only if its bracket is closed by its own counterpart |
| Operators.OthersEnd | src/parser.cpp:400-463 | any other symbol ends the expression in front of it |
| Operators.ArgumentsHoldOperators | src/parser.cpp:516-565 | an infix expression of any level, assignments included, is one argument |
| Operators.ParenthesesGroup | src/parser.cpp:364-371 | parentheses group against the levels |
| Failures.FailuresReported | src/parser.cpp:329-465 | for every input: a failed tree is reported, any other has no failed node anywhere, and the tokens not read are the end of the input |
| Failures.ArgumentsFail | src/parser.cpp:516-565 | the same for argument lists: failed elements are no arguments |
| Grammar.HolesAccepted | src/parser.cpp:394-397 | `a +` and `f(())` are accepted without a report |
| Holes.CompleteExactly | src/parser.cpp:329-465 | of an accepted input no operand is missing if and only if every operator and every grouping parenthesis is followed by a token that starts an operand, but for empty pairs that are a whole argument list |
| Printer.ShowOk | src/parser.cpp:172-241 | the printed phrase belongs to its level, has the tree, and the next token does not reach into it |
| Printer.RoundTrip | src/parser.cpp:329-465 | every printed tree, missing operands included, in front of any token that continues no expression, is read back unchanged |
| Printer.Minimal | src/parser.cpp:364-371 | no phrase of the place with the same tree has fewer tokens than what is printed |
| Printer.ParenthesesNeeded | src/parser.cpp:364-371 | where a pair is printed around a tree, every phrase of the place without one is longer |
| Printer.PrintableExactly | src/parser.cpp:329-465 | the trees that can be printed are exactly the trees of phrases |
| Printer.Normalises | src/parser.cpp:329-465 | printing whatever was accepted and reading it again gives the same tree, from no more tokens |
| HashMap.Table.constructor | include/hashmap.h:38-44 | a fresh map has no table |
| HashMap.Table.Create | include/hashmap.h:94-128 | a created table is vacant throughout with load zero |
| HashMap.Table.CreateIfNeeded | include/hashmap.h:270-275 | a missing table is created with sixteen slots |
| HashMap.Table.Get | include/hashmap.h:176-202 | the probe answers as the search along the path of the key |
| HashMap.Table.Add | include/hashmap.h:204-238 | rebuilds when crowded, then fills the first free slot of the path unless the key comes first; `load` counts the live slots |
| HashMap.Table.Remove | include/hashmap.h:240-268 | a found key becomes a tombstone, `load` drops by one |
| HashMap.Table.Rebuild | include/hashmap.h:278-298 | the live entries are added to a table of twice the size, without a nested rebuild |
| HashLaws.LookupExact | include/hashmap.h:176-202 | `get` returns exactly the binding of the map |
| HashLaws.RemoveExact | include/hashmap.h:240-268 | `remove` succeeds exactly on bound keys and removes that binding only |
| HashLaws.RebuildExact | include/hashmap.h:278-298 | rebuilding keeps exactly the bindings and no tombstone |
| HashLaws.InsertPresent | include/hashmap.h:217-233 | adding a bound key is refused if and only if every slot before it on its path is live |
| HashLaws.AddExact | include/hashmap.h:204-238 | adding an unbound key always succeeds and extends the map, from any capacity; a bound key is refused exactly after a rebuild or without a gap before it, and is stored twice otherwise |
| HashLaws.AddedCapacity | include/hashmap.h:204-299 | the table starts with sixteen slots and doubles if and only if more than three quarters of them are live |
| HashLaws.HistoryExact | include/hashmap.h:176-298 | over any history of additions and removals the table represents the map after every command if and only if no bound key is added again behind a gap on its probe path |
| HashLaws.HistoryAnswers | include/hashmap.h:176-298 | behind such a history every lookup answers as the map |
| HashLaws.AbsentSafe | include/hashmap.h:204-238 | a history that only adds unbound keys is such a history |
| HashLaws.StoredTwice | include/hashmap.h:217-230 | from the empty table: of two colliding keys the first is removed and the second added again, and it is stored twice |
| SegmentedArray.LocateExact | include/array.h:113-123 | the walk ends in the one segment an index lies in |
| SegmentedArray.LocateStable | include/array.h:113-136 | more segments do not move an element |
| SegmentedArray.LocateInjective | include/array.h:151-167 | different indices have different addresses |
| SegmentedArray.DoublingSum | include/array.h:65-79 | segments of size g, 2g, 4g hold one g less than the next segment |
| SegmentedArray.Segments.constructor | include/array.h:65-79 | a new array is empty with one segment |
| SegmentedArray.Segments.Walk | include/array.h:113-123 | the loop over the segments computes segment and offset |
| SegmentedArray.Segments.Get | include/array.h:144-168 | the address of an element, null behind the last; what is stored there is the element |
| SegmentedArray.Segments.Put | include/array.h:167-167 | writing through an address changes that element and no other |
| SegmentedArray.Segments.Grow | include/array.h:127-136 | a new segment, twice the last, moves nothing |
| SegmentedArray.Segments.Add | include/array.h:109-141 | the array is extended by the element, no earlier element moves, and a segment is added exactly when all are full |
| QuickSort.SwapsOnce | src/sorter.cpp:88-94 | a swap is never followed by another: the partition loop ends |
| QuickSort.SortSwap | src/sorter.cpp:41-50 | two elements change places |
| QuickSort.PartitionInPlace | src/sorter.cpp:66-101 | the loop computes the partition and tracks the pivot |
| QuickSort.QuickSort | src/sorter.cpp:54-106 | the array becomes what the recursive description says, for every total preorder |
| SortLaws.SortPermutes | src/sorter.cpp:54-106 | only the range is permuted |
| SortLaws.UniquePivot | src/sorter.cpp:74-101 | a pivot with a unique key ends where the indices meet, smaller keys before it, larger ones behind |
| SortLaws.LargestPivot | src/sorter.cpp:74-101 | a pivot with the largest key stays at the end |
| SortLaws.SortSorts | src/sorter.cpp:54-106 | the range is sorted when only the largest key repeats |
| SortLaws.BadArrangement | src/sorter.cpp:90-94 | any other collection has an arrangement that comes out unsorted |
| SortLaws.SortsExactly | src/sorter.cpp:54-106 | every arrangement of the elements comes out sorted if and only if only the largest key may repeat |
| Numbers.IntPow | src/scanner.cpp:206-212 | the power modulo 2^64 |
| Numbers.ParseConstInt | src/scanner.cpp:214-234 | the positional value modulo 2^64, for binary, decimal and hexadecimal digits of any number (what that value is: the next four rows) |
| Numbers.ReadsEveryNotation | src/scanner.cpp:214-234 | the numeral of every number, written by division with the digits 01, 0123456789, 0123456789ABCDEF or 0123456789abcdef, is read as that number |
| Numbers.OnlyNumeral | src/scanner.cpp:214-234 | no other text over the same digits without leading zero denotes it |
| Numbers.CaseIgnored | src/scanner.cpp:214-234 | capital and small hexadecimal letters denote the same digits, also mixed |
| Numbers.OthersCountZero | src/scanner.cpp:214-234 | any other character counts as the digit zero |
| Numbers.BackwardDigits | src/strings.cpp:279-283 | the digits of a number, last one first |
| Numbers.ReverseText | src/strings.cpp:285-289 | the text is reversed in place |
| Numbers.FormatU64 | src/strings.cpp:271-292 | the decimal numeral of an unsigned number |
| Numbers.FormatS64 | src/strings.cpp:294-327 | sign and numeral of every number but the least |
| Numbers.ReadsBack | src/scanner.cpp:214-234 | reading the printed numeral gives the number back |
| Numbers.PrintsTheNumeral | src/strings.cpp:271-292 | the printed numeral is the only one without leading zero that denotes the number |
| Numbers.DecimalIsNumeral | src/strings.cpp:271-292 | what is printed is the decimal numeral by division |
| Numbers.RoundTrip | src/scanner.cpp:214-234 | parsing what is printed is the identity on every 64-bit value |
| Numbers.PrintAndParse | src/strings.cpp:271-292 | running the printer and then the parser gives every 64-bit value back |
| Arena.Allocate | src/arena.cpp:76-97 | a request is served by the first block with room, or by a new last block of twice the size, and so on; it always ends |
| Arena.Extend | src/arena.cpp:91-95 | the chain gets a block twice its last one |
| Arena.Served | src/arena.cpp:76-97 | a request is served behind everything given away before, inside one block |
| Arena.FirstFit | src/arena.cpp:76-97 | the blocks before the one that serves a request have too little room, the request starts where that block was given away up to, a block is new only when none had room, and no other block changes |
| Arena.RegionsDisjoint | src/arena.cpp:76-97 | over any list of requests the regions are pairwise disjoint and inside their blocks, whose sizes double |

## Left out

- Shadowing and scopes: names are a flat map from name to slot, so a name is taken to mean its latest declaration; a block restores the map (src/ir.cpp:144-162).
- `continue` in the source semantics: it is compiled and its code is described, but a program that executes one is outside the fragment, because the code leaves the loop (src/ir.cpp:630-633).
- `break` out of blocks that hold live locals: only the innermost block's cells are freed (src/ir.cpp:649-653), so such a program is outside the fragment.
- A declaration directly after `else`: it moves `stack_index` of the enclosing block without being counted there (`MachineLaws.ElseDeclarationLeaks`); it is compiled as in the code and is outside the fragment.
- Global variables and array indexing at run time: the opcodes are modelled as the interpreter executes them, but addresses and loads disagree by a factor of eight (src/interop.cpp:194-226), so programs using them are outside the fragment; array locals of 10000 cells too.
- Casts, strings, floating point, structs and member access in the generator, and the analyzer with its types: unfinished in the source.
- External functions, console input and output, the debugger break, logging: input and output.
- Statement and declaration parsing and type parsing: the expression parser is modelled on a token sequence without them.
- Parser.State.ParseExpression: without the `cast` prefix, whose operand is a type (src/parser.cpp:373-392).
- The scanner apart from integer constants: characters to tokens is not modelled.
- Interpreter.State.Interop: cut off after a given number of opcodes, because a run need not end.
- Emitter.State.CompileProgram: visits the functions in any order, not in the order of hash slots; programs have no globals and no external functions.
- EndToEnd.Translate: that interpreting the function for the globals halts with nothing left behind is proved of the image; the method itself does not run it before removing it.
- Heights.ReachableHeights: assumes that no store of the run meets a global address, which would push instead of popping (src/interop.cpp:242-244); `Heights.ScalarTame` discharges this for programs without `^` and `@`, and the height of the data stack does not need it.
- Nasm.Writer.CompileFunction: opcodes for globals, which the fragment never produces, become a trap instead of their text, and the `int3` behind the last line is left out.
- NativeTheorems.NativePreservation: assumes that the run keeps numbers and addresses apart, so pointer arithmetic and printing of addresses are outside; `NativeCompiled.CompiledPreservation` discharges this for programs without `^` and `@`.
- NativeCompiled.CompiledPreservation: assumes the limits of the machine for the run at hand (stack sizes, 32-bit immediates, divisors other than zero), which the interpreter does not have; `NativeCompiled.EnoughMemory` says which runs no amount of memory brings within them.
- The runtime prologue, stack probes for large allocations, the assembler text itself and linking: instructions are a datatype, not characters; addresses are unbounded integers.
- HashMap.Table.Add: capacities are unbounded, so the truncation of slot numbers to 32 bits is not modelled; keys are compared by equality and the load limit is the exact fraction three quarters.
- QuickSort.QuickSort: elements are values of one type, not byte strings of a given size.
- Numbers.FormatS64: the least 64-bit number is excluded, its negation is undefined in C++.
- Arena.Allocate: 64-bit overflow of block sizes, out of memory and a first block of size zero are not modelled.
- Resizing of `list_t` and `stack_t`, the temporary allocator, the profiler, the Windows layer: plain support code.
