/**
  Semantic preservation: running emitted code agrees with the evaluator, for every
  expression, statement, block, function and amount of fuel.
*/
module Correctness {
  import opened Word64
  import opened Ir
  import opened Source
  import opened Codegen
  import opened Simulation

  /** What stays fixed while one statement runs: the program and its image, the compile-time
      slots with the cells they denote, and the activation. */
  datatype Site = Site(p: Program, image: Image, slots: Slots, env: Env, index: int, c: Ctx)

  ghost predicate SiteOk(w: Site, size: nat) {
    && Linked(w.p, w.image)
    && EnvOk(w.env, w.slots, w.c, size, w.index)
  }

  ghost predicate Placed(w: Site, pos: int, code: seq<Op>, size: nat) {
    SiteOk(w, size) && CodeAt(w.image, w.c, pos, code)
  }

  /** `n` steps of the code of `e` at `pos` agree with the evaluator. */
  ghost predicate ExprRuns(w: Site, e: Expr, pos: int, exec: seq<int>, mem: seq<int>, fuel: nat, n: nat) {
    Matches(w.image, Conf(w.c, pos, exec, mem), n, EvalExpr(w.p, e, w.env, mem, fuel), w.c,
            pos + |Gen(e, w.slots).code|, exec, fuel)
  }

  predicate Lvalue(l: Expr, slots: Slots) {
    (l.Ident? && l.name in slots) || l.Deref?
  }

  /** Code of the address part of an lvalue. */
  function AddressCode(l: Expr, slots: Slots): seq<Op>
    requires Lvalue(l, slots)
  {
    if l.Ident? then [Op(PushSea, slots[l.name], l.name)] else Gen(l.operand, slots).code
  }

  /** Rewriting the last opcode of an lvalue leaves exactly its address on the stack. */
  lemma LvalueRewriting(l: Expr, slots: Slots)
    requires Lvalue(l, slots)
    ensures Gen(Ref(l), slots).code == AddressCode(l, slots) + if l.Deref? then [Plain(Nop, 0)] else []
    ensures GenAssign(Gen(l, slots)).code == AddressCode(l, slots) + [Plain(Store, 0)]
  {
  }

  /** A single value, once pushed, is on top of the exec stack. */
  lemma OnTop(exec: seq<int>, vals: seq<int>)
    requires |vals| == 1
    ensures exec + Reverse(vals) == exec + [vals[0]]
  {
  }

  /** A part that is done, and the part behind it. */
  lemma ThenMore(image: Image, m: Machine, n: nat, vals: seq<int>, mem: seq<int>, c: Ctx, at: int, exec: seq<int>,
                 k: nat,
                  r: Value, pos: int, exec': seq<int>, fuel: nat)
    returns (total: nat)
    requires Matches(image, m, n, Done(vals, mem), c, at, exec, fuel)
    requires Matches(image, Conf(c, at, exec + Reverse(vals), mem), k, r, c, pos, exec', fuel)
    ensures Matches(image, m, total, r, c, pos, exec', fuel)
  {
    total := Extended(image, m, n, Conf(c, at, exec + Reverse(vals), mem), k, r, c, pos, exec', fuel);
  }

  /** Continue a run that reached `mid` after `n` steps by `k` more. */
  lemma Extended(image: Image, m: Machine, n: nat, mid: Machine, k: nat, r: Value, c: Ctx, pos: int, exec: seq<int>,
                 fuel: nat)
    returns (total: nat)
    requires Run(image, m, n) == mid
    requires Matches(image, mid, k, r, c, pos, exec, fuel)
    ensures total >= k && Matches(image, m, total, r, c, pos, exec, fuel)
  {
    hide Step;
    total := n + k;
    RunAdd(image, m, n, k);
  }

  // ----- expressions -----

  lemma ExprOk(w: Site, e: Expr, pos: int, exec: seq<int>, mem: seq<int>, fuel: nat) returns (n: nat)
    requires Placed(w, pos, Gen(e, w.slots).code, |mem|)
    ensures ExprRuns(w, e, pos, exec, mem, fuel, n)
    decreases fuel, e, 4
  {
    hide Gen, EvalExpr, Placed, ExprRuns;
    match e
    case Const(_) => n := LeafOk(w, e, pos, exec, mem, fuel);
    case Ident(_) => n := LeafOk(w, e, pos, exec, mem, fuel);
    case Unary(_, _) => n := UnaryOk(w, e, pos, exec, mem, fuel);
    case Binary(_, _, _) => n := BinaryOk(w, e, pos, exec, mem, fuel);
    case LogOr(a, b) => n := ShortCircuitOk(w, e, JumpIf, a, b, pos, exec, mem, fuel);
    case LogAnd(a, b) => n := ShortCircuitOk(w, e, JumpIfNot, a, b, pos, exec, mem, fuel);
    case Ref(_) => n := RefOk(w, e, pos, exec, mem, fuel);
    case Deref(_) => n := DerefOk(w, e, pos, exec, mem, fuel);
    case Assign(_, _) => n := AssignOk(w, e, pos, exec, mem, fuel);
    case Swap(_, _) => n := SwapOk(w, e, pos, exec, mem, fuel);
    case Call(_, _) => n := CallOk(w, e, pos, exec, mem, fuel);
    case List(es) =>
      ListMeaning(w, es, mem, fuel);
      n := ListOk(w, es, pos, exec, mem, fuel);
      ListRuns(w, es, pos, exec, mem, fuel, n);
    case Empty => n := LeafOk(w, e, pos, exec, mem, fuel);
  }

  lemma LeafOk(w: Site, e: Expr, pos: int, exec: seq<int>, mem: seq<int>, fuel: nat) returns (n: nat)
    requires (e.Const? || e.Ident? || e.Empty?) && Placed(w, pos, Gen(e, w.slots).code, |mem|)
    ensures ExprRuns(w, e, pos, exec, mem, fuel, n)
  {
    hide Step;
    match e
    case Const(v) =>
      n := 1;
      PushStep(w.image, w.c, pos, Plain(PushSign, v), exec, mem, fuel);
    case Ident(x) =>
      n := 1;
      if x in w.env {
        SlotStep(w.image, w.c, pos, Op(PushStack, w.slots[x], x), exec, mem, fuel);
      }
    case Empty =>
      n := 0;
      assert exec + Reverse([]) == exec;
  }

  lemma ListMeaning(w: Site, es: seq<Expr>, mem: seq<int>, fuel: nat)
    ensures Gen(List(es), w.slots) == GenList(es, w.slots)
    ensures EvalExpr(w.p, List(es), w.env, mem, fuel) == EvalList(w.p, es, w.env, mem, fuel)
  {
    hide GenList, EvalList;
  }

  lemma ListRuns(w: Site, es: seq<Expr>, pos: int, exec: seq<int>, mem: seq<int>, fuel: nat, n: nat)
    requires Matches(w.image, Conf(w.c, pos, exec, mem), n, EvalList(w.p, es, w.env, mem, fuel), w.c,
                     pos + |GenList(es, w.slots).code|, exec, fuel)
    ensures ExprRuns(w, List(es), pos, exec, mem, fuel, n)
  {
    hide Matches;
    ListMeaning(w, es, mem, fuel);
  }

  lemma UnaryOk(w: Site, e: Expr, pos: int, exec: seq<int>, mem: seq<int>, fuel: nat) returns (n: nat)
    requires e.Unary? && Placed(w, pos, Gen(e, w.slots).code, |mem|)
    ensures ExprRuns(w, e, pos, exec, mem, fuel, n)
    decreases fuel, e, 3
  {
    hide Run, CodeAt, UnitBlocks, SiteOk, EvalBinary, CallFunction, EvalList, GenList;
    var g := Gen(e.operand, w.slots).code;
    var r := EvalExpr(w.p, e.operand, w.env, mem, fuel);
    CodeSplit(w.image, w.c, pos, g, [Plain(OpCode.Unary(e.un), 0)]);
    n := ExprOk(w, e.operand, pos, exec, mem, fuel);
    if r.Done? && |r.vals| == 1 {
      OnTop(exec, r.vals);
      UnaryStep(w.image, w.c, pos + |g|, e.un, exec, r.vals[0], r.mem, fuel);
      n := Extended(w.image, Conf(w.c, pos, exec, mem), n, Conf(w.c, pos + |g|, exec + [r.vals[0]], r.mem), 1,
                    EvalExpr(w.p, e, w.env, mem, fuel), w.c, pos + |g| + 1, exec, fuel);
    }
  }

  lemma DerefOk(w: Site, e: Expr, pos: int, exec: seq<int>, mem: seq<int>, fuel: nat) returns (n: nat)
    requires e.Deref? && Placed(w, pos, Gen(e, w.slots).code, |mem|)
    ensures ExprRuns(w, e, pos, exec, mem, fuel, n)
    decreases fuel, e, 3
  {
    hide Run, CodeAt, UnitBlocks, SiteOk, EvalBinary, CallFunction, EvalList, GenList;
    var g := Gen(e.operand, w.slots).code;
    var r := EvalExpr(w.p, e.operand, w.env, mem, fuel);
    CodeSplit(w.image, w.c, pos, g, [Plain(Load, 0)]);
    n := ExprOk(w, e.operand, pos, exec, mem, fuel);
    if r.Done? && |r.vals| == 1 {
      OnTop(exec, r.vals);
      LoadStep(w.image, w.c, pos + |g|, exec, r.vals[0], r.mem, fuel);
      n := Extended(w.image, Conf(w.c, pos, exec, mem), n, Conf(w.c, pos + |g|, exec + [r.vals[0]], r.mem), 1,
                    EvalExpr(w.p, e, w.env, mem, fuel), w.c, pos + |g| + 1, exec, fuel);
    }
  }

  lemma BinaryOk(w: Site, e: Expr, pos: int, exec: seq<int>, mem: seq<int>, fuel: nat) returns (n: nat)
    requires e.Binary? && Placed(w, pos, Gen(e, w.slots).code, |mem|)
    ensures ExprRuns(w, e, pos, exec, mem, fuel, n)
    decreases fuel, e, 3
  {
    hide Run, CodeAt, UnitBlocks, SiteOk, EvalBinary, CallFunction, EvalList, GenList;
    var m := Conf(w.c, pos, exec, mem);
    var ga, gb := Gen(e.left, w.slots).code, Gen(e.right, w.slots).code;
    var op := Plain(OpCode.Binary(e.bin), 0);
    CodeSplit(w.image, w.c, pos, gb + ga, [op]);
    CodeSplit(w.image, w.c, pos, gb, ga);
    var rb := EvalExpr(w.p, e.right, w.env, mem, fuel);
    n := ExprOk(w, e.right, pos, exec, mem, fuel);
    if rb.Done? && |rb.vals| == 1 {
      var vb := rb.vals[0];
      OnTop(exec, rb.vals);
      var ra := EvalExpr(w.p, e.left, w.env, rb.mem, fuel);
      var at := pos + |gb| + |ga|;
      var k := ExprOk(w, e.left, pos + |gb|, exec + [vb], rb.mem, fuel);
      n := Extended(w.image, m, n, Conf(w.c, pos + |gb|, exec + [vb], rb.mem), k, ra, w.c, at, exec + [vb], fuel);
      if ra.Done? && |ra.vals| == 1 {
        OnTop(exec + [vb], ra.vals);
        if EvalBinary(e.bin, ra.vals[0], vb).Some? {
          BinaryStep(w.image, w.c, at, e.bin, exec, ra.vals[0], vb, ra.mem, fuel);
        } else {
          BinarySticks(w.image, w.c, at, e.bin, exec, ra.vals[0], vb, ra.mem, fuel);
        }
        n := Extended(w.image, m, n, Conf(w.c, at, exec + [vb] + [ra.vals[0]], ra.mem), 1,
                      EvalExpr(w.p, e, w.env, mem, fuel), w.c, at + 1, exec, fuel);
      }
    }
  }

  lemma ShortCircuitPlaced(w: Site, jump: OpCode, a: Emit, b: Emit, pos: int, size: nat)
    requires WellEmitted(a) && WellEmitted(b)
    requires Placed(w, pos, GenShortCircuit(jump, a, b).code, size)
    ensures Placed(w, pos, a.code, size)
    ensures CodeAt(w.image, w.c, pos + |a.code|, [Plain(Clone, 0)])
    ensures CodeAt(w.image, w.c, pos + |a.code| + 1, [Plain(jump, 1 + |b.code|)])
    ensures CodeAt(w.image, w.c, pos + |a.code| + 2, [Plain(OpCode.Pop, 0)])
    ensures Placed(w, pos + |a.code| + 3, b.code, size)
  {
    hide CodeAt, SiteOk;
    var clone, branch, pop := [Plain(Clone, 0)], [Plain(jump, 1 + |b.code|)], [Plain(OpCode.Pop, 0)];
    assert [Plain(Clone, 0), Plain(jump, 1 + |b.code|), Plain(OpCode.Pop, 0)] == clone + (branch + pop);
    CodeSplit(w.image, w.c, pos, a.code + (clone + (branch + pop)), b.code);
    CodeSplit(w.image, w.c, pos, a.code, clone + (branch + pop));
    CodeSplit(w.image, w.c, pos + |a.code|, clone, branch + pop);
    CodeSplit(w.image, w.c, pos + |a.code| + 1, branch, pop);
  }

  /** From the value of the left operand on: the right operand runs only if it decides. */
  lemma RightOperandOk(w: Site, jump: OpCode, b: Expr, v: int, at: int, exec: seq<int>, mem: seq<int>, fuel: nat)
    returns (n: nat)
    requires jump.JumpIf? || jump.JumpIfNot?
    requires CodeAt(w.image, w.c, at, [Plain(Clone, 0)])
    requires CodeAt(w.image, w.c, at + 1, [Plain(jump, 1 + |Gen(b, w.slots).code|)])
    requires CodeAt(w.image, w.c, at + 2, [Plain(OpCode.Pop, 0)])
    requires Placed(w, at + 3, Gen(b, w.slots).code, |mem|)
    ensures Matches(w.image, Conf(w.c, at, exec + [v], mem), n,
                    if jump.JumpIf? == (v != 0) then Done([v], mem) else EvalExpr(w.p, b, w.env, mem, fuel),
                    w.c, at + 3 + |Gen(b, w.slots).code|, exec, fuel)
    decreases fuel, b, 5
  {
    hide Run, CodeAt, UnitBlocks, Gen, EvalExpr, SiteOk;
    n := ShortCircuitSteps(w.image, w.c, at, jump, |Gen(b, w.slots).code|, exec, v, mem);
    if jump.JumpIf? == (v != 0) {
      ReverseOne(v);
    } else {
      var k := ExprOk(w, b, at + 3, exec, mem, fuel);
      n := Extended(w.image, Conf(w.c, at, exec + [v], mem), n, Conf(w.c, at + 3, exec, mem), k,
                    EvalExpr(w.p, b, w.env, mem, fuel), w.c, at + 3 + |Gen(b, w.slots).code|, exec, fuel);
    }
  }

  /** Code and value of `a || b` or `a && b` in terms of the operands. */
  lemma ShortCircuitShape(w: Site, e: Expr, jump: OpCode, a: Expr, b: Expr, mem: seq<int>, fuel: nat)
    requires (jump == JumpIf && e == LogOr(a, b)) || (jump == JumpIfNot && e == LogAnd(a, b))
    ensures Gen(e, w.slots) == GenShortCircuit(jump, Gen(a, w.slots), Gen(b, w.slots))
    ensures var ra := Single(EvalExpr(w.p, a, w.env, mem, fuel));
            EvalExpr(w.p, e, w.env, mem, fuel) ==
            if ra.Stopped? || jump.JumpIf? == (ra.vals[0] != 0) then ra
            else Single(EvalExpr(w.p, b, w.env, ra.mem, fuel))
  {
  }

  lemma ShortCircuitOk(w: Site, e: Expr, jump: OpCode, a: Expr, b: Expr, pos: int, exec: seq<int>, mem: seq<int>,
                       fuel: nat)
    returns (n: nat)
    requires (jump == JumpIf && e == LogOr(a, b)) || (jump == JumpIfNot && e == LogAnd(a, b))
    requires Placed(w, pos, Gen(e, w.slots).code, |mem|)
    ensures ExprRuns(w, e, pos, exec, mem, fuel, n)
    decreases fuel, e, 3
  {
    hide Run, CodeAt, UnitBlocks, SiteOk, Gen, GenShortCircuit, EvalExpr;
    ShortCircuitShape(w, e, jump, a, b, mem, fuel);
    var ga, gb := Gen(a, w.slots).code, Gen(b, w.slots).code;
    ShortCircuitPlaced(w, jump, Gen(a, w.slots), Gen(b, w.slots), pos, |mem|);
    var ra := EvalExpr(w.p, a, w.env, mem, fuel);
    n := ExprOk(w, a, pos, exec, mem, fuel);
    if ra.Done? && |ra.vals| == 1 {
      var va := ra.vals[0];
      OnTop(exec, ra.vals);
      assert ra.vals == [va];
      var k := RightOperandOk(w, jump, b, va, pos + |ga|, exec, ra.mem, fuel);
      var r := if jump.JumpIf? == (va != 0) then Done([va], ra.mem) else EvalExpr(w.p, b, w.env, ra.mem, fuel);
      n := ThenMore(w.image, Conf(w.c, pos, exec, mem), n, ra.vals, ra.mem, w.c, pos + |ga|, exec, k, r,
                    pos + |ga| + 3 + |gb|, exec, fuel);
    }
  }

  /** Only the address of an lvalue: its code without the final `NOP` or `STORE`. */
  lemma AddressOk(w: Site, l: Expr, pos: int, exec: seq<int>, mem: seq<int>, fuel: nat) returns (n: nat)
    requires Lvalue(l, w.slots) && Placed(w, pos, AddressCode(l, w.slots), |mem|)
    ensures Matches(w.image, Conf(w.c, pos, exec, mem), n, Address(w.p, l, w.env, mem, fuel), w.c,
                    pos + |AddressCode(l, w.slots)|, exec, fuel)
    decreases fuel, l, 5
  {
    hide Run, CodeAt, UnitBlocks;
    if l.Ident? {
      SlotStep(w.image, w.c, pos, Op(PushSea, w.slots[l.name], l.name), exec, mem, fuel);
      n := 1;
    } else {
      n := ExprOk(w, l.operand, pos, exec, mem, fuel);
    }
  }

  lemma RefMeaning(p: Program, l: Expr, env: Env, mem: seq<int>, fuel: nat)
    ensures EvalExpr(p, Ref(l), env, mem, fuel) == Address(p, l, env, mem, fuel)
  {
    hide Address;
  }

  lemma RefOk(w: Site, e: Expr, pos: int, exec: seq<int>, mem: seq<int>, fuel: nat) returns (n: nat)
    requires e.Ref? && Placed(w, pos, Gen(e, w.slots).code, |mem|)
    ensures ExprRuns(w, e, pos, exec, mem, fuel, n)
    decreases fuel, e, 3
  {
    hide Run, CodeAt, UnitBlocks, Address, Gen, EvalExpr;
    n := 0;
    var l := e.operand;
    var r := Address(w.p, l, w.env, mem, fuel);
    RefMeaning(w.p, l, w.env, mem, fuel);
    if Lvalue(l, w.slots) {
      var g, nop := AddressCode(l, w.slots), if l.Deref? then [Plain(Nop, 0)] else [];
      LvalueRewriting(l, w.slots);
      CodeSplit(w.image, w.c, pos, g, nop);
      n := AddressOk(w, l, pos, exec, mem, fuel);
      if r.Done? && l.Deref? {
        OnTop(exec, r.vals);
        NopStep(w.image, w.c, pos + |g|, exec, r.vals[0], r.mem, fuel);
        assert r.vals == [r.vals[0]];
        n := ThenMore(w.image, Conf(w.c, pos, exec, mem), n, r.vals, r.mem, w.c, pos + |g|, exec, 1, r, pos + |g| + 1,
                      exec, fuel);
      }
    } else {
      NotAnLvalue(w, l, mem, fuel);
    }
  }

  lemma NotAnLvalue(w: Site, l: Expr, mem: seq<int>, fuel: nat)
    requires !Lvalue(l, w.slots) && SiteOk(w, |mem|)
    ensures Address(w.p, l, w.env, mem, fuel) == Stopped(IllFormed)
  {
  }

  lemma AssignMeaning(p: Program, e: Expr, env: Env, mem: seq<int>, fuel: nat)
    requires e.Assign?
    ensures EvalExpr(p, e, env, mem, fuel) ==
            var rb := Single(EvalExpr(p, e.right, env, mem, fuel));
            if rb.Stopped? then rb else
            var rl := Address(p, e.left, env, rb.mem, fuel);
            if rl.Stopped? then rl else Write(rl.mem, rl.vals[0], rb.vals[0])
  {
    hide Address, Write;
  }

  lemma AssignCode(l: Expr, b: Expr, slots: Slots)
    requires Lvalue(l, slots)
    ensures Gen(Expr.Assign(l, b), slots).code == Gen(b, slots).code + (AddressCode(l, slots) + [Plain(Store, 0)])
  {
    hide GenAssign;
    LvalueRewriting(l, slots);
  }

  lemma AssignOk(w: Site, e: Expr, pos: int, exec: seq<int>, mem: seq<int>, fuel: nat) returns (n: nat)
    requires e.Assign? && Placed(w, pos, Gen(e, w.slots).code, |mem|)
    ensures ExprRuns(w, e, pos, exec, mem, fuel, n)
    decreases fuel, e, 3
  {
    hide Run, CodeAt, UnitBlocks, EvalExpr, GenAssign, Address, Write, SiteOk;
    var m, l := Conf(w.c, pos, exec, mem), e.left;
    var gb := Gen(e.right, w.slots).code;
    CodeSplit(w.image, w.c, pos, gb, GenAssign(Gen(l, w.slots)).code);
    AssignMeaning(w.p, e, w.env, mem, fuel);
    var rb := EvalExpr(w.p, e.right, w.env, mem, fuel);
    n := ExprOk(w, e.right, pos, exec, mem, fuel);
    if rb.Done? && |rb.vals| == 1 {
      if Lvalue(l, w.slots) {
        hide Gen;
        AssignCode(l, e.right, w.slots);
        OnTop(exec, rb.vals);
        LvalueRewriting(l, w.slots);
        var k := StoreAtLvalue(w, l, pos + |gb|, exec, rb.vals[0], rb.mem, fuel);
        n := ThenMore(w.image, m, n, rb.vals, rb.mem, w.c, pos + |gb|, exec, k, EvalExpr(w.p, e, w.env, mem, fuel),
                      pos + |Gen(e, w.slots).code|, exec, fuel);
      } else {
        NotAnLvalue(w, l, rb.mem, fuel);
      }
    }
  }

  /** The address of the target, then the store of the value below it. */
  lemma StoreAtLvalue(w: Site, l: Expr, pos: int, exec: seq<int>, v: int, mem: seq<int>, fuel: nat) returns (n: nat)
    requires Lvalue(l, w.slots) && Placed(w, pos, AddressCode(l, w.slots) + [Plain(Store, 0)], |mem|)
    ensures var rl := Address(w.p, l, w.env, mem, fuel);
            Matches(w.image, Conf(w.c, pos, exec + [v], mem), n,
                    if rl.Stopped? then rl else Write(rl.mem, rl.vals[0], v), w.c,
                    pos + |AddressCode(l, w.slots)| + 1, exec, fuel)
    decreases fuel, l, 6
  {
    hide Run, CodeAt, UnitBlocks, Address, AddressCode, SiteOk;
    var at := pos + |AddressCode(l, w.slots)|;
    var rl := Address(w.p, l, w.env, mem, fuel);
    CodeSplit(w.image, w.c, pos, AddressCode(l, w.slots), [Plain(Store, 0)]);
    n := AddressOk(w, l, pos, exec + [v], mem, fuel);
    if rl.Done? {
      OnTop(exec + [v], rl.vals);
      StoreStep(w.image, w.c, at, exec, v, rl.vals[0], rl.mem, fuel);
      n := ThenMore(w.image, Conf(w.c, pos, exec + [v], mem), n, rl.vals, rl.mem, w.c, at, exec + [v], 1,
                    Write(rl.mem, rl.vals[0], v), at + 1, exec, fuel);
    }
  }

  /** `PUSH_SEA; STORE`: the top value goes to the cell of a local. */
  lemma StoreLocalSteps(w: Site, x: string, pos: int, exec: seq<int>, v: int, mem: seq<int>, fuel: nat) returns (n: nat)
    requires x in w.env && SiteOk(w, |mem|)
    requires CodeAt(w.image, w.c, pos, [Op(PushSea, w.slots[x], x)] + [Plain(Store, 0)])
    ensures Matches(w.image, Conf(w.c, pos, exec + [v], mem), n, Write(mem, w.env[x], v), w.c, pos + 2, exec, fuel)
  {
    hide Run, UnitBlocks, CodeAt;
    var op := Op(PushSea, w.slots[x], x);
    CodeSplit(w.image, w.c, pos, [op], [Plain(Store, 0)]);
    SlotStep(w.image, w.c, pos, op, exec + [v], mem, fuel);
    ReverseOne(w.env[x]);
    StoreStep(w.image, w.c, pos + 1, exec, v, w.env[x], mem, fuel);
    n := Extended(w.image, Conf(w.c, pos, exec + [v], mem), 1, Conf(w.c, pos + 1, exec + [v] + [w.env[x]], mem), 1,
                  Write(mem, w.env[x], v), w.c, pos + 2, exec, fuel);
  }

  lemma NoStores(w: Site, vals: seq<int>, pos: int, exec: seq<int>, mem: seq<int>, fuel: nat)
    ensures Matches(w.image, Conf(w.c, pos, exec + Reverse(vals), mem), 0, StoreAll([], vals, w.env, mem), w.c, pos,
                    exec, fuel)
  {
  }

  lemma TargetShape(targets: seq<Expr>, slots: Slots)
    requires targets != [] && targets[0].Ident? && targets[0].name in slots
    ensures GenTargets(targets, slots).code ==
            ([Op(PushSea, slots[targets[0].name], targets[0].name)] + [Plain(Store, 0)]) +
              GenTargets(targets[1..], slots).code
  {
  }

  lemma StoreAllMeaning(targets: seq<Expr>, vals: seq<int>, env: Env, mem: seq<int>)
    requires targets != [] && vals != [] && targets[0].Ident? && targets[0].name in env
    ensures StoreAll(targets, vals, env, mem) ==
            var r := Write(mem, env[targets[0].name], vals[0]);
            if r.Stopped? then r else StoreAll(targets[1..], vals[1..], env, r.mem)
  {
  }

  /** The stores of a parallel assignment, with the values already on the exec stack. */
  lemma {:induction false} StoreAllOk(w: Site, targets: seq<Expr>, vals: seq<int>, pos: int, exec: seq<int>,
                                      mem: seq<int>, fuel: nat)
    returns (n: nat)
    requires Placed(w, pos, GenTargets(targets, w.slots).code, |mem|)
    ensures Matches(w.image, Conf(w.c, pos, exec + Reverse(vals), mem), n, StoreAll(targets, vals, w.env, mem), w.c,
                    pos + |GenTargets(targets, w.slots).code|, exec, fuel)
    decreases |targets|
  {
    hide Run, UnitBlocks, CodeAt, EvalExpr, Gen;
    n := 0;
    if targets == [] {
      NoStores(w, vals, pos, exec, mem, fuel);
    } else if vals != [] && targets[0].Ident? && targets[0].name in w.env {
      hide GenTargets, StoreAll;
      var x := targets[0].name;
      var store := [Op(PushSea, w.slots[x], x)] + [Plain(Store, 0)];
      var rest, exec1 := GenTargets(targets[1..], w.slots).code, exec + Reverse(vals[1..]);
      TargetShape(targets, w.slots);
      StoreAllMeaning(targets, vals, w.env, mem);
      ReverseHead(exec, vals);
      CodeSplit(w.image, w.c, pos, store, rest);
      n := StoreLocalSteps(w, x, pos, exec1, vals[0], mem, fuel);
      var r := Write(mem, w.env[x], vals[0]);
      if r.Done? {
        var k := StoreAllOk(w, targets[1..], vals[1..], pos + 2, exec, r.mem, fuel);
        hide Matches, Write;
        assert exec1 + Reverse([]) == exec1;
        n := ThenMore(w.image, Conf(w.c, pos, exec1 + [vals[0]], mem), n, [], r.mem, w.c, pos + 2, exec1, k,
                      StoreAll(targets[1..], vals[1..], w.env, r.mem), pos + 2 + |rest|, exec, fuel);
      }
    }
  }

  lemma SwapOk(w: Site, e: Expr, pos: int, exec: seq<int>, mem: seq<int>, fuel: nat) returns (n: nat)
    requires e.Swap? && Placed(w, pos, Gen(e, w.slots).code, |mem|)
    ensures ExprRuns(w, e, pos, exec, mem, fuel, n)
    decreases fuel, e, 3
  {
    hide Run, CodeAt, UnitBlocks, SiteOk, EvalBinary, CallFunction, EvalList, GenList, StoreAll, GenTargets;
    var gb, gt := Gen(e.right, w.slots).code, GenTargets(e.targets, w.slots).code;
    CodeSplit(w.image, w.c, pos, gb, gt);
    var rb := EvalExpr(w.p, e.right, w.env, mem, fuel);
    n := ExprOk(w, e.right, pos, exec, mem, fuel);
    if rb.Done? {
      var k := StoreAllOk(w, e.targets, rb.vals, pos + |gb|, exec, rb.mem, fuel);
      n := Extended(w.image, Conf(w.c, pos, exec, mem), n, Conf(w.c, pos + |gb|, exec + Reverse(rb.vals), rb.mem), k,
                    StoreAll(e.targets, rb.vals, w.env, rb.mem), w.c, pos + |gb| + |gt|, exec, fuel);
    }
  }

  lemma NoValues(w: Site, pos: int, exec: seq<int>, mem: seq<int>, fuel: nat)
    ensures Matches(w.image, Conf(w.c, pos, exec, mem), 0, Done([], mem), w.c, pos, exec, fuel)
  {
  }

  lemma ListOk(w: Site, es: seq<Expr>, pos: int, exec: seq<int>, mem: seq<int>, fuel: nat) returns (n: nat)
    requires Placed(w, pos, GenList(es, w.slots).code, |mem|)
    ensures Matches(w.image, Conf(w.c, pos, exec, mem), n, EvalList(w.p, es, w.env, mem, fuel), w.c,
                    pos + |GenList(es, w.slots).code|, exec, fuel)
    decreases fuel, es, 0
  {
    hide Run, UnitBlocks, CodeAt, EvalExpr, Gen, SiteOk;
    if es == [] {
      n := 0;
      NoValues(w, pos, exec, mem, fuel);
    } else {
      var m := Conf(w.c, pos, exec, mem);
      var last, init := es[|es| - 1], es[..|es| - 1];
      var gl, gi := Gen(last, w.slots).code, GenList(init, w.slots).code;
      CodeSplit(w.image, w.c, pos, gl, gi);
      var rl := EvalExpr(w.p, last, w.env, mem, fuel);
      n := ExprOk(w, last, pos, exec, mem, fuel);
      if rl.Done? {
        var exec1 := exec + Reverse(rl.vals);
        var ri := EvalList(w.p, init, w.env, rl.mem, fuel);
        var k := ListOk(w, init, pos + |gl|, exec1, rl.mem, fuel);
        n := Extended(w.image, m, n, Conf(w.c, pos + |gl|, exec1, rl.mem), k, ri, w.c, pos + |gl| + |gi|, exec1, fuel);
        if ri.Done? {
          ReverseConcat(ri.vals, rl.vals);
          assert exec1 + Reverse(ri.vals) == exec + Reverse(ri.vals + rl.vals);
        }
      }
    }
  }

  // ----- calls -----

  lemma {:induction false} BindParamsOk(params: seq<string>, base: nat)
    ensures ParamSlots(params).Keys == BindParams(params, base).Keys
    ensures forall x :: x in ParamSlots(params) ==>
              BindParams(params, base)[x] == base + ParamSlots(params)[x] - 1 && 1 <= ParamSlots(params)[x] <= |params|
  {
    if params != [] {
      BindParamsOk(params[..|params| - 1], base);
    }
  }

  /** The machine after a function was left: in the caller, or halted in the entry function. */
  ghost predicate Left(c: Ctx, exec: seq<int>, mem: seq<int>, m: Machine) {
    if c.ipStack == [] then m == Conf(c, m.ip, exec, mem).(status := Halted)
    else m == Conf(Ctx(c.fp, Rest(c.ipStack), Rest(c.funcs), c.globals), Top(c.ipStack), exec, mem)
  }

  /** Code of the callee of a call: the identifier push turned into a `CALL`. */
  function CalleeCode(callee: Expr, slots: Slots): seq<Op> {
    var g := Gen(callee, slots);
    if g.last.Some? then Rewrite(g, OpCode.Call).code else g.code
  }

  lemma CalleeIsCall(f: string, slots: Slots)
    requires f !in slots
    ensures CalleeCode(Ident(f), slots) == [Op(OpCode.Call, 0, f)]
  {
  }

  lemma CalleePlaced(w: Site, f: string, pos: int, size: nat)
    requires f !in w.env && Placed(w, pos, CalleeCode(Ident(f), w.slots), size)
    ensures CalleeCode(Ident(f), w.slots) == [Op(OpCode.Call, 0, f)]
  {
    hide CodeAt, Linked, CalleeCode;
    CalleeIsCall(f, w.slots);
  }

  lemma CallMeaning(p: Program, e: Expr, env: Env, mem: seq<int>, fuel: nat)
    requires e.Call?
    ensures EvalExpr(p, e, env, mem, fuel) ==
            var ra := EvalExpr(p, e.args, env, mem, fuel);
            if ra.Stopped? then ra
            else if !e.callee.Ident? || e.callee.name in env || e.callee.name !in p then Stopped(IllFormed)
            else if fuel == 0 then Stopped(OutOfFuel)
            else CallFunction(p, p[e.callee.name], ra.vals, ra.mem, fuel - 1)
  {
    hide CallFunction;
  }

  lemma CallOk(w: Site, e: Expr, pos: int, exec: seq<int>, mem: seq<int>, fuel: nat) returns (n: nat)
    requires e.Call? && Placed(w, pos, Gen(e, w.slots).code, |mem|)
    ensures ExprRuns(w, e, pos, exec, mem, fuel, n)
    decreases fuel, e, 3
  {
    hide Run, UnitBlocks, CodeAt, CallFunction, CalleeCode, Gen, EvalExpr, SiteOk;
    var m, ga, gc := Conf(w.c, pos, exec, mem), Gen(e.args, w.slots).code, CalleeCode(e.callee, w.slots);
    var ra := EvalExpr(w.p, e.args, w.env, mem, fuel);
    CallShape(e, w.slots);
    CallMeaning(w.p, e, w.env, mem, fuel);
    CodeSplit(w.image, w.c, pos, ga, gc);
    n := ExprOk(w, e.args, pos, exec, mem, fuel);
    if ra.Done? && e.callee.Ident? && e.callee.name !in w.env && e.callee.name in w.p && fuel > 0 {
      var f := e.callee.name;
      CalleePlaced(w, f, pos + |ga|, |mem|);
      var k := InvokeOk(w, f, pos + |ga|, exec, ra.vals, ra.mem, fuel);
      hide Matches;
      n := ThenMore(w.image, m, n, ra.vals, ra.mem, w.c, pos + |ga|, exec, k,
                     CallFunction(w.p, w.p[f], ra.vals, ra.mem, fuel - 1), pos + |ga| + 1, exec, fuel);
    }
  }

  lemma CallShape(e: Expr, slots: Slots)
    requires e.Call?
    ensures Gen(e, slots).code == Gen(e.args, slots).code + CalleeCode(e.callee, slots)
  {
  }

  /** From the `CALL` opcode to the opcode after it: the arguments are consumed, the results
      pushed and everything else of the activation is as before. */
  lemma InvokeOk(w: Site, f: string, pos: int, exec: seq<int>, args: seq<int>, mem: seq<int>, fuel: nat)
    returns (n: nat)
    requires fuel > 0 && f in w.p && Placed(w, pos, [Op(OpCode.Call, 0, f)], |mem|)
    ensures Matches(w.image, Conf(w.c, pos, exec + Reverse(args), mem), n,
                    CallFunction(w.p, w.p[f], args, mem, fuel - 1), w.c, pos + 1, exec, fuel)
    decreases fuel - 1, w.p[f].body, 2
  {
    hide Run, UnitBlocks, CallFunction;
    var m := Conf(w.c, pos, exec + Reverse(args), mem);
    var c1 := Ctx(w.c.fp, w.c.ipStack + [pos + 1], w.c.funcs + [f], w.c.globals);
    CallStep(w.image, w.c, pos, f, exec + Reverse(args), mem);
    n := FunctionOk(w.p, w.image, f, c1, exec, args, mem, fuel - 1);
    RunAdd(w.image, m, 1, n);
    assert Rest(c1.ipStack) == w.c.ipStack && Rest(c1.funcs) == w.c.funcs;
    n := 1 + n;
  }

  lemma CallStep(image: Image, c: Ctx, pos: int, f: string, exec: seq<int>, mem: seq<int>)
    requires f in image
    requires CodeAt(image, c, pos, [Op(OpCode.Call, 0, f)])
    ensures Run(image, Conf(c, pos, exec, mem), 1) ==
            Conf(Ctx(c.fp, c.ipStack + [pos + 1], c.funcs + [f], c.globals), 0, exec, mem)
  {
    OneStep(image, Conf(c, pos, exec, mem));
    StepAt(image, c, pos, Op(OpCode.Call, 0, f), exec, mem);
  }

  /** What a function entered at `n = 0` with its arguments on the stack must have done. */
  ghost predicate FunctionRuns(image: Image, c: Ctx, n: nat, m: Machine, r: Value, exec: seq<int>, fuel: nat) {
    var m' := Run(image, m, n);
    match r
    case Done(vals, mem) => Left(c, exec + Reverse(vals), mem, m')
    case Stopped(OutOfFuel) => n >= fuel && m'.status.Running?
    case Stopped(Fault) => m'.status.Failed?
    case Stopped(Undefined) => c.globals == [] ==> m'.status.Stuck?
    case _ => true
  }

  lemma FunctionOk(p: Program, image: Image, f: string, c: Ctx, exec: seq<int>, args: seq<int>, mem: seq<int>,
                   fuel: nat)
    returns (n: nat)
    requires Linked(p, image) && f in p && Fits(|mem|)
    requires c.funcs != [] && c.funcs[|c.funcs| - 1] == f
    ensures FunctionRuns(image, c, n, Conf(c, 0, exec + Reverse(args), mem),
                         CallFunction(p, p[f], args, mem, fuel), exec, fuel)
    decreases fuel, p[f].body, 1
  {
    hide Run, CodeAt, UnitBlocks, GenStmts, GenFunction, Linked, ExecAll;
    n := 0;
    WholeCode(p, image, c, f);
    FunctionPlaced(image, p[f], c, |mem|);
    if |args| == |p[f].params| && Fits(|mem| + |args|) {
      var m := Conf(c, 0, exec + Reverse(args), mem);
      var w, pos := BodySite(p, image, p[f], c, |mem|), BodyStart(p[f]);
      BodySiteOk(p, image, p[f], c, |mem|);
      n := FunctionEntry(image, c, p[f], exec, args, mem);
      assert Rest(w.c.fp) == c.fp;
      var o := ExecAll(p, p[f].body, w.env, mem + args, 0, fuel);
      var k := StmtsOk(w, p[f].body, 0, None, pos, exec, mem + args, fuel);
      RunAdd(image, m, n, k);
      n := n + k;
      if o.Next? {
        var end := pos + |BodyCode(p[f])|;
        assert exec + Reverse([]) == exec;
        if p[f].results == 0 {
          k := ReturnSteps(image, w.c, end, exec, o.mem);
        } else {
          InvalidStep(image, w.c, end, exec, o.mem);
          k := 1;
        }
        RunAdd(image, m, n, k);
        n := n + k;
      }
    } else if |args| == |p[f].params| && c.globals == [] {
      n := EntrySticks(image, c, p[f], exec, args, mem);
    }
  }

  lemma InvalidStep(image: Image, c: Ctx, pos: int, exec: seq<int>, mem: seq<int>)
    requires CodeAt(image, c, pos, [Plain(Invalid, 0)])
    ensures Run(image, Conf(c, pos, exec, mem), 1).status.Failed?
  {
  }

  function Entered(c: Ctx, base: nat): Ctx {
    c.(fp := c.fp + [base])
  }

  function BodySite(p: Program, image: Image, f: Function, c: Ctx, base: nat): Site {
    Site(p, image, ParamSlots(f.params), BindParams(f.params, base), |f.params|, Entered(c, base))
  }

  function BodyStart(f: Function): nat {
    1 + |ParamOps(|f.params|)|
  }

  function BodyCode(f: Function): seq<Op> {
    GenStmts(f.body, ParamSlots(f.params), |f.params|, 0, None).code
  }

  lemma FourParts(image: Image, c: Ctx, base: nat, a: seq<Op>, b: seq<Op>, d: seq<Op>, e: seq<Op>)
    requires CodeAt(image, c, 0, a + (b + (d + e)))
    ensures CodeAt(image, c, 0, a) && CodeAt(image, Entered(c, base), |a|, b)
    ensures CodeAt(image, Entered(c, base), |a| + |b|, d) && CodeAt(image, Entered(c, base), |a| + |b| + |d|, e)
  {
    CodeSplit(image, c, 0, a, b + (d + e));
    CodeSplit(image, c, |a|, b, d + e);
    CodeSplit(image, c, |a| + |b|, d, e);
  }

  lemma BodySiteOk(p: Program, image: Image, f: Function, c: Ctx, base: nat)
    requires Linked(p, image) && Fits(base + |f.params|)
    ensures SiteOk(BodySite(p, image, f, c, base), base + |f.params|)
  {
    hide Linked;
    BindParamsOk(f.params, base);
  }

  lemma FunctionPlaced(image: Image, f: Function, c: Ctx, base: nat)
    requires CodeAt(image, c, 0, GenFunction(f))
    ensures CodeAt(image, c, 0, [Plain(StackFramePush, 0)])
    ensures CodeAt(image, Entered(c, base), 1, ParamOps(|f.params|))
    ensures CodeAt(image, Entered(c, base), 1 + |ParamOps(|f.params|)|, BodyCode(f))
    ensures CodeAt(image, Entered(c, base), 1 + |ParamOps(|f.params|)| + |BodyCode(f)|, Epilogue(f))
  {
    FunctionCode(f);
    hide *;
    FourParts(image, c, base, [Plain(StackFramePush, 0)], ParamOps(|f.params|), BodyCode(f), Epilogue(f));
  }

  lemma WholeCode(p: Program, image: Image, c: Ctx, f: string)
    requires Linked(p, image) && f in p && c.funcs != [] && c.funcs[|c.funcs| - 1] == f
    ensures CodeAt(image, c, 0, GenFunction(p[f]))
  {
  }

  lemma FunctionCode(f: Function)
    ensures GenFunction(f) == [Plain(StackFramePush, 0)] + (ParamOps(|f.params|) + (BodyCode(f) + Epilogue(f)))
  {
  }

  /** `SF_PUSH` and the parameter stores: the arguments become the first cells of the frame. */
  lemma FunctionEntry(image: Image, c: Ctx, f: Function, exec: seq<int>, args: seq<int>, mem: seq<int>) returns (n: nat)
    requires |args| == |f.params| && Fits(|mem| + |args|)
    requires CodeAt(image, c, 0, [Plain(StackFramePush, 0)])
    requires CodeAt(image, Entered(c, |mem|), 1, ParamOps(|f.params|))
    ensures Run(image, Conf(c, 0, exec + Reverse(args), mem), n) ==
            Conf(Entered(c, |mem|), BodyStart(f), exec, mem + args)
  {
    FramePushStep(image, c, 0, exec + Reverse(args), mem);
    hide Run, CodeAt, UnitBlocks;
    n := ParamSteps(image, Entered(c, |mem|), 1, exec, args, mem);
    RunAdd(image, Conf(c, 0, exec + Reverse(args), mem), 1, n);
    n := 1 + n;
  }

  /** More arguments than there are cells left. */
  lemma EntrySticks(image: Image, c: Ctx, f: Function, exec: seq<int>, args: seq<int>, mem: seq<int>) returns (n: nat)
    requires |args| == |f.params| && Fits(|mem|) && !Fits(|mem| + |args|) && c.globals == []
    requires CodeAt(image, c, 0, [Plain(StackFramePush, 0)])
    requires CodeAt(image, Entered(c, |mem|), 1, ParamOps(|f.params|))
    ensures Run(image, Conf(c, 0, exec + Reverse(args), mem), n).status.Stuck?
  {
    FramePushStep(image, c, 0, exec + Reverse(args), mem);
    hide Run, CodeAt, UnitBlocks;
    n := ParamSticks(image, Entered(c, |mem|), 1, exec, args, mem);
    RunAdd(image, Conf(c, 0, exec + Reverse(args), mem), 1, n);
    n := 1 + n;
  }

  lemma FramePushStep(image: Image, c: Ctx, pos: int, exec: seq<int>, mem: seq<int>)
    requires CodeAt(image, c, pos, [Plain(StackFramePush, 0)])
    ensures Run(image, Conf(c, pos, exec, mem), 1) == Conf(Entered(c, |mem|), pos + 1, exec, mem)
  {
  }

  // ----- statements -----

  ghost predicate OutcomeIs(w: Site, m: Machine, n: nat, o: Outcome, slots: Slots, index: int, end: int, exit: Exit,
                            exec: seq<int>, fuel: nat)
  {
    var m' := Run(w.image, m, n);
    match o
    case Next(env, mem) => m' == Conf(w.c, end, exec, mem) && EnvOk(env, slots, w.c, |mem|, index)
    case Broke(mem) => exit.Some? ==> m' == Conf(w.c, end + exit.value, exec, mem)
    case Returned(vals, mem) => 0 <= Top(w.c.fp) <= |mem| && ReturnedTo(w.c, exec + Reverse(vals), mem, m')
    case Ended(why) => EndsAs(w.c, w.image, m, n, why, fuel)
  }

  ghost predicate EndsAs(c: Ctx, image: Image, m: Machine, n: nat, why: Reason, fuel: nat) {
    (why.OutOfFuel? ==> n >= fuel && Run(image, m, n).status.Running?) &&
    (why.Fault? ==> Run(image, m, n).status.Failed?) &&
    (why.Undefined? && c.globals == [] ==> Run(image, m, n).status.Stuck?)
  }

  ghost predicate StmtRuns(w: Site, s: Stmt, live: nat, exit: Exit, pos: int, exec: seq<int>, mem: seq<int>, fuel: nat,
                           n: nat) {
    OutcomeIs(w, Conf(w.c, pos, exec, mem), n, Exec(w.p, s, w.env, mem, live, fuel),
              SlotsAfter(s, w.slots, w.index), IndexAfter(s, w.index),
              pos + |GenStmt(s, w.slots, w.index, live, exit).code|, exit, exec, fuel)
  }

  ghost predicate BlockRuns(w: Site, ss: seq<Stmt>, exit: Exit, pos: int, exec: seq<int>, mem: seq<int>, fuel: nat,
                            n: nat) {
    OutcomeIs(w, Conf(w.c, pos, exec, mem), n, ExecBlock(w.p, ss, w.env, mem, fuel), w.slots, w.index,
              pos + |GenBlock(ss, w.slots, w.index, false, exit).code|, exit, exec, fuel)
  }

  function SlotsAfterAll(ss: seq<Stmt>, slots: Slots, index: int): (Slots, int) {
    if ss == [] then (slots, index)
    else SlotsAfterAll(ss[1..], SlotsAfter(ss[0], slots, index), IndexAfter(ss[0], index))
  }

  ghost predicate StmtsRun(w: Site, ss: seq<Stmt>, live: nat, exit: Exit, pos: int, exec: seq<int>, mem: seq<int>,
                           fuel: nat, n: nat) {
    OutcomeIs(w, Conf(w.c, pos, exec, mem), n, ExecAll(w.p, ss, w.env, mem, live, fuel),
              SlotsAfterAll(ss, w.slots, w.index).0, SlotsAfterAll(ss, w.slots, w.index).1,
              pos + |GenStmts(ss, w.slots, w.index, live, exit).code|, exit, exec, fuel)
  }

  lemma Continued(w: Site, w': Site, m: Machine, n: nat, mid: Machine, k: nat, o: Outcome, slots: Slots, index: int,
                  end: int, exit: Exit,
                  exec: seq<int>, fuel: nat)
    returns (total: nat)
    requires w.image == w'.image && w.c == w'.c
    requires Run(w.image, m, n) == mid
    requires OutcomeIs(w', mid, k, o, slots, index, end, exit, exec, fuel)
    ensures total == n + k
    ensures OutcomeIs(w, m, total, o, slots, index, end, exit, exec, fuel)
  {
    hide Run, Conf, UnitBlocks, ReturnedTo;
    total := n + k;
    RunAdd(w.image, m, n, k);
  }

  lemma StmtOk(w: Site, s: Stmt, live: nat, exit: Exit, pos: int, exec: seq<int>, mem: seq<int>, fuel: nat)
    returns (n: nat)
    requires Placed(w, pos, GenStmt(s, w.slots, w.index, live, exit).code, |mem|) && live <= w.index
    ensures StmtRuns(w, s, live, exit, pos, exec, mem, fuel, n)
    decreases fuel, s, 5
  {
    hide Run, OutcomeIs, CodeAt, UnitBlocks, SiteOk;
    match s
    case Declare(ds) => n := DeclsOk(w, ds, exit, pos, exec, mem, fuel);
    case Compound(body) => n := BlockOk(w, body, exit, pos, exec, mem, fuel);
    case If(_, _) => n := IfOk(w, s, live, exit, pos, exec, mem, fuel);
    case IfElse(_, _, _) => n := IfElseOk(w, s, live, exit, pos, exec, mem, fuel);
    case While(_, _) => n := WhileOk(w, s, live, exit, pos, exec, mem, fuel);
    case Return(_) => n := ReturnOk(w, s, live, exit, pos, exec, mem, fuel);
    case Break => n := BreakOk(w, live, exit, pos, exec, mem, fuel);
    case Continue => n := 0; IllFormedRuns(w, s, live, exit, pos, exec, mem, fuel);
    case Eval(_) => n := EvalOk(w, s, live, exit, pos, exec, mem, fuel);
  }

  lemma IllFormedRuns(w: Site, s: Stmt, live: nat, exit: Exit, pos: int, exec: seq<int>, mem: seq<int>, fuel: nat)
    requires Exec(w.p, s, w.env, mem, live, fuel) == Ended(IllFormed)
    ensures StmtRuns(w, s, live, exit, pos, exec, mem, fuel, 0)
  {
  }

  /** A condition and the `JUMP_IF_NOT` after it. */
  lemma CondOk(w: Site, e: Expr, d: nat, pos: int, exec: seq<int>, mem: seq<int>, fuel: nat) returns (n: nat)
    requires Placed(w, pos, Gen(e, w.slots).code + [Plain(JumpIfNot, d)], |mem|)
    ensures var r := Single(EvalExpr(w.p, e, w.env, mem, fuel));
            var next := pos + |Gen(e, w.slots).code| + 1;
            var m := Conf(w.c, pos, exec, mem);
            if r.Done?
            then n >= 1 && Run(w.image, m, n) == Conf(w.c, if r.vals[0] != 0 then next else next + d, exec, r.mem)
            else EndsAs(w.c, w.image, m, n, r.why, fuel)
    decreases fuel, e, 5
  {
    hide Run, UnitBlocks, CodeAt, SiteOk, Gen, EvalExpr;
    var g := Gen(e, w.slots).code;
    CodeSplit(w.image, w.c, pos, g, [Plain(JumpIfNot, d)]);
    n := ExprOk(w, e, pos, exec, mem, fuel);
    var r := EvalExpr(w.p, e, w.env, mem, fuel);
    if r.Done? && |r.vals| == 1 {
      OnTop(exec, r.vals);
      BranchStep(w.image, w.c, pos + |g|, JumpIfNot, d, exec, r.vals[0], r.mem);
      RunAdd(w.image, Conf(w.c, pos, exec, mem), n, 1);
      n := n + 1;
    }
  }

  /** The initial value and the fresh cell of one declared local. */
  lemma DeclOk(w: Site, d: Decl, pos: int, exec: seq<int>, mem: seq<int>, fuel: nat) returns (n: nat)
    requires Placed(w, pos, GenDecl(d, w.slots), |mem|)
    ensures var r := if d.init.Some? then Single(EvalExpr(w.p, d.init.value, w.env, mem, fuel)) else Done([0], mem);
            var m := Conf(w.c, pos, exec, mem);
            if r.Stopped? then EndsAs(w.c, w.image, m, n, r.why, fuel)
            else if !Fits(|r.mem| + 1) then EndsAs(w.c, w.image, m, n, Undefined, fuel)
            else Run(w.image, m, n) == Conf(w.c, pos + |GenDecl(d, w.slots)|, exec, r.mem + [r.vals[0]])
    decreases fuel, d, 0
  {
    hide Run, UnitBlocks, CodeAt, SiteOk, Gen, EvalExpr;
    var m := Conf(w.c, pos, exec, mem);
    var g := if d.init.Some? then Gen(d.init.value, w.slots).code else [Plain(PushUnsign, 0)];
    CodeSplit(w.image, w.c, pos, g, [Plain(Alloc, 1), Plain(Store, 0)]);
    var r := if d.init.Some? then EvalExpr(w.p, d.init.value, w.env, mem, fuel) else Done([0], mem);
    if d.init.Some? {
      n := ExprOk(w, d.init.value, pos, exec, mem, fuel);
    } else {
      PushStep(w.image, w.c, pos, Plain(PushUnsign, 0), exec, mem, fuel);
      n := 1;
    }
    if r.Done? && |r.vals| == 1 {
      OnTop(exec, r.vals);
      if Fits(|r.mem| + 1) {
        var k := AllocStoreSteps(w.image, w.c, pos + |g|, exec, r.vals[0], r.mem);
        RunAdd(w.image, m, n, k);
        n := n + k;
      } else if w.c.globals == [] {
        SizeKept(w, mem);
        AllocSticks(w.image, w.c, pos + |g|, exec, r.vals[0], r.mem);
        RunAdd(w.image, m, n, 2);
        n := n + 2;
      }
    }
  }

  function WithLocal(w: Site, x: string, size: nat): Site {
    w.(slots := w.slots[x := w.index + 1], env := w.env[x := size], index := w.index + 1)
  }

  /** The new local lives in the cell its slot denotes: no other local shares it. */
  lemma WithLocalOk(w: Site, x: string, size: nat)
    requires SiteOk(w, size) && Fits(size + 1)
    ensures SiteOk(WithLocal(w, x, size), size + 1)
  {
  }

  lemma NoDecls(w: Site, exit: Exit, pos: int, exec: seq<int>, mem: seq<int>, fuel: nat)
    requires SiteOk(w, |mem|)
    ensures OutcomeIs(w, Conf(w.c, pos, exec, mem), 0, Next(w.env, mem), w.slots, w.index, pos, exit, exec, fuel)
  {
  }

  lemma EndsOk(w: Site, m: Machine, n: nat, why: Reason, slots: Slots, index: int, end: int, exit: Exit, exec: seq<int>,
               fuel: nat)
    requires EndsAs(w.c, w.image, m, n, why, fuel)
    ensures OutcomeIs(w, m, n, Ended(why), slots, index, end, exit, exec, fuel)
  {
  }

  lemma DeclsOk(w: Site, ds: seq<Decl>, exit: Exit, pos: int, exec: seq<int>, mem: seq<int>, fuel: nat) returns (n: nat)
    requires Placed(w, pos, GenDecls(ds, w.slots, w.index), |mem|)
    ensures OutcomeIs(w, Conf(w.c, pos, exec, mem), n, DeclareAll(w.p, ds, w.env, mem, fuel),
                      SlotsAfterDecls(ds, w.slots, w.index), w.index + |ds|,
                      pos + |GenDecls(ds, w.slots, w.index)|, exit, exec, fuel)
    decreases fuel, ds, 0
  {
    hide Run, UnitBlocks, CodeAt, SiteOk, OutcomeIs, EndsAs, GenDecl;
    var m := Conf(w.c, pos, exec, mem);
    if ds == [] {
      n := 0;
      NoDecls(w, exit, pos, exec, mem, fuel);
    } else {
      var d := ds[0];
      var first, rest := GenDecl(d, w.slots), GenDecls(ds[1..], w.slots[d.name := w.index + 1], w.index + 1);
      var slots, index, end := SlotsAfterDecls(ds, w.slots, w.index), w.index + |ds|, pos + |first| + |rest|;
      CodeSplit(w.image, w.c, pos, first, rest);
      n := DeclOk(w, d, pos, exec, mem, fuel);
      var r := if d.init.Some? then Single(EvalExpr(w.p, d.init.value, w.env, mem, fuel)) else Done([0], mem);
      if r.Stopped? {
        EndsOk(w, m, n, r.why, slots, index, end, exit, exec, fuel);
      } else if !Fits(|r.mem| + 1) {
        EndsOk(w, m, n, Undefined, slots, index, end, exit, exec, fuel);
      } else {
        var w' := WithLocal(w, d.name, |mem|);
        WithLocalOk(w, d.name, |mem|);
        var mem' := r.mem + [r.vals[0]];
        var k := DeclsOk(w', ds[1..], exit, pos + |first|, exec, mem', fuel);
        hide EvalExpr;
        n := Continued(w, w', m, n, Conf(w.c, pos + |first|, exec, mem'), k,
                       DeclareAll(w.p, ds[1..], w'.env, mem', fuel), slots, index,
                       end, exit, exec, fuel);
      }
    }
  }

  lemma BlockPlaced(w: Site, ss: seq<Stmt>, exit: Exit, pos: int, size: nat)
    requires Placed(w, pos, GenBlock(ss, w.slots, w.index, false, exit).code, size)
    ensures var tail := FreeOps(DeclaredAll(ss));
            var body := GenStmts(ss, w.slots, w.index, 0, Farther(exit, |tail|)).code;
            && Placed(w, pos, body, size) && CodeAt(w.image, w.c, pos + |body|, tail)
            && |GenBlock(ss, w.slots, w.index, false, exit).code| == |body| + |tail|
  {
    var tail := FreeOps(DeclaredAll(ss));
    CodeSplit(w.image, w.c, pos, GenStmts(ss, w.slots, w.index, 0, Farther(exit, |tail|)).code, tail);
  }

  /** A `break` seen from outside its block: there the cells of the block are gone already. */
  lemma BlockOk(w: Site, ss: seq<Stmt>, exit: Exit, pos: int, exec: seq<int>, mem: seq<int>, fuel: nat) returns (n: nat)
    requires Placed(w, pos, GenBlock(ss, w.slots, w.index, false, exit).code, |mem|)
    ensures BlockRuns(w, ss, exit, pos, exec, mem, fuel, n)
    decreases fuel, ss, 1
  {
    hide Run, UnitBlocks, CodeAt, SiteOk, GenStmts;
    var tail := FreeOps(DeclaredAll(ss));
    var body := GenStmts(ss, w.slots, w.index, 0, Farther(exit, |tail|)).code;
    var m := Conf(w.c, pos, exec, mem);
    var o := ExecAll(w.p, ss, w.env, mem, 0, fuel);
    var all := SlotsAfterAll(ss, w.slots, w.index);
    BlockPlaced(w, ss, exit, pos, |mem|);
    SizeKept(w, mem);
    n := StmtsOk(w, ss, 0, Farther(exit, |tail|), pos, exec, mem, fuel);
    if o.Next? {
      var k := FreeOpsSteps(w.image, w.c, pos + |body|, DeclaredAll(ss), exec, o.mem);
      RunAdd(w.image, m, n, k);
      n := n + k;
    }
  }

  lemma SizeKept(w: Site, mem: seq<int>)
    requires SiteOk(w, |mem|)
    ensures EnvOk(w.env, w.slots, w.c, |mem|, w.index)
  {
  }

  lemma IfOk(w: Site, s: Stmt, live: nat, exit: Exit, pos: int, exec: seq<int>, mem: seq<int>, fuel: nat)
    returns (n: nat)
    requires s.If? && Placed(w, pos, GenStmt(s, w.slots, w.index, live, exit).code, |mem|)
    ensures StmtRuns(w, s, live, exit, pos, exec, mem, fuel, n)
    decreases fuel, s, 4
  {
    hide Run, UnitBlocks, CodeAt, SiteOk, OutcomeIs, EndsAs, GenBlock, ExecBlock, Gen, EvalExpr;
    var m := Conf(w.c, pos, exec, mem);
    var body := GenBlock(s.body, w.slots, w.index, false, exit).code;
    var head := Gen(s.cond, w.slots).code + [Plain(JumpIfNot, |body|)];
    var end := pos + |head| + |body|;
    assert GenStmt(s, w.slots, w.index, live, exit).code == head + body;
    CodeSplit(w.image, w.c, pos, head, body);
    n := CondOk(w, s.cond, |body|, pos, exec, mem, fuel);
    var r := Single(EvalExpr(w.p, s.cond, w.env, mem, fuel));
    if r.Stopped? {
      EndsOk(w, m, n, r.why, w.slots, w.index, end, exit, exec, fuel);
    } else if r.vals[0] != 0 {
      var k := BlockOk(w, s.body, exit, pos + |head|, exec, r.mem, fuel);
      n := Continued(w, w, m, n, Conf(w.c, pos + |head|, exec, r.mem), k,
                     ExecBlock(w.p, s.body, w.env, r.mem, fuel), w.slots, w.index, end, exit, exec, fuel);
    } else {
      NoDecls(w, exit, end, exec, r.mem, fuel);
      n := Continued(w, w, m, n, Conf(w.c, end, exec, r.mem), 0, Next(w.env, r.mem), w.slots, w.index, end, exit, exec,
                     fuel);
    }
  }

  lemma IfElseCode(c: seq<Op>, b: Piece, e: Piece)
    ensures IfElsePiece(c, b, e).code == ((c + [Plain(JumpIfNot, |b.code| + 1)]) + b.code) +
            ([Plain(Jump, |e.code|)] + e.code)
  {
  }

  lemma IfElsePlaced(w: Site, s: Stmt, live: nat, exit: Exit, pos: int, size: nat)
    requires s.IfElse? && Placed(w, pos, GenStmt(s, w.slots, w.index, live, exit).code, size)
    ensures var els := GenStmt(s.otherwise, w.slots, w.index, 0, exit).code;
            var body := GenBlock(s.body, w.slots, w.index, false, Farther(exit, 1 + |els|)).code;
            var head := Gen(s.cond, w.slots).code + [Plain(JumpIfNot, |body| + 1)];
            && Placed(w, pos, head, size)
            && CodeAt(w.image, w.c, pos + |head|, body)
            && CodeAt(w.image, w.c, pos + |head| + |body|, [Plain(Jump, |els|)])
            && CodeAt(w.image, w.c, pos + |head| + |body| + 1, els)
            && |GenStmt(s, w.slots, w.index, live, exit).code| == |head| + |body| + 1 + |els|
  {
    hide CodeAt, SiteOk, GenBlock, IfElsePiece;
    var els := GenStmt(s.otherwise, w.slots, w.index, 0, exit).code;
    var body := GenBlock(s.body, w.slots, w.index, false, Farther(exit, 1 + |els|)).code;
    var head := Gen(s.cond, w.slots).code + [Plain(JumpIfNot, |body| + 1)];
    IfElseCode(Gen(s.cond, w.slots).code, GenBlock(s.body, w.slots, w.index, false, Farther(exit, 1 + |els|)),
               GenStmt(s.otherwise, w.slots, w.index, 0, exit));
    CodeSplit(w.image, w.c, pos, head + body, [Plain(Jump, |els|)] + els);
    CodeSplit(w.image, w.c, pos, head, body);
    CodeSplit(w.image, w.c, pos + |head| + |body|, [Plain(Jump, |els|)], els);
  }

  lemma IfElseOk(w: Site, s: Stmt, live: nat, exit: Exit, pos: int, exec: seq<int>, mem: seq<int>, fuel: nat)
    returns (n: nat)
    requires s.IfElse? && Placed(w, pos, GenStmt(s, w.slots, w.index, live, exit).code, |mem|)
    ensures StmtRuns(w, s, live, exit, pos, exec, mem, fuel, n)
    decreases fuel, s, 4
  {
    hide Run, UnitBlocks, CodeAt, SiteOk, OutcomeIs, EndsAs, GenBlock, ExecBlock, GenStmt, Gen, EvalExpr;
    if BareElse(s) {
      n := 0;
      IllFormedRuns(w, s, live, exit, pos, exec, mem, fuel);
      return;
    }
    ElseKeepsSlots(s, w.slots, w.index);
    SizeKept(w, mem);
    var m := Conf(w.c, pos, exec, mem);
    var els := GenStmt(s.otherwise, w.slots, w.index, 0, exit).code;
    var far := Farther(exit, 1 + |els|);
    var body := GenBlock(s.body, w.slots, w.index, false, far).code;
    var head := Gen(s.cond, w.slots).code + [Plain(JumpIfNot, |body| + 1)];
    var at, end := pos + |head|, pos + |head| + |body| + 1 + |els|;
    IfElsePlaced(w, s, live, exit, pos, |mem|);
    n := CondOk(w, s.cond, |body| + 1, pos, exec, mem, fuel);
    var r := Single(EvalExpr(w.p, s.cond, w.env, mem, fuel));
    if r.Stopped? {
      EndsOk(w, m, n, r.why, w.slots, w.index, end, exit, exec, fuel);
    } else if r.vals[0] != 0 {
      var o := ExecBlock(w.p, s.body, w.env, r.mem, fuel);
      var mid := Conf(w.c, at, exec, r.mem);
      var k := BlockOk(w, s.body, far, at, exec, r.mem, fuel);
      if o.Next? {
        k := ThenJump(w, mid, k, o, at + |body|, far, |els|, exit, exec, fuel);
      } else {
        Propagated(w, mid, k, o, w.slots, w.index, at + |body|, far, w.slots, w.index, 1 + |els|, exit, exec, fuel);
      }
      n := Continued(w, w, m, n, mid, k, o, w.slots, w.index, end, exit, exec, fuel);
    } else {
      var o := Exec(w.p, s.otherwise, w.env, r.mem, 0, fuel);
      var k := StmtOk(w, s.otherwise, 0, exit, at + |body| + 1, exec, r.mem, fuel);
      n := Continued(w, w, m, n, Conf(w.c, at + |body| + 1, exec, r.mem), k, o, w.slots, w.index, end, exit, exec,
                     fuel);
    }
  }

  lemma ElseKeepsSlots(s: Stmt, slots: Slots, index: int)
    requires s.IfElse? && !BareElse(s)
    ensures SlotsAfter(s.otherwise, slots, index) == slots && IndexAfter(s.otherwise, index) == index
    ensures SlotsAfter(s, slots, index) == slots && IndexAfter(s, index) == index
    ensures Declared(s.otherwise) == 0
  {
  }

  /** The jump over the `else` part. */
  lemma ThenJump(w: Site, m: Machine, n: nat, o: Outcome, at: int, far: Exit, d: nat, exit: Exit, exec: seq<int>,
                 fuel: nat)
    returns (total: nat)
    requires o.Next? && CodeAt(w.image, w.c, at, [Plain(Jump, d)])
    requires OutcomeIs(w, m, n, o, w.slots, w.index, at, far, exec, fuel)
    ensures total == n + 1
    ensures OutcomeIs(w, m, total, o, w.slots, w.index, at + 1 + d, exit, exec, fuel)
  {
    hide Run, CodeAt, UnitBlocks;
    total := n + 1;
    JumpStep(w.image, w.c, at, d, exec, o.mem);
    RunAdd(w.image, m, n, 1);
  }

  lemma LoopShape(c: seq<Op>, body: seq<Op>)
    ensures var head := c + [Plain(JumpIfNot, |body| + 1)];
            LoopCode(c, body) == (head + body) + [Plain(Jump, -(|head| + |body| + 1))]
  {
  }

  lemma WhilePlaced(w: Site, s: Stmt, live: nat, exit: Exit, pos: int, size: nat)
    requires s.While? && Placed(w, pos, GenStmt(s, w.slots, w.index, live, exit).code, size)
    ensures var body := GenBlock(s.body, w.slots, w.index, false, Some(1)).code;
            var head := Gen(s.cond, w.slots).code + [Plain(JumpIfNot, |body| + 1)];
            && Placed(w, pos, head, size)
            && CodeAt(w.image, w.c, pos + |head|, body)
            && CodeAt(w.image, w.c, pos + |head| + |body|, [Plain(Jump, -(|head| + |body| + 1))])
            && |GenStmt(s, w.slots, w.index, live, exit).code| == |head| + |body| + 1
  {
    hide CodeAt, SiteOk, GenBlock, LoopCode;
    var body := GenBlock(s.body, w.slots, w.index, false, Some(1)).code;
    var head := Gen(s.cond, w.slots).code + [Plain(JumpIfNot, |body| + 1)];
    LoopShape(Gen(s.cond, w.slots).code, body);
    CodeSplit(w.image, w.c, pos, head + body, [Plain(Jump, -(|head| + |body| + 1))]);
    CodeSplit(w.image, w.c, pos, head, body);
  }

  lemma WhileOk(w: Site, s: Stmt, live: nat, exit: Exit, pos: int, exec: seq<int>, mem: seq<int>, fuel: nat)
    returns (n: nat)
    requires s.While? && Placed(w, pos, GenStmt(s, w.slots, w.index, live, exit).code, |mem|)
    ensures StmtRuns(w, s, live, exit, pos, exec, mem, fuel, n)
    decreases fuel, s, 4
  {
    hide Run, UnitBlocks, CodeAt, SiteOk, OutcomeIs, EndsAs, GenBlock, ExecBlock, GenStmt, Gen, EvalExpr;
    var m := Conf(w.c, pos, exec, mem);
    var body := GenBlock(s.body, w.slots, w.index, false, Some(1)).code;
    var head := Gen(s.cond, w.slots).code + [Plain(JumpIfNot, |body| + 1)];
    var at, end := pos + |head|, pos + |head| + |body| + 1;
    WhilePlaced(w, s, live, exit, pos, |mem|);
    var total := ExecWhile(w.p, s, w.env, mem, live, fuel);
    assert Exec(w.p, s, w.env, mem, live, fuel) == total;
    n := CondOk(w, s.cond, |body| + 1, pos, exec, mem, fuel);
    var r := Single(EvalExpr(w.p, s.cond, w.env, mem, fuel));
    if r.Stopped? {
      EndsOk(w, m, n, r.why, w.slots, w.index, end, exit, exec, fuel);
    } else if r.vals[0] == 0 {
      NoDecls(w, exit, end, exec, r.mem, fuel);
      n := Continued(w, w, m, n, Conf(w.c, end, exec, r.mem), 0, Next(w.env, r.mem), w.slots, w.index, end, exit, exec,
                     fuel);
    } else {
      var o := ExecBlock(w.p, s.body, w.env, r.mem, fuel);
      var mid := Conf(w.c, at, exec, r.mem);
      var k := BlockOk(w, s.body, Some(1), at, exec, r.mem, fuel);
      match o
      case Next(_, mem1) =>
        BackToStart(w, mid, k, o, at + |body|, |head| + |body| + 1, exec, fuel);
        var again := Conf(w.c, pos, exec, mem1);
        if fuel > 0 {
          var i := WhileOk(w, s, live, exit, pos, exec, mem1, fuel - 1);
          LoopTurn(w, m, n, mid, k + 1, again, i, total, w.slots, w.index, end, exit, exec, fuel);
          n := n + (k + 1) + i;
        } else {
          RunAdd(w.image, m, n, k + 1);
          StillRunning(w.c, w.image, m, n + (k + 1), again);
          n := n + (k + 1);
          EndsOk(w, m, n, OutOfFuel, w.slots, w.index, end, exit, exec, fuel);
        }
      case Broke(mem1) =>
        LoopLeft(w, mid, k, o, at + |body|, exit, exec, fuel);
        n := Continued(w, w, m, n, mid, k, Next(w.env, mem1), w.slots, w.index, end, exit, exec, fuel);
      case _ =>
        ReturnedOrEnded(w, mid, k, o, w.slots, w.index, at + |body|, Some(1), end, exit, exec, fuel);
        n := Continued(w, w, m, n, mid, k, o, w.slots, w.index, end, exit, exec, fuel);
    }
  }

  lemma BackToStart(w: Site, m: Machine, n: nat, o: Outcome, at: int, d: int, exec: seq<int>, fuel: nat)
    requires o.Next? && CodeAt(w.image, w.c, at, [Plain(Jump, -d)])
    requires OutcomeIs(w, m, n, o, w.slots, w.index, at, Some(1), exec, fuel)
    ensures Run(w.image, m, n + 1) == Conf(w.c, at + 1 - d, exec, o.mem)
  {
    hide Run, CodeAt, UnitBlocks;
    JumpStep(w.image, w.c, at, -d, exec, o.mem);
    RunAdd(w.image, m, n, 1);
  }

  lemma StillRunning(c: Ctx, image: Image, m: Machine, n: nat, mid: Machine)
    requires Run(image, m, n) == mid && mid.status.Running?
    ensures EndsAs(c, image, m, n, OutOfFuel, 0)
  {
  }

  /** One turn of the loop spends at least one step, so one unit of fuel is paid for. */
  lemma LoopTurn(w: Site, m: Machine, n: nat, mid: Machine, k: nat, again: Machine, i: nat, o: Outcome,
                 slots: Slots, index: int, end: int, exit: Exit, exec: seq<int>, fuel: nat)
    requires fuel > 0 && n >= 1
    requires Run(w.image, m, n) == mid && Run(w.image, mid, k) == again
    requires OutcomeIs(w, again, i, o, slots, index, end, exit, exec, fuel - 1)
    ensures OutcomeIs(w, m, n + k + i, o, slots, index, end, exit, exec, fuel)
  {
    hide Run, Conf, UnitBlocks, ReturnedTo;
    RunAdd(w.image, m, n, k);
    RunAdd(w.image, m, n + k, i);
  }

  /** A patched `break` lands right behind the loop. */
  lemma LoopLeft(w: Site, m: Machine, n: nat, o: Outcome, at: int, exit: Exit, exec: seq<int>, fuel: nat)
    requires o.Broke? && SiteOk(w, |o.mem|)
    requires OutcomeIs(w, m, n, o, w.slots, w.index, at, Some(1), exec, fuel)
    ensures OutcomeIs(w, m, n, Next(w.env, o.mem), w.slots, w.index, at + 1, exit, exec, fuel)
  {
  }

  lemma ReturnedOrEnded(w: Site, m: Machine, n: nat, o: Outcome, slots: Slots, index: int, at: int, far: Exit,
                        end: int, exit: Exit, exec: seq<int>, fuel: nat)
    requires o.Returned? || o.Ended?
    requires OutcomeIs(w, m, n, o, slots, index, at, far, exec, fuel)
    ensures OutcomeIs(w, m, n, o, slots, index, end, exit, exec, fuel)
  {
  }

  lemma ReturnOk(w: Site, s: Stmt, live: nat, exit: Exit, pos: int, exec: seq<int>, mem: seq<int>, fuel: nat)
    returns (n: nat)
    requires s.Return? && Placed(w, pos, GenStmt(s, w.slots, w.index, live, exit).code, |mem|) && live <= w.index
    ensures StmtRuns(w, s, live, exit, pos, exec, mem, fuel, n)
    decreases fuel, s, 4
  {
    hide Run, UnitBlocks, CodeAt, EvalExpr, Gen, SiteOk;
    SizeKept(w, mem);
    var m := Conf(w.c, pos, exec, mem);
    var g, free := Gen(s.value, w.slots).code, FreeOps(live);
    var leave := [Plain(StackFramePop, 0), Plain(Ret, 0)];
    CodeSplit(w.image, w.c, pos, g + free, leave);
    CodeSplit(w.image, w.c, pos, g, free);
    n := ExprOk(w, s.value, pos, exec, mem, fuel);
    var r := EvalExpr(w.p, s.value, w.env, mem, fuel);
    if r.Done? {
      var exec1 := exec + Reverse(r.vals);
      var kept := r.mem[..|r.mem| - live];
      var k := FreeOpsSteps(w.image, w.c, pos + |g|, live, exec1, r.mem);
      var i := ReturnSteps(w.image, w.c, pos + |g| + |free|, exec1, kept);
      assert kept[..Top(w.c.fp)] == r.mem[..Top(w.c.fp)];
      RunAdd(w.image, m, n, k);
      RunAdd(w.image, m, n + k, i);
      n := n + k + i;
    }
  }

  lemma BreakOk(w: Site, live: nat, exit: Exit, pos: int, exec: seq<int>, mem: seq<int>, fuel: nat) returns (n: nat)
    requires Placed(w, pos, GenStmt(Break, w.slots, w.index, live, exit).code, |mem|)
    ensures StmtRuns(w, Break, live, exit, pos, exec, mem, fuel, n)
  {
    hide Run, UnitBlocks, CodeAt, SiteOk;
    n := 0;
    var jump := [Plain(Jump, ExitOperand(exit))];
    CodeSplit(w.image, w.c, pos, FreeOps(live), jump);
    if live <= |mem| {
      var kept := mem[..|mem| - live];
      var k := FreeOpsSteps(w.image, w.c, pos, live, exec, mem);
      JumpStep(w.image, w.c, pos + |FreeOps(live)|, ExitOperand(exit), exec, kept);
      RunAdd(w.image, Conf(w.c, pos, exec, mem), k, 1);
      n := k + 1;
    }
  }

  lemma EvalOk(w: Site, s: Stmt, live: nat, exit: Exit, pos: int, exec: seq<int>, mem: seq<int>, fuel: nat)
    returns (n: nat)
    requires s.Eval? && Placed(w, pos, GenStmt(s, w.slots, w.index, live, exit).code, |mem|)
    ensures StmtRuns(w, s, live, exit, pos, exec, mem, fuel, n)
    decreases fuel, s, 4
  {
    hide Run, UnitBlocks, CodeAt;
    n := ExprOk(w, s.expr, pos, exec, mem, fuel);
    assert exec + Reverse([]) == exec;
  }

  /** An outcome other than falling through is the same for a statement and what contains it. */
  lemma Propagated(w: Site, m: Machine, n: nat, o: Outcome, slots: Slots, index: int, end: int, exit: Exit,
                   slots': Slots, index': int, d: nat, exit': Exit, exec: seq<int>, fuel: nat)
    requires !o.Next? && exit == Farther(exit', d)
    requires OutcomeIs(w, m, n, o, slots, index, end, exit, exec, fuel)
    ensures OutcomeIs(w, m, n, o, slots', index', end + d, exit', exec, fuel)
  {
  }

  lemma StmtsPlaced(w: Site, ss: seq<Stmt>, live: nat, exit: Exit, pos: int, size: nat)
    requires ss != [] && Placed(w, pos, GenStmts(ss, w.slots, w.index, live, exit).code, size)
    ensures var rest := GenStmts(ss[1..], SlotsAfter(ss[0], w.slots, w.index), IndexAfter(ss[0], w.index),
                                 live + Declared(ss[0]), exit).code;
            var first := GenStmt(ss[0], w.slots, w.index, live, Farther(exit, |rest|)).code;
            && Placed(w, pos, first, size) && CodeAt(w.image, w.c, pos + |first|, rest)
            && |GenStmts(ss, w.slots, w.index, live, exit).code| == |first| + |rest|
  {
    var rest := GenStmts(ss[1..], SlotsAfter(ss[0], w.slots, w.index), IndexAfter(ss[0], w.index),
                         live + Declared(ss[0]), exit).code;
    var first := GenStmt(ss[0], w.slots, w.index, live, Farther(exit, |rest|)).code;
    CodeSplit(w.image, w.c, pos, first, rest);
  }

  lemma IndexAfterOk(s: Stmt, index: int)
    requires !BareElse(s)
    ensures IndexAfter(s, index) == index + Declared(s)
  {
  }

  lemma FellThrough(w: Site, m: Machine, n: nat, o: Outcome, slots: Slots, index: int, end: int, exit: Exit,
                    exec: seq<int>, fuel: nat)
    requires o.Next? && SiteOk(w, |m.data|)
    requires OutcomeIs(w, m, n, o, slots, index, end, exit, exec, fuel)
    ensures Run(w.image, m, n) == Conf(w.c, end, exec, o.mem)
    ensures SiteOk(w.(slots := slots, env := o.env, index := index), |o.mem|)
  {
  }

  lemma NothingRuns(w: Site, live: nat, exit: Exit, pos: int, exec: seq<int>, mem: seq<int>, fuel: nat)
    requires SiteOk(w, |mem|)
    ensures StmtsRun(w, [], live, exit, pos, exec, mem, fuel, 0)
  {
  }

  /** One statement and the rest: the evaluator, the slots and the distance to the exit. */
  lemma StmtsShape(w: Site, ss: seq<Stmt>, live: nat, mem: seq<int>, fuel: nat)
    requires ss != []
    ensures var o := Exec(w.p, ss[0], w.env, mem, live, fuel);
            && ExecAll(w.p, ss, w.env, mem, live, fuel) ==
               (if o.Next? then ExecAll(w.p, ss[1..], o.env, o.mem, live + Declared(ss[0]), fuel) else o)
            && (o.Next? ==> IndexAfter(ss[0], w.index) == w.index + Declared(ss[0]))
    ensures SlotsAfterAll(ss, w.slots, w.index) ==
            SlotsAfterAll(ss[1..], SlotsAfter(ss[0], w.slots, w.index), IndexAfter(ss[0], w.index))
  {
    if !BareElse(ss[0]) {
      IndexAfterOk(ss[0], w.index);
    }
    hide Exec, IndexAfter, SlotsAfter;
  }

  lemma StmtsOk(w: Site, ss: seq<Stmt>, live: nat, exit: Exit, pos: int, exec: seq<int>, mem: seq<int>, fuel: nat)
    returns (n: nat)
    requires Placed(w, pos, GenStmts(ss, w.slots, w.index, live, exit).code, |mem|) && live <= w.index
    ensures StmtsRun(w, ss, live, exit, pos, exec, mem, fuel, n)
    decreases fuel, ss, 0
  {
    hide Run, OutcomeIs, UnitBlocks, CodeAt, SiteOk, Exec, ExecAll, GenStmt, GenStmts, SlotsAfter, SlotsAfterAll,
         IndexAfter;
    if ss == [] {
      n := 0;
      NothingRuns(w, live, exit, pos, exec, mem, fuel);
    } else {
      var m := Conf(w.c, pos, exec, mem);
      var d := Declared(ss[0]);
      var slots, index := SlotsAfter(ss[0], w.slots, w.index), IndexAfter(ss[0], w.index);
      var rest := GenStmts(ss[1..], slots, index, live + d, exit).code;
      var near := Farther(exit, |rest|);
      var at := pos + |GenStmt(ss[0], w.slots, w.index, live, near).code|;
      var all := SlotsAfterAll(ss, w.slots, w.index);
      var o := Exec(w.p, ss[0], w.env, mem, live, fuel);
      StmtsPlaced(w, ss, live, exit, pos, |mem|);
      StmtsShape(w, ss, live, mem, fuel);
      n := StmtOk(w, ss[0], live, near, pos, exec, mem, fuel);
      if o.Next? {
        FellThrough(w, m, n, o, slots, index, at, near, exec, fuel);
        var w' := w.(slots := slots, env := o.env, index := index);
        var k := StmtsOk(w', ss[1..], live + d, exit, at, exec, o.mem, fuel);
        n := Continued(w, w', m, n, Conf(w.c, at, exec, o.mem), k, ExecAll(w.p, ss[1..], o.env, o.mem, live + d, fuel),
                       all.0, all.1, at + |rest|, exit, exec, fuel);
      } else {
        Propagated(w, m, n, o, slots, index, at, near, all.0, all.1, |rest|, exit, exec, fuel);
      }
    }
  }
}
