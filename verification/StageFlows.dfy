/**
  Generated code keeps the discipline: an expression leaves its values on the exec stack and
  nothing else, a statement leaves the exec stack as it was and the frame at `stack_index`.
*/
module StageFlows {
  import opened Word64
  import opened Ir
  import opened Source
  import opened Codegen
  import opened Correctness
  import opened Typing
  import opened FrameIndex
  import opened Stages

  predicate SlotsOk(slots: Slots, index: int) {
    forall x :: x in slots ==> 1 <= slots[x] <= index
  }

  /** No address is taken or followed. */
  predicate Scalar(e: Expr)
    decreases e
  {
    match e
    case Const(_) => true
    case Ident(_) => true
    case Unary(_, a) => Scalar(a)
    case Binary(_, a, b) => Scalar(a) && Scalar(b)
    case LogOr(a, b) => Scalar(a) && Scalar(b)
    case LogAnd(a, b) => Scalar(a) && Scalar(b)
    case Ref(_) => false
    case Deref(_) => false
    case Assign(l, b) => Scalar(l) && Scalar(b)
    case Swap(ts, b) => Scalar(b) && forall i :: 0 <= i < |ts| ==> Scalar(ts[i])
    case Call(_, args) => Scalar(args)
    case List(es) => forall i :: 0 <= i < |es| ==> Scalar(es[i])
    case Empty => true
  }

  /** What the code of an expression has to do: push `k` values. */
  ghost predicate Pushes(r: Rules, code: seq<Op>, ann: seq<Stage>, d: nat, index: nat, k: nat) {
    Flows(r, code, ann, In(d, index, false), In(d + k, index, false), {})
  }

  ghost predicate ExprReady(r: Rules, e: Expr, slots: Slots, index: nat, k: nat) {
    SlotsOk(slots, index) && Arity(r.p, slots.Keys, e) == Some(k) && (r.strict ==> Scalar(e))
  }

  lemma ExprFlows(r: Rules, e: Expr, slots: Slots, index: nat, d: nat, k: nat) returns (ann: seq<Stage>)
    requires ExprReady(r, e, slots, index, k)
    ensures Pushes(r, Gen(e, slots).code, ann, d, index, k)
    decreases e, 2
  {
    hide Flows, Gen, Effect, Pushes;
    match e
    case Const(_) => ann := LeafFlows(r, e, slots, index, d);
    case Ident(_) => ann := LeafFlows(r, e, slots, index, d);
    case Unary(_, _) => ann := UnaryFlows(r, e, slots, index, d);
    case Binary(_, _, _) => ann := BinaryFlows(r, e, slots, index, d);
    case LogOr(a, b) =>
      ShortCircuitCode(e, slots);
      ann := ShortCircuitFlows(r, e, JumpIf, a, b, slots, index, d);
    case LogAnd(a, b) =>
      ShortCircuitCode(e, slots);
      ann := ShortCircuitFlows(r, e, JumpIfNot, a, b, slots, index, d);
    case Ref(_) => ann := RefFlows(r, e, slots, index, d);
    case Deref(_) => ann := UnaryFlows(r, e, slots, index, d);
    case Assign(_, _) => ann := AssignFlows(r, e, slots, index, d);
    case Swap(_, _) => ann := SwapFlows(r, e, slots, index, d);
    case Call(_, _) => ann := CallFlows(r, e, slots, index, d, k);
    case List(es) =>
      ListCode(es, slots);
      ann := ListFlows(r, es, slots, index, d, k);
    case Empty => ann := NothingFlows(r, slots, index, d);
  }

  lemma ShortCircuitCode(e: Expr, slots: Slots)
    ensures e.LogOr? ==> Gen(e, slots) == GenShortCircuit(JumpIf, Gen(e.left, slots), Gen(e.right, slots))
    ensures e.LogAnd? ==> Gen(e, slots) == GenShortCircuit(JumpIfNot, Gen(e.left, slots), Gen(e.right, slots))
  {
  }

  lemma ListCode(es: seq<Expr>, slots: Slots)
    ensures Gen(List(es), slots) == GenList(es, slots)
  {
  }

  lemma NothingFlows(r: Rules, slots: Slots, index: nat, d: nat) returns (ann: seq<Stage>)
    ensures Pushes(r, Gen(Empty, slots).code, ann, d, index, 0)
  {
    NoCode(r, In(d, index, false), {});
    ann := [In(d, index, false)];
  }

  lemma LeafFlows(r: Rules, e: Expr, slots: Slots, index: nat, d: nat) returns (ann: seq<Stage>)
    requires (e.Const? || e.Ident?) && ExprReady(r, e, slots, index, 1)
    ensures Pushes(r, Gen(e, slots).code, ann, d, index, 1)
  {
    hide Flows;
    ann := [In(d, index, false), In(d + 1, index, false)];
    OneOp(r, Gen(e, slots).code[0], In(d, index, false), In(d + 1, index, false));
  }

  lemma UnaryFlows(r: Rules, e: Expr, slots: Slots, index: nat, d: nat) returns (ann: seq<Stage>)
    requires (e.Unary? || e.Deref?) && ExprReady(r, e, slots, index, 1)
    ensures Pushes(r, Gen(e, slots).code, ann, d, index, 1)
    decreases e, 1
  {
    hide Flows;
    var op := if e.Unary? then Plain(OpCode.Unary(e.un), 0) else Plain(Load, 0);
    ann := ExprFlows(r, e.operand, slots, index, d, 1);
    ann := ThenOp(r, Gen(e.operand, slots).code, ann, op, In(d, index, false), In(d + 1, index, false),
                  In(d + 1, index, false));
  }

  lemma BinaryFlows(r: Rules, e: Expr, slots: Slots, index: nat, d: nat) returns (ann: seq<Stage>)
    requires e.Binary? && ExprReady(r, e, slots, index, 1)
    ensures Pushes(r, Gen(e, slots).code, ann, d, index, 1)
    decreases e, 1
  {
    hide Flows;
    var here, one, two := In(d, index, false), In(d + 1, index, false), In(d + 2, index, false);
    var ca, cb := Gen(e.left, slots).code, Gen(e.right, slots).code;
    var right := ExprFlows(r, e.right, slots, index, d, 1);
    var left := ExprFlows(r, e.left, slots, index, d + 1, 1);
    ann := Then(r, cb, right, ca, left, here, one, two);
    ann := ThenOp(r, cb + ca, ann, Plain(OpCode.Binary(e.bin), 0), here, two, one);
  }

  lemma SwapReady(r: Rules, e: Expr, slots: Slots, index: nat)
    requires e.Swap? && ExprReady(r, e, slots, index, 0)
    ensures ExprReady(r, e.right, slots, index, |e.targets|)
    ensures forall t :: t in e.targets ==> t.Ident? && t.name in slots
  {
  }

  lemma SwapFlows(r: Rules, e: Expr, slots: Slots, index: nat, d: nat) returns (ann: seq<Stage>)
    requires e.Swap? && ExprReady(r, e, slots, index, 0)
    ensures Pushes(r, Gen(e, slots).code, ann, d, index, 0)
    decreases e, 1
  {
    hide Flows, GenTargets, Effect, Scalar;
    var n := |e.targets|;
    SwapReady(r, e, slots, index);
    var right := ExprFlows(r, e.right, slots, index, d, n);
    var left := TargetsFlows(r, e.targets, slots, index, d);
    ann := Then(r, Gen(e.right, slots).code, right, GenTargets(e.targets, slots).code, left, In(d, index, false),
                In(d + n, index, false), In(d, index, false));
  }

  /** Both ways out of `a || b` leave one value: the clone, or the value of `b`. */
  lemma ShortCircuitFlows(r: Rules, e: Expr, jump: OpCode, a: Expr, b: Expr, slots: Slots, index: nat, d: nat)
    returns (ann: seq<Stage>)
    requires (jump == JumpIf && e == LogOr(a, b)) || (jump == JumpIfNot && e == LogAnd(a, b))
    requires ExprReady(r, a, slots, index, 1) && ExprReady(r, b, slots, index, 1)
    ensures Pushes(r, GenShortCircuit(jump, Gen(a, slots), Gen(b, slots)).code, ann, d, index, 1)
    decreases e, 1
  {
    hide Flows, Gen;
    var s0, s1, s2 := In(d, index, false), In(d + 1, index, false), In(d + 2, index, false);
    var ca, cb := Gen(a, slots).code, Gen(b, slots).code;
    var left := ExprFlows(r, a, slots, index, d, 1);
    left := ThenOp(r, ca, left, Plain(Clone, 0), s0, s1, s2);
    var right := ExprFlows(r, b, slots, index, d, 1);
    OneOp(r, Plain(OpCode.Pop, 0), s1, s0);
    right := Then(r, [Plain(OpCode.Pop, 0)], [s1, s0], cb, right, s1, s0, s1);
    var behind := [Plain(OpCode.Pop, 0)] + cb;
    var test := Plain(jump, 1 + |cb|);
    OneJump(r, test, s2, s1, s1);
    NoExits(|behind|);
    assert Beyond({}, |behind|) + {(|behind|, s1)} == {(1 + |cb|, s1)};
    right := Followed(r, [test], [s2, s1], behind, right, s2, s1, s1, {});
    ann := Then(r, ca + [Plain(Clone, 0)], left, [test] + behind, right, s0, s2, s1);
    assert (ca + [Plain(Clone, 0)]) + ([test] + behind) == ca + [Plain(Clone, 0), test, Plain(OpCode.Pop, 0)] + cb;
  }

  /** The address part of a target or of the operand of `^`. */
  lemma AddressFlows(r: Rules, l: Expr, slots: Slots, index: nat, d: nat) returns (ann: seq<Stage>)
    requires SlotsOk(slots, index) && IsTarget(r.p, slots.Keys, l) && (r.strict ==> Scalar(l))
    ensures Flows(r, AddressCode(l, slots), ann, In(d, index, false), In(d + 1, index, r.strict), {})
    decreases l, 3
  {
    hide Flows;
    if l.Ident? {
      var here, there := In(d, index, false), In(d + 1, index, r.strict);
      OneOp(r, Op(PushSea, slots[l.name], l.name), here, there);
      ann := [here, there];
    } else {
      ann := ExprFlows(r, l.operand, slots, index, d, 1);
    }
  }

  lemma RefFlows(r: Rules, e: Expr, slots: Slots, index: nat, d: nat) returns (ann: seq<Stage>)
    requires e.Ref? && ExprReady(r, e, slots, index, 1)
    ensures Pushes(r, Gen(e, slots).code, ann, d, index, 1)
    decreases e, 1
  {
    hide Flows, Gen;
    var l := e.operand;
    var here, there := In(d, index, false), In(d + 1, index, false);
    assert IsTarget(r.p, slots.Keys, l);
    LvalueRewriting(l, slots);
    ann := AddressFlows(r, l, slots, index, d);
    if l.Deref? {
      ann := ThenOp(r, AddressCode(l, slots), ann, Plain(Nop, 0), here, there, there);
    } else {
      assert AddressCode(l, slots) + [] == AddressCode(l, slots);
    }
  }

  lemma AssignFlows(r: Rules, e: Expr, slots: Slots, index: nat, d: nat) returns (ann: seq<Stage>)
    requires e.Assign? && ExprReady(r, e, slots, index, 0)
    ensures Pushes(r, Gen(e, slots).code, ann, d, index, 0)
    decreases e, 1
  {
    hide Flows;
    var l := e.left;
    var here, one := In(d, index, false), In(d + 1, index, false);
    var right := ExprFlows(r, e.right, slots, index, d, 1);
    var left := AddressFlows(r, l, slots, index, d + 1);
    left := ThenOp(r, AddressCode(l, slots), left, Plain(Store, 0), one, In(d + 2, index, r.strict), here);
    ann := Then(r, Gen(e.right, slots).code, right, AddressCode(l, slots) + [Plain(Store, 0)], left, here, one, here);
    AssignCode(l, e.right, slots);
  }

  /** Every target takes the value on top. */
  lemma {:induction false} TargetsFlows(r: Rules, targets: seq<Expr>, slots: Slots, index: nat, d: nat)
    returns (ann: seq<Stage>)
    requires SlotsOk(slots, index) && forall t :: t in targets ==> t.Ident? && t.name in slots
    ensures Flows(r, GenTargets(targets, slots).code, ann, In(d + |targets|, index, false), In(d, index, false), {})
    decreases targets, 0
  {
    hide Flows;
    var n := |targets|;
    if n == 0 {
      NoCode(r, In(d, index, false), {});
      ann := [In(d, index, false)];
    } else {
      var x := targets[0].name;
      var here, there := In(d + n, index, false), In(d + n + 1, index, r.strict);
      var push := Op(PushSea, slots[x], x);
      OneOp(r, push, here, there);
      var first := ThenOp(r, [push], [here, there], Plain(Store, 0), here, there, In(d + n - 1, index, false));
      var rest := TargetsFlows(r, targets[1..], slots, index, d);
      ann := Then(r, [push] + [Plain(Store, 0)], first, GenTargets(targets[1..], slots).code, rest, here,
                  In(d + n - 1, index, false),
                  In(d, index, false));
      TargetShape(targets, slots);
    }
  }

  lemma CallFlows(r: Rules, e: Expr, slots: Slots, index: nat, d: nat, k: nat) returns (ann: seq<Stage>)
    requires e.Call? && ExprReady(r, e, slots, index, k)
    ensures Pushes(r, Gen(e, slots).code, ann, d, index, k)
    decreases e, 1
  {
    hide Flows, Gen, CalleeCode;
    var f := e.callee.name;
    var n := |r.p[f].params|;
    CallShape(e, slots);
    CalleeIsCall(f, slots);
    ann := ExprFlows(r, e.args, slots, index, d, n);
    ann := ThenOp(r, Gen(e.args, slots).code, ann, Op(OpCode.Call, 0, f), In(d, index, false), In(d + n, index, false),
                  In(d + k, index, false));
  }

  lemma ListFlows(r: Rules, es: seq<Expr>, slots: Slots, index: nat, d: nat, k: nat) returns (ann: seq<Stage>)
    requires SlotsOk(slots, index) && ArityAll(r.p, slots.Keys, es) == Some(k)
    requires r.strict ==> forall i :: 0 <= i < |es| ==> Scalar(es[i])
    ensures Pushes(r, GenList(es, slots).code, ann, d, index, k)
    decreases es, 0
  {
    hide Flows, Gen;
    if es == [] {
      NoCode(r, In(d, index, false), {});
      ann := [In(d, index, false)];
    } else {
      var last, init := es[|es| - 1], es[..|es| - 1];
      var n := Arity(r.p, slots.Keys, last).value;
      var first := ExprFlows(r, last, slots, index, d, n);
      var rest := ListFlows(r, init, slots, index, d + n, k - n);
      ann := Then(r, Gen(last, slots).code, first, GenList(init, slots).code, rest, In(d, index, false),
                  In(d + n, index, false),
                  In(d + k, index, false));
    }
  }

  // ----- statements -----

  predicate ScalarDecls(ds: seq<Decl>) {
    forall i :: 0 <= i < |ds| && ds[i].init.Some? ==> Scalar(ds[i].init.value)
  }

  predicate ScalarStmt(s: Stmt)
    decreases s
  {
    match s
    case Declare(ds) => ScalarDecls(ds)
    case Compound(body) => forall i :: 0 <= i < |body| ==> ScalarStmt(body[i])
    case If(c, body) => Scalar(c) && forall i :: 0 <= i < |body| ==> ScalarStmt(body[i])
    case IfElse(c, body, els) => Scalar(c) && ScalarStmt(els) && forall i :: 0 <= i < |body| ==> ScalarStmt(body[i])
    case While(c, body) => Scalar(c) && forall i :: 0 <= i < |body| ==> ScalarStmt(body[i])
    case Return(e) => Scalar(e)
    case Eval(e) => Scalar(e)
    case _ => true
  }

  predicate ScalarProgram(p: Program) {
    forall f :: f in p ==> forall i :: 0 <= i < |p[f].body| ==> ScalarStmt(p[f].body[i])
  }

  /** Between statements the exec stack of the function is empty. */
  function Rest0(index: nat): Stage {
    In(0, index, false)
  }

  /** The exit of the enclosing loop, where the frame has `loop` cells. */
  function ExitSet(exit: Exit, loop: nat): Exits {
    if exit.Some? then {(exit.value as int, Rest0(loop))} else {}
  }

  lemma ExitFarther(exit: Exit, loop: nat, d: nat)
    ensures ExitSet(Farther(exit, d), loop) == Beyond(ExitSet(exit, loop), d)
  {
  }

  /** A `break` that may stand here finds the frame of the loop below the cells it frees. */
  ghost predicate PlaceOk(r: Rules, at: Place, index: nat, live: nat, exit: Exit, loop: nat) {
    at.results == r.results && live <= index && (at.inLoop && at.clean ==> exit.Some? && index - live == loop)
  }

  lemma FreeFlows(r: Rules, live: nat, d: nat, index: nat) returns (ann: seq<Stage>)
    requires live <= index
    ensures Tracked(r, FreeOps(live), ann, IndexFree(live, index), In(d, index, false), In(d, index - live, false), {})
  {
    hide Tracked;
    var here, there := In(d, index, false), In(d, index - live, false);
    if live == 0 {
      NoCodeTracked(r, here, {});
      ann := [here];
    } else {
      OpTracked(r, Plain(Free, live), here, there, index);
      ann := [here, there];
    }
  }

  /** `ALLOC 1; STORE`: the value on top becomes the next cell of the frame. */
  lemma CellFlows(r: Rules, d: nat, index: nat) returns (ann: seq<Stage>)
    ensures Tracked(r, [Plain(Alloc, 1), Plain(Store, 0)], ann, [index as int, index + 1],
                    In(d + 1, index, false), In(d, index + 1, false), {})
  {
    hide Tracked;
    var one, two, there := In(d + 1, index, false), In(d + 2, index + 1, r.strict), In(d, index + 1, false);
    OpTracked(r, Plain(Alloc, 1), one, two, index);
    OpTracked(r, Plain(Store, 0), two, there, index + 1);
    ann := InOrder(r, [Plain(Alloc, 1)], [one, two], [index as int], [Plain(Store, 0)], [two, there], [index + 1], one,
                   two, there);
    assert [Plain(Alloc, 1)] + [Plain(Store, 0)] == [Plain(Alloc, 1), Plain(Store, 0)];
    assert [index as int] + [index + 1] == [index as int, index + 1];
  }

  /** The flow of an expression, with the index of its frame. */
  lemma ValueFlows(r: Rules, e: Expr, slots: Slots, index: nat, k: nat) returns (ann: seq<Stage>)
    requires ExprReady(r, e, slots, index, k)
    ensures Tracked(r, Gen(e, slots).code, ann, Level(index, |Gen(e, slots).code|), Rest0(index), In(k, index, false),
                    {})
  {
    hide Flows, Gen, Marked;
    ann := ExprFlows(r, e, slots, index, 0, k);
    ExprMarked(r, e, slots, ann, 0, index, In(k, index, false));
  }

  lemma DeclFlows(r: Rules, d: Decl, slots: Slots, index: nat) returns (ann: seq<Stage>)
    requires SlotsOk(slots, index) && (d.init.Some? ==> ExprReady(r, d.init.value, slots, index, 1))
    ensures Tracked(r, GenDecl(d, slots), ann, IndexDecl(d, slots, index), Rest0(index), Rest0(index + 1), {})
  {
    hide Tracked, Gen;
    var one := In(1, index, false);
    var value := if d.init.Some? then Gen(d.init.value, slots).code else [Plain(PushUnsign, 0)];
    if d.init.Some? {
      ann := ValueFlows(r, d.init.value, slots, index, 1);
    } else {
      OpTracked(r, Plain(PushUnsign, 0), Rest0(index), one, index);
      ann := [Rest0(index), one];
      assert Level(index, 1) == [index as int];
    }
    var cell := CellFlows(r, 0, index);
    ann := InOrder(r, value, ann, Level(index, |value|), [Plain(Alloc, 1), Plain(Store, 0)], cell,
                   [index as int, index + 1],
                   Rest0(index), one, Rest0(index + 1));
  }

  lemma {:induction false} DeclsFlows(r: Rules, ds: seq<Decl>, slots: Slots, index: nat) returns (ann: seq<Stage>)
    requires SlotsOk(slots, index) && WfDecls(r.p, slots.Keys, ds) && (r.strict ==> ScalarDecls(ds))
    ensures Tracked(r, GenDecls(ds, slots, index), ann, IndexDecls(ds, slots, index), Rest0(index), Rest0(index + |ds|),
                    {})
    decreases |ds|
  {
    hide Tracked, GenDecl, IndexDecl;
    if ds == [] {
      NoCodeTracked(r, Rest0(index), {});
      ann := [Rest0(index)];
    } else {
      var slots' := slots[ds[0].name := index + 1];
      assert slots'.Keys == slots.Keys + {ds[0].name};
      var first := DeclFlows(r, ds[0], slots, index);
      var rest := DeclsFlows(r, ds[1..], slots', index + 1);
      ann := InOrder(r, GenDecl(ds[0], slots), first, IndexDecl(ds[0], slots, index),
                     GenDecls(ds[1..], slots', index + 1), rest,
                     IndexDecls(ds[1..], slots', index + 1), Rest0(index), Rest0(index + 1), Rest0(index + |ds|));
    }
  }

  /** A condition and its jump over `dist` opcodes. */
  lemma ConditionFlows(r: Rules, c: Expr, slots: Slots, index: nat, dist: nat, exits: Exits) returns (ann: seq<Stage>)
    requires ExprReady(r, c, slots, index, 1) && (dist as int, Rest0(index)) in exits
    ensures Tracked(r, Gen(c, slots).code + [Plain(JumpIfNot, dist)], ann, IndexTest(c, slots, index), Rest0(index),
                    Rest0(index), exits)
  {
    hide Tracked, Gen;
    var one := In(1, index, false);
    var test := Plain(JumpIfNot, dist);
    var code, marks := Gen(c, slots).code, Level(index, |Gen(c, slots).code|);
    ann := ValueFlows(r, c, slots, index, 1);
    JumpTracked(r, test, one, Rest0(index), Rest0(index));
    Widened(r, [test], [one, Rest0(index)], [index as int], one, Rest0(index), {(dist as int, Rest0(index))}, exits);
    Widened(r, code, ann, marks, Rest0(index), one, {}, Beyond(exits, 1) + {(1, Rest0(index))});
    ann := FollowedBy(r, code, ann, marks, [test], [one, Rest0(index)], [index as int], Rest0(index), one, Rest0(index),
                      exits);
  }

  /** What the code of a statement has to do: keep the exec stack, and the frame at the index. */
  ghost predicate StmtTracked(r: Rules, s: Stmt, slots: Slots, index: nat, live: nat, exit: Exit, loop: nat,
                              ann: seq<Stage>) {
    Tracked(r, GenStmt(s, slots, index, live, exit).code, ann, IndexStmt(s, slots, index, live), Rest0(index),
            Rest0(index + Declared(s)), ExitSet(exit, loop))
  }

  ghost predicate StmtReady(r: Rules, s: Stmt, slots: Slots, index: nat, live: nat, exit: Exit, at: Place, loop: nat) {
    && SlotsOk(slots, index) && WfStmt(r.p, s, slots.Keys, at, live) && (r.strict ==> ScalarStmt(s))
    && PlaceOk(r, at, index, live, exit, loop)
  }

  lemma StmtFlows(r: Rules, s: Stmt, slots: Slots, index: nat, live: nat, exit: Exit, at: Place, loop: nat)
    returns (ann: seq<Stage>)
    requires StmtReady(r, s, slots, index, live, exit, at, loop)
    ensures StmtTracked(r, s, slots, index, live, exit, loop, ann)
    decreases s, 3
  {
    hide StmtTracked;
    match s
    case Declare(_) => ann := DeclareFlows(r, s, slots, index, live, exit, at, loop);
    case Compound(_) => ann := CompoundFlows(r, s, slots, index, live, exit, at, loop);
    case If(_, _) => ann := IfFlows(r, s, slots, index, live, exit, at, loop);
    case IfElse(_, _, _) => ann := IfElseFlows(r, s, slots, index, live, exit, at, loop);
    case While(_, _) => ann := WhileFlows(r, s, slots, index, live, exit, at, loop);
    case Return(_) => ann := ReturnFlows(r, s, slots, index, live, exit, at, loop);
    case Break => ann := BreakFlows(r, slots, index, live, exit, at, loop);
    case Eval(_) => ann := EvalFlows(r, s, slots, index, live, exit, at, loop);
  }

  lemma DeclareFlows(r: Rules, s: Stmt, slots: Slots, index: nat, live: nat, exit: Exit, at: Place, loop: nat)
    returns (ann: seq<Stage>)
    requires s.Declare? && StmtReady(r, s, slots, index, live, exit, at, loop)
    ensures StmtTracked(r, s, slots, index, live, exit, loop, ann)
  {
    hide Tracked;
    var ds := s.decls;
    ann := DeclsFlows(r, ds, slots, index);
    Widened(r, GenDecls(ds, slots, index), ann, IndexDecls(ds, slots, index), Rest0(index), Rest0(index + |ds|), {},
            ExitSet(exit, loop));
  }

  lemma CompoundFlows(r: Rules, s: Stmt, slots: Slots, index: nat, live: nat, exit: Exit, at: Place, loop: nat)
    returns (ann: seq<Stage>)
    requires s.Compound? && StmtReady(r, s, slots, index, live, exit, at, loop)
    ensures StmtTracked(r, s, slots, index, live, exit, loop, ann)
    decreases s, 2
  {
    hide Tracked, GenBlock, IndexBlock, WfStmts;
    ann := BlockFlows(r, s.body, slots, index, false, exit, Inner(at, live), loop);
  }

  lemma EvalFlows(r: Rules, s: Stmt, slots: Slots, index: nat, live: nat, exit: Exit, at: Place, loop: nat)
    returns (ann: seq<Stage>)
    requires s.Eval? && StmtReady(r, s, slots, index, live, exit, at, loop)
    ensures StmtTracked(r, s, slots, index, live, exit, loop, ann)
  {
    hide Tracked, Gen;
    var code := Gen(s.expr, slots).code;
    ann := ValueFlows(r, s.expr, slots, index, 0);
    Widened(r, code, ann, Level(index, |code|), Rest0(index), Rest0(index), {}, ExitSet(exit, loop));
  }

  lemma ReturnFlows(r: Rules, s: Stmt, slots: Slots, index: nat, live: nat, exit: Exit, at: Place, loop: nat)
    returns (ann: seq<Stage>)
    requires s.Return? && StmtReady(r, s, slots, index, live, exit, at, loop)
    ensures StmtTracked(r, s, slots, index, live, exit, loop, ann)
  {
    hide Tracked, Gen, FreeOps, IndexFree;
    var k, here := r.results, Rest0(index);
    var c, low := Gen(s.value, slots).code, In(k, index - live, false);
    var marks, end := Level(index, |c|) + IndexFree(live, index), [index - live, index - live];
    var pop := [Plain(StackFramePop, 0), Plain(Ret, 0)];
    ann := ValueFlows(r, s.value, slots, index, k);
    var free := FreeFlows(r, live, k, index);
    ann := InOrder(r, c, ann, Level(index, |c|), FreeOps(live), free, IndexFree(live, index), here, In(k, index, false),
                   low);
    ReturnEnds(r, low, index - live, here);
    ann := InOrder(r, c + FreeOps(live), ann, marks, pop, [low, After(k), here], end, here, low, here);
    Widened(r, c + FreeOps(live) + pop, ann, marks + end, here, here, {}, ExitSet(exit, loop));
  }

  lemma ReturnEnds(r: Rules, from: Stage, index: int, to: Stage)
    requires from.In? && from.depth == r.results && from.slots == index && !from.addr
    ensures Tracked(r, [Plain(StackFramePop, 0), Plain(Ret, 0)], [from, After(r.results), to], [index, index], from, to,
                    {})
  {
  }

  lemma BreakFlows(r: Rules, slots: Slots, index: nat, live: nat, exit: Exit, at: Place, loop: nat)
    returns (ann: seq<Stage>)
    requires StmtReady(r, Break, slots, index, live, exit, at, loop)
    ensures StmtTracked(r, Break, slots, index, live, exit, loop, ann)
  {
    hide Tracked, FreeOps, IndexFree;
    var here, out, jump := Rest0(index), Rest0(loop), Plain(Jump, exit.value);
    var exits := ExitSet(exit, loop);
    ann := FreeFlows(r, live, 0, index);
    JumpTracked(r, jump, out, here, out);
    Widened(r, [jump], [out, here], [loop as int], out, here, {(jump.operand, out)}, exits);
    Widened(r, FreeOps(live), ann, IndexFree(live, index), here, out, {}, Beyond(exits, 1) + {(1, here)});
    ann := FollowedBy(r, FreeOps(live), ann, IndexFree(live, index), [jump], [out, here], [loop as int], here, out,
                      here, exits);
  }

  lemma IfFlows(r: Rules, s: Stmt, slots: Slots, index: nat, live: nat, exit: Exit, at: Place, loop: nat)
    returns (ann: seq<Stage>)
    requires s.If? && StmtReady(r, s, slots, index, live, exit, at, loop)
    ensures StmtTracked(r, s, slots, index, live, exit, loop, ann)
    decreases s, 2
  {
    hide Tracked, Gen, GenBlock, WfStmts, IndexBlock, IndexTest;
    var here, exits := Rest0(index), ExitSet(exit, loop);
    var b := GenBlock(s.body, slots, index, false, exit).code;
    var body := BlockFlows(r, s.body, slots, index, false, exit, Inner(at, live), loop);
    ann := ConditionFlows(r, s.cond, slots, index, |b|, Beyond(exits, |b|) + {(|b| as int, here)});
    ann := FollowedBy(r, Gen(s.cond, slots).code + [Plain(JumpIfNot, |b|)], ann, IndexTest(s.cond, slots, index), b,
                      body,
                      IndexBlock(s.body, slots, index, false), here, here, here, exits);
  }

  lemma IfElseFlows(r: Rules, s: Stmt, slots: Slots, index: nat, live: nat, exit: Exit, at: Place, loop: nat)
    returns (ann: seq<Stage>)
    requires s.IfElse? && StmtReady(r, s, slots, index, live, exit, at, loop)
    ensures StmtTracked(r, s, slots, index, live, exit, loop, ann)
    decreases s, 2
  {
    hide Tracked, Gen, GenBlock, WfStmts, IfElsePiece, ExitSet, IndexBlock, IndexTest;
    ElseKeepsSlots(s, slots, index);
    var here := Rest0(index);
    var els := GenStmt(s.otherwise, slots, index, 0, exit);
    var far := Farther(exit, 1 + |els.code|);
    var b := GenBlock(s.body, slots, index, false, far);
    var exits := ExitSet(exit, loop);
    var over := Beyond(exits, |els.code|) + {(|els.code| as int, here)};
    var otherwise := StmtFlows(r, s.otherwise, slots, index, 0, exit, Inner(at, live), loop);
    var body := BlockFlows(r, s.body, slots, index, false, far, Inner(at, live), loop);
    var marks, test := IndexBlock(s.body, slots, index, false), IndexTest(s.cond, slots, index);
    body := ThenOverElse(r, b.code, body, marks, |els.code|, index, exit, loop, over);
    var taken := b.code + [Plain(Jump, |els.code|)];
    ann := ConditionFlows(r, s.cond, slots, index, |b.code| + 1, Beyond(over, |taken|) + {(|taken| as int, here)});
    var head := Gen(s.cond, slots).code + [Plain(JumpIfNot, |b.code| + 1)];
    ann := FollowedBy(r, head, ann, test, taken, body, marks + [index as int], here, here, here, over);
    ann := FollowedBy(r, head + taken, ann, test + (marks + [index as int]), els.code, otherwise,
                      IndexStmt(s.otherwise, slots, index, 0), here, here, here, exits);
    IfElseCode(Gen(s.cond, slots).code, b, els);
    assert (head + taken) + els.code == (head + b.code) + ([Plain(Jump, |els.code|)] + els.code);
  }

  /** The body of an `if`, followed by the jump over the `else`. */
  lemma ThenOverElse(r: Rules, b: seq<Op>, body: seq<Stage>, marks: seq<int>, n: nat, index: nat, exit: Exit, loop: nat,
                     over: Exits)
    returns (ann: seq<Stage>)
    requires Tracked(r, b, body, marks, Rest0(index), Rest0(index), ExitSet(Farther(exit, 1 + n), loop))
    requires over == Beyond(ExitSet(exit, loop), n) + {(n as int, Rest0(index))}
    ensures Tracked(r, b + [Plain(Jump, n)], ann, marks + [index as int], Rest0(index), Rest0(index), over)
  {
    hide Tracked;
    var here, jump := Rest0(index), Plain(Jump, n);
    JumpTracked(r, jump, here, here, here);
    Widened(r, [jump], [here, here], [index as int], here, here, {(n as int, here)}, over);
    var near := ExitSet(Farther(exit, 1 + n), loop);
    forall x | x in near
      ensures x in Beyond(over, 1)
    {
      ExitFarther(exit, loop, 1 + n);
      InBeyond(ExitSet(exit, loop), 1 + n, x.0, x.1);
      InBeyond(ExitSet(exit, loop), n, x.0 - 1, x.1);
      InBeyond(over, 1, x.0, x.1);
    }
    Widened(r, b, body, marks, here, here, near, Beyond(over, 1) + {(1, here)});
    ann := FollowedBy(r, b, body, marks, [jump], [here, here], [index as int], here, here, here, over);
  }

  lemma WhileFlows(r: Rules, s: Stmt, slots: Slots, index: nat, live: nat, exit: Exit, at: Place, loop: nat)
    returns (ann: seq<Stage>)
    requires s.While? && StmtReady(r, s, slots, index, live, exit, at, loop)
    ensures StmtTracked(r, s, slots, index, live, exit, loop, ann)
    decreases s, 2
  {
    hide Tracked, Gen, GenBlock, WfStmts, LoopCode, IndexBlock, IndexTest;
    var here := Rest0(index);
    var c, b := Gen(s.cond, slots).code, GenBlock(s.body, slots, index, false, Some(1)).code;
    var head := c + [Plain(JumpIfNot, |b| + 1)];
    var total := |head| + |b| + 1;
    var back, exits := Plain(Jump, -total), {(-total as int, here)};
    var marks, test := IndexBlock(s.body, slots, index, false), IndexTest(s.cond, slots, index);
    var body := BlockFlows(r, s.body, slots, index, false, Some(1), Place(at.results, true, true), index);
    JumpTracked(r, back, here, here, here);
    Widened(r, b, body, marks, here, here, ExitSet(Some(1), index), Beyond(exits, 1) + {(1, here)});
    body := FollowedBy(r, b, body, marks, [back], [here, here], [index as int], here, here, here, exits);
    ann := ConditionFlows(r, s.cond, slots, index, |b| + 1, Beyond(exits, |b| + 1) + {(|b| + 1 as int, here)});
    ann := FollowedBy(r, head, ann, test, b + [back], body, marks + [index as int], here, here, here, exits);
    LoopShape(c, b);
    assert head + (b + [back]) == (head + b) + [back];
    LoopStarts(r, head + (b + [back]), ann, test + (marks + [index as int]), here);
    Widened(r, LoopCode(c, b), ann, test + (marks + [index as int]), here, here, {}, ExitSet(exit, loop));
  }

  lemma LoopStarts(r: Rules, code: seq<Op>, ann: seq<Stage>, marks: seq<int>, here: Stage)
    requires Tracked(r, code, ann, marks, here, here, {(-|code| as int, here)})
    ensures Tracked(r, code, ann, marks, here, here, {})
  {
    Internal(r, code, ann, here, here, {(-|code| as int, here)});
  }

  ghost predicate StmtsReady(r: Rules, ss: seq<Stmt>, slots: Slots, index: nat, live: nat, exit: Exit, at: Place,
                             loop: nat) {
    && SlotsOk(slots, index) && WfStmts(r.p, ss, slots.Keys, at, live)
    && (r.strict ==> forall i :: 0 <= i < |ss| ==> ScalarStmt(ss[i])) && PlaceOk(r, at, index, live, exit, loop)
  }

  lemma StmtsFlows(r: Rules, ss: seq<Stmt>, slots: Slots, index: nat, live: nat, exit: Exit, at: Place, loop: nat)
    returns (ann: seq<Stage>)
    requires StmtsReady(r, ss, slots, index, live, exit, at, loop)
    ensures Tracked(r, GenStmts(ss, slots, index, live, exit).code, ann, IndexStmts(ss, slots, index, live),
                    Rest0(index),
                    Rest0(index + DeclaredAll(ss)), ExitSet(exit, loop))
    decreases ss, 0
  {
    hide Tracked, GenStmt, IndexStmt, WfStmt, ExitSet, SlotsAfter, IndexAfter, ScopeAfter;
    if ss == [] {
      NoCodeTracked(r, Rest0(index), ExitSet(exit, loop));
      ann := [Rest0(index)];
    } else {
      var s, tail := ss[0], ss[1..];
      var slots', index', live' := SlotsAfter(s, slots, index), IndexAfter(s, index), live + Declared(s);
      AfterOk(r.p, s, slots, index, at, live);
      var rest := GenStmts(tail, slots', index', live', exit).code;
      var behind := StmtsFlows(r, tail, slots', index', live', exit, at, loop);
      var near := Farther(exit, |rest|);
      var to := Rest0(index + DeclaredAll(ss));
      ann := FirstFlows(r, s, slots, index, live, exit, at, loop, |rest|, to);
      ann := FollowedBy(r, GenStmt(s, slots, index, live, near).code, ann, IndexStmt(s, slots, index, live), rest,
                        behind,
                        IndexStmts(tail, slots', index', live'), Rest0(index), Rest0(index'), to, ExitSet(exit, loop));
    }
  }

  /** A statement in front of `n` opcodes that end at stage `to`. */
  lemma FirstFlows(r: Rules, s: Stmt, slots: Slots, index: nat, live: nat, exit: Exit, at: Place, loop: nat, n: nat,
                   to: Stage)
    returns (ann: seq<Stage>)
    requires StmtReady(r, s, slots, index, live, exit, at, loop)
    ensures Tracked(r, GenStmt(s, slots, index, live, Farther(exit, n)).code, ann, IndexStmt(s, slots, index, live),
                    Rest0(index),
                    Rest0(index + Declared(s)), Beyond(ExitSet(exit, loop), n) + {(n as int, to)})
    decreases s, 4
  {
    hide Tracked, GenStmt, IndexStmt, WfStmt, ExitSet;
    var near := Farther(exit, n);
    ann := StmtFlows(r, s, slots, index, live, near, at, loop);
    ExitFarther(exit, loop, n);
    Widened(r, GenStmt(s, slots, index, live, near).code, ann, IndexStmt(s, slots, index, live), Rest0(index),
            Rest0(index + Declared(s)), ExitSet(near, loop), Beyond(ExitSet(exit, loop), n) + {(n as int, to)});
  }

  /** Names and slots in sight after a statement. */
  lemma AfterOk(p: Program, s: Stmt, slots: Slots, index: nat, at: Place, live: nat)
    requires SlotsOk(slots, index) && WfStmt(p, s, slots.Keys, at, live)
    ensures IndexAfter(s, index) == index + Declared(s)
    ensures SlotsOk(SlotsAfter(s, slots, index), index + Declared(s))
            && SlotsAfter(s, slots, index).Keys == ScopeAfter(slots.Keys, s)
  {
    if s.Declare? {
      DeclsAfterOk(s.decls, slots, index);
    } else if s.IfElse? {
      ElseKeepsSlots(s, slots, index);
    }
  }

  lemma {:induction false} DeclsAfterOk(ds: seq<Decl>, slots: Slots, index: nat)
    requires SlotsOk(slots, index)
    ensures var slots' := SlotsAfterDecls(ds, slots, index);
            SlotsOk(slots', index + |ds|) && slots'.Keys == ScopeAfterDecls(slots.Keys, ds)
    decreases |ds|
  {
    if ds != [] {
      var slots' := slots[ds[0].name := index + 1];
      assert slots'.Keys == slots.Keys + {ds[0].name};
      DeclsAfterOk(ds[1..], slots', index + 1);
    }
  }

  lemma BlockFlows(r: Rules, ss: seq<Stmt>, slots: Slots, index: nat, frameFree: bool, exit: Exit, at: Place, loop: nat)
    returns (ann: seq<Stage>)
    requires StmtsReady(r, ss, slots, index, 0, exit, at, loop)
    ensures Tracked(r, GenBlock(ss, slots, index, frameFree, exit).code, ann, IndexBlock(ss, slots, index, frameFree),
                    Rest0(index),
                    Rest0(if frameFree then index + DeclaredAll(ss) else index), ExitSet(exit, loop))
    decreases ss, 1
  {
    hide Tracked, GenStmts, IndexStmts, WfStmts, ExitSet, FreeOps, IndexFree;
    var n := DeclaredAll(ss);
    var tail := if frameFree then [] else FreeOps(n);
    var end := if frameFree then [] else IndexFree(n, index + n);
    var inside, to := Rest0(index + n), Rest0(if frameFree then index + n else index);
    var near, exits := Farther(exit, |tail|), ExitSet(exit, loop);
    var body := StmtsFlows(r, ss, slots, index, 0, near, at, loop);
    var free: seq<Stage>;
    if frameFree {
      NoCodeTracked(r, inside, {});
      free := [inside];
    } else {
      free := FreeFlows(r, n, 0, index + n);
    }
    ExitFarther(exit, loop, |tail|);
    Widened(r, tail, free, end, inside, to, {}, exits);
    Widened(r, GenStmts(ss, slots, index, 0, near).code, body, IndexStmts(ss, slots, index, 0), Rest0(index), inside,
            ExitSet(near, loop), Beyond(exits, |tail|) + {(|tail| as int, to)});
    ann := FollowedBy(r, GenStmts(ss, slots, index, 0, near).code, body, IndexStmts(ss, slots, index, 0), tail, free,
                      end,
                      Rest0(index), inside, to, exits);
  }

  // ----- functions -----

  lemma {:induction false} ParamFlows(r: Rules, n: nat, index: nat) returns (ann: seq<Stage>)
    ensures Tracked(r, ParamOps(n), ann, IndexParams(n, index), In(n, index, false), Rest0(index + n), {})
    decreases n
  {
    hide Tracked;
    if n == 0 {
      NoCodeTracked(r, Rest0(index), {});
      ann := [Rest0(index)];
    } else {
      var first := CellFlows(r, n - 1, index);
      var rest := ParamFlows(r, n - 1, index + 1);
      ann := InOrder(r, [Plain(Alloc, 1), Plain(Store, 0)], first, [index as int, index + 1], ParamOps(n - 1), rest,
                     IndexParams(n - 1, index + 1), In(n, index, false), In(n - 1, index + 1, false), Rest0(index + n));
    }
  }

  lemma EpilogueFlows(r: Rules, f: Function, index: nat) returns (ann: seq<Stage>)
    requires r.results == f.results
    ensures Tracked(r, Epilogue(f), ann, Level(index, |Epilogue(f)|), Rest0(index), Rest0(index), {})
  {
    ann := if f.results == 0 then [Rest0(index), After(0), Rest0(index)] else [Rest0(index), Rest0(index)];
  }

  lemma ParamSlotsScope(params: seq<string>)
    ensures SlotsOk(ParamSlots(params), |params|) && ParamSlots(params).Keys == ParamScope(params)
  {
    if params != [] {
      var init := params[..|params| - 1];
      ParamSlotsScope(init);
      assert params == init + [params[|params| - 1]];
      assert ParamScope(params) == ParamScope(init) + {params[|params| - 1]};
    } else {
      assert ParamScope(params) == {};
    }
  }

  /** The code of a well-formed function, from the arguments on the exec stack to its results,
      with the frame at `stack_index` wherever it is open. */
  lemma FunctionFlows(r: Rules, f: Function) returns (ann: seq<Stage>, end: Stage)
    requires WfFunction(r.p, f) && r.results == f.results
    requires r.strict ==> forall i :: 0 <= i < |f.body| ==> ScalarStmt(f.body[i])
    ensures Tracked(r, GenFunction(f), ann, StackIndexes(f), Before(|f.params|), end, {})
  {
    hide Tracked, GenStmts, IndexStmts, GenFunction, Epilogue, ParamOps, IndexParams, Effect;
    var n, slots := |f.params|, ParamSlots(f.params);
    ParamSlotsScope(f.params);
    var push, to := [Plain(StackFramePush, 0)], Rest0(n + DeclaredAll(f.body));
    FramePushFlows(r, n);
    var params := ParamFlows(r, n, 0);
    var body := StmtsFlows(r, f.body, slots, n, 0, None, Place(f.results, false, false), 0);
    var tail := EpilogueFlows(r, f, n + DeclaredAll(f.body));
    var m1, m2, m3 := IndexParams(n, 0), IndexStmts(f.body, slots, n, 0), Level(n + DeclaredAll(f.body), |Epilogue(f)|);
    ann := InOrder(r, BodyCode(f), body, m2, Epilogue(f), tail, m3, Rest0(n), to, to);
    ann := InOrder(r, ParamOps(n), params, m1, BodyCode(f) + Epilogue(f), ann, m2 + m3, In(n, 0, false), Rest0(n), to);
    ann := InOrder(r, push, [Before(n), In(n, 0, false)], [0], ParamOps(n) + (BodyCode(f) + Epilogue(f)), ann,
                   m1 + (m2 + m3),
                   Before(n), In(n, 0, false), to);
    end := to;
    FunctionCode(f);
  }

  lemma FramePushFlows(r: Rules, n: nat)
    ensures Tracked(r, [Plain(StackFramePush, 0)], [Before(n), In(n, 0, false)], [0], Before(n), In(n, 0, false), {})
  {
  }
}
