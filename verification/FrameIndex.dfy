/**
  `stack_index` at every position of the code of a function: how many cells of the frame are in
  use in front of the opcode there. A cell is counted from its `ALLOC` on; the cells `FREE`
  takes from a block that is left early are only missing behind it.
*/
module FrameIndex {
  import opened Word64
  import opened Ir
  import opened Source
  import opened Codegen
  import opened Correctness
  import opened Typing
  import opened Stages

  /** The same index in front of `n` opcodes. */
  function Level(index: int, n: nat): (r: seq<int>)
    ensures |r| == n && forall i :: 0 <= i < n ==> r[i] == index
  {
    seq(n, _ => index)
  }

  function IndexFree(live: int, index: int): seq<int> {
    if live != 0 then [index] else []
  }

  function IndexDecl(d: Decl, slots: Slots, index: int): seq<int> {
    Level(index, if d.init.Some? then |Gen(d.init.value, slots).code| else 1) + [index, index + 1]
  }

  function IndexDecls(ds: seq<Decl>, slots: Slots, index: int): seq<int> {
    if ds == [] then []
    else IndexDecl(ds[0], slots, index) + IndexDecls(ds[1..], slots[ds[0].name := index + 1], index + 1)
  }

  /** A condition and the jump behind it. */
  function IndexTest(c: Expr, slots: Slots, index: int): seq<int> {
    Level(index, |Gen(c, slots).code|) + [index]
  }

  function IndexStmt(s: Stmt, slots: Slots, index: int, live: nat): seq<int>
    decreases s, 2
  {
    match s
    case Declare(ds) => IndexDecls(ds, slots, index)
    case Compound(body) => IndexBlock(body, slots, index, false)
    case If(c, body) => IndexTest(c, slots, index) + IndexBlock(body, slots, index, false)
    case IfElse(c, body, els) =>
      IndexTest(c, slots, index) + (IndexBlock(body, slots, index, false) + [index]) + IndexStmt(els, slots, index, 0)
    case While(c, body) => IndexTest(c, slots, index) + (IndexBlock(body, slots, index, false) + [index])
    case Return(e) => Level(index, |Gen(e, slots).code|) + IndexFree(live, index) + [index - live, index - live]
    case Eval(e) => Level(index, |Gen(e, slots).code|)
    case _ => IndexFree(live, index) + [index - live]
  }

  function IndexStmts(ss: seq<Stmt>, slots: Slots, index: int, live: nat): seq<int>
    decreases ss, 0
  {
    if ss == [] then []
    else
      IndexStmt(ss[0], slots, index, live) +
      IndexStmts(ss[1..], SlotsAfter(ss[0], slots, index), IndexAfter(ss[0], index), live + Declared(ss[0]))
  }

  function IndexBlock(ss: seq<Stmt>, slots: Slots, index: int, frameFree: bool): seq<int>
    decreases ss, 1
  {
    IndexStmts(ss, slots, index, 0) + (if frameFree then [] else IndexFree(DeclaredAll(ss), index + DeclaredAll(ss)))
  }

  function IndexParams(n: nat, index: int): seq<int> {
    if n == 0 then [] else [index, index + 1] + IndexParams(n - 1, index + 1)
  }

  /** `stack_index` in front of every opcode of a function. */
  function StackIndexes(f: Function): seq<int> {
    var n := |f.params|;
    [0] + (IndexParams(n, 0) + (IndexStmts(f.body, ParamSlots(f.params), n, 0) +
                                Level(n + DeclaredAll(f.body), |Epilogue(f)|)))
  }

  // ----- on annotations -----

  /** Where the frame is open, the annotation says so many cells. */
  ghost predicate Marked(ann: seq<Stage>, marks: seq<int>) {
    |ann| == |marks| + 1 && forall i :: 0 <= i < |marks| && ann[i].In? ==> ann[i].slots == marks[i]
  }

  lemma Joined(annA: seq<Stage>, a: seq<int>, annB: seq<Stage>, b: seq<int>)
    requires Marked(annA, a) && Marked(annB, b)
    ensures Marked(annA[..|a|] + annB, a + b)
  {
  }

  /** An opcode that goes on to the next one and leaves the frame as it is. */
  predicate Inside(op: Op) {
    && FallsThrough(op)
    && !op.operation.Alloc? && !op.operation.Free? && !op.operation.StackFramePush? && !op.operation.StackFramePop?
  }

  predicate AllInside(code: seq<Op>) {
    forall i :: 0 <= i < |code| ==> Inside(code[i])
  }

  lemma InsideKeeps(r: Rules, op: Op, s: Stage)
    requires Inside(op) && s.In? && Effect(r, op, s).Some?
    ensures Effect(r, op, s).value.In? && Effect(r, op, s).value.slots == s.slots
  {
  }

  lemma {:induction false} StaysInside(r: Rules, code: seq<Op>, ann: seq<Stage>, from: Stage, to: Stage, exits: Exits,
                                       i: nat)
    requires Flows(r, code, ann, from, to, exits) && AllInside(code) && from.In? && i <= |code|
    ensures ann[i].In? && ann[i].slots == from.slots
    decreases i
  {
    hide Effect;
    if i > 0 {
      StaysInside(r, code, ann, from, to, exits, i - 1);
      assert StepOk(r, code, ann, i - 1, exits);
      InsideKeeps(r, code[i - 1], ann[i - 1]);
    }
  }

  lemma ExprInside(p: Program, scope: set<string>, e: Expr, slots: Slots)
    requires Arity(p, scope, e).Some? && scope == slots.Keys
    ensures AllInside(Gen(e, slots).code)
    decreases e, 1
  {
    match e
    case Unary(_, a) => ExprInside(p, scope, a, slots);
    case Binary(_, _, _) => PairInside(p, scope, e, slots);
    case LogOr(_, _) => PairInside(p, scope, e, slots);
    case LogAnd(_, _) => PairInside(p, scope, e, slots);
    case Ref(l) => TargetInside(p, scope, l, slots);
    case Deref(a) => ExprInside(p, scope, a, slots);
    case Assign(_, _) => StoreInside(p, scope, e, slots);
    case Swap(_, _) => StoreInside(p, scope, e, slots);
    case Call(_, _) => CallInside(p, scope, e, slots);
    case List(es) => ListInside(p, scope, es, slots);
    case _ =>
  }

  lemma PairInside(p: Program, scope: set<string>, e: Expr, slots: Slots)
    requires (e.Binary? || e.LogOr? || e.LogAnd?) && Arity(p, scope, e).Some? && scope == slots.Keys
    ensures AllInside(Gen(e, slots).code)
    decreases e, 0
  {
    ExprInside(p, scope, e.left, slots);
    ExprInside(p, scope, e.right, slots);
  }

  lemma StoreInside(p: Program, scope: set<string>, e: Expr, slots: Slots)
    requires (e.Assign? || e.Swap?) && Arity(p, scope, e).Some? && scope == slots.Keys
    ensures AllInside(Gen(e, slots).code)
    decreases e, 0
  {
    hide GenAssign, GenTargets, Inside;
    ExprInside(p, scope, e.right, slots);
    if e.Assign? {
      TargetInside(p, scope, e.left, slots);
    } else {
      TargetsInside(e.targets, slots);
    }
  }

  lemma CallInside(p: Program, scope: set<string>, e: Expr, slots: Slots)
    requires e.Call? && Arity(p, scope, e).Some? && scope == slots.Keys
    ensures AllInside(Gen(e, slots).code)
    decreases e, 0
  {
    hide Gen, CalleeCode;
    ExprInside(p, scope, e.args, slots);
    CallShape(e, slots);
    CalleeIsCall(e.callee.name, slots);
  }

  lemma TargetInside(p: Program, scope: set<string>, l: Expr, slots: Slots)
    requires IsTarget(p, scope, l) && scope == slots.Keys
    ensures AllInside(Gen(Ref(l), slots).code) && AllInside(GenAssign(Gen(l, slots)).code)
    decreases l, 0
  {
    hide Gen, GenAssign;
    LvalueRewriting(l, slots);
    if l.Deref? {
      ExprInside(p, scope, l.operand, slots);
    }
  }

  lemma {:induction false} TargetsInside(targets: seq<Expr>, slots: Slots)
    requires forall t :: t in targets ==> t.Ident? && t.name in slots
    ensures AllInside(GenTargets(targets, slots).code)
    decreases |targets|
  {
    if targets != [] {
      hide GenTargets;
      assert targets[0] in targets;
      TargetShape(targets, slots);
      TargetsInside(targets[1..], slots);
    }
  }

  lemma ListInside(p: Program, scope: set<string>, es: seq<Expr>, slots: Slots)
    requires ArityAll(p, scope, es).Some? && scope == slots.Keys
    ensures AllInside(GenList(es, slots).code)
    decreases es, 0
  {
    hide Gen;
    if es != [] {
      ExprInside(p, scope, es[|es| - 1], slots);
      ListInside(p, scope, es[..|es| - 1], slots);
    }
  }

  /** Inside an expression the index does not change. */
  lemma ExprMarked(r: Rules, e: Expr, slots: Slots, ann: seq<Stage>, d: nat, index: nat, to: Stage)
    requires Arity(r.p, slots.Keys, e).Some? && Flows(r, Gen(e, slots).code, ann, In(d, index, false), to, {})
    ensures Marked(ann, Level(index, |Gen(e, slots).code|))
  {
    hide Effect, Gen, Arity, AllInside;
    var code := Gen(e, slots).code;
    ExprInside(r.p, slots.Keys, e, slots);
    forall i | 0 <= i < |code|
      ensures ann[i].In? && ann[i].slots == index
    {
      StaysInside(r, code, ann, In(d, index, false), to, {}, i);
    }
  }

  // ----- annotated code with its indexes -----

  ghost predicate Tracked(r: Rules, code: seq<Op>, ann: seq<Stage>, marks: seq<int>, from: Stage, to: Stage,
                          exits: Exits) {
    Flows(r, code, ann, from, to, exits) && Marked(ann, marks)
  }

  lemma Widened(r: Rules, code: seq<Op>, ann: seq<Stage>, marks: seq<int>, from: Stage, to: Stage, exits: Exits,
                more: Exits)
    requires Tracked(r, code, ann, marks, from, to, exits) && exits <= more
    ensures Tracked(r, code, ann, marks, from, to, more)
  {
    hide Flows;
    Loosened(r, code, ann, from, to, exits, more);
  }

  lemma FollowedBy(r: Rules, a: seq<Op>, annA: seq<Stage>, markA: seq<int>, b: seq<Op>, annB: seq<Stage>,
                   markB: seq<int>,
                   from: Stage, mid: Stage, to: Stage, exits: Exits)
    returns (ann: seq<Stage>)
    requires Tracked(r, a, annA, markA, from, mid, Beyond(exits, |b|) + {(|b|, to)})
    requires Tracked(r, b, annB, markB, mid, to, exits)
    ensures Tracked(r, a + b, ann, markA + markB, from, to, exits)
  {
    assert |annA| == |a| + 1;
    hide Flows, Marked;
    ann := Followed(r, a, annA, b, annB, from, mid, to, exits);
    MarkedLength(annA, markA);
    Joined(annA, markA, annB, markB);
  }

  lemma MarkedLength(ann: seq<Stage>, marks: seq<int>)
    requires Marked(ann, marks)
    ensures |ann| == |marks| + 1
  {
  }

  /** Pieces without pending jumps. */
  lemma InOrder(r: Rules, a: seq<Op>, annA: seq<Stage>, markA: seq<int>, b: seq<Op>, annB: seq<Stage>, markB: seq<int>,
                from: Stage, mid: Stage, to: Stage)
    returns (ann: seq<Stage>)
    requires Tracked(r, a, annA, markA, from, mid, {}) && Tracked(r, b, annB, markB, mid, to, {})
    ensures Tracked(r, a + b, ann, markA + markB, from, to, {})
  {
    hide Tracked;
    NoExits(|b|);
    Widened(r, a, annA, markA, from, mid, {}, Beyond({}, |b|) + {(|b|, to)});
    ann := FollowedBy(r, a, annA, markA, b, annB, markB, from, mid, to, {});
  }

  lemma NoCodeTracked(r: Rules, s: Stage, exits: Exits)
    ensures Tracked(r, [], [s], [], s, s, exits)
  {
  }

  lemma OpTracked(r: Rules, op: Op, from: Stage, to: Stage, index: int)
    requires Effect(r, op, from) == Some(to) && FallsThrough(op) && !IsJump(op) && (from.In? ==> from.slots == index)
    ensures Tracked(r, [op], [from, to], [index], from, to, {})
  {
  }

  lemma JumpTracked(r: Rules, op: Op, from: Stage, to: Stage, s: Stage)
    requires from.In? && IsJump(op) && Effect(r, op, from) == Some(s) && (op.operation.Jump? || to == s)
    ensures Tracked(r, [op], [from, to], [from.slots as int], from, to, {(op.operand, s)})
  {
  }
}
