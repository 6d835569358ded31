/**
  A static discipline for opcode sequences: at every position the depth of the exec stack and
  the number of frame cells are known before the program runs.
*/
module Stages {
  import opened Word64
  import opened Ir
  import opened Source
  import opened Codegen

  /** Before the frame of a function is open, inside it, or after it was closed. `addr`: the
      top of the exec stack is the address of a cell of this frame. */
  datatype Stage = Before(depth: nat) | In(depth: nat, slots: nat, addr: bool) | After(depth: nat)

  /** The function the code belongs to. `strict` keeps addresses apart from numbers: they only
      appear right in front of the opcode that uses them. */
  datatype Rules = Rules(p: Program, results: nat, strict: bool)

  function InFrame(depth: int, slots: int, addr: bool): Option<Stage> {
    if depth >= 0 && slots >= 0 then Some(In(depth, slots, addr)) else None
  }

  /** What an opcode does to the stage, `None` when it may not stand there. */
  function Effect(r: Rules, op: Op, s: Stage): Option<Stage> {
    match s
    case Before(d) => if op.operation.StackFramePush? then Some(In(d, 0, false)) else None
    case After(d) => if op.operation.Ret? && d == r.results then Some(s) else None
    case In(d, k, addr) =>
      if addr && !op.operation.Store? then None else
      match op.operation
      case PushSign => Some(In(d + 1, k, false))
      case PushUnsign => Some(In(d + 1, k, false))
      case PushStack => if 1 <= op.operand <= k then Some(In(d + 1, k, false)) else None
      case PushSea => if 1 <= op.operand <= k then Some(In(d + 1, k, r.strict)) else None
      case Alloc => if op.operand == 1 then Some(In(d + 1, k + 1, r.strict)) else None
      case Store => if r.strict ==> addr then InFrame(d - 2, k, false) else None
      case Load => if d >= 1 && !r.strict then Some(s) else None
      case Nop => if r.strict then None else Some(s)
      case Pop => InFrame(d - 1, k, false)
      case Clone => if d >= 1 then Some(In(d + 1, k, false)) else None
      case Unary(_) => if d >= 1 then Some(s) else None
      case Binary(_) => if d >= 2 then Some(In(d - 1, k, false)) else None
      case Jump => Some(s)
      case JumpIf => InFrame(d - 1, k, false)
      case JumpIfNot => InFrame(d - 1, k, false)
      case Free => if op.operand >= 0 then InFrame(d, k - op.operand, false) else None
      case StackFramePop => Some(After(d))
      case Call =>
        if op.name in r.p && d >= |r.p[op.name].params|
        then Some(In(d - |r.p[op.name].params| + r.p[op.name].results, k, false)) else None
      case Invalid => Some(s)
      case _ => None
  }

  predicate FallsThrough(op: Op) {
    !op.operation.Jump? && !op.operation.Ret? && !op.operation.Invalid?
  }

  /** Where code may be left by a jump: distance from its end, and the stage expected there. */
  type Exits = set<(int, Stage)>

  ghost predicate Lands(ann: seq<Stage>, target: int, s: Stage, exits: Exits) {
    (0 <= target < |ann| && ann[target] == s) || (target - (|ann| - 1), s) in exits
  }

  ghost predicate StepOk(r: Rules, code: seq<Op>, ann: seq<Stage>, i: nat, exits: Exits)
    requires |ann| == |code| + 1 && i < |code|
  {
    && Effect(r, code[i], ann[i]).Some?
    && var s := Effect(r, code[i], ann[i]).value;
       && (FallsThrough(code[i]) ==> ann[i + 1] == s)
       && (IsJump(code[i]) ==> Lands(ann, i + 1 + code[i].operand, s, exits))
  }

  /** `ann` gives the stage in front of every opcode and behind the last one. */
  ghost predicate Flows(r: Rules, code: seq<Op>, ann: seq<Stage>, from: Stage, to: Stage, exits: Exits) {
    && |ann| == |code| + 1 && ann[0] == from && ann[|code|] == to
    && forall i :: 0 <= i < |code| ==> StepOk(r, code, ann, i, exits)
  }

  function Beyond(exits: Exits, d: int): Exits {
    set x | x in exits :: (x.0 + d, x.1)
  }

  lemma InBeyond(exits: Exits, d: int, t: int, s: Stage)
    ensures (t, s) in Beyond(exits, d) <==> (t - d, s) in exits
  {
  }

  lemma NoExits(d: int)
    ensures Beyond({}, d) == {}
  {
  }

  lemma Loosened(r: Rules, code: seq<Op>, ann: seq<Stage>, from: Stage, to: Stage, exits: Exits, more: Exits)
    requires Flows(r, code, ann, from, to, exits) && exits <= more
    ensures Flows(r, code, ann, from, to, more)
  {
    forall i | 0 <= i < |code|
      ensures StepOk(r, code, ann, i, more)
    {
      assert StepOk(r, code, ann, i, exits);
    }
  }

  /** One piece after the other; jumps of the first may cross the second to its end. */
  lemma Followed(r: Rules, a: seq<Op>, annA: seq<Stage>, b: seq<Op>, annB: seq<Stage>, from: Stage, mid: Stage,
                 to: Stage, exits: Exits)
    returns (ann: seq<Stage>)
    requires Flows(r, a, annA, from, mid, Beyond(exits, |b|) + {(|b|, to)})
    requires Flows(r, b, annB, mid, to, exits)
    ensures ann == annA[..|a|] + annB
    ensures Flows(r, a + b, ann, from, to, exits)
  {
    ann := annA[..|a|] + annB;
    forall i | 0 <= i < |a + b|
      ensures StepOk(r, a + b, ann, i, exits)
    {
      if i < |a| {
        assert StepOk(r, a, annA, i, Beyond(exits, |b|) + {(|b|, to)});
        var target := i + 1 + a[i].operand;
        if IsJump(a[i]) {
          InBeyond(exits, |b|, target - |a|, Effect(r, a[i], annA[i]).value);
        }
      } else {
        assert StepOk(r, b, annB, i - |a|, exits);
        assert (a + b)[i] == b[i - |a|] && ann[i] == annB[i - |a|] && ann[i + 1] == annB[i - |a| + 1];
      }
    }
  }

  /** Exits that lead back into the code itself are none. */
  lemma Internal(r: Rules, code: seq<Op>, ann: seq<Stage>, from: Stage, to: Stage, exits: Exits)
    requires Flows(r, code, ann, from, to, exits)
    requires forall x :: x in exits ==> 0 <= |code| + x.0 <= |code| && ann[|code| + x.0] == x.1
    ensures Flows(r, code, ann, from, to, {})
  {
    forall i | 0 <= i < |code|
      ensures StepOk(r, code, ann, i, {})
    {
      assert StepOk(r, code, ann, i, exits);
      var target := i + 1 + code[i].operand;
      if IsJump(code[i]) && (target - |code|, Effect(r, code[i], ann[i]).value) in exits {
        assert ann[target] == Effect(r, code[i], ann[i]).value;
      }
    }
  }

  lemma NoCode(r: Rules, s: Stage, exits: Exits)
    ensures Flows(r, [], [s], s, s, exits)
  {
  }

  /** A single opcode that falls through and does not jump. */
  lemma OneOp(r: Rules, op: Op, from: Stage, to: Stage)
    requires Effect(r, op, from) == Some(to) && FallsThrough(op) && !IsJump(op)
    ensures Flows(r, [op], [from, to], from, to, {})
  {
  }

  /** A single jump; behind an unconditional one any stage will do. */
  lemma OneJump(r: Rules, op: Op, from: Stage, to: Stage, s: Stage)
    requires IsJump(op) && Effect(r, op, from) == Some(s) && (op.operation.Jump? || to == s)
    ensures Flows(r, [op], [from, to], from, to, {(op.operand, s)})
  {
  }

  /** Pieces without pending jumps, one after the other. */
  lemma Then(r: Rules, a: seq<Op>, annA: seq<Stage>, b: seq<Op>, annB: seq<Stage>, from: Stage, mid: Stage, to: Stage)
    returns (ann: seq<Stage>)
    requires Flows(r, a, annA, from, mid, {}) && Flows(r, b, annB, mid, to, {})
    ensures Flows(r, a + b, ann, from, to, {})
  {
    NoExits(|b|);
    Loosened(r, a, annA, from, mid, {}, Beyond({}, |b|) + {(|b|, to)});
    ann := Followed(r, a, annA, b, annB, from, mid, to, {});
  }

  lemma ThenOp(r: Rules, a: seq<Op>, annA: seq<Stage>, op: Op, from: Stage, mid: Stage, to: Stage)
    returns (ann: seq<Stage>)
    requires Flows(r, a, annA, from, mid, {})
    requires Effect(r, op, mid) == Some(to) && FallsThrough(op) && !IsJump(op)
    ensures Flows(r, a + [op], ann, from, to, {})
  {
    hide Effect, Flows, FallsThrough, IsJump;
    OneOp(r, op, mid, to);
    ann := Then(r, a, annA, [op], [mid, to], from, mid, to);
  }
}
