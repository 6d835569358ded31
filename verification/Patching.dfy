/**
  Jumps out of a loop are emitted with an unknown target and patched at the end of the
  loop. Patching the unpatched code of a body gives the code that knew its exit all along.
*/
module Patching {
  import opened Word64
  import opened Ir
  import opened Source
  import opened Codegen

  function Aimed(op: Op, at: nat, target: int): Op {
    op.(operand := target - 1 - at)
  }

  /** Patch the listed jumps, last one first, to land on `target`. */
  function PatchAll(code: seq<Op>, ps: seq<nat>, target: int): (r: seq<Op>)
    requires forall i :: 0 <= i < |ps| ==> ps[i] < |code|
    ensures |r| == |code|
    decreases |ps|
  {
    if ps == [] then code else
    var p := ps[|ps| - 1];
    PatchAll(code[p := Aimed(code[p], p, target)], ps[..|ps| - 1], target)
  }

  lemma {:induction false} PatchAllAt(code: seq<Op>, ps: seq<nat>, target: int, i: nat)
    requires forall k :: 0 <= k < |ps| ==> ps[k] < |code|
    requires i < |code|
    ensures PatchAll(code, ps, target)[i] == if i in ps then Aimed(code[i], i, target) else code[i]
    decreases |ps|
  {
    if ps != [] {
      var p := ps[|ps| - 1];
      PatchAllAt(code[p := Aimed(code[p], p, target)], ps[..|ps| - 1], target, i);
      assert ps == ps[..|ps| - 1] + [p];
    }
  }

  /** `b` is `a` with every pending jump aimed `d` opcodes behind the end of the code. */
  ghost predicate Patched(a: Piece, b: Piece, d: nat) {
    && a.breaks == b.breaks && a.continues == b.continues && |a.code| == |b.code|
    && (forall k :: 0 <= k < |a.breaks| ==> a.breaks[k] < |a.code| && a.code[a.breaks[k]] == Plain(Jump, 0))
    && (forall k :: 0 <= k < |a.continues| ==> a.continues[k] < |a.code| && a.code[a.continues[k]] == Plain(Jump, 0))
    && (forall i :: 0 <= i < |a.code| ==>
          b.code[i] == if i in a.breaks || i in a.continues then Aimed(a.code[i], i, |a.code| + d) else a.code[i])
  }

  lemma InShifted(ps: seq<nat>, d: nat, i: nat)
    ensures i in Shift(ps, d) <==> (i >= d && i - d in ps)
  {
  }

  lemma JoinPatched(a1: Piece, a2: Piece, b1: Piece, b2: Piece, d: nat)
    requires Patched(a1, b1, |a2.code| + d) && Patched(a2, b2, d)
    ensures Patched(Join(a1, a2), Join(b1, b2), d)
  {
    var a, b, n := Join(a1, a2), Join(b1, b2), |a1.code|;
    forall i | 0 <= i < |a.code|
      ensures b.code[i] == if i in a.breaks || i in a.continues then Aimed(a.code[i], i, |a.code| + d) else a.code[i]
    {
      InShifted(a2.breaks, n, i);
      InShifted(a2.continues, n, i);
      if i >= n {
        assert i !in a1.breaks && i !in a1.continues;
        assert a2.code[i - n] == a.code[i];
      }
    }
  }

  lemma StraightPatched(code: seq<Op>, d: nat)
    ensures Patched(Straight(code), Straight(code), d)
  {
  }

  lemma PatchedStmt(s: Stmt, slots: Slots, index: int, live: nat, d: nat)
    ensures Patched(GenStmt(s, slots, index, live, None), GenStmt(s, slots, index, live, Some(d)), d)
    decreases s, 2
  {
    hide Patched, Gen;
    match s
    case Declare(ds) => StraightPatched(GenDecls(ds, slots, index), d);
    case Compound(body) => PatchedBlock(body, slots, index, false, d);
    case If(c, body) =>
      PatchedBlock(body, slots, index, false, d);
      var a, b := GenBlock(body, slots, index, false, None), GenBlock(body, slots, index, false, Some(d));
      PatchedLength(a, b, d);
      var head := Gen(c, slots).code + [Plain(JumpIfNot, |b.code|)];
      StraightPatched(head, |a.code| + d);
      JoinPatched(Straight(head), a, Straight(head), b, d);
    case IfElse(_, _, _) => PatchedIfElse(s, slots, index, live, d);
    case While(_, _) => StraightPatched(GenStmt(s, slots, index, live, None).code, d);
    case Return(_) => StraightPatched(GenStmt(s, slots, index, live, None).code, d);
    case Break => PatchedJump(s, slots, index, live, d);
    case Continue => PatchedJump(s, slots, index, live, d);
    case Eval(e) => StraightPatched(Gen(e, slots).code, d);
  }

  lemma PatchedLength(a: Piece, b: Piece, d: nat)
    requires Patched(a, b, d)
    ensures |a.code| == |b.code|
  {
  }

  lemma PatchedJump(s: Stmt, slots: Slots, index: int, live: nat, d: nat)
    requires s.Break? || s.Continue?
    ensures Patched(GenStmt(s, slots, index, live, None), GenStmt(s, slots, index, live, Some(d)), d)
  {
  }

  lemma IfElsePatched(c: seq<Op>, ba: Piece, ea: Piece, bb: Piece, eb: Piece, d: nat)
    requires Patched(ea, eb, d) && Patched(ba, bb, d + 1 + |eb.code|)
    ensures Patched(IfElsePiece(c, ba, ea), IfElsePiece(c, bb, eb), d)
  {
    PatchedLength(ea, eb, d);
    PatchedLength(ba, bb, d + 1 + |eb.code|);
    hide Patched;
    var far := d + 1 + |eb.code|;
    var head, over := c + [Plain(JumpIfNot, |bb.code| + 1)], [Plain(Jump, |eb.code|)];
    StraightPatched(head, |ba.code| + far);
    JoinPatched(Straight(head), ba, Straight(head), bb, far);
    StraightPatched(over, |ea.code| + d);
    JoinPatched(Straight(over), ea, Straight(over), eb, d);
    JoinPatched(Join(Straight(head), ba), Join(Straight(over), ea), Join(Straight(head), bb), Join(Straight(over), eb),
                d);
  }

  lemma PatchedIfElse(s: Stmt, slots: Slots, index: int, live: nat, d: nat)
    requires s.IfElse?
    ensures Patched(GenStmt(s, slots, index, live, None), GenStmt(s, slots, index, live, Some(d)), d)
    decreases s, 1
  {
    hide Patched, Gen, GenBlock, IfElsePiece;
    PatchedStmt(s.otherwise, slots, index, 0, d);
    var ea, eb := GenStmt(s.otherwise, slots, index, 0, None), GenStmt(s.otherwise, slots, index, 0, Some(d));
    var far := d + 1 + |eb.code|;
    PatchedBlock(s.body, slots, index, false, far);
    IfElsePatched(Gen(s.cond, slots).code, GenBlock(s.body, slots, index, false, None), ea,
                  GenBlock(s.body, slots, index, false, Some(far)), eb, d);
  }

  lemma PatchedStmts(ss: seq<Stmt>, slots: Slots, index: int, live: nat, d: nat)
    ensures Patched(GenStmts(ss, slots, index, live, None), GenStmts(ss, slots, index, live, Some(d)), d)
    decreases ss, 0
  {
    hide Patched, GenStmt, Join, SlotsAfter, IndexAfter;
    if ss == [] {
      StraightPatched([], d);
    } else {
      var slots', index', live' := SlotsAfter(ss[0], slots, index), IndexAfter(ss[0], index), live + Declared(ss[0]);
      PatchedStmts(ss[1..], slots', index', live', d);
      var ra, rb := GenStmts(ss[1..], slots', index', live', None), GenStmts(ss[1..], slots', index', live', Some(d));
      PatchedLength(ra, rb, d);
      PatchedStmt(ss[0], slots, index, live, d + |rb.code|);
      JoinPatched(GenStmt(ss[0], slots, index, live, None), ra, GenStmt(ss[0], slots, index, live, Some(d + |rb.code|)),
                  rb, d);
    }
  }

  lemma PatchedBlock(ss: seq<Stmt>, slots: Slots, index: int, frameFree: bool, d: nat)
    ensures Patched(GenBlock(ss, slots, index, frameFree, None), GenBlock(ss, slots, index, frameFree, Some(d)), d)
    decreases ss, 1
  {
    hide Patched, GenStmts;
    var tail := if frameFree then [] else FreeOps(DeclaredAll(ss));
    PatchedStmts(ss, slots, index, 0, d + |tail|);
    StraightPatched(tail, d);
    JoinPatched(GenStmts(ss, slots, index, 0, None), Straight(tail), GenStmts(ss, slots, index, 0, Some(d + |tail|)),
                Straight(tail), d);
  }

  /** Patching all jumps a loop body left pending yields the body that knew its exit. */
  lemma LoopPatched(pre: seq<Op>, a: Piece, b: Piece, post: seq<Op>)
    requires Patched(a, b, |post|)
    ensures var target := |pre| + |a.code| + |post|;
            var full := pre + a.code + post;
            && (forall k :: 0 <= k < |a.continues| ==> Shift(a.continues, |pre|)[k] < |full|)
            && (forall k :: 0 <= k < |a.breaks| ==> Shift(a.breaks, |pre|)[k] < |full|)
            && PatchAll(PatchAll(full, Shift(a.continues, |pre|), target), Shift(a.breaks, |pre|), target) ==
               pre + b.code + post
  {
    var target, full, n := |pre| + |a.code| + |post|, pre + a.code + post, |pre|;
    var cs, bs := Shift(a.continues, n), Shift(a.breaks, n);
    var once := PatchAll(full, cs, target);
    var twice := PatchAll(once, bs, target);
    var goal := pre + b.code + post;
    forall i | 0 <= i < |full|
      ensures twice[i] == goal[i]
    {
      PatchAllAt(full, cs, target, i);
      PatchAllAt(once, bs, target, i);
      InShifted(a.breaks, n, i);
      InShifted(a.continues, n, i);
      if n <= i < n + |a.code| {
        assert full[i] == a.code[i - n] && goal[i] == b.code[i - n];
      }
    }
  }
}
