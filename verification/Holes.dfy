/**
  Operands the parser lets a program leave out: the tree of an input it accepts is complete
  exactly when every operator and every grouping parenthesis is followed by a token that starts
  an operand. Empty pairs that stand for a whole argument list, as in `f(())`, do no harm.
*/
module Holes {
  import opened Parser
  import opened Grammar

  /** No operand is missing anywhere in the tree and no part of it failed to parse. */
  predicate Clean(a: Ast)
    decreases a
  {
    match a
    case Error => false
    case Empty => false
    case Primary(_) => true
    case Unary(_, e) => Clean(e)
    case Binary(_, l, r) => Clean(l) && Clean(r)
    case Postfix(_, e, args) => Clean(e) && forall i :: 0 <= i < |args| ==> Clean(args[i])
  }

  predicate AllClean(args: seq<Ast>) {
    forall i :: 0 <= i < |args| ==> Clean(args[i])
  }

  // ----- the condition on tokens -----

  /** What is known at a place of the input: an operand is due; only the opening of a list and
      `depth` opening parentheses lie behind; `depth` of them are still open around an empty
      pair; a value lies behind; an operand was missing. */
  datatype Place = Operand | Opening(depth: nat) | Emptied(depth: nat) | Behind | Missing

  predicate IsClose(t: Token) {
    t == Sym(CloseParen) || t == Sym(CloseBracket)
  }

  function Begin(t: Token): Place {
    if t.Atom? then Behind else Operand
  }

  function Step(p: Place, t: Token): Place {
    match p
    case Operand => if Starts(t) then Begin(t) else Missing
    case Opening(k) =>
      if t == Sym(OpenParen) then Opening(k + 1)
      else if Starts(t) then Begin(t)
      else if !IsClose(t) then Missing
      else if k == 0 then Behind
      else Emptied(k - 1)
    case Emptied(k) => if !IsClose(t) then Missing else if k == 0 then Behind else Emptied(k - 1)
    case Behind =>
      if t == Sym(OpenParen) || t == Sym(OpenBracket) then Opening(0)
      else if IsClose(t) then Behind
      else Operand
    case Missing => Missing
  }

  function Scan(p: Place, ts: seq<Token>): Place
    decreases |ts|
  {
    if ts == [] then p else Scan(Step(p, ts[0]), ts[1..])
  }

  /** Every operator and every grouping parenthesis is followed by a token that starts an
      operand, but for empty pairs in place of an argument list. */
  predicate Supplied(ts: seq<Token>) {
    Scan(Operand, ts) == Behind
  }

  lemma {:induction false} ScanAppend(p: Place, a: seq<Token>, b: seq<Token>)
    ensures Scan(p, a + b) == Scan(Scan(p, a), b)
    decreases |a|
  {
    if a == [] {
      assert a + b == b;
    } else {
      assert (a + b)[1..] == a[1..] + b;
      ScanAppend(Step(p, a[0]), a[1..], b);
    }
  }

  lemma ScanOne(p: Place, t: Token)
    ensures Scan(p, [t]) == Step(p, t)
  {
    assert [t][1..] == [];
  }

  lemma {:induction false} MissingStays(ts: seq<Token>)
    ensures Scan(Missing, ts).Missing?
    decreases |ts|
  {
    if ts != [] {
      MissingStays(ts[1..]);
    }
  }

  // ----- the condition on trees -----

  /** An operand may start here. */
  predicate Fits(p: Place) {
    p.Operand? || p.Opening?
  }

  /** What the scan of the phrase `c` finds behind it, before the token `t`. */
  predicate Found(c: Phrase, from: Place, behind: Place, t: Token) {
    if Clean(Tree(c)) then behind.Behind?
    else if Tree(c).Empty? && from.Opening? then behind == (if c.Hole? then from else Emptied(from.depth))
    else Step(behind, t).Missing?
  }

  lemma {:induction false} ScanPhrase(c: Phrase, min: int, p: Place, t: Token)
    requires WellFormed(c, min) && Follows(c, t) && Fits(p)
    ensures Found(c, p, Scan(p, Yield(c)), t)
    decreases c, 1
  {
    match c
    case Hole =>
    case Leaf(id) => ScanOne(p, Atom(id));
    case Paren(e) => ScanParen(c, p, t);
    case Prefix(op, e) =>
      ScanPhrase(e, PREFIX_POWER, Operand, t);
      ScanOne(p, Sym(op));
      ScanAppend(p, [Sym(op)], Yield(e));
    case Infix(_, _, _) => ScanInfix(c, min, p, t);
    case Suffix(_, _, _, _) => ScanSuffix(c, min, p, t);
  }

  lemma ScanParen(c: Phrase, p: Place, t: Token)
    requires c.Paren? && WellFormed(c.inner, 0) && Fits(p)
    ensures Found(c, p, Scan(p, Yield(c)), t)
    decreases c, 0
  {
    hide WellFormed, Follows;
    var open, close := [Sym(OpenParen)], [Sym(CloseParen)];
    var inside := Step(p, Sym(OpenParen));
    ClosesPhrase(c.inner, 0, Sym(CloseParen));
    ScanPhrase(c.inner, 0, inside, Sym(CloseParen));
    ScanOne(p, Sym(OpenParen));
    ScanOne(Scan(inside, Yield(c.inner)), Sym(CloseParen));
    ScanAppend(p, open, Yield(c.inner));
    ScanAppend(p, open + Yield(c.inner), close);
  }

  lemma InfixToken(op: Symbol, k: nat)
    requires IsInfix(op)
    ensures Step(Behind, Sym(op)).Operand? && Step(Emptied(k), Sym(op)).Missing?
  {
  }

  lemma ScanInfix(c: Phrase, min: int, p: Place, t: Token)
    requires c.Infix? && WellFormed(c, min) && Follows(c, t) && Fits(p)
    ensures Found(c, p, Scan(p, Yield(c)), t)
    decreases c, 0
  {
    hide Scan, Step, InfixPower, IsInfix, Applies;
    var left, op, right := Yield(c.left), [Sym(c.op)], Yield(c.right);
    ScanPhrase(c.left, min, p, Sym(c.op));
    InfixToken(c.op, if p.Opening? then p.depth else 0);
    ScanOne(Scan(p, left), Sym(c.op));
    ScanAppend(p, left, op);
    ScanAppend(p, left + op, right);
    if Clean(Tree(c.left)) {
      ScanPhrase(c.right, InfixPower(Sym(c.op)).right, Operand, t);
    } else {
      StepMissing(t);
      MissingStays(right);
    }
  }

  lemma StepMissing(t: Token)
    ensures Step(Missing, t).Missing?
  {
  }

  lemma ListToken(open: Symbol, k: nat)
    requires IsOpen(open)
    ensures Step(Behind, Sym(open)) == Opening(0) && Step(Emptied(k), Sym(open)).Missing?
    ensures IsClose(Closing(open))
  {
  }

  lemma ScanSuffix(c: Phrase, min: int, p: Place, t: Token)
    requires c.Suffix? && WellFormed(c, min) && Fits(p)
    ensures Found(c, p, Scan(p, Yield(c)), t)
    decreases c, 0
  {
    hide Step, Scan, Closing, Follows, IsOpen, LeftPower, Starts, IsClose;
    var target, open, close := Yield(c.target), [Sym(c.open)], [Closing(c.open)];
    var list := Hollow(c.hollow) + YieldList(c.args);
    ListToken(c.open, if p.Opening? then p.depth else 0);
    StepMissing(t);
    ScanPhrase(c.target, min, p, Sym(c.open));
    ScanOne(Scan(p, target), Sym(c.open));
    ScanAppend(p, target, open);
    ScanAppend(p, target + open, list);
    ScanAppend(p, target + open + list, close);
    ScanOne(Scan(Opening(0), list), Closing(c.open));
    if Clean(Tree(c.target)) {
      ScanInside(c.args, c.hollow, Closing(c.open));
    } else {
      MissingStays(list);
      MissingStays(close);
    }
  }

  lemma CloseTokens(close: Token)
    requires IsClose(close)
    ensures LeftPower(close) < 0 && !Starts(close) && Step(Behind, close).Behind?
    ensures Step(Opening(0), close).Behind? && Step(Emptied(0), close).Behind?
  {
  }

  /** Between the parentheses of a call or the brackets of an index. */
  lemma ScanInside(cs: seq<Phrase>, k: nat, close: Token)
    requires AllWellFormed(cs) && (cs == [] || k == 0) && IsClose(close)
    ensures var behind := Step(Scan(Opening(0), Hollow(k) + YieldList(cs)), close);
            if AllClean(Trees(cs)) then behind.Behind? else behind.Missing?
    decreases cs, 2
  {
    hide LeftPower, Starts, Step, IsClose;
    CloseTokens(close);
    if cs == [] {
      assert Hollow(k) + YieldList(cs) == Hollow(k);
      ScanHollow(k, 0);
    } else {
      assert Hollow(k) + YieldList(cs) == YieldList(cs);
      ScanElements(cs, Opening(0), close);
    }
  }

  lemma {:induction false} ScanHollow(k: nat, depth: nat)
    ensures Scan(Opening(depth), Hollow(k)) == if k == 0 then Opening(depth) else Emptied(depth)
  {
    if k > 0 {
      hide Hollow, Scan, Step;
      var inner, close := Hollow(k - 1), [Sym(CloseParen)];
      HollowSteps(k, depth);
      ScanOne(Opening(depth), Sym(OpenParen));
      ScanAppend(Opening(depth), [Sym(OpenParen)], inner);
      ScanAppend(Opening(depth), [Sym(OpenParen)] + inner, close);
      ScanHollow(k - 1, depth + 1);
      ScanOne(Scan(Opening(depth + 1), inner), Sym(CloseParen));
    }
  }

  lemma HollowSteps(k: nat, depth: nat)
    requires k > 0
    ensures Hollow(k) == [Sym(OpenParen)] + Hollow(k - 1) + [Sym(CloseParen)]
    ensures Step(Opening(depth), Sym(OpenParen)) == Opening(depth + 1)
    ensures Step(if k == 1 then Opening(depth + 1) else Emptied(depth + 1), Sym(CloseParen)) == Emptied(depth)
  {
    hide Scan;
  }

  lemma CommaPlaces()
    ensures LeftPower(Sym(Comma)) < 0 && !Starts(Sym(Comma)) && Step(Behind, Sym(Comma)).Operand?
  {
  }

  /** The elements of a list that is not empty, the first of them at the place `p`. */
  lemma {:induction false} ScanElements(cs: seq<Phrase>, p: Place, close: Token)
    requires cs != [] && AllWellFormed(cs) && IsClose(close) && Fits(p)
    ensures var behind := Step(Scan(p, YieldList(cs)), close);
            if AllClean(Trees(cs)) then behind.Behind? else behind.Missing?
    decreases cs, 1
  {
    hide Step, Scan, LeftPower, Starts, Follows, IsClose, WellFormed, Tree, Yield, Clean, AllClean;
    CommaPlaces();
    CloseTokens(close);
    var first, tail := Yield(cs[0]), YieldTail(cs[1..]);
    var next := if cs[1..] == [] then close else Sym(Comma);
    ClosesPhrase(cs[0], 2, next);
    ScanPhrase(cs[0], 2, p, next);
    AllCleanSplit(cs);
    if cs[1..] == [] {
      assert first + tail == first;
      NoneClean();
    } else {
      YieldFrom(cs);
      ScanOne(Scan(p, first), Sym(Comma));
      ScanAppend(p, first, [Sym(Comma)]);
      ScanAppend(p, first + [Sym(Comma)], YieldList(cs[1..]));
      if Clean(Tree(cs[0])) {
        ScanElements(cs[1..], Operand, close);
      } else {
        MissingStays(YieldList(cs[1..]));
        StepMissing(close);
      }
    }
  }

  lemma NoneClean()
    ensures AllClean(Trees([]))
  {
  }

  lemma YieldFrom(cs: seq<Phrase>)
    requires |cs| > 1
    ensures YieldList(cs) == Yield(cs[0]) + [Sym(Comma)] + YieldList(cs[1..])
  {
    hide Yield;
  }

  lemma AllCleanSplit(cs: seq<Phrase>)
    requires cs != []
    ensures AllClean(Trees(cs)) <==> Clean(Tree(cs[0])) && AllClean(Trees(cs[1..]))
  {
    var all, tail := Trees(cs), Trees(cs[1..]);
    assert all == [Tree(cs[0])] + tail;
    assert all[0] == Tree(cs[0]);
    assert forall i :: 0 <= i < |tail| ==> tail[i] == all[i + 1];
    assert forall i :: 0 < i < |all| ==> all[i] == tail[i - 1];
  }

  // ----- the parser -----

  /** Of an input accepted up to `rest`, no operand is missing exactly when its tokens supply
      every operand. */
  lemma CompleteExactly(used: seq<Token>, min: int, a: Ast, rest: seq<Token>)
    requires min >= 0 && ParseExpr(used + rest, min) == Parsed(a, rest, true)
    ensures Clean(a) <==> Supplied(used)
  {
    hide ParseExpr, Scan, Step, WellFormed, Follows, Tree, Yield;
    var c := Soundness(used + rest, min);
    SamePrefix(used, Yield(c), rest);
    ScanPhrase(c, min, Operand, Peek(rest));
    StepBehind(Peek(rest));
  }

  lemma StepBehind(t: Token)
    ensures !Step(Behind, t).Missing?
  {
  }
}
