/**
  What the expression parser accepts: a reference grammar by precedence levels, and that the
  parser recognises exactly its phrases, with exactly their trees.
*/
module Grammar {
  import opened Parser

  /** A phrase keeps the parentheses the tree forgets. A `Hole` is an operand that is not there,
      as behind the operator of `a +`; `hollow` counts the empty pairs the parser accepts in place
      of no argument at all, as in `f(())`. */
  datatype Phrase =
    | Hole
    | Leaf(id: int)
    | Paren(inner: Phrase)
    | Prefix(op: Symbol, operand: Phrase)
    | Infix(op: Symbol, left: Phrase, right: Phrase)
    | Suffix(open: Symbol, target: Phrase, args: seq<Phrase>, hollow: nat)

  function Tree(c: Phrase): Ast
    decreases c
  {
    match c
    case Hole => Empty
    case Leaf(id) => Primary(id)
    case Paren(e) => Tree(e)
    case Prefix(op, e) => Unary(op, Tree(e))
    case Infix(op, a, b) => Binary(op, Tree(a), Tree(b))
    case Suffix(open, e, args, _) => Postfix(open, Tree(e), Trees(args))
  }

  function Trees(cs: seq<Phrase>): (r: seq<Ast>)
    ensures |r| == |cs|
    decreases cs
  {
    if cs == [] then [] else [Tree(cs[0])] + Trees(cs[1..])
  }

  /** The tokens of a phrase, in order. */
  function Yield(c: Phrase): seq<Token>
    decreases c
  {
    match c
    case Hole => []
    case Leaf(id) => [Atom(id)]
    case Paren(e) => [Sym(OpenParen)] + Yield(e) + [Sym(CloseParen)]
    case Prefix(op, e) => [Sym(op)] + Yield(e)
    case Infix(op, a, b) => Yield(a) + [Sym(op)] + Yield(b)
    case Suffix(open, e, args, k) => Yield(e) + [Sym(open)] + (Hollow(k) + YieldList(args)) + [Closing(open)]
  }

  function Hollow(k: nat): seq<Token> {
    if k == 0 then [] else [Sym(OpenParen)] + Hollow(k - 1) + [Sym(CloseParen)]
  }

  function YieldList(cs: seq<Phrase>): seq<Token>
    decreases cs
  {
    if cs == [] then [] else Yield(cs[0]) + YieldTail(cs[1..])
  }

  function YieldTail(cs: seq<Phrase>): seq<Token>
    decreases cs
  {
    if cs == [] then [] else [Sym(Comma)] + Yield(cs[0]) + YieldTail(cs[1..])
  }

  /** The left power of a token, negative when it does not continue an expression. */
  function LeftPower(t: Token): int {
    if Applies(PostfixPower(t)) then PostfixPower(t).left else InfixPower(t).left
  }

  predicate IsInfix(op: Symbol) {
    Applies(InfixPower(Sym(op)))
  }

  predicate IsOpen(op: Symbol) {
    op == OpenParen || op == OpenBracket
  }

  /** The tokens with which an operand begins. */
  predicate Starts(t: Token) {
    t.Atom? || IsPrefix(t) || t == Sym(OpenParen)
  }

  /** Written right behind the phrase, `t` is taken by none of the operands the phrase ends with
      and fills none of its holes. */
  predicate Follows(c: Phrase, t: Token)
    decreases c
  {
    match c
    case Hole => !Starts(t)
    case Prefix(_, e) => Follows(e, t) && (e.Hole? || LeftPower(t) < PREFIX_POWER)
    case Infix(op, _, b) => Follows(b, t) && (b.Hole? || LeftPower(t) < InfixPower(Sym(op)).right)
    case _ => true
  }

  /** The phrases of level `min`: on the left spine every operator has a left power of at
      least `min`, and every left operand is there and ends before its operator. */
  predicate WellFormed(c: Phrase, min: int)
    decreases c, 0
  {
    match c
    case Hole => true
    case Leaf(_) => true
    case Paren(e) => WellFormed(e, 0)
    case Prefix(op, e) => IsPrefix(Sym(op)) && WellFormed(e, PREFIX_POWER)
    case Infix(op, a, b) =>
      var p := InfixPower(Sym(op));
      IsInfix(op) && p.left >= min && !a.Hole? && WellFormed(a, min) && Follows(a, Sym(op)) && WellFormed(b, p.right)
    case Suffix(open, e, args, k) =>
      && IsOpen(open) && 25 >= min && !e.Hole? && WellFormed(e, min) && Follows(e, Sym(open))
      && AllWellFormed(args) && (args == [] || k == 0)
  }

  predicate AllWellFormed(cs: seq<Phrase>)
    decreases cs
  {
    cs == [] || (Element(cs[0]) && AllWellFormed(cs[1..]))
  }

  /** An element of a list: `()` alone is none. */
  predicate Element(c: Phrase)
    decreases c, 1
  {
    WellFormed(c, InfixPower(Sym(Assign)).left) && !Tree(c).Empty?
  }

  /** The next token ends the phrase in a context of level `min`. */
  predicate Ends(c: Phrase, min: int, rest: seq<Token>) {
    Follows(c, Peek(rest)) && (c.Hole? || LeftPower(Peek(rest)) < min)
  }

  // ----- completeness -----

  lemma StopsHere(lhs: Ast, ts: seq<Token>, min: int)
    requires LeftPower(Peek(ts)) < min
    ensures Climb(lhs, ts, min) == Parsed(lhs, ts, true)
  {
  }

  lemma {:induction false} TreeShape(c: Phrase)
    ensures !Tree(c).Error?
    decreases c
  {
    if c.Paren? {
      TreeShape(c.inner);
    }
  }

  /** Parsing the tokens of a phrase leaves its tree as left operand of the loop. */
  lemma {:induction false} ParsesPhrase(c: Phrase, min: int, rest: seq<Token>)
    requires WellFormed(c, min) && Follows(c, Peek(rest)) && !c.Hole?
    ensures ParseExpr(Yield(c) + rest, min) == Climb(Tree(c), rest, min)
    decreases c, 4
  {
    hide LeftPower, InfixPower, PostfixPower, ParseList;
    match c
    case Leaf(id) =>
      assert (Yield(c) + rest)[1..] == rest;
    case Paren(e) => ParsesParen(c, min, rest);
    case Prefix(op, e) => ParsesPrefix(c, min, rest);
    case Infix(op, a, b) => ParsesInfix(c, min, rest);
    case Suffix(_, _, _, _) => ParsesSuffix(c, min, rest);
  }

  /** Behind the tokens of a phrase and a token that ends it, the parser stops with its tree. */
  lemma Completeness(c: Phrase, min: int, rest: seq<Token>)
    requires WellFormed(c, min) && Ends(c, min, rest)
    ensures ParseExpr(Yield(c) + rest, min) == Parsed(Tree(c), rest, true)
    decreases c, 5
  {
    hide LeftPower, ParseExpr, Climb;
    if c.Hole? {
      NothingThere(rest, min);
      assert Yield(c) + rest == rest;
    } else {
      ParsesPhrase(c, min, rest);
      StopsHere(Tree(c), rest, min);
    }
  }

  // One turn of the parser on each form.

  lemma NothingThere(ts: seq<Token>, min: int)
    requires !Starts(Peek(ts))
    ensures ParseExpr(ts, min) == Parsed(Empty, ts, true)
  {
  }

  lemma PrefixStep(op: Symbol, behind: seq<Token>, min: int, e: Parsed)
    requires IsPrefix(Sym(op)) && e == ParseExpr(behind, PREFIX_POWER) && e.ok && !e.ast.Error?
    ensures ParseExpr([Sym(op)] + behind, min) == Climb(Unary(op, e.ast), e.rest, min)
  {
  }

  lemma ParenStep(behind: seq<Token>, min: int, ast: Ast, rest: seq<Token>)
    requires ParseExpr(behind, 0) == Parsed(ast, [Sym(CloseParen)] + rest, true)
    ensures ParseExpr([Sym(OpenParen)] + behind, min) == Climb(ast, rest, min)
  {
  }

  lemma NotPostfix(op: Symbol)
    ensures IsInfix(op) ==> !Applies(PostfixPower(Sym(op)))
  {
  }

  lemma InfixStep(lhs: Ast, op: Symbol, behind: seq<Token>, min: int, e: Parsed)
    requires IsInfix(op) && InfixPower(Sym(op)).left >= min && !lhs.Error?
    requires e == ParseExpr(behind, InfixPower(Sym(op)).right) && e.ok && !e.ast.Error?
    ensures Climb(lhs, [Sym(op)] + behind, min) == Climb(Binary(op, lhs, e.ast), e.rest, min)
  {
    NotPostfix(op);
    hide ParseExpr, InfixPower, PostfixPower;
    assert ([Sym(op)] + behind)[1..] == behind;
  }

  lemma SuffixStep(lhs: Ast, open: Symbol, behind: seq<Token>, min: int, args: seq<Ast>, rest: seq<Token>)
    requires IsOpen(open) && 25 >= min && !lhs.Error?
    requires ParseList(behind) == ParsedList(args, [Closing(open)] + rest, true)
    ensures Climb(lhs, [Sym(open)] + behind, min) == Climb(Postfix(open, lhs, args), rest, min)
  {
  }

  lemma ParsesParen(c: Phrase, min: int, rest: seq<Token>)
    requires c.Paren? && WellFormed(c, min)
    ensures ParseExpr(Yield(c) + rest, min) == Climb(Tree(c), rest, min)
    decreases c, 3
  {
    hide ParseExpr, Climb, Yield;
    var close := [Sym(CloseParen)] + rest;
    ClosesPhrase(c.inner, 0, Sym(CloseParen));
    Completeness(c.inner, 0, close);
    ParenStep(Yield(c.inner) + close, min, Tree(c.inner), rest);
    ParenYield(c, rest);
  }

  lemma ParsesPrefix(c: Phrase, min: int, rest: seq<Token>)
    requires c.Prefix? && WellFormed(c, min) && Follows(c, Peek(rest))
    ensures ParseExpr(Yield(c) + rest, min) == Climb(Tree(c), rest, min)
    decreases c, 3
  {
    hide ParseExpr, Climb, LeftPower;
    Completeness(c.operand, PREFIX_POWER, rest);
    TreeShape(c.operand);
    PrefixStep(c.op, Yield(c.operand) + rest, min, Parsed(Tree(c.operand), rest, true));
    assert Yield(c) + rest == [Sym(c.op)] + (Yield(c.operand) + rest);
  }

  lemma LeftPowers(op: Symbol, rest: seq<Token>)
    ensures IsInfix(op) ==> LeftPower(Peek([Sym(op)] + rest)) == InfixPower(Sym(op)).left
    ensures IsOpen(op) ==> LeftPower(Peek([Sym(op)] + rest)) == 25
    ensures Closes([Closing(op)] + rest)
  {
  }

  lemma ParsesInfix(c: Phrase, min: int, rest: seq<Token>)
    requires c.Infix? && WellFormed(c, min) && Follows(c, Peek(rest))
    ensures ParseExpr(Yield(c) + rest, min) == Climb(Tree(c), rest, min)
    decreases c, 3
  {
    hide ParseExpr, Climb, LeftPower, InfixPower, Applies, Yield;
    var p := InfixPower(Sym(c.op));
    var behind := Yield(c.right) + rest;
    LeftPowers(c.op, behind);
    ParsesPhrase(c.left, min, [Sym(c.op)] + behind);
    Completeness(c.right, p.right, rest);
    TreeShape(c.left);
    TreeShape(c.right);
    InfixStep(Tree(c.left), c.op, behind, min, Parsed(Tree(c.right), rest, true));
    InfixYield(c, rest);
  }

  lemma ParsesSuffix(c: Phrase, min: int, rest: seq<Token>)
    requires c.Suffix? && WellFormed(c, min)
    ensures ParseExpr(Yield(c) + rest, min) == Climb(Tree(c), rest, min)
    decreases c, 3
  {
    hide ParseExpr, ParseList, Climb, LeftPower, InfixPower, Closing, Yield, YieldList, Hollow;
    var close := [Closing(c.open)] + rest;
    var behind := Hollow(c.hollow) + YieldList(c.args) + close;
    LeftPowers(c.open, behind);
    LeftPowers(c.open, rest);
    ParsesPhrase(c.target, min, [Sym(c.open)] + behind);
    TreeShape(c.target);
    ParsesInside(c.args, c.hollow, close);
    SuffixStep(Tree(c.target), c.open, behind, min, Trees(c.args), rest);
    SuffixYield(c, rest);
  }

  lemma ParenYield(c: Phrase, rest: seq<Token>)
    requires c.Paren?
    ensures Yield(c) + rest == [Sym(OpenParen)] + (Yield(c.inner) + ([Sym(CloseParen)] + rest))
  {
  }

  lemma InfixYield(c: Phrase, rest: seq<Token>)
    requires c.Infix?
    ensures Yield(c) + rest == Yield(c.left) + ([Sym(c.op)] + (Yield(c.right) + rest))
  {
  }

  lemma SuffixYield(c: Phrase, rest: seq<Token>)
    requires c.Suffix?
    ensures Yield(c) + rest ==
            Yield(c.target) + ([Sym(c.open)] + (Hollow(c.hollow) + YieldList(c.args) + ([Closing(c.open)] + rest)))
  {
  }

  predicate Closes(ts: seq<Token>) {
    Peek(ts) == Sym(CloseParen) || Peek(ts) == Sym(CloseBracket)
  }

  lemma ListStep(ts: seq<Token>, e: Parsed)
    requires e == ParseExpr(ts, 2) && e.ok && !e.ast.Error? && !e.ast.Empty?
    ensures ParseList(ts) == ListTail([e.ast], e.rest)
  {
    hide ParseExpr, ListTail;
    assert Added([], e.ast) == [e.ast];
  }

  lemma TailStep(args: seq<Ast>, ts: seq<Token>, e: Parsed)
    requires e == ParseExpr(ts, 2) && e.ok && !e.ast.Error? && !e.ast.Empty?
    ensures ListTail(args, [Sym(Comma)] + ts) == ListTail(args + [e.ast], e.rest)
  {
  }

  lemma TailStarts(cs: seq<Phrase>, close: seq<Token>)
    requires Closes(close)
    ensures LeftPower(Peek(YieldTail(cs) + close)) < 0 && !Starts(Peek(YieldTail(cs) + close))
  {
  }

  lemma {:induction false} ParsesHollow(k: nat, min: int, close: seq<Token>)
    requires Closes(close)
    ensures ParseExpr(Hollow(k) + close, min) == Parsed(Empty, close, true)
  {
    hide Climb;
    if k == 0 {
      assert Hollow(k) + close == close;
    } else {
      hide ParseExpr;
      var inner := [Sym(CloseParen)] + close;
      ParsesHollow(k - 1, 0, inner);
      ParenStep(Hollow(k - 1) + inner, min, Empty, close);
      NothingFollows(close, min);
      HollowAround(k - 1, close);
    }
  }

  lemma NothingFollows(close: seq<Token>, min: int)
    requires Closes(close)
    ensures Climb(Empty, close, min) == Parsed(Empty, close, true)
  {
  }

  lemma ParsesHollowList(k: nat, close: seq<Token>)
    requires Closes(close)
    ensures ParseList(Hollow(k) + close) == ParsedList([], close, true)
  {
    hide ParseExpr, Hollow;
    ParsesHollow(k, 2, close);
  }

  lemma ParsesArguments(cs: seq<Phrase>, close: seq<Token>)
    requires AllWellFormed(cs) && Closes(close) && cs != []
    ensures ParseList(YieldList(cs) + close) == ParsedList(Trees(cs), close, true)
    decreases cs, 3
  {
    hide ListTail, LeftPower, Climb, YieldTail, Yield, Follows, WellFormed, Tree, ParseList, ParseExpr;
    var behind := YieldTail(cs[1..]) + close;
    TailStarts(cs[1..], close);
    ClosesPhrase(cs[0], 2, Peek(behind));
    Completeness(cs[0], 2, behind);
    TreeShape(cs[0]);
    ListStep(Yield(cs[0]) + behind, Parsed(Tree(cs[0]), behind, true));
    ParsesTail([Tree(cs[0])], cs[1..], close);
    assert YieldList(cs) + close == Yield(cs[0]) + behind;
  }

  lemma ParsesInside(cs: seq<Phrase>, k: nat, close: seq<Token>)
    requires AllWellFormed(cs) && Closes(close) && (cs == [] || k == 0)
    ensures ParseList(Hollow(k) + YieldList(cs) + close) == ParsedList(Trees(cs), close, true)
    decreases cs, 4
  {
    hide ParseList;
    if cs == [] {
      ParsesHollowList(k, close);
      assert Hollow(k) + YieldList(cs) == Hollow(k);
    } else {
      ParsesArguments(cs, close);
      assert Hollow(k) + YieldList(cs) == YieldList(cs);
    }
  }

  lemma TailShape(cs: seq<Phrase>, close: seq<Token>)
    requires cs != []
    ensures YieldTail(cs) + close == [Sym(Comma)] + (Yield(cs[0]) + (YieldTail(cs[1..]) + close))
  {
  }

  lemma Prepended(c: Phrase, tail: seq<Phrase>, args: seq<Ast>, rest: seq<Token>)
    requires Element(c) && AllWellFormed(tail)
    ensures AllWellFormed([c] + tail)
    ensures args + Trees([c] + tail) == args + [Tree(c)] + Trees(tail)
    ensures YieldTail([c] + tail) + rest == [Sym(Comma)] + (Yield(c) + (YieldTail(tail) + rest))
  {
    hide WellFormed, Yield, Tree;
    assert ([c] + tail)[1..] == tail;
    TailShape([c] + tail, rest);
  }

  lemma ParsesTail(args: seq<Ast>, cs: seq<Phrase>, close: seq<Token>)
    requires AllWellFormed(cs) && Closes(close)
    ensures ListTail(args, YieldTail(cs) + close) == ParsedList(args + Trees(cs), close, true)
    decreases cs, 3
  {
    hide LeftPower, Climb, ParseExpr, Yield, Follows, WellFormed, Tree;
    if cs == [] {
      assert YieldTail(cs) + close == close;
      assert args + [] == args;
    } else {
      hide ListTail, YieldTail, Trees;
      var c, tail := cs[0], cs[1..];
      var behind := YieldTail(tail) + close;
      TailStarts(tail, close);
      ClosesPhrase(c, 2, Peek(behind));
      Completeness(c, 2, behind);
      TreeShape(c);
      TailStep(args, Yield(c) + behind, Parsed(Tree(c), behind, true));
      ParsesTail(args + [Tree(c)], tail, close);
      assert cs == [c] + tail;
      Prepended(c, tail, args, close);
    }
  }

  /** What continues no expression and starts no operand can follow any phrase. */
  lemma {:induction false} ClosesPhrase(c: Phrase, min: int, t: Token)
    requires WellFormed(c, min) && LeftPower(t) < 0 && !Starts(t)
    ensures Follows(c, t)
    decreases c
  {
    match c
    case Prefix(op, e) => ClosesPhrase(e, PREFIX_POWER, t);
    case Infix(op, a, b) => ClosesPhrase(b, InfixPower(Sym(op)).right, t);
    case _ =>
  }

  // ----- soundness -----

  lemma {:induction false} EmptyInside(lhs: Ast, ts: seq<Token>, min: int)
    requires Climb(lhs, ts, min).ast.Empty?
    ensures Climb(lhs, ts, min) == Parsed(lhs, ts, true)
    decreases |ts|
  {
    hide ParseExpr, ParseList;
    var t := Peek(ts);
    if Applies(PostfixPower(t)) && PostfixPower(t).left >= min {
      var list := ParseList(ts[1..]);
      var closed := Close(list.rest, Closing(t.symbol));
      EmptyInside(if closed.1 && !lhs.Error? then Postfix(t.symbol, lhs, list.args) else Error, closed.0, min);
    } else if Applies(InfixPower(t)) && InfixPower(t).left >= min {
      var e := ParseExpr(ts[1..], InfixPower(t).right);
      EmptyInside(if !lhs.Error? && !e.ast.Error? then Binary(t.symbol, lhs, e.ast) else Error, e.rest, min);
    }
  }

  /** The phrase `c` is what stands at the start of `ts`. */
  ghost predicate Reads(c: Phrase, ts: seq<Token>, min: int, r: Parsed) {
    WellFormed(c, min) && Tree(c) == r.ast && ts == Yield(c) + r.rest && Ends(c, min, r.rest)
  }

  // What an accepting turn of the parser did on each form.

  lemma PrefixTurn(ts: seq<Token>, min: int)
    requires IsPrefix(Peek(ts)) && ParseExpr(ts, min).ok
    ensures var e := ParseExpr(ts[1..], PREFIX_POWER);
            e.ok && !e.ast.Error? && ParseExpr(ts, min) == Climb(Unary(ts[0].symbol, e.ast), e.rest, min)
  {
  }

  lemma ParenTurn(ts: seq<Token>, min: int)
    requires Peek(ts) == Sym(OpenParen) && ParseExpr(ts, min).ok
    ensures var e := ParseExpr(ts[1..], 0);
            e.ok && Peek(e.rest) == Sym(CloseParen) && ParseExpr(ts, min) == Climb(e.ast, e.rest[1..], min)
  {
    hide Climb;
  }

  lemma InfixTurn(lhs: Ast, ts: seq<Token>, min: int)
    requires Applies(InfixPower(Peek(ts))) && InfixPower(Peek(ts)).left >= min && Climb(lhs, ts, min).ok
    ensures var e := ParseExpr(ts[1..], InfixPower(ts[0]).right);
            && e.ok && !lhs.Error? && !e.ast.Error?
            && Climb(lhs, ts, min) == Climb(Binary(ts[0].symbol, lhs, e.ast), e.rest, min)
  {
    hide ParseExpr;
  }

  lemma SuffixTurn(lhs: Ast, ts: seq<Token>, min: int)
    requires Applies(PostfixPower(Peek(ts))) && 25 >= min && Climb(lhs, ts, min).ok
    ensures ts != [] && ts[0].Sym? && IsOpen(ts[0].symbol)
    ensures var list := ParseList(ts[1..]);
            && list.ok && !lhs.Error? && list.rest != [] && list.rest[0] == Closing(ts[0].symbol)
            && Climb(lhs, ts, min) == Climb(Postfix(ts[0].symbol, lhs, list.args), list.rest[1..], min)
  {
  }

  lemma FirstToken(ts: seq<Token>)
    requires ts != []
    ensures ts == [Peek(ts)] + ts[1..]
  {
  }

  /** Whatever the parser accepts without a report is a phrase. */
  lemma {:induction false} Soundness(ts: seq<Token>, min: int) returns (c: Phrase)
    requires min >= 0 && ParseExpr(ts, min).ok
    ensures Reads(c, ts, min, ParseExpr(ts, min))
    decreases |ts|, 2
  {
    hide Climb, ParseList, LeftPower, InfixPower, PostfixPower;
    var t := Peek(ts);
    var behind := if ts == [] then [] else ts[1..];
    if t.Atom? {
      hide IsPrefix;
      c := SoundClimb(Leaf(t.id), behind, min);
      FirstToken(ts);
    } else if IsPrefix(t) {
      c := SoundPrefix(ts, min);
    } else if t == Sym(OpenParen) {
      c := SoundParen(ts, min);
    } else {
      c := Hole;
      NothingThere(ts, min);
    }
  }

  lemma SoundPrefix(ts: seq<Token>, min: int) returns (c: Phrase)
    requires IsPrefix(Peek(ts)) && min >= 0 && ParseExpr(ts, min).ok
    ensures Reads(c, ts, min, ParseExpr(ts, min))
    decreases |ts|, 1
  {
    hide Climb, ParseExpr, LeftPower;
    PrefixTurn(ts, min);
    var e := ParseExpr(ts[1..], PREFIX_POWER);
    var operand := Soundness(ts[1..], PREFIX_POWER);
    var c1 := Prefix(ts[0].symbol, operand);
    c := SoundClimb(c1, e.rest, min);
    FirstToken(ts);
    assert Yield(c1) + e.rest == [ts[0]] + (Yield(operand) + e.rest);
  }

  lemma SoundParen(ts: seq<Token>, min: int) returns (c: Phrase)
    requires Peek(ts) == Sym(OpenParen) && min >= 0 && ParseExpr(ts, min).ok
    ensures Reads(c, ts, min, ParseExpr(ts, min))
    decreases |ts|, 1
  {
    hide Climb, ParseExpr, Yield, LeftPower;
    ParenTurn(ts, min);
    var e := ParseExpr(ts[1..], 0);
    var inner := Soundness(ts[1..], 0);
    var c1 := Paren(inner);
    c := SoundClimb(c1, e.rest[1..], min);
    FirstToken(ts);
    FirstToken(e.rest);
    ParenYield(c1, e.rest[1..]);
  }

  /** The loop extends the phrase it starts with. */
  lemma {:induction false} SoundClimb(c0: Phrase, ts: seq<Token>, min: int) returns (c: Phrase)
    requires min >= 0 && WellFormed(c0, min) && !c0.Hole? && Follows(c0, Peek(ts))
    requires Climb(Tree(c0), ts, min).ok
    ensures Reads(c, Yield(c0) + ts, min, Climb(Tree(c0), ts, min))
    decreases |ts|, 1
  {
    hide ParseExpr, ParseList, WellFormed, Tree, Yield, Follows, Climb;
    var t := Peek(ts);
    if LeftPower(t) < min {
      StopsHere(Tree(c0), ts, min);
      c := c0;
    } else if Applies(PostfixPower(t)) {
      c := SoundSuffix(c0, ts, min);
    } else {
      c := SoundInfix(c0, ts, min);
    }
  }

  lemma SoundInfix(c0: Phrase, ts: seq<Token>, min: int) returns (c: Phrase)
    requires min >= 0 && WellFormed(c0, min) && !c0.Hole? && Follows(c0, Peek(ts))
    requires !Applies(PostfixPower(Peek(ts))) && LeftPower(Peek(ts)) >= min
    requires Climb(Tree(c0), ts, min).ok
    ensures Reads(c, Yield(c0) + ts, min, Climb(Tree(c0), ts, min))
    decreases |ts|, 0
  {
    hide ParseExpr, ParseList, Climb;
    InfixOperator(Peek(ts));
    hide InfixPower, PostfixPower, LeftPower, Yield, YieldList;
    InfixTurn(Tree(c0), ts, min);
    var t := ts[0];
    var e := ParseExpr(ts[1..], InfixPower(t).right);
    var right := Soundness(ts[1..], InfixPower(t).right);
    var c1 := Infix(t.symbol, c0, right);
    c := SoundClimb(c1, e.rest, min);
    FirstToken(ts);
    InfixYield(c1, e.rest);
  }

  lemma InfixOperator(t: Token)
    requires LeftPower(t) >= 0 && !Applies(PostfixPower(t))
    ensures t.Sym? && Applies(InfixPower(t)) && LeftPower(t) == InfixPower(t).left
  {
  }

  lemma SoundSuffix(c0: Phrase, ts: seq<Token>, min: int) returns (c: Phrase)
    requires min >= 0 && WellFormed(c0, min) && !c0.Hole? && Follows(c0, Peek(ts))
    requires Applies(PostfixPower(Peek(ts))) && LeftPower(Peek(ts)) >= min
    requires Climb(Tree(c0), ts, min).ok
    ensures Reads(c, Yield(c0) + ts, min, Climb(Tree(c0), ts, min))
    decreases |ts|, 0
  {
    hide ParseExpr, ParseList, Climb, InfixPower, Closing, Yield, YieldList, Hollow;
    SuffixTurn(Tree(c0), ts, min);
    var t := ts[0];
    var list := ParseList(ts[1..]);
    var rest := list.rest[1..];
    var args, k := SoundList(ts[1..]);
    var c1 := Suffix(t.symbol, c0, args, k);
    c := SoundClimb(c1, rest, min);
    FirstToken(ts);
    FirstToken(list.rest);
    SuffixYield(c1, rest);
  }

  /** A result without operand stands for nothing or for empty pairs of parentheses. */
  lemma {:induction false} SoundEmpty(ts: seq<Token>, min: int) returns (k: nat)
    requires ParseExpr(ts, min).ok && ParseExpr(ts, min).ast.Empty?
    ensures ts == Hollow(k) + ParseExpr(ts, min).rest
    decreases |ts|
  {
    hide Climb;
    var t := Peek(ts);
    k := 0;
    if t.Atom? {
      EmptyInside(Primary(t.id), ts[1..], min);
    } else if IsPrefix(t) {
      PrefixTurn(ts, min);
      var e := ParseExpr(ts[1..], PREFIX_POWER);
      EmptyInside(Unary(t.symbol, e.ast), e.rest, min);
    } else if t == Sym(OpenParen) {
      hide ParseExpr;
      ParenTurn(ts, min);
      var e := ParseExpr(ts[1..], 0);
      EmptyInside(e.ast, e.rest[1..], min);
      k := SoundEmpty(ts[1..], 0);
      FirstToken(ts);
      FirstToken(e.rest);
      HollowAround(k, e.rest[1..]);
      k := k + 1;
    }
  }

  lemma HollowAround(k: nat, rest: seq<Token>)
    ensures [Sym(OpenParen)] + (Hollow(k) + ([Sym(CloseParen)] + rest)) == Hollow(k + 1) + rest
  {
  }

  lemma SoundList(ts: seq<Token>) returns (cs: seq<Phrase>, k: nat)
    requires ParseList(ts).ok
    ensures AllWellFormed(cs) && Trees(cs) == ParseList(ts).args && (cs == [] || k == 0)
    ensures ts == Hollow(k) + YieldList(cs) + ParseList(ts).rest
    decreases |ts|, 4
  {
    hide ParseExpr, ListTail, WellFormed, Tree, Yield;
    var e := ParseExpr(ts, 2);
    cs, k := [], 0;
    if e.ast.Empty? {
      k := SoundEmpty(ts, 2);
      assert Hollow(k) + [] == Hollow(k);
    } else {
      TailKeeps([e.ast], e.rest);
      assert Added([], e.ast) == [e.ast];
      assert ParseList(ts).args[0] == e.ast;
      var c := Soundness(ts, 2);
      var tail := SoundTail([e.ast], e.rest);
      cs := [c] + tail;
      assert cs[1..] == tail;
      assert ts == [] + (Yield(c) + YieldTail(tail)) + ParseList(ts).rest;
    }
  }

  lemma {:induction false} TailKeeps(args: seq<Ast>, ts: seq<Token>)
    ensures args <= ListTail(args, ts).args
    decreases |ts|
  {
    hide ParseExpr;
    if Peek(ts) == Sym(Comma) {
      var e := ParseExpr(ts[1..], 2);
      TailKeeps(Added(args, e.ast), e.rest);
    }
  }

  lemma TailTurn(args: seq<Ast>, ts: seq<Token>)
    requires Peek(ts) == Sym(Comma) && ListTail(args, ts).ok
    ensures var e := ParseExpr(ts[1..], 2);
            && e.ok && !e.ast.Error? && !e.ast.Empty?
            && ListTail(args, ts) == ListTail(args + [e.ast], e.rest)
  {
  }

  lemma SoundTail(args: seq<Ast>, ts: seq<Token>) returns (cs: seq<Phrase>)
    requires ListTail(args, ts).ok
    ensures AllWellFormed(cs) && ListTail(args, ts).args == args + Trees(cs)
    ensures ts == YieldTail(cs) + ListTail(args, ts).rest
    decreases |ts|, 3
  {
    hide ParseExpr, WellFormed, Tree, Yield;
    cs := [];
    if Peek(ts) == Sym(Comma) {
      hide YieldTail, AllWellFormed, Trees, ListTail;
      TailTurn(args, ts);
      var e := ParseExpr(ts[1..], 2);
      TailKeeps(args + [e.ast], e.rest);
      assert ListTail(args, ts).args[|args|] == e.ast;
      var c := Soundness(ts[1..], 2);
      var tail := SoundTail(args + [e.ast], e.rest);
      cs := [c] + tail;
      Prepended(c, tail, args, ListTail(args, ts).rest);
      FirstToken(ts);
    }
  }

  // ----- recognition -----

  /** The parser accepts a tree exactly when some phrase of its level has that tree, is what
      it read, and ends where it stopped. */
  lemma Recognition(ts: seq<Token>, min: int, a: Ast, rest: seq<Token>)
    requires min >= 0
    ensures ParseExpr(ts, min) == Parsed(a, rest, true) <==> exists c :: Reads(c, ts, min, Parsed(a, rest, true))
  {
    hide ParseExpr;
    if ParseExpr(ts, min) == Parsed(a, rest, true) {
      var c := Soundness(ts, min);
      assert Reads(c, ts, min, Parsed(a, rest, true));
    }
    if c :| Reads(c, ts, min, Parsed(a, rest, true)) {
      Completeness(c, min, rest);
    }
  }

  lemma SamePrefix(a: seq<Token>, b: seq<Token>, rest: seq<Token>)
    requires a + rest == b + rest
    ensures a == b
  {
    assert |a| == |b|;
    assert a == (a + rest)[..|a|] == b;
  }

  /** No sequence of tokens is two phrases with different trees. */
  lemma Unambiguous(c: Phrase, d: Phrase, min: int)
    requires min >= 0 && WellFormed(c, min) && WellFormed(d, min) && Yield(c) == Yield(d)
    ensures Tree(c) == Tree(d)
  {
    hide ParseExpr;
    ClosesPhrase(c, min, Eof);
    ClosesPhrase(d, min, Eof);
    Completeness(c, min, []);
    Completeness(d, min, []);
  }

  // ----- precedence and associativity -----

  predicate IsOperand(c: Phrase) {
    (c.Leaf? || c.Paren?) && WellFormed(c, 0)
  }

  lemma TwoOperators(x: Phrase, op: Symbol, y: Phrase, op': Symbol, z: Phrase)
    requires IsOperand(x) && IsOperand(y) && IsOperand(z) && IsInfix(op) && IsInfix(op')
    ensures if InfixPower(Sym(op')).left < InfixPower(Sym(op)).right
            then WellFormed(Infix(op', Infix(op, x, y), z), 0)
            else WellFormed(Infix(op, x, Infix(op', y, z)), 0)
  {
  }

  lemma SameTokens(x: Phrase, op: Symbol, y: Phrase, op': Symbol, z: Phrase)
    ensures Yield(Infix(op', Infix(op, x, y), z)) == Yield(Infix(op, x, Infix(op', y, z)))
  {
  }

  lemma WholeInput(c: Phrase)
    requires WellFormed(c, 0)
    ensures ParseExpr(Yield(c), 0) == Parsed(Tree(c), [], true)
  {
    hide ParseExpr;
    ClosesPhrase(c, 0, Eof);
    Completeness(c, 0, []);
    assert Yield(c) + [] == Yield(c);
  }

  /** Of two operators in a row the left one takes the middle operand exactly when the left
      power of the right one is below its right power. */
  lemma Precedence(x: Phrase, op: Symbol, y: Phrase, op': Symbol, z: Phrase)
    requires IsOperand(x) && IsOperand(y) && IsOperand(z) && IsInfix(op) && IsInfix(op')
    ensures ParseExpr(Yield(Infix(op, x, Infix(op', y, z))), 0).ast ==
            if InfixPower(Sym(op')).left < InfixPower(Sym(op)).right
            then Binary(op', Binary(op, Tree(x), Tree(y)), Tree(z))
            else Binary(op, Tree(x), Binary(op', Tree(y), Tree(z)))
  {
    hide ParseExpr, Yield, WellFormed;
    TwoOperators(x, op, y, op', z);
    SameTokens(x, op, y, op', z);
    if InfixPower(Sym(op')).left < InfixPower(Sym(op)).right {
      WholeInput(Infix(op', Infix(op, x, y), z));
    } else {
      WholeInput(Infix(op, x, Infix(op', y, z)));
    }
  }

  datatype Link = Link(op: Symbol, operand: Phrase)

  function Chain(first: Phrase, links: seq<Link>): seq<Token>
    decreases |links|
  {
    if links == [] then Yield(first)
    else Yield(first) + [Sym(links[0].op)] + Chain(links[0].operand, links[1..])
  }

  function NestLeft(first: Ast, links: seq<Link>): Ast
    decreases |links|
  {
    if links == [] then first else NestLeft(Binary(links[0].op, first, Tree(links[0].operand)), links[1..])
  }

  function NestRight(first: Ast, links: seq<Link>): Ast
    decreases |links|
  {
    if links == [] then first else Binary(links[0].op, first, NestRight(Tree(links[0].operand), links[1..]))
  }

  /** A chain of operators of one level. */
  predicate SameLevel(links: seq<Link>, left: int) {
    forall i :: 0 <= i < |links| ==>
      IsInfix(links[i].op) && InfixPower(Sym(links[i].op)).left == left && IsOperand(links[i].operand)
  }

  lemma {:induction false} LeftChain(c: Phrase, links: seq<Link>, left: int)
    requires SameLevel(links, left) && left < 28 && left != 2
    requires WellFormed(c, 0) && !c.Hole? && (links != [] ==> Follows(c, Sym(links[0].op)))
    ensures ParseExpr(Chain(c, links), 0) == Parsed(NestLeft(Tree(c), links), [], true)
    decreases |links|
  {
    hide ParseExpr, InfixPower, LeftPower, WellFormed, Follows;
    if links == [] {
      WholeInput(c);
    } else {
      var c' := Infix(links[0].op, c, links[0].operand);
      ChainGrows(c, links, left);
      LeftChain(c', links[1..], left);
      ChainLinked(c, links);
    }
  }

  lemma ChainGrows(c: Phrase, links: seq<Link>, left: int)
    requires links != [] && SameLevel(links, left) && left < 28 && left != 2
    requires WellFormed(c, 0) && !c.Hole? && Follows(c, Sym(links[0].op))
    ensures var c' := Infix(links[0].op, c, links[0].operand);
            WellFormed(c', 0) && (|links| > 1 ==> Follows(c', Sym(links[1].op)))
  {
  }

  lemma ChainLinked(c: Phrase, links: seq<Link>)
    requires links != []
    ensures Chain(c, links) == Chain(Infix(links[0].op, c, links[0].operand), links[1..])
  {
  }

  function RightPhrase(first: Phrase, links: seq<Link>): Phrase
    decreases |links|
  {
    if links == [] then first else Infix(links[0].op, first, RightPhrase(links[0].operand, links[1..]))
  }

  lemma {:induction false} RightChainShape(first: Phrase, links: seq<Link>, left: int)
    requires SameLevel(links, left) && (left == 2 || left == 28) && IsOperand(first)
    ensures var c := RightPhrase(first, links);
            && WellFormed(c, left - 1) && WellFormed(c, 0) && Yield(c) == Chain(first, links)
            && Tree(c) == NestRight(Tree(first), links)
    decreases |links|
  {
    if links != [] {
      RightChainShape(links[0].operand, links[1..], left);
    }
  }

  /** Chains of any length: `=` and `.` nest to the right, every other level to the left. */
  lemma Associativity(first: Phrase, links: seq<Link>, left: int)
    requires SameLevel(links, left) && IsOperand(first) && (links == [] ==> left == 2)
    ensures ParseExpr(Chain(first, links), 0) ==
            Parsed(if left == 2 || left == 28 then NestRight(Tree(first), links) else NestLeft(Tree(first), links),
                   [], true)
  {
    hide ParseExpr;
    if left == 2 || left == 28 {
      RightChainShape(first, links, left);
      var c := RightPhrase(first, links);
      WholeInput(c);
    } else {
      assert IsInfix(links[0].op);
      LeftChain(first, links, left);
    }
  }

  // ----- departures -----

  /** A missing operand goes unreported: `a +` and `f(())` are accepted. */
  lemma HolesAccepted(a: int, f: int)
    ensures ParseExpr([Atom(a), Sym(Plus)], 0) == Parsed(Binary(Plus, Primary(a), Empty), [], true)
    ensures ParseExpr([Atom(f), Sym(OpenParen), Sym(OpenParen), Sym(CloseParen), Sym(CloseParen)], 0) ==
            Parsed(Postfix(OpenParen, Primary(f), []), [], true)
  {
    hide Climb;
    InfixStep(Primary(a), Plus, [], 0, Parsed(Empty, [], true));
    StopsHere(Binary(Plus, Primary(a), Empty), [], 0);
    assert [Atom(a), Sym(Plus)][1..] == [Sym(Plus)] + [];
    var c := Suffix(OpenParen, Leaf(f), [], 1);
    assert Yield(c) == [Atom(f), Sym(OpenParen), Sym(OpenParen), Sym(CloseParen), Sym(CloseParen)];
    WholeInput(c);
  }
}