/**
  Which operator binds tighter: the order of the operators written down apart from the binding
  powers, and what the parser makes of any two of them side by side.
*/
module Operators {
  import opened Parser
  import opened Grammar

  /** The infix operators, the loosest first. Call and index bind tighter than all but the last level,
      prefix operators come right below them. */
  const LEVELS: seq<set<Symbol>> := [
    {Assign},
    {LogOr},
    {LogAnd},
    {Gr, Ls, Geq, Leq, Eq, Neq},
    {Plus, Minus},
    {Star, Slash, Percent},
    {Shl, Shr},
    {Caret},
    {Bar},
    {Amp},
    {Dot}
  ]

  predicate OnLevel(op: Symbol, level: nat) {
    level < |LEVELS| && op in LEVELS[level]
  }

  /** Operators of these levels group from the right. */
  predicate FromRight(level: nat) {
    level == 0 || level == 10
  }

  /** The infix operators are the symbols on the levels, each on one level. */
  lemma EveryOperatorOnce(op: Symbol)
    ensures IsInfix(op) <==> exists level :: OnLevel(op, level)
    ensures forall l, m :: OnLevel(op, l) && OnLevel(op, m) ==> l == m
  {
    hide InfixPower;
    if level :| OnLevel(op, level) {
      PowersOf(op, level);
    }
    if IsInfix(op) {
      var level := SomeLevel(op);
      assert OnLevel(op, level);
    }
    forall l, m | OnLevel(op, l) && OnLevel(op, m)
      ensures l == m
    {
      PowersOf(op, l);
      PowersOf(op, m);
    }
  }

  lemma SomeLevel(op: Symbol) returns (level: nat)
    requires IsInfix(op)
    ensures OnLevel(op, level)
  {
    level := 3;
    match op
    case Assign => level := 0;
    case LogOr => level := 1;
    case LogAnd => level := 2;
    case Plus => level := 4;
    case Minus => level := 4;
    case Star => level := 5;
    case Slash => level := 5;
    case Percent => level := 5;
    case Shl => level := 6;
    case Shr => level := 6;
    case Caret => level := 7;
    case Bar => level := 8;
    case Amp => level := 9;
    case Dot => level := 10;
    case _ =>
  }

  /** The binding powers follow the levels. */
  lemma PowersOf(op: Symbol, level: nat)
    requires OnLevel(op, level)
    ensures var p := InfixPower(Sym(op));
            && IsInfix(op) && level <= 10
            && (level == 0 ==> p == Power(2, 1))
            && (1 <= level <= 9 ==> p == Power(2 * level + 3, 2 * level + 4))
            && (level == 10 ==> p == Power(28, 27))
  {
    if level < 5 {
      if level == 0 {
      } else if level == 1 {
      } else if level == 2 {
      } else if level == 3 {
      } else {
        assert level == 4;
      }
    } else if level < 8 {
      if level == 5 {
      } else if level == 6 {
      } else {
        assert level == 7;
      }
    } else if level == 8 {
    } else if level == 9 {
    } else {
      assert level == 10;
    }
  }

  // ----- shapes -----

  lemma OperandFits(x: Phrase, min: int, t: Token)
    requires IsOperand(x)
    ensures WellFormed(x, min) && Follows(x, t) && !x.Hole?
  {
  }

  lemma LeftPowerOf(op: Symbol)
    ensures IsInfix(op) ==> LeftPower(Sym(op)) == InfixPower(Sym(op)).left
    ensures IsOpen(op) ==> LeftPower(Sym(op)) == 25
  {
    LeftPowers(op, []);
  }

  lemma InfixFits(op: Symbol, a: Phrase, b: Phrase, min: int)
    requires IsInfix(op) && InfixPower(Sym(op)).left >= min
    requires !a.Hole? && WellFormed(a, min) && Follows(a, Sym(op)) && WellFormed(b, InfixPower(Sym(op)).right)
    ensures WellFormed(Infix(op, a, b), min)
  {
    hide InfixPower;
  }

  lemma OperandsFit(op: Symbol, x: Phrase, y: Phrase, min: int)
    requires IsInfix(op) && InfixPower(Sym(op)).left >= min && IsOperand(x) && IsOperand(y)
    ensures WellFormed(Infix(op, x, y), min)
  {
    OperandFits(x, min, Sym(op));
    OperandFits(y, InfixPower(Sym(op)).right, Eof);
    InfixFits(op, x, y, min);
    hide *;
  }

  lemma PrefixFits(p: Symbol, x: Phrase, min: int)
    requires IsPrefix(Sym(p)) && WellFormed(x, PREFIX_POWER)
    ensures WellFormed(Prefix(p, x), min)
  {
    hide IsPrefix;
  }

  lemma PrefixEnds(p: Symbol, x: Phrase, t: Token)
    requires IsOperand(x) && LeftPower(t) < PREFIX_POWER
    ensures Follows(Prefix(p, x), t)
  {
    hide IsOperand;
    OperandFits(x, 0, t);
  }

  lemma ElementFits(op: Symbol, x: Phrase, y: Phrase)
    requires IsInfix(op) && InfixPower(Sym(op)).left >= 2 && IsOperand(x) && IsOperand(y)
    ensures AllWellFormed([Infix(op, x, y)])
  {
    OperandsFit(op, x, y, 2);
    hide WellFormed, IsOperand;
  }

  lemma SuffixFits(open: Symbol, x: Phrase, args: seq<Phrase>, min: int)
    requires IsOpen(open) && 25 >= min && !x.Hole? && WellFormed(x, min) && Follows(x, Sym(open)) && AllWellFormed(args)
    ensures WellFormed(Suffix(open, x, args, 0), min)
  {
    hide AllWellFormed, Follows;
  }

  lemma InfixForm(op: Symbol, a: Phrase, b: Phrase)
    ensures Yield(Infix(op, a, b)) == Yield(a) + [Sym(op)] + Yield(b)
    ensures Tree(Infix(op, a, b)) == Binary(op, Tree(a), Tree(b))
  {
  }

  lemma PrefixForm(p: Symbol, x: Phrase)
    ensures Yield(Prefix(p, x)) == [Sym(p)] + Yield(x) && Tree(Prefix(p, x)) == Unary(p, Tree(x))
  {
  }

  lemma Regroup(a: seq<Token>, b: seq<Token>, c: seq<Token>)
    ensures a + (b + c) == a + b + c
  {
  }

  lemma ReadAs(c: Phrase, ts: seq<Token>)
    requires WellFormed(c, 0) && Yield(c) == ts
    ensures ParseExpr(ts, 0) == Parsed(Tree(c), [], true)
  {
    hide *;
    WholeInput(c);
  }

  /** `op'` behind `op` takes the operand between them. */
  predicate RightTakes(level: nat, level': nat) {
    level < level' || (level == level' && FromRight(level))
  }

  /** Of two operators in a row the one on the later level takes the operand between them; on one
      level the left one does, except for `=` and `.`. */
  lemma SideBySide(x: Phrase, op: Symbol, y: Phrase, op': Symbol, z: Phrase, level: nat, level': nat)
    requires IsOperand(x) && IsOperand(y) && IsOperand(z) && OnLevel(op, level) && OnLevel(op', level')
    ensures ParseExpr(Yield(x) + [Sym(op)] + Yield(y) + [Sym(op')] + Yield(z), 0) ==
            Parsed(if RightTakes(level, level')
                   then Binary(op, Tree(x), Binary(op', Tree(y), Tree(z)))
                   else Binary(op', Binary(op, Tree(x), Tree(y)), Tree(z)), [], true)
  {
    hide ParseExpr, WellFormed, OnLevel;
    PowersOf(op, level);
    PowersOf(op', level');
    hide InfixPower, IsInfix, IsOperand, Yield, Tree;
    TwoOperators(x, op, y, op', z);
    InfixForm(op, x, y);
    InfixForm(op', y, z);
    InfixForm(op, x, Infix(op', y, z));
    InfixForm(op', Infix(op, x, y), z);
    Regroup(Yield(x) + [Sym(op)], Yield(y) + [Sym(op')], Yield(z));
    Regroup(Yield(x) + [Sym(op)], Yield(y), [Sym(op')]);
    if RightTakes(level, level') {
      ReadAs(Infix(op, x, Infix(op', y, z)), Yield(x) + [Sym(op)] + Yield(y) + [Sym(op')] + Yield(z));
    } else {
      ReadAs(Infix(op', Infix(op, x, y), z), Yield(x) + [Sym(op)] + Yield(y) + [Sym(op')] + Yield(z));
    }
  }

  /** Whichever comes first: of two levels the later one is the innermost. */
  lemma LaterLevelInside(x: Phrase, op: Symbol, y: Phrase, op': Symbol, z: Phrase, level: nat, level': nat)
    requires IsOperand(x) && IsOperand(y) && IsOperand(z) && OnLevel(op, level) && OnLevel(op', level')
    requires level < level'
    ensures ParseExpr(Yield(x) + [Sym(op)] + Yield(y) + [Sym(op')] + Yield(z), 0) ==
            Parsed(Binary(op, Tree(x), Binary(op', Tree(y), Tree(z))), [], true)
    ensures ParseExpr(Yield(x) + [Sym(op')] + Yield(y) + [Sym(op)] + Yield(z), 0) ==
            Parsed(Binary(op, Binary(op', Tree(x), Tree(y)), Tree(z)), [], true)
  {
    hide ParseExpr, OnLevel, Yield, Tree, IsOperand;
    SideBySide(x, op, y, op', z, level, level');
    SideBySide(x, op', y, op, z, level', level);
  }

  /** Chains of any length on one level group from the left, those of `=` and `.` from the right. */
  lemma ChainsOfOneLevel(first: Phrase, links: seq<Link>, level: nat)
    requires IsOperand(first) && links != []
    requires forall i :: 0 <= i < |links| ==> OnLevel(links[i].op, level) && IsOperand(links[i].operand)
    ensures ParseExpr(Chain(first, links), 0) ==
            Parsed(if FromRight(level) then NestRight(Tree(first), links) else NestLeft(Tree(first), links), [], true)
  {
    hide ParseExpr, OnLevel, IsOperand, NestRight, NestLeft, Chain;
    hide InfixPower;
    var left := InfixPower(Sym(links[0].op)).left;
    forall i | 0 <= i < |links|
      ensures IsInfix(links[i].op) && InfixPower(Sym(links[i].op)).left == left
    {
      PowersOf(links[i].op, level);
      PowersOf(links[0].op, level);
    }
    PowersOf(links[0].op, level);
    assert OnLevel(links[0].op, level);
    Associativity(first, links, left);
  }

  // ----- prefix operators -----

  /** The prefix operators, in front of any operand. */
  lemma PrefixOperators(s: Symbol, x: Phrase)
    requires IsOperand(x)
    ensures ParseExpr([Sym(s)] + Yield(x), 0) == Parsed(Unary(s, Tree(x)), [], true) <==>
            s in {Minus, Bang, Deref, Caret, Tilde}
  {
    hide ParseExpr;
    if IsPrefix(Sym(s)) {
      var c := Prefix(s, x);
      assert WellFormed(c, 0);
      WholeInput(c);
    } else if s == OpenParen {
      WholeInput(x);
      Unclosed(Yield(x));
    } else {
      NothingThere([Sym(s)] + Yield(x), 0);
    }
  }

  lemma Unclosed(behind: seq<Token>)
    requires ParseExpr(behind, 0).rest == []
    ensures !ParseExpr([Sym(OpenParen)] + behind, 0).ok
  {
    assert ([Sym(OpenParen)] + behind)[1..] == behind;
  }

  /** A prefix operator takes its operand from every infix operator but `.`, on either side, and
      prefix operators stack. */
  lemma PrefixAndInfix(p: Symbol, x: Phrase, op: Symbol, y: Phrase, level: nat)
    requires IsPrefix(Sym(p)) && IsOperand(x) && IsOperand(y) && OnLevel(op, level)
    ensures ParseExpr([Sym(p)] + Yield(x) + [Sym(op)] + Yield(y), 0) ==
            Parsed(if level == 10 then Unary(p, Binary(op, Tree(x), Tree(y)))
                   else Binary(op, Unary(p, Tree(x)), Tree(y)), [], true)
    ensures ParseExpr(Yield(x) + [Sym(op)] + [Sym(p)] + Yield(y), 0) ==
            Parsed(Binary(op, Tree(x), Unary(p, Tree(y))), [], true)
  {
    hide ParseExpr, WellFormed, OnLevel, IsPrefix, IsOperand, Yield, Tree;
    PrefixShapes(p, x, op, y, level);
    InfixForm(op, x, y);
    InfixForm(op, x, Prefix(p, y));
    InfixForm(op, Prefix(p, x), y);
    PrefixForm(p, x);
    PrefixForm(p, y);
    PrefixForm(p, Infix(op, x, y));
    if level == 10 {
      ReadAs(Prefix(p, Infix(op, x, y)), [Sym(p)] + Yield(x) + [Sym(op)] + Yield(y));
    } else {
      ReadAs(Infix(op, Prefix(p, x), y), [Sym(p)] + Yield(x) + [Sym(op)] + Yield(y));
    }
    ReadAs(Infix(op, x, Prefix(p, y)), Yield(x) + [Sym(op)] + [Sym(p)] + Yield(y));
  }

  lemma PrefixShapes(p: Symbol, x: Phrase, op: Symbol, y: Phrase, level: nat)
    requires IsPrefix(Sym(p)) && IsOperand(x) && IsOperand(y) && OnLevel(op, level)
    ensures WellFormed(if level == 10 then Prefix(p, Infix(op, x, y)) else Infix(op, Prefix(p, x), y), 0)
    ensures WellFormed(Infix(op, x, Prefix(p, y)), 0)
  {
    hide WellFormed, Follows, OnLevel, IsPrefix, IsOperand, InfixPower, LeftPower;
    PowersOf(op, level);
    LeftPowerOf(op);
    OperandFits(x, PREFIX_POWER, Sym(op));
    OperandFits(x, 0, Sym(op));
    OperandFits(y, PREFIX_POWER, Eof);
    OperandFits(y, InfixPower(Sym(op)).right, Eof);
    if level == 10 {
      OperandsFit(op, x, y, PREFIX_POWER);
      PrefixFits(p, Infix(op, x, y), 0);
    } else {
      PrefixFits(p, x, 0);
      PrefixEnds(p, x, Sym(op));
      InfixFits(op, Prefix(p, x), y, 0);
    }
    PrefixFits(p, y, InfixPower(Sym(op)).right);
    InfixFits(op, x, Prefix(p, y), 0);
  }

  lemma PrefixesStack(p: Symbol, q: Symbol, x: Phrase)
    requires IsPrefix(Sym(p)) && IsPrefix(Sym(q)) && IsOperand(x)
    ensures ParseExpr([Sym(p), Sym(q)] + Yield(x), 0) == Parsed(Unary(p, Unary(q, Tree(x))), [], true)
  {
    hide ParseExpr, WellFormed, IsPrefix, IsOperand;
    OperandFits(x, PREFIX_POWER, Eof);
    PrefixFits(q, x, PREFIX_POWER);
    PrefixFits(p, Prefix(q, x), 0);
    ReadAs(Prefix(p, Prefix(q, x)), [Sym(p), Sym(q)] + Yield(x));
  }

  // ----- call and index -----

  /** The brackets of a call or an index around its arguments. */
  function Bracketed(open: Symbol, args: seq<Phrase>): seq<Token> {
    [Sym(open)] + YieldList(args) + [Sym(if open == OpenParen then CloseParen else CloseBracket)]
  }

  lemma BracketedShape(open: Symbol, args: seq<Phrase>)
    requires IsOpen(open)
    ensures Bracketed(open, args) == [Sym(open)] + YieldList(args) + [Closing(open)]
  {
  }

  lemma SuffixShape(x: Phrase, open: Symbol, args: seq<Phrase>)
    requires IsOpen(open)
    ensures Yield(Suffix(open, x, args, 0)) == Yield(x) + Bracketed(open, args)
    ensures Tree(Suffix(open, x, args, 0)) == Postfix(open, Tree(x), Trees(args))
  {
    hide YieldList, Trees, Closing, Bracketed;
    BracketedShape(open, args);
    var inside := YieldList(args);
    assert Hollow(0) + inside == inside;
    Regroup(Yield(x), [Sym(open)] + inside, [Closing(open)]);
    Regroup(Yield(x), [Sym(open)], inside);
  }

  /** Call and index take their target from a prefix operator and from every infix operator but `.`,
      which they follow, and they stack. */
  lemma SuffixAndPrefix(p: Symbol, x: Phrase, open: Symbol, args: seq<Phrase>)
    requires IsPrefix(Sym(p)) && IsOperand(x) && IsOpen(open) && AllWellFormed(args)
    ensures ParseExpr([Sym(p)] + Yield(x) + Bracketed(open, args), 0) ==
            Parsed(Unary(p, Postfix(open, Tree(x), Trees(args))), [], true)
  {
    hide ParseExpr, WellFormed, AllWellFormed, Bracketed, IsPrefix, IsOperand, IsOpen;
    OperandFits(x, PREFIX_POWER, Sym(open));
    SuffixFits(open, x, args, PREFIX_POWER);
    PrefixFits(p, Suffix(open, x, args, 0), 0);
    SuffixShape(x, open, args);
    ReadAs(Prefix(p, Suffix(open, x, args, 0)), [Sym(p)] + Yield(x) + Bracketed(open, args));
  }

  lemma SuffixAndInfix(x: Phrase, op: Symbol, y: Phrase, open: Symbol, args: seq<Phrase>, level: nat)
    requires IsOperand(x) && IsOperand(y) && OnLevel(op, level) && IsOpen(open) && AllWellFormed(args)
    ensures ParseExpr(Yield(x) + [Sym(op)] + Yield(y) + Bracketed(open, args), 0) ==
            Parsed(if level == 10 then Postfix(open, Binary(op, Tree(x), Tree(y)), Trees(args))
                   else Binary(op, Tree(x), Postfix(open, Tree(y), Trees(args))), [], true)
  {
    hide ParseExpr, WellFormed, AllWellFormed, Bracketed, OnLevel, IsOperand, IsOpen, Yield, Tree;
    SuffixShapes(x, op, y, open, args, level);
    InfixForm(op, x, y);
    InfixForm(op, x, Suffix(open, y, args, 0));
    if level == 10 {
      SuffixShape(Infix(op, x, y), open, args);
      ReadAs(Suffix(open, Infix(op, x, y), args, 0), Yield(x) + [Sym(op)] + Yield(y) + Bracketed(open, args));
    } else {
      SuffixShape(y, open, args);
      ReadAs(Infix(op, x, Suffix(open, y, args, 0)), Yield(x) + [Sym(op)] + Yield(y) + Bracketed(open, args));
    }
  }

  lemma SuffixShapes(x: Phrase, op: Symbol, y: Phrase, open: Symbol, args: seq<Phrase>, level: nat)
    requires IsOperand(x) && IsOperand(y) && OnLevel(op, level) && IsOpen(open) && AllWellFormed(args)
    ensures WellFormed(if level == 10 then Suffix(open, Infix(op, x, y), args, 0)
                       else Infix(op, x, Suffix(open, y, args, 0)), 0)
    ensures WellFormed(Infix(op, Suffix(open, x, args, 0), y), 0)
  {
    hide WellFormed, AllWellFormed, OnLevel, IsOperand, InfixPower, LeftPower;
    PowersOf(op, level);
    LeftPowerOf(open);
    OperandFits(x, 0, Sym(op));
    OperandFits(x, 0, Sym(open));
    OperandFits(y, InfixPower(Sym(op)).right, Sym(open));
    if level == 10 {
      OperandsFit(op, x, y, 0);
      SuffixFits(open, Infix(op, x, y), args, 0);
    } else {
      SuffixFits(open, y, args, InfixPower(Sym(op)).right);
      InfixFits(op, x, Suffix(open, y, args, 0), 0);
    }
    SuffixFits(open, x, args, 0);
    InfixFits(op, Suffix(open, x, args, 0), y, 0);
  }

  lemma SuffixThenInfix(x: Phrase, open: Symbol, args: seq<Phrase>, op: Symbol, y: Phrase, level: nat)
    requires IsOperand(x) && IsOperand(y) && OnLevel(op, level) && IsOpen(open) && AllWellFormed(args)
    ensures ParseExpr(Yield(x) + Bracketed(open, args) + [Sym(op)] + Yield(y), 0) ==
            Parsed(Binary(op, Postfix(open, Tree(x), Trees(args)), Tree(y)), [], true)
  {
    hide ParseExpr, WellFormed, AllWellFormed, Bracketed, OnLevel, IsOperand, IsOpen, Yield, Tree;
    SuffixShapes(x, op, y, open, args, level);
    SuffixShape(x, open, args);
    InfixForm(op, Suffix(open, x, args, 0), y);
    ReadAs(Infix(op, Suffix(open, x, args, 0), y), Yield(x) + Bracketed(open, args) + [Sym(op)] + Yield(y));
  }

  lemma SuffixesStack(x: Phrase, open: Symbol, args: seq<Phrase>, open': Symbol, args': seq<Phrase>)
    requires IsOperand(x) && IsOpen(open) && IsOpen(open') && AllWellFormed(args) && AllWellFormed(args')
    ensures ParseExpr(Yield(x) + Bracketed(open, args) + Bracketed(open', args'), 0) ==
            Parsed(Postfix(open', Postfix(open, Tree(x), Trees(args)), Trees(args')), [], true)
  {
    hide ParseExpr, WellFormed, AllWellFormed, Bracketed, IsOperand, IsOpen;
    var inner := Suffix(open, x, args, 0);
    OperandFits(x, 0, Sym(open));
    SuffixFits(open, x, args, 0);
    SuffixFits(open', inner, args', 0);
    SuffixShape(x, open, args);
    SuffixShape(inner, open', args');
    ReadAs(Suffix(open', inner, args', 0), Yield(x) + Bracketed(open, args) + Bracketed(open', args'));
  }

  /** `(` and `[` are closed by their own counterpart only. */
  lemma BracketsMatch(x: Phrase, open: Symbol, args: seq<Phrase>, close: Symbol)
    requires IsOperand(x) && IsOpen(open) && AllWellFormed(args)
    requires close == CloseParen || close == CloseBracket
    ensures ParseExpr(Yield(x) + [Sym(open)] + YieldList(args) + [Sym(close)], 0).ok <==>
            (open == OpenParen && close == CloseParen) || (open == OpenBracket && close == CloseBracket)
  {
    hide ParseExpr, Climb, ParseList, AllWellFormed, YieldList, Yield, WellFormed, Follows, IsOperand;
    var behind := YieldList(args) + [Sym(close)];
    assert Yield(x) + [Sym(open)] + YieldList(args) + [Sym(close)] == Yield(x) + ([Sym(open)] + behind);
    OperandFits(x, 0, Sym(open));
    ParsesPhrase(x, 0, [Sym(open)] + behind);
    ParsesInside(args, 0, [Sym(close)]);
    assert Hollow(0) + YieldList(args) == YieldList(args);
    TreeShape(x);
    if Closing(open) == Sym(close) {
      SuffixStep(Tree(x), open, behind, 0, Trees(args), []);
      StopsHere(Postfix(open, Tree(x), Trees(args)), [], 0);
    } else {
      WrongBracket(Tree(x), open, behind, Sym(close));
    }
  }

  lemma WrongBracket(lhs: Ast, open: Symbol, behind: seq<Token>, close: Token)
    requires IsOpen(open) && ParseList(behind).rest == [close] && close != Closing(open)
    ensures !Climb(lhs, [Sym(open)] + behind, 0).ok
  {
    assert ([Sym(open)] + behind)[1..] == behind;
  }

  /** Any other symbol ends the expression in front of it. */
  lemma OthersEnd(x: Phrase, s: Symbol, rest: seq<Token>)
    requires IsOperand(x) && s != OpenParen && s != OpenBracket && forall level :: !OnLevel(s, level)
    ensures ParseExpr(Yield(x) + [Sym(s)] + rest, 0) == Parsed(Tree(x), [Sym(s)] + rest, true)
  {
    hide ParseExpr, OnLevel, Yield, Tree, WellFormed, Follows, IsOperand;
    EveryOperatorOnce(s);
    OperandFits(x, 0, Sym(s));
    Regroup(Yield(x), [Sym(s)], rest);
    Completeness(x, 0, [Sym(s)] + rest);
  }

  /** An infix expression of any level, assignments included, is one element of an argument list. */
  lemma ArgumentsHoldOperators(f: Phrase, open: Symbol, x: Phrase, op: Symbol, y: Phrase, level: nat)
    requires IsOperand(f) && IsOpen(open) && IsOperand(x) && IsOperand(y) && OnLevel(op, level)
    ensures ParseExpr(Yield(f) + Bracketed(open, [Infix(op, x, y)]), 0) ==
            Parsed(Postfix(open, Tree(f), [Binary(op, Tree(x), Tree(y))]), [], true)
  {
    hide ParseExpr, WellFormed, AllWellFormed, OnLevel, Bracketed, IsOperand, IsOpen, InfixPower;
    PowersOf(op, level);
    var e := Infix(op, x, y);
    ElementFits(op, x, y);
    OperandFits(f, 0, Sym(open));
    assert Trees([e]) == [Tree(e)];
    hide Yield, Tree, Trees;
    InfixForm(op, x, y);
    SuffixFits(open, f, [e], 0);
    SuffixShape(f, open, [e]);
    ReadAs(Suffix(open, f, [e], 0), Yield(f) + Bracketed(open, [e]));
  }

  /** Parentheses group against the levels. */
  lemma ParenthesesGroup(x: Phrase, op: Symbol, y: Phrase, op': Symbol, z: Phrase)
    requires IsOperand(x) && IsOperand(y) && IsOperand(z) && IsInfix(op) && IsInfix(op')
    ensures ParseExpr(Yield(Paren(Infix(op, x, y))) + [Sym(op')] + Yield(z), 0) ==
            Parsed(Binary(op', Binary(op, Tree(x), Tree(y)), Tree(z)), [], true)
    ensures ParseExpr(Yield(x) + [Sym(op)] + Yield(Paren(Infix(op', y, z))), 0) ==
            Parsed(Binary(op, Tree(x), Binary(op', Tree(y), Tree(z))), [], true)
  {
    hide ParseExpr, IsInfix, InfixPower, WellFormed, IsOperand, Yield, Tree;
    ParenFits(op, x, y);
    ParenFits(op', y, z);
    var a, b := Paren(Infix(op, x, y)), Paren(Infix(op', y, z));
    OperandsFit(op', a, z, 0);
    OperandsFit(op, x, b, 0);
    InfixForm(op', a, z);
    InfixForm(op, x, b);
    ReadAs(Infix(op', a, z), Yield(a) + [Sym(op')] + Yield(z));
    ReadAs(Infix(op, x, b), Yield(x) + [Sym(op)] + Yield(b));
  }

  lemma ParenFits(op: Symbol, x: Phrase, y: Phrase)
    requires IsInfix(op) && IsOperand(x) && IsOperand(y)
    ensures IsOperand(Paren(Infix(op, x, y))) && InfixPower(Sym(op)).left >= 0
    ensures Tree(Paren(Infix(op, x, y))) == Binary(op, Tree(x), Tree(y))
  {
    hide InfixPower;
    OperandsFit(op, x, y, 0);
  }
}
