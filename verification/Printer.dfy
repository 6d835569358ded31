/**
  Printing a tree with parentheses only where the grammar needs them, and reading it back.
*/
module Printer {
  import opened Parser
  import opened Grammar

  /** Trees whose operators stand where their tokens can stand. An operand may be missing, an
      element of a list may not. */
  predicate Printable(a: Ast)
    decreases a
  {
    match a
    case Error => false
    case Empty => true
    case Primary(_) => true
    case Unary(op, e) => IsPrefix(Sym(op)) && Printable(e)
    case Binary(op, l, r) => IsInfix(op) && Printable(l) && Printable(r)
    case Postfix(open, e, args) =>
      IsOpen(open) && Printable(e) && forall i :: 0 <= i < |args| ==> Printable(args[i]) && !args[i].Empty?
  }

  /** An operator may end bare in front of `next` when a token of this power or more would be
      taken by its last operand `e`. */
  predicate Free(e: Ast, power: int, next: Token) {
    LeftPower(next) < power || (e.Empty? && !Starts(next))
  }

  /** Can `a` stand bare in a context of level `min`, in front of the token `next`? */
  predicate Bare(a: Ast, min: int, next: Token) {
    match a
    case Empty => !Starts(next)
    case Unary(_, e) => Free(e, PREFIX_POWER, next)
    case Binary(op, _, r) => InfixPower(Sym(op)).left >= min && Free(r, InfixPower(Sym(op)).right, next)
    case Postfix(_, _, _) => 25 >= min
    case _ => true
  }

  /** The phrase printed for `a` in front of `next`: bare where it can be, unless a pair of
      parentheses around it saves more inside. */
  function Show(a: Ast, min: int, next: Token): Phrase
    requires Printable(a)
    decreases a, 1
  {
    var bare, inner := ShowBare(a, min, next), ShowBare(a, 0, Sym(CloseParen));
    if Bare(a, min, next) && |Yield(bare)| <= |Yield(inner)| + 2 then bare else Paren(inner)
  }

  /** The phrase printed for a left operand. */
  function ShowLeft(a: Ast, min: int, next: Token): Phrase
    requires Printable(a)
    decreases a, 2
  {
    if a.Empty? then Paren(Hole) else Show(a, min, next)
  }

  function ShowBare(a: Ast, min: int, next: Token): Phrase
    requires Printable(a)
    decreases a, 0
  {
    match a
    case Empty => Hole
    case Primary(id) => Leaf(id)
    case Unary(op, e) => Prefix(op, Show(e, PREFIX_POWER, next))
    case Binary(op, l, r) => Infix(op, ShowLeft(l, min, Sym(op)), Show(r, InfixPower(Sym(op)).right, next))
    case Postfix(open, e, args) => Suffix(open, ShowLeft(e, min, Sym(open)), ShowAll(args), 0)
  }

  /** A comma or a closing token follows each element. */
  function ShowAll(args: seq<Ast>): (r: seq<Phrase>)
    requires forall i :: 0 <= i < |args| ==> Printable(args[i])
    ensures |r| == |args|
    decreases args
  {
    if args == [] then [] else [Show(args[0], 2, Sym(Comma))] + ShowAll(args[1..])
  }

  // ----- what is printed -----

  lemma CloserIsFree(t: Token)
    requires t == Sym(CloseParen) || t == Sym(Comma)
    ensures LeftPower(t) < 0 && !Starts(t)
  {
  }

  lemma ClosedBare(a: Ast)
    requires Printable(a)
    ensures Bare(a, 0, Sym(CloseParen))
  {
  }

  /** What is printed is a phrase of the level with the tree, and `next` can follow it. */
  lemma {:induction false} ShowOk(a: Ast, min: int, next: Token)
    requires Printable(a)
    ensures var c := Show(a, min, next);
            WellFormed(c, min) && Tree(c) == a && Follows(c, next) && (c.Hole? <==> a.Empty? && !Starts(next))
    decreases a, 1
  {
    hide InfixPower, LeftPower, Starts, ShowBare, Yield;
    ClosedBare(a);
    ShowBareOk(a, 0, Sym(CloseParen));
    if Bare(a, min, next) {
      ShowBareOk(a, min, next);
    }
  }

  lemma ShowLeftOk(a: Ast, min: int, next: Token)
    requires Printable(a)
    ensures var c := ShowLeft(a, min, next);
            WellFormed(c, min) && Tree(c) == a && Follows(c, next) && !c.Hole?
    decreases a, 2
  {
    hide Show;
    if !a.Empty? {
      ShowOk(a, min, next);
    }
  }

  lemma ShowBareOk(a: Ast, min: int, next: Token)
    requires Printable(a) && Bare(a, min, next)
    ensures var c := ShowBare(a, min, next);
            WellFormed(c, min) && Tree(c) == a && Follows(c, next) && (c.Hole? <==> a.Empty? && !Starts(next))
    decreases a, 0
  {
    hide InfixPower, Show, ShowLeft, LeftPower, Starts;
    match a
    case Unary(op, e) => ShowOk(e, PREFIX_POWER, next);
    case Binary(op, l, r) =>
      ShowLeftOk(l, min, Sym(op));
      ShowOk(r, InfixPower(Sym(op)).right, next);
    case Postfix(open, e, args) =>
      ShowLeftOk(e, min, Sym(open));
      ShowAllOk(args);
    case _ =>
  }

  lemma ShowAllOk(args: seq<Ast>)
    requires forall i :: 0 <= i < |args| ==> Printable(args[i]) && !args[i].Empty?
    ensures AllWellFormed(ShowAll(args)) && Trees(ShowAll(args)) == args
    decreases args
  {
    hide Show, WellFormed, Tree;
    if args != [] {
      ShowOk(args[0], 2, Sym(Comma));
      ShowAllOk(args[1..]);
    }
  }

  /** Round trip: the tokens printed for a tree in front of anything that does not continue an
      expression are read back as that tree, and nothing more is consumed. */
  lemma RoundTrip(a: Ast, rest: seq<Token>)
    requires Printable(a) && Free(a, 0, Peek(rest))
    ensures ParseExpr(Yield(Show(a, 0, Peek(rest))) + rest, 0) == Parsed(a, rest, true)
  {
    hide ParseExpr, Show, LeftPower;
    ShowOk(a, 0, Peek(rest));
    Completeness(Show(a, 0, Peek(rest)), 0, rest);
  }

  // ----- nothing shorter will do -----

  /** No phrase that stands where `a` is printed and has its tree is shorter. */
  lemma {:induction false} Minimal(c: Phrase, a: Ast, min: int, next: Token)
    requires WellFormed(c, min) && Follows(c, next) && Tree(c) == a
    ensures Printable(a) && |Yield(Show(a, min, next))| <= |Yield(c)|
    decreases c, 1
  {
    hide WellFormed, Follows, Bare, ShowBare;
    if c.Paren? {
      ParenTight(c, a, min, next);
    } else {
      MinimalBare(c, a, min, next);
    }
  }

  lemma ParenTight(c: Phrase, a: Ast, min: int, next: Token)
    requires c.Paren? && WellFormed(c, min) && Tree(c) == a
    ensures Printable(a) && |Yield(Show(a, min, next))| <= |Yield(c)|
    decreases c, 0
  {
    hide Bare, ShowBare;
    ClosesPhrase(c.inner, 0, Sym(CloseParen));
    Minimal(c.inner, a, 0, Sym(CloseParen));
    ClosedBare(a);
    hide WellFormed, Follows;
  }

  /** The same of phrases without a pair of parentheses around them: then none is printed. */
  lemma MinimalBare(c: Phrase, a: Ast, min: int, next: Token)
    requires !c.Paren? && WellFormed(c, min) && Follows(c, next) && Tree(c) == a
    ensures Printable(a) && Bare(a, min, next) && |Yield(ShowBare(a, min, next))| <= |Yield(c)|
    decreases c, 0
  {
    hide InfixPower, LeftPower, Starts, Show;
    match c
    case Prefix(op, e) => Minimal(e, a.operand, PREFIX_POWER, next);
    case Infix(op, l, r) =>
      MinimalLeft(l, a.left, min, Sym(op));
      Minimal(r, a.right, InfixPower(Sym(op)).right, next);
    case Suffix(open, e, args, _) =>
      MinimalLeft(e, a.target, min, Sym(open));
      MinimalAll(args);
    case _ =>
  }

  lemma MinimalLeft(c: Phrase, a: Ast, min: int, next: Token)
    requires !c.Hole? && WellFormed(c, min) && Follows(c, next) && Tree(c) == a
    ensures Printable(a) && |Yield(ShowLeft(a, min, next))| <= |Yield(c)|
    decreases c, 2
  {
    hide Show, WellFormed, Follows;
    Minimal(c, a, min, next);
  }

  lemma MinimalAll(cs: seq<Phrase>)
    requires AllWellFormed(cs)
    ensures forall i :: 0 <= i < |cs| ==> Printable(Trees(cs)[i]) && !Trees(cs)[i].Empty?
    ensures |YieldList(ShowAll(Trees(cs)))| <= |YieldList(cs)|
    ensures |YieldTail(ShowAll(Trees(cs)))| <= |YieldTail(cs)|
    decreases cs
  {
    hide Show, Yield, Tree, WellFormed, Follows, LeftPower, Starts, Printable;
    if cs != [] {
      CloserIsFree(Sym(Comma));
      ClosesPhrase(cs[0], 2, Sym(Comma));
      Minimal(cs[0], Tree(cs[0]), 2, Sym(Comma));
      MinimalAll(cs[1..]);
      var all, tail := Trees(cs), Trees(cs[1..]);
      assert all == [Tree(cs[0])] + tail;
      assert forall i :: 0 < i < |all| ==> all[i] == tail[i - 1];
      assert all[1..] == tail;
      ShowAllStep(all);
    }
  }

  lemma ShowAllStep(args: seq<Ast>)
    requires args != [] && forall i :: 0 <= i < |args| ==> Printable(args[i])
    ensures ShowAll(args) == [Show(args[0], 2, Sym(Comma))] + ShowAll(args[1..])
    ensures ShowAll(args)[1..] == ShowAll(args[1..])
  {
    hide Show, Printable;
  }

  /** Where a pair is printed around a tree, every phrase of the place without one is longer. */
  lemma ParenthesesNeeded(c: Phrase, a: Ast, min: int, next: Token)
    requires Printable(a) && Show(a, min, next).Paren?
    requires WellFormed(c, min) && Follows(c, next) && Tree(c) == a
    ensures c.Paren? || |Yield(c)| > |Yield(Show(a, min, next))|
  {
    hide WellFormed, Follows, Bare, Yield;
    if !c.Paren? {
      MinimalBare(c, a, min, next);
      ParenLength(ShowBare(a, 0, Sym(CloseParen)));
    }
  }

  lemma ParenLength(c: Phrase)
    ensures |Yield(Paren(c))| == |Yield(c)| + 2
  {
  }

  // ----- everything that is read can be printed -----

  /** Trees that can be printed are exactly the trees of phrases. */
  lemma PrintableExactly(a: Ast)
    ensures Printable(a) <==> exists c :: WellFormed(c, 0) && Tree(c) == a
  {
    hide Printable, WellFormed, Tree;
    if Printable(a) {
      ShowOk(a, 0, Sym(CloseParen));
    }
    if c :| WellFormed(c, 0) && Tree(c) == a {
      CloserIsFree(Sym(CloseParen));
      ClosesPhrase(c, 0, Sym(CloseParen));
      Minimal(c, a, 0, Sym(CloseParen));
    }
  }

  lemma FreeEnd(c: Phrase, rest: seq<Token>)
    requires Ends(c, 0, rest)
    ensures Free(Tree(c), 0, Peek(rest))
  {
  }

  /** Printing what was read and reading it again changes nothing, and takes no more tokens. */
  lemma Normalises(used: seq<Token>, a: Ast, rest: seq<Token>)
    requires ParseExpr(used + rest, 0) == Parsed(a, rest, true)
    ensures Printable(a)
    ensures var printed := Yield(Show(a, 0, Peek(rest)));
            ParseExpr(printed + rest, 0) == Parsed(a, rest, true) && |printed| <= |used|
  {
    hide *;
    var c := Soundness(used + rest, 0);
    PrintsAgain(c, used, a, rest);
    RoundTrip(a, rest);
  }

  lemma PrintsAgain(c: Phrase, used: seq<Token>, a: Ast, rest: seq<Token>)
    requires Reads(c, used + rest, 0, Parsed(a, rest, true))
    ensures Printable(a) && Free(a, 0, Peek(rest)) && |Yield(Show(a, 0, Peek(rest)))| <= |used|
  {
    hide Show, LeftPower, Yield, WellFormed, Follows, Printable;
    SamePrefix(used, Yield(c), rest);
    Minimal(c, a, 0, Peek(rest));
    FreeEnd(c, rest);
  }
}
