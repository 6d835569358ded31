/**
  The Pratt expression parser (src/parser.cpp): binding powers, prefix, infix and postfix
  forms, separated lists. Casts are not part of this model.
*/
module Parser {
  datatype Symbol =
    | Assign | LogOr | LogAnd | Gr | Ls | Geq | Leq | Eq | Neq
    | Plus | Minus | Star | Slash | Percent | Shl | Shr | Caret | Bar | Amp | Dot
    | Deref | Tilde | Bang | OpenParen | CloseParen | OpenBracket | CloseBracket | Comma

  /** Constants, identifiers and `true`/`false` are atoms; `Other` is any token the
      expression parser knows nothing about. */
  datatype Token = Atom(id: int) | Sym(symbol: Symbol) | Other(id: int) | Eof

  /** A call or an index with no argument has an `AST_EMPTY` right node: the empty list. */
  datatype Ast =
    | Error
    | Empty
    | Primary(id: int)
    | Unary(op: Symbol, operand: Ast)
    | Binary(op: Symbol, left: Ast, right: Ast)
    | Postfix(open: Symbol, target: Ast, args: seq<Ast>)

  datatype Power = Power(left: int, right: int)

  const NO_POWER: Power := Power(-1, -1)
  const PREFIX_POWER: int := 23

  function InfixPower(t: Token): Power {
    if !t.Sym? then NO_POWER else
    match t.symbol
    case Assign => Power(2, 1)
    case LogOr => Power(5, 6)
    case LogAnd => Power(7, 8)
    case Gr => Power(9, 10)
    case Ls => Power(9, 10)
    case Geq => Power(9, 10)
    case Leq => Power(9, 10)
    case Eq => Power(9, 10)
    case Neq => Power(9, 10)
    case Plus => Power(11, 12)
    case Minus => Power(11, 12)
    case Star => Power(13, 14)
    case Slash => Power(13, 14)
    case Percent => Power(13, 14)
    case Shl => Power(15, 16)
    case Shr => Power(15, 16)
    case Caret => Power(17, 18)
    case Bar => Power(19, 20)
    case Amp => Power(21, 22)
    case Dot => Power(28, 27)
    case _ => NO_POWER
  }

  function PostfixPower(t: Token): Power {
    if t == Sym(OpenBracket) || t == Sym(OpenParen) then Power(25, 0) else NO_POWER
  }

  predicate Applies(p: Power) {
    p.left >= 0 && p.right >= 0
  }

  predicate IsPrefix(t: Token) {
    t.Sym? && (t.symbol == Minus || t.symbol == Bang || t.symbol == Deref || t.symbol == Caret || t.symbol == Tilde)
  }

  function Closing(open: Symbol): Token {
    if open == OpenBracket then Sym(CloseBracket) else Sym(CloseParen)
  }

  /** `peek_token` keeps answering end of file behind the last token. */
  function Peek(ts: seq<Token>): Token {
    if ts == [] then Eof else ts[0]
  }

  /** `ok`: nothing was logged. */
  datatype Parsed = Parsed(ast: Ast, rest: seq<Token>, ok: bool)
  datatype ParsedList = ParsedList(args: seq<Ast>, rest: seq<Token>, ok: bool)

  function Also(p: Parsed, ok: bool): Parsed {
    p.(ok := p.ok && ok)
  }

  function AlsoList(p: ParsedList, ok: bool): ParsedList {
    p.(ok := p.ok && ok)
  }

  /** `consume_token`: anything but the closing token is reported and left where it is. */
  function Close(ts: seq<Token>, close: Token): (r: (seq<Token>, bool))
    requires close != Eof
    ensures |r.0| <= |ts|
  {
    if Peek(ts) == close then (ts[1..], true) else (ts, false)
  }

  /** `parse_expression` on the remaining tokens. */
  function ParseExpr(ts: seq<Token>, min: int): (r: Parsed)
    ensures |r.rest| <= |ts|
    decreases |ts|, 1
  {
    var t := Peek(ts);
    if t.Atom? then Climb(Primary(t.id), ts[1..], min)
    else if IsPrefix(t) then
      var e := ParseExpr(ts[1..], PREFIX_POWER);
      Also(Climb(if e.ast.Error? then Error else Unary(t.symbol, e.ast), e.rest, min), e.ok && !e.ast.Error?)
    else if t == Sym(OpenParen) then
      var e := ParseExpr(ts[1..], 0);
      var closed := Close(e.rest, Sym(CloseParen));
      Also(Climb(if closed.1 then e.ast else Error, closed.0, min), e.ok && closed.1)
    else Parsed(Empty, ts, true)
  }

  /** The loop of `parse_expression`: postfix and infix operators that bind tightly enough. */
  function Climb(lhs: Ast, ts: seq<Token>, min: int): (r: Parsed)
    ensures |r.rest| <= |ts|
    decreases |ts|, 0
  {
    var t := Peek(ts);
    if Applies(PostfixPower(t)) then
      if PostfixPower(t).left < min then Parsed(lhs, ts, true) else
      var list := ParseList(ts[1..]);
      var closed := Close(list.rest, Closing(t.symbol));
      var good := closed.1 && !lhs.Error?;
      Also(Climb(if good then Postfix(t.symbol, lhs, list.args) else Error, closed.0, min), list.ok && good)
    else if Applies(InfixPower(t)) then
      if InfixPower(t).left < min then Parsed(lhs, ts, true) else
      var e := ParseExpr(ts[1..], InfixPower(t).right);
      var good := !lhs.Error? && !e.ast.Error?;
      Also(Climb(if good then Binary(t.symbol, lhs, e.ast) else Error, e.rest, min), e.ok && good)
    else Parsed(lhs, ts, true)
  }

  /** `add_list_node` drops an element that failed to parse. */
  function Added(args: seq<Ast>, e: Ast): seq<Ast> {
    if e.Error? then args else args + [e]
  }

  /** `parse_separated_expressions`. */
  function ParseList(ts: seq<Token>): (r: ParsedList)
    ensures |r.rest| <= |ts|
    decreases |ts|, 2
  {
    var e := ParseExpr(ts, InfixPower(Sym(Assign)).left);
    if e.ast.Empty? then ParsedList([], e.rest, e.ok)
    else AlsoList(ListTail(Added([], e.ast), e.rest), e.ok && !e.ast.Error?)
  }

  function ListTail(args: seq<Ast>, ts: seq<Token>): (r: ParsedList)
    ensures |r.rest| <= |ts|
    decreases |ts|, 2
  {
    if Peek(ts) != Sym(Comma) then ParsedList(args, ts, true) else
    var e := ParseExpr(ts[1..], InfixPower(Sym(Assign)).left);
    if e.ast.Empty? then ParsedList(args, e.rest, false)
    else AlsoList(ListTail(Added(args, e.ast), e.rest), e.ok && !e.ast.Error?)
  }

  class State {
    const tokens: seq<Token>
    var pos: nat
    var ok: bool

    constructor (tokens: seq<Token>)
      ensures this.tokens == tokens && pos == 0 && ok && Valid()
    {
      this.tokens, pos, ok := tokens, 0, true;
    }

    ghost predicate Valid()
      reads this
    {
      pos <= |tokens|
    }

    ghost function Rest(): seq<Token>
      requires Valid()
      reads this
    {
      tokens[pos..]
    }

    method PeekToken() returns (t: Token)
      requires Valid()
      ensures t == Peek(Rest())
    {
      t := if pos < |tokens| then tokens[pos] else Eof;
    }

    method Advance()
      requires Valid() && pos < |tokens|
      modifies this`pos
      ensures Valid() && pos == old(pos) + 1 && Rest() == old(Rest())[1..]
    {
      pos := pos + 1;
    }

    method ConsumeToken(close: Token) returns (closed: bool)
      requires Valid() && close != Eof
      modifies this
      ensures Valid() && pos >= old(pos) && (Rest(), closed) == Close(old(Rest()), close) && ok == (old(ok) && closed)
    {
      var t := PeekToken();
      closed := t == close;
      if closed {
        Advance();
      } else {
        ok := false;
      }
    }

    /** `add_left_node` and `add_right_node` refuse and report a failed node. */
    method Accept(e: Ast) returns (good: bool)
      modifies this`ok
      ensures good == !e.Error? && ok == (old(ok) && good)
    {
      good := !e.Error?;
      ok := ok && good;
    }

    method ParseExpression(min: int) returns (result: Ast)
      requires Valid()
      modifies this
      ensures Valid() && pos >= old(pos)
      ensures Parsed(result, Rest(), ok) == Also(ParseExpr(old(Rest()), min), old(ok))
      decreases |tokens| - pos, 1
    {
      ghost var spec := Also(ParseExpr(Rest(), min), ok);
      var t := PeekToken();
      if t.Atom? {
        Advance();
        result := Primary(t.id);
      } else if IsPrefix(t) {
        Advance();
        var operand := ParseExpression(PREFIX_POWER);
        var good := Accept(operand);
        result := if good then Unary(t.symbol, operand) else Error;
      } else if t == Sym(OpenParen) {
        Advance();
        result := ParseExpression(0);
        var closed := ConsumeToken(Sym(CloseParen));
        if !closed {
          result := Error;
        }
      } else {
        return Empty;
      }
      assert spec == Also(Climb(result, Rest(), min), ok);
      result := ClimbLoop(result, min);
    }

    method ClimbLoop(first: Ast, min: int) returns (result: Ast)
      requires Valid()
      modifies this
      ensures Valid() && pos >= old(pos)
      ensures Parsed(result, Rest(), ok) == Also(Climb(first, old(Rest()), min), old(ok))
      decreases |tokens| - pos, 1
    {
      hide ParseExpr, ParseList, PostfixPower, InfixPower;
      ghost var spec := Also(Climb(first, Rest(), min), ok);
      result := first;
      while true
        invariant Valid() && pos >= old(pos)
        invariant spec == Also(Climb(result, Rest(), min), ok)
        decreases |tokens| - pos
      {
        var t := PeekToken();
        if Applies(PostfixPower(t)) {
          if PostfixPower(t).left < min {
            break;
          }
          result := PostfixTurn(result, min);
        } else if Applies(InfixPower(t)) {
          if InfixPower(t).left < min {
            break;
          }
          result := InfixTurn(result, min);
        } else {
          break;
        }
      }
    }

    /** A call or an index: what is left to do does not change. */
    method PostfixTurn(lhs: Ast, ghost min: int) returns (result: Ast)
      requires Valid() && Applies(PostfixPower(Peek(Rest()))) && PostfixPower(Peek(Rest())).left >= min
      modifies this
      ensures Valid() && pos > old(pos)
      ensures Also(Climb(result, Rest(), min), ok) == old(Also(Climb(lhs, Rest(), min), ok))
      decreases |tokens| - pos, 0
    {
      hide ParseExpr, ParseList;
      var t := PeekToken();
      Advance();
      var args := ParseSeparatedExpressions();
      var closed := ConsumeToken(Closing(t.symbol));
      var good := Accept(lhs);
      result := if closed && good then Postfix(t.symbol, lhs, args) else Error;
    }

    method InfixTurn(lhs: Ast, ghost min: int) returns (result: Ast)
      requires Valid() && !Applies(PostfixPower(Peek(Rest()))) && Applies(InfixPower(Peek(Rest())))
      requires InfixPower(Peek(Rest())).left >= min
      modifies this
      ensures Valid() && pos > old(pos)
      ensures Also(Climb(result, Rest(), min), ok) == old(Also(Climb(lhs, Rest(), min), ok))
      decreases |tokens| - pos, 0
    {
      hide ParseExpr, ParseList, PostfixPower;
      var t := PeekToken();
      Advance();
      var rhs := ParseExpression(InfixPower(t).right);
      var good := Accept(lhs);
      var fine := Accept(rhs);
      result := if good && fine then Binary(t.symbol, lhs, rhs) else Error;
    }

    method ParseSeparatedExpressions() returns (args: seq<Ast>)
      requires Valid()
      modifies this
      ensures Valid() && pos >= old(pos)
      ensures ParsedList(args, Rest(), ok) == AlsoList(ParseList(old(Rest())), old(ok))
      decreases |tokens| - pos, 2
    {
      hide Climb;
      ghost var spec := AlsoList(ParseList(Rest()), ok);
      var e := ParseExpression(InfixPower(Sym(Assign)).left);
      if e.Empty? {
        return [];
      }
      var good := Accept(e);
      args := Added([], e);
      assert spec == AlsoList(ListTail(args, Rest()), ok);
      var t := PeekToken();
      while t == Sym(Comma)
        invariant Valid() && pos >= old(pos) && t == Peek(Rest())
        invariant spec == AlsoList(ListTail(args, Rest()), ok)
        decreases |tokens| - pos
      {
        Advance();
        var next := ParseExpression(InfixPower(Sym(Assign)).left);
        if next.Empty? {
          ok := false;
          return;
        }
        good := Accept(next);
        args := Added(args, next);
        t := PeekToken();
      }
    }
  }
}
