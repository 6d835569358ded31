/**
  What the expression parser leaves behind when it reports: never a tree with a failed node
  inside, and always the tokens it did not read.
*/
module Failures {
  import opened Parser
  import opened Grammar

  /** No node of the tree failed. */
  predicate Intact(a: Ast)
    decreases a
  {
    match a
    case Error => false
    case Unary(_, e) => Intact(e)
    case Binary(_, l, r) => Intact(l) && Intact(r)
    case Postfix(_, e, args) => Intact(e) && forall i :: 0 <= i < |args| ==> Intact(args[i])
    case _ => true
  }

  predicate AllIntact(args: seq<Ast>) {
    forall i :: 0 <= i < |args| ==> Intact(args[i])
  }

  /** The end of the tokens, what is in front of it having been read. */
  predicate LeftOver(rest: seq<Token>, ts: seq<Token>) {
    |rest| <= |ts| && rest == ts[|ts| - |rest|..]
  }

  lemma LeftOverTwice(a: seq<Token>, b: seq<Token>, c: seq<Token>)
    requires LeftOver(a, b) && LeftOver(b, c)
    ensures LeftOver(a, c)
  {
  }

  lemma OneRead(ts: seq<Token>)
    requires ts != []
    ensures LeftOver(ts[1..], ts)
  {
  }

  lemma ClosedLeftOver(rest: seq<Token>, ts: seq<Token>, close: Token)
    requires close != Eof && LeftOver(rest, ts)
    ensures LeftOver(Close(rest, close).0, ts)
  {
    if Peek(rest) == close {
      OneRead(rest);
      LeftOverTwice(rest[1..], rest, ts);
    }
  }

  /** A failed tree is reported, any other has no failed node; unread tokens stay. */
  predicate Fails(r: Parsed, ts: seq<Token>) {
    && (r.ast.Error? ==> !r.ok)
    && (!r.ast.Error? ==> Intact(r.ast))
    && LeftOver(r.rest, ts)
  }

  /** The same behind a left operand that may have failed already. */
  predicate FailsBehind(lhs: Ast, r: Parsed, ts: seq<Token>) {
    && (r.ast.Error? ==> lhs.Error? || !r.ok)
    && (lhs.Error? ==> r.ast.Error?)
    && (!r.ast.Error? ==> Intact(r.ast))
    && LeftOver(r.rest, ts)
  }

  predicate ListFails(r: ParsedList, ts: seq<Token>) {
    AllIntact(r.args) && LeftOver(r.rest, ts)
  }

  /** For every input, accepted or not. */
  lemma {:induction false} FailuresReported(ts: seq<Token>, min: int)
    ensures Fails(ParseExpr(ts, min), ts)
    decreases |ts|, 1
  {
    hide Climb, LeftOver, Intact, InfixPower, PostfixPower;
    var t := Peek(ts);
    if t.Atom? {
      AtomStarts(t.id);
      OneRead(ts);
      ClimbFails(Primary(t.id), ts[1..], min);
      LeftOverTwice(ParseExpr(ts, min).rest, ts[1..], ts);
    } else if IsPrefix(t) {
      PrefixFails(ts, min);
    } else if t == Sym(OpenParen) {
      ParenFails(ts, min);
    } else {
      NothingRead(ts);
    }
  }

  lemma AtomStarts(id: int)
    ensures Intact(Primary(id)) && Intact(Ast.Empty)
  {
  }

  lemma NothingRead(ts: seq<Token>)
    ensures LeftOver(ts, ts) && Intact(Ast.Empty)
  {
  }

  lemma PrefixFails(ts: seq<Token>, min: int)
    requires IsPrefix(Peek(ts))
    ensures Fails(ParseExpr(ts, min), ts)
    decreases |ts|, 0
  {
    var e := ParseExpr(ts[1..], PREFIX_POWER);
    var lhs := if e.ast.Error? then Error else Ast.Unary(ts[0].symbol, e.ast);
    var r := Climb(lhs, e.rest, min);
    assert ParseExpr(ts, min) == Also(r, e.ok && !e.ast.Error?);
    hide Climb, ParseExpr, LeftOver;
    FailuresReported(ts[1..], PREFIX_POWER);
    ClimbFails(lhs, e.rest, min);
    OneRead(ts);
    LeftOverTwice(e.rest, ts[1..], ts);
    LeftOverTwice(r.rest, e.rest, ts);
  }

  lemma ParenFails(ts: seq<Token>, min: int)
    requires Peek(ts) == Sym(OpenParen)
    ensures Fails(ParseExpr(ts, min), ts)
    decreases |ts|, 0
  {
    var e := ParseExpr(ts[1..], 0);
    var closed := Close(e.rest, Sym(CloseParen));
    var lhs := if closed.1 then e.ast else Error;
    var r := Climb(lhs, closed.0, min);
    assert ParseExpr(ts, min) == Also(r, e.ok && closed.1);
    hide Climb, ParseExpr, LeftOver, Intact, Close;
    FailuresReported(ts[1..], 0);
    ClosedLeftOver(e.rest, ts[1..], Sym(CloseParen));
    ClimbFails(lhs, closed.0, min);
    OneRead(ts);
    LeftOverTwice(closed.0, ts[1..], ts);
    LeftOverTwice(r.rest, closed.0, ts);
  }

  lemma {:induction false} ClimbFails(lhs: Ast, ts: seq<Token>, min: int)
    requires lhs.Error? || Intact(lhs)
    ensures FailsBehind(lhs, Climb(lhs, ts, min), ts)
    decreases |ts|, 1
  {
    hide ParseExpr, ParseList, Intact;
    var t := Peek(ts);
    if LeftPower(t) < min || !Continues(t) {
      NothingRead(ts);
    } else if Applies(PostfixPower(t)) {
      SuffixFails(lhs, ts, min);
    } else {
      OperatorFails(lhs, ts, min);
    }
  }

  predicate Continues(t: Token) {
    Applies(PostfixPower(t)) || Applies(InfixPower(t))
  }

  lemma IntactNode(op: Symbol, l: Ast, r: Ast, args: seq<Ast>)
    ensures Intact(Ast.Binary(op, l, r)) == (Intact(l) && Intact(r))
    ensures Intact(Postfix(op, l, args)) == (Intact(l) && AllIntact(args))
  {
  }

  lemma SuffixTurnAny(lhs: Ast, ts: seq<Token>, min: int)
    requires Applies(PostfixPower(Peek(ts))) && PostfixPower(Peek(ts)).left >= min
    ensures var list := ParseList(ts[1..]);
            var closed := Close(list.rest, Closing(ts[0].symbol));
            var good := closed.1 && !lhs.Error?;
            Climb(lhs, ts, min) ==
            Also(Climb(if good then Postfix(ts[0].symbol, lhs, list.args) else Error, closed.0, min), list.ok && good)
  {
    hide ParseList, Close;
  }

  lemma SuffixFails(lhs: Ast, ts: seq<Token>, min: int)
    requires lhs.Error? || Intact(lhs)
    requires Applies(PostfixPower(Peek(ts))) && PostfixPower(Peek(ts)).left >= min
    ensures FailsBehind(lhs, Climb(lhs, ts, min), ts)
    decreases |ts|, 0
  {
    var list := ParseList(ts[1..]);
    var closed := Close(list.rest, Closing(ts[0].symbol));
    var good := closed.1 && !lhs.Error?;
    var lhs' := if good then Postfix(ts[0].symbol, lhs, list.args) else Error;
    var r := Climb(lhs', closed.0, min);
    SuffixTurnAny(lhs, ts, min);
    hide Climb, ParseList, LeftOver, Close, PostfixPower, Closing, Intact;
    ArgumentsFail(ts[1..]);
    IntactNode(ts[0].symbol, lhs, lhs, list.args);
    ClosedLeftOver(list.rest, ts[1..], Closing(ts[0].symbol));
    ClimbFails(lhs', closed.0, min);
    OneRead(ts);
    LeftOverTwice(closed.0, ts[1..], ts);
    LeftOverTwice(r.rest, closed.0, ts);
  }

  lemma OperatorFails(lhs: Ast, ts: seq<Token>, min: int)
    requires lhs.Error? || Intact(lhs)
    requires !Applies(PostfixPower(Peek(ts))) && Applies(InfixPower(Peek(ts))) && InfixPower(Peek(ts)).left >= min
    ensures FailsBehind(lhs, Climb(lhs, ts, min), ts)
    decreases |ts|, 0
  {
    var e := ParseExpr(ts[1..], InfixPower(ts[0]).right);
    var good := !lhs.Error? && !e.ast.Error?;
    var lhs' := if good then Ast.Binary(ts[0].symbol, lhs, e.ast) else Error;
    var r := Climb(lhs', e.rest, min);
    assert Climb(lhs, ts, min) == Also(r, e.ok && good);
    hide Climb, ParseExpr, LeftOver, PostfixPower, InfixPower, Intact;
    IntactNode(ts[0].symbol, lhs, e.ast, []);
    FailuresReported(ts[1..], InfixPower(ts[0]).right);
    ClimbFails(lhs', e.rest, min);
    OneRead(ts);
    LeftOverTwice(e.rest, ts[1..], ts);
    LeftOverTwice(r.rest, e.rest, ts);
  }

  /** Failed elements are no arguments. */
  lemma ArgumentsFail(ts: seq<Token>)
    ensures ListFails(ParseList(ts), ts)
    decreases |ts|, 4
  {
    hide ParseExpr, ListTail, LeftOver, Intact;
    var e := ParseExpr(ts, InfixPower(Sym(Assign)).left);
    FailuresReported(ts, InfixPower(Sym(Assign)).left);
    if !e.ast.Empty? {
      TailFails(Added([], e.ast), e.rest);
      LeftOverTwice(ListTail(Added([], e.ast), e.rest).rest, e.rest, ts);
    }
  }

  lemma {:induction false} TailFails(args: seq<Ast>, ts: seq<Token>)
    requires AllIntact(args)
    ensures ListFails(ListTail(args, ts), ts)
    decreases |ts|, 3
  {
    hide ParseExpr, LeftOver, Intact;
    if Peek(ts) != Sym(Comma) {
      NothingRead(ts);
    } else {
      var e := ParseExpr(ts[1..], InfixPower(Sym(Assign)).left);
      FailuresReported(ts[1..], InfixPower(Sym(Assign)).left);
      OneRead(ts);
      LeftOverTwice(e.rest, ts[1..], ts);
      if !e.ast.Empty? {
        TailFails(Added(args, e.ast), e.rest);
        LeftOverTwice(ListTail(Added(args, e.ast), e.rest).rest, e.rest, ts);
      }
    }
  }
}
