/**
  What the 64-bit operators compute, said without their definitions: the laws that fix sums,
  products, quotients and comparisons.
*/
module WordLaws {
  import opened Word64

  /** The value of an operator that is defined on these operands. */
  function Eval(op: BinaryOp, a: S64, b: S64): (r: int)
    requires EvalBinary(op, a, b).Some?
  {
    EvalBinary(op, a, b).value
  }

  // ----- sums, differences and products -----

  /** Sum, difference, product and negation are the 64-bit numbers congruent to the exact results. */
  lemma Congruent(a: S64, b: S64, v: S64)
    ensures EvalBinary(Add, a, b) == Some(v) <==> (v - (a + b)) % 0x1_0000_0000_0000_0000 == 0
    ensures EvalBinary(Sub, a, b) == Some(v) <==> (v - (a - b)) % 0x1_0000_0000_0000_0000 == 0
    ensures EvalBinary(Mul, a, b) == Some(v) <==> (v - a * b) % 0x1_0000_0000_0000_0000 == 0
    ensures EvalUnary(Negate, a) == v <==> (v + a) % 0x1_0000_0000_0000_0000 == 0
  {
    WrapUnique(a + b, v);
    WrapUnique(a - b, v);
    WrapUnique(a * b, v);
    WrapUnique(0 - a, v);
  }

  lemma WrapUnique(x: int, v: S64)
    ensures Wrap(x) == v <==> (v - x) % TWO_64 == 0
  {
  }

  /** An operand may be reduced before it is added or multiplied. */
  lemma WrapShift(x: int, k: int)
    ensures Wrap(x + k * TWO_64) == Wrap(x)
  {
  }

  lemma Turns(x: int) returns (k: int)
    ensures x == Wrap(x) + k * TWO_64
  {
    k := (x - Wrap(x)) / TWO_64;
  }

  lemma WrapSum(x: int, y: int)
    ensures Wrap(Wrap(x) + y) == Wrap(x + y) && Wrap(y + Wrap(x)) == Wrap(y + x) && Wrap(Wrap(x) - y) == Wrap(x - y)
  {
    hide Wrap;
    var k := Turns(x);
    WrapShift(Wrap(x) + y, k);
    WrapShift(Wrap(x) - y, k);
  }

  lemma WrapProduct(x: int, y: int)
    ensures Wrap(Wrap(x) * y) == Wrap(x * y)
  {
    hide Wrap;
    var k := Turns(x);
    Expand(Wrap(x), k, y);
    WrapShift(Wrap(x) * y, k * y);
  }

  lemma Expand(w: int, k: int, y: int)
    ensures (w + k * TWO_64) * y == w * y + k * y * TWO_64
  {
  }

  /** Addition is associative and commutative with zero, whatever overflows. */
  lemma Sums(a: S64, b: S64, c: S64)
    ensures Eval(Add, a, b) == Eval(Add, b, a) && Eval(Add, a, 0) == a
    ensures Eval(Add, Eval(Add, a, b), c) == Eval(Add, a, Eval(Add, b, c))
  {
    SumOfThree(a, b, c);
  }

  lemma SumOfThree(a: int, b: int, c: int)
    ensures Wrap(Wrap(a + b) + c) == Wrap(a + b + c) == Wrap(a + Wrap(b + c))
  {
    hide Wrap;
    WrapSum(a + b, c);
    WrapSum(b + c, a);
    assert a + b + c == a + (b + c);
  }

  /** Subtraction undoes addition, and is the addition of the negated number. */
  lemma Differences(a: S64, b: S64)
    ensures Eval(Sub, Eval(Add, a, b), b) == a
    ensures Eval(Add, Eval(Sub, a, b), b) == a
  {
    hide Wrap;
    WrapSum(a + b, b);
    WrapSum(a - b, b);
    assert a + b - b == a && a - b + b == a;
  }

  lemma Negations(a: S64, b: S64)
    ensures Eval(Add, a, EvalUnary(Negate, a)) == 0
    ensures Eval(Sub, a, b) == Eval(Add, a, EvalUnary(Negate, b))
  {
    hide Wrap;
    WrapSum(0 - a, a);
    WrapSum(0 - b, a);
    assert a + (0 - a) == 0 && a + (0 - b) == a - b;
  }

  /** Counting up goes through all numbers, from the largest on to the least. */
  lemma Successors(a: S64)
    ensures Eval(Add, a, 1) == if a == 0x7FFF_FFFF_FFFF_FFFF then -0x8000_0000_0000_0000 else a + 1
  {
  }

  /** Multiplication is associative and commutative with one, and distributes over addition. */
  lemma Products(a: S64, b: S64, c: S64)
    ensures Eval(Mul, a, b) == Eval(Mul, b, a) && Eval(Mul, a, 1) == a && Eval(Mul, a, 0) == 0
    ensures Eval(Mul, a, Eval(Add, b, c)) == Eval(Add, Eval(Mul, a, b), Eval(Mul, a, c))
    ensures Eval(Mul, Eval(Mul, a, b), c) == Eval(Mul, a, Eval(Mul, b, c))
  {
    hide Wrap;
    WrapProduct(b + c, a);
    WrapSum(a * b, Wrap(a * c));
    WrapSum(a * c, a * b);
    WrapProduct(a * b, c);
    WrapProduct(b * c, a);
    Rearranged(a, b, c);
  }

  lemma Rearranged(a: int, b: int, c: int)
    ensures a * b == b * a && a * (b + c) == a * b + a * c && a * b * c == b * c * a
    ensures forall x: int :: x * a == a * x
  {
  }

  // ----- quotients and remainders -----

  function Magnitude(b: int): nat {
    if b < 0 then -b else b
  }

  /** `q` and `r` are quotient and remainder of a division truncated toward zero. */
  predicate Divides(a: int, b: int, q: int, r: int) {
    a == q * b + r && Magnitude(r) < Magnitude(b) && (r == 0 || (r < 0 <==> a < 0))
  }

  /** Quotient and remainder are the only pair of the kind; dividing by zero yields zero, and only
      the least number divided by minus one is undefined. */
  lemma Quotients(a: S64, b: S64, q: int, r: int)
    ensures EvalBinary(Div, a, b).None? <==> (a == -0x8000_0000_0000_0000 && b == -1)
    ensures EvalBinary(Mod, a, b).None? <==> (a == -0x8000_0000_0000_0000 && b == -1)
    ensures b == 0 ==> Eval(Div, a, b) == 0 && Eval(Mod, a, b) == 0
    ensures b != 0 && EvalBinary(Div, a, b).Some? ==>
              (Eval(Div, a, b) == q && Eval(Mod, a, b) == r <==> Divides(a, b, q, r))
  {
    if b != 0 {
      hide TruncDiv, TruncMod, Divides;
      Truncates(a, b);
      if Divides(a, b, q, r) {
        OnePair(a, b, q, r, TruncDiv(a, b), TruncMod(a, b));
      }
    }
  }

  lemma Truncates(a: int, b: int)
    requires b != 0
    ensures Divides(a, b, TruncDiv(a, b), TruncMod(a, b))
  {
    hide TruncDiv, TruncMod, Divides;
    var q, r := TruncParts(a, b);
    TruncShape(a, b, q, r);
  }

  lemma TruncParts(a: int, b: int) returns (q: int, r: int)
    requires b != 0
    ensures Abs(a) == q * Abs(b) + r && 0 <= r < Abs(b)
    ensures TruncDiv(a, b) == if (a < 0) == (b < 0) then q else -q
  {
    q, r := Abs(a) / Abs(b), Abs(a) % Abs(b);
    Euclid(Abs(a), Abs(b), q, r);
  }

  lemma TruncShape(a: int, b: int, q: int, r: int)
    requires b != 0 && Abs(a) == q * Abs(b) + r && 0 <= r < Abs(b)
    requires TruncDiv(a, b) == if (a < 0) == (b < 0) then q else -q
    ensures Divides(a, b, TruncDiv(a, b), TruncMod(a, b))
  {
    hide TruncDiv;
    Signs(q, Abs(b));
    assert TruncMod(a, b) == if a < 0 then -r else r;
  }

  lemma Euclid(x: nat, y: nat, q: nat, r: nat)
    requires y > 0 && q == x / y && r == x % y
    ensures x == q * y + r && r < y
  {
  }

  lemma Signs(q: int, y: int)
    ensures -q * y == -(q * y) && q * -y == -(q * y) && -q * -y == q * y
  {
  }

  lemma OnePair(a: int, b: int, q: int, r: int, q': int, r': int)
    requires b != 0 && Divides(a, b, q, r) && Divides(a, b, q', r')
    ensures q == q' && r == r'
  {
    assert (q - q') * b == r' - r;
    Multiple(q - q', b);
  }

  lemma Multiple(k: int, b: int)
    ensures k != 0 ==> Magnitude(k * b) >= Magnitude(b)
  {
    if k >= 1 {
      Grows(k, Magnitude(b));
    } else if k <= -1 {
      Grows(-k, Magnitude(b));
    }
    Signs(k, b);
  }

  lemma Grows(k: nat, m: nat)
    ensures k >= 1 ==> k * m >= m
  {
  }

  // ----- comparisons -----

  /** The comparisons are one strict order, its converse, its complements and equality. */
  lemma Comparisons(a: S64, b: S64, c: S64)
    ensures Eval(CmpEq, a, b) + Eval(CmpLt, a, b) + Eval(CmpGt, a, b) == 1
    ensures Eval(CmpLt, a, b) == Eval(CmpGt, b, a)
    ensures Eval(CmpEq, a, b) == 1 <==> a == b
    ensures Eval(CmpLt, a, b) == 1 && Eval(CmpLt, b, c) == 1 ==> Eval(CmpLt, a, c) == 1
    ensures Eval(CmpLt, a, Eval(Add, a, 1)) == if a == 0x7FFF_FFFF_FFFF_FFFF then 0 else 1
    ensures Eval(CmpNeq, a, b) == EvalUnary(LogNot, Eval(CmpEq, a, b))
    ensures Eval(CmpLte, a, b) == EvalUnary(LogNot, Eval(CmpGt, a, b))
    ensures Eval(CmpGte, a, b) == EvalUnary(LogNot, Eval(CmpLt, a, b))
    ensures EvalUnary(LogNot, a) == Eval(CmpEq, a, 0)
  {
  }
}
