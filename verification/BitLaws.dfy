/**
  What the bitwise operators and the shifts do to every single bit.
*/
module BitLaws {
  import opened Word64
  import opened WordLaws

  /** Bit `k` of the two's complement of a number; bit 63 is the sign. */
  predicate BitAt(v: int, k: nat) {
    v / Pow2(k) % 2 == 1
  }

  // ----- one bit after the other -----

  lemma DivUnique(x: int, m: nat, q: int, r: int)
    requires m > 0 && x == q * m + r && 0 <= r < m
    ensures x / m == q
  {
    var q', r' := x / m, x % m;
    assert (q - q') * m == r' - r;
    Multiple(q - q', m);
  }

  lemma Halves(x: int, m: nat)
    requires m > 0
    ensures x / (2 * m) == x / 2 / m
  {
    var q, r := x / (2 * m), x % (2 * m);
    assert x == 2 * (q * m) + r;
    DivUnique(x / 2, m, q, r / 2);
  }

  lemma NextBit(x: int, k: nat)
    ensures BitAt(x, 0) <==> x % 2 == 1
    ensures BitAt(x, k + 1) <==> BitAt(x / 2, k)
  {
    Halves(x, Pow2(k));
  }

  /** Adding multiples of `2^n` changes no bit below `n`. */
  lemma {:induction false} LowBits(x: int, j: int, n: nat, k: nat)
    requires k < n
    ensures BitAt(x + j * Pow2(n), k) <==> BitAt(x, k)
    decreases k
  {
    var y := x + j * Pow2(n);
    assert j * Pow2(n) == 2 * (j * Pow2(n - 1));
    if k == 0 {
      NextBit(x, 0);
      NextBit(y, 0);
    } else {
      NextBit(x, k - 1);
      NextBit(y, k - 1);
      LowBits(x / 2, j, n - 1, k - 1);
    }
  }

  lemma Powers()
    ensures Pow2(63) == TWO_63 && Pow2(64) == TWO_64
  {
    assert Pow2(8) == 0x100;
    PowerSum(8, 8);
    PowerSum(16, 16);
    PowerSum(32, 32);
    assert Pow2(64) == 2 * Pow2(63);
  }

  lemma {:induction false} PowerSum(m: nat, n: nat)
    ensures Pow2(m + n) == Pow2(m) * Pow2(n)
  {
    if m > 0 {
      PowerSum(m - 1, n);
      Twice(Pow2(m - 1), Pow2(n));
    }
  }

  lemma Twice(x: int, y: int)
    ensures 2 * x * y == 2 * (x * y)
  {
  }

  /** Reducing to 64 bits keeps the 64 low bits. */
  lemma WordBits(x: int, k: nat)
    requires k < 64
    ensures BitAt(Wrap(x), k) <==> BitAt(x, k)
    ensures BitAt(Unsigned(x), k) <==> BitAt(x, k)
  {
    Powers();
    var turns := Turns(x);
    LowBits(Wrap(x), turns, 64, k);
    LowBits(Unsigned(x), x / TWO_64, 64, k);
  }

  /** All bits from 63 on are the sign. */
  lemma {:induction false} HighBits(x: int, n: nat, k: nat)
    requires -(Pow2(n) as int) <= x < Pow2(n) && k >= n
    ensures BitAt(x, k) <==> x < 0
    decreases k
  {
    if k == 0 {
      NextBit(x, 0);
    } else {
      NextBit(x, k - 1);
      HighBits(x / 2, if n == 0 then 0 else n - 1, k - 1);
    }
  }

  lemma SignBits(v: S64, k: nat)
    requires k >= 63
    ensures BitAt(v, k) <==> v < 0
  {
    Powers();
    HighBits(v, 63, k);
  }

  lemma {:induction false} NaturalDetermined(x: nat, y: nat, n: nat)
    requires x < Pow2(n) && y < Pow2(n) && forall k: nat :: k < n ==> BitAt(x, k) == BitAt(y, k)
    ensures x == y
    decreases n
  {
    if n > 0 {
      NextBit(x, 0);
      NextBit(y, 0);
      forall k: nat | k < n - 1
        ensures BitAt(x / 2, k) == BitAt(y / 2, k)
      {
        NextBit(x, k);
        NextBit(y, k);
        assert BitAt(x, k + 1) == BitAt(y, k + 1);
      }
      NaturalDetermined(x / 2, y / 2, n - 1);
    }
  }

  /** The 64 bits determine the number. */
  lemma BitsDetermine(a: S64, b: S64)
    requires forall k: nat :: k < 64 ==> BitAt(a, k) == BitAt(b, k)
    ensures a == b
  {
    Powers();
    forall k: nat | k < 64
      ensures BitAt(Unsigned(a), k) == BitAt(Unsigned(b), k)
    {
      WordBits(a, k);
      WordBits(b, k);
    }
    NaturalDetermined(Unsigned(a), Unsigned(b), 64);
  }

  // ----- bitwise operators -----

  lemma {:induction false} BitsAt(op: BinaryOp, x: nat, y: nat, n: nat, k: nat)
    requires k < n
    ensures BitAt(Bits(op, x, y, n), k) <==> Bit(op, Bool(BitAt(x, k)), Bool(BitAt(y, k))) == 1
    decreases k
  {
    var v := Bits(op, x, y, n);
    if k == 0 {
      NextBit(x, 0);
      NextBit(y, 0);
      NextBit(v, 0);
    } else {
      NextBit(x, k - 1);
      NextBit(y, k - 1);
      NextBit(v, k - 1);
      BitsAt(op, x / 2, y / 2, n - 1, k - 1);
    }
  }

  lemma {:induction false} Inverted(x: int, k: nat)
    ensures BitAt(-1 - x, k) <==> !BitAt(x, k)
    decreases k
  {
    Mirror(x);
    if k == 0 {
      NextBit(x, 0);
      NextBit(-1 - x, 0);
    } else {
      hide BitAt;
      NextBit(x, k - 1);
      NextBit(-1 - x, k - 1);
      Inverted(x / 2, k - 1);
    }
  }

  lemma Mirror(x: int)
    ensures (-1 - x) % 2 == 1 - x % 2 && (-1 - x) / 2 == -1 - x / 2
  {
  }

  /** `&`, `|`, `^` and `~` work on every bit by itself. */
  lemma BitwiseLaws(a: S64, b: S64, k: nat)
    requires k < 64
    ensures BitAt(Eval(BitAnd, a, b), k) <==> BitAt(a, k) && BitAt(b, k)
    ensures BitAt(Eval(BitOr, a, b), k) <==> BitAt(a, k) || BitAt(b, k)
    ensures BitAt(Eval(BitXor, a, b), k) <==> BitAt(a, k) != BitAt(b, k)
    ensures BitAt(EvalUnary(BitNot, a), k) <==> !BitAt(a, k)
  {
    hide Bits, BitAt, Unsigned, Wrap;
    var x, y := Unsigned(a), Unsigned(b);
    WordBits(a, k);
    WordBits(b, k);
    BitsAt(BitAnd, x, y, 64, k);
    BitsAt(BitOr, x, y, 64, k);
    BitsAt(BitXor, x, y, 64, k);
    WordBits(Bits(BitAnd, x, y, 64), k);
    WordBits(Bits(BitOr, x, y, 64), k);
    WordBits(Bits(BitXor, x, y, 64), k);
    Inverted(a, k);
  }

  // ----- shifts -----

  lemma {:induction false} Raised(x: int, b: nat, k: nat)
    ensures BitAt(x * Pow2(b), k) <==> k >= b && BitAt(x, k - b)
    decreases b
  {
    if b > 0 {
      var y := x * Pow2(b - 1);
      assert x * Pow2(b) == 2 * y;
      if k == 0 {
        NextBit(2 * y, 0);
      } else {
        NextBit(2 * y, k - 1);
        Raised(x, b - 1, k - 1);
      }
    }
  }

  lemma {:induction false} Lowered(x: int, b: nat, k: nat)
    ensures BitAt(x / Pow2(b), k) <==> BitAt(x, k + b)
    decreases b
  {
    if b > 0 {
      Halves(x, Pow2(b - 1));
      Lowered(x / 2, b - 1, k);
      NextBit(x, k + b - 1);
    }
  }

  /** Shifting left moves every bit up and fills with zeros; shifting right moves every bit down
      and fills with the sign. Other distances than 0..63 are undefined. */
  lemma ShiftLaws(a: S64, b: S64, k: nat)
    requires k < 64
    ensures EvalBinary(ShiftLeft, a, b).Some? <==> 0 <= b < 64
    ensures EvalBinary(ShiftRight, a, b).Some? <==> 0 <= b < 64
    ensures 0 <= b < 64 ==> (BitAt(Eval(ShiftLeft, a, b), k) <==> k >= b && BitAt(a, k - b))
    ensures 0 <= b < 64 ==> (BitAt(Eval(ShiftRight, a, b), k) <==> BitAt(a, if k + b < 64 then k + b else 63))
  {
    hide BitAt, Wrap, Pow2;
    if 0 <= b < 64 {
      WordBits(a * Pow2(b), k);
      Raised(a, b, k);
      Lowered(a, b, k);
      if k + b >= 64 {
        SignBits(a, k + b);
        SignBits(a, 63);
      }
    }
  }
}
