/**
  The integer facts behind the templates: flags decide the signed order, `cqo` and `idiv`
  divide by truncation, the byte sequence of `!` negates, and results stay in 64 bits.
*/
module NasmArithmetic {
  import opened Word64
  import opened Nasm

  lemma {:induction false} XorSelf(x: nat, n: nat)
    ensures Bits(BitXor, x, x, n) == 0
    decreases n
  {
    if n > 0 {
      XorSelf(x / 2, n - 1);
    }
  }

  predicate InRange(v: int) {
    -TWO_63 <= v < TWO_63
  }

  /** The flags of a comparison decide the signed order, wrap-around included. */
  lemma CompareDecides(op: BinaryOp, a: int, b: int)
    requires InRange(a) && InRange(b)
    requires IsCompare(op)
    ensures EvalBinary(op, a, b) == Some(Bool(Holds(CondOf(op), Compare(a, b)).value))
  {
  }

  lemma MulMono(q: nat, x: nat, y: nat)
    requires x <= y
    ensures q * x <= q * y
  {
  }

  lemma DivSplit(a: int, b: int)
    requires b > 0
    ensures a / b * b + a % b == a && 0 <= a % b < b
  {
  }

  lemma SignedProduct(q: int, y: int)
    ensures -q * y == -(q * y) && q * -y == -(q * y) && -q * -y == q * y
  {
  }

  /** Division leaves the 64-bit range in one case only, the one `idiv` traps on. */
  lemma QuotientInRange(a: int, b: int)
    requires InRange(a) && InRange(b) && b != 0
    ensures InRange(TruncDiv(a, b)) <==> !(a == -TWO_63 && b == -1)
    ensures InRange(TruncMod(a, b))
  {
  }

  /** `cqo` extends the dividend without changing it. */
  lemma SignExtension(a: int)
    requires InRange(a)
    ensures (if a < 0 then -1 else 0) * TWO_64 + Unsigned(a) == a
  {
  }

  lemma ShiftRightInRange(a: int, b: nat)
    requires InRange(a)
    ensures InRange(a / Pow2(b))
  {
    var p := Pow2(b);
    DivSplit(a, p);
    var q := a / p;
    if q >= 0 {
      MulMono(q, 1, p);
    } else {
      SignedProduct(-q - 1, p);
      MulMono(-q - 1, 1, p);
      assert (q + 1) * p == q * p + p;
    }
  }

  lemma BinaryInRange(op: BinaryOp, a: int, b: int)
    requires InRange(a) && InRange(b) && EvalBinary(op, a, b).Some?
    ensures InRange(EvalBinary(op, a, b).value)
  {
    hide Bits, TruncDiv, TruncMod, Pow2;
    if (op.Div? || op.Mod?) && b != 0 {
      QuotientInRange(a, b);
    } else if op.ShiftRight? {
      ShiftRightInRange(a, b);
    }
  }

  lemma UnaryInRange(op: UnaryOp, v: int)
    requires InRange(v)
    ensures InRange(EvalUnary(op, v))
  {
  }

  lemma LowByte(rax: int, al: int)
    requires 0 <= al < 256
    ensures WithAl(rax, al) % 256 == al
  {
  }

  lemma {:induction false} AllOnes(n: nat)
    ensures Bits(BitXor, 0, Pow2(n) - 1, n) == Pow2(n) - 1
  {
    if n > 0 {
      AllOnes(n - 1);
    }
  }

  lemma {:induction false} AndOne(x: nat, n: nat)
    requires n > 0
    ensures Bits(BitAnd, x, 1, n) == x % 2
  {
    AndZero(x / 2, n - 1);
  }

  lemma {:induction false} AndZero(x: nat, n: nat)
    ensures Bits(BitAnd, x, 0, n) == 0
    decreases n
  {
    if n > 0 {
      AndZero(x / 2, n - 1);
    }
  }

  /** Inverting a byte flips its lowest bit. */
  lemma FlipsLowBit(x: nat)
    requires x < 2
    ensures Bits(BitXor, x, 255, 8) % 2 == 1 - x && 0 <= Bits(BitXor, x, 255, 8) < 256
  {
    assert Bits(BitXor, 0, 127, 7) == 127 by {
      AllOnes(7);
      assert Pow2(7) == 128;
    }
  }

  /** `setne al`, `xor al, -1`, `and al, 1` leave the negated truth value in the byte. */
  lemma NotSequence(rax: int, flag: int)
    requires flag == 0 || flag == 1
    ensures var r1 := WithAl(rax, flag);
            var r2 := WithAl(r1, Bits(BitXor, r1 % 256, 255, 8));
            var r3 := WithAl(r2, Bits(BitAnd, r2 % 256, 1, 8));
            r3 % 256 == 1 - flag
  {
    hide Bits, WithAl;
    var r1 := WithAl(rax, flag);
    LowByte(rax, flag);
    FlipsLowBit(flag);
    var inverted := Bits(BitXor, flag, 255, 8);
    LowByte(r1, inverted);
    AndOne(inverted, 8);
    LowByte(WithAl(r1, inverted), 1 - flag);
  }
}
