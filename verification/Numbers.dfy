/**
  Integer constants in and out: `int_pow` and `parse_const_int` (src/scanner.cpp), `format_u64`
  and `format_s64` (src/strings.cpp).
*/
module Numbers {
  import opened Word64

  datatype Notation = Bin | Digit | Hex

  function Radix(n: Notation): nat {
    match n
    case Bin => 2
    case Digit => 10
    case Hex => 16
  }

  /** `char_bin_to_int`, `char_digit_to_int` and `char_hex_to_int`: other characters count as zero. */
  function CharToInt(n: Notation, c: char): nat {
    match n
    case Bin => if c == '1' then 1 else 0
    case Digit => if '0' <= c <= '9' then c as nat - '0' as nat else 0
    case Hex =>
      if '0' <= c <= '9' then c as nat - '0' as nat
      else if 'A' <= c <= 'F' then c as nat - 'A' as nat + 10
      else if 'a' <= c <= 'f' then c as nat - 'a' as nat + 10
      else 0
  }

  /** The number a string of digits denotes. */
  function Positional(n: Notation, s: string): nat {
    if s == [] then 0 else Positional(n, s[..|s| - 1]) * Radix(n) + CharToInt(n, s[|s| - 1])
  }

  function Exp(base: nat, e: nat): nat {
    if e == 0 then 1 else Exp(base, e - 1) * base
  }

  lemma ModShift(x: int, k: int)
    ensures (x + k * TWO_64) % TWO_64 == x % TWO_64
  {
  }

  /** A factor may be reduced before multiplying. */
  lemma MulMod(a: int, d: int)
    ensures a % TWO_64 * d % TWO_64 == a * d % TWO_64
  {
    var q := a / TWO_64;
    assert a == a % TWO_64 + q * TWO_64;
    assert a * d == a % TWO_64 * d + q * d * TWO_64 by {
      Distribute(a % TWO_64, q, TWO_64, d);
    }
    ModShift(a % TWO_64 * d, q * d);
  }

  lemma Distribute(x: int, q: int, m: int, d: int)
    ensures (x + q * m) * d == x * d + q * d * m
  {
  }

  lemma AddMod(a: int, b: int)
    ensures (a % TWO_64 + b % TWO_64) % TWO_64 == (a + b) % TWO_64
  {
  }

  lemma PowStep(base: nat, e: nat, r: nat)
    requires r == Exp(base, e) % TWO_64
    ensures r * base % TWO_64 == Exp(base, e + 1) % TWO_64
  {
    MulMod(Exp(base, e), base);
  }

  method IntPow(base: nat, value: nat) returns (result: nat)
    ensures result == Exp(base, value) % TWO_64
  {
    assert Exp(base, 0) == 1;
    hide Exp;
    result := 1;
    var left := value;
    while left > 0
      invariant 0 <= left <= value && result == Exp(base, value - left) % TWO_64
    {
      left := left - 1;
      PowStep(base, value - left - 1, result);
      result := result * base % TWO_64;
    }
  }

  /** The first `i` digits in their places. */
  function Weighted(n: Notation, s: string, i: nat): nat
    requires i <= |s|
  {
    Positional(n, s[..i]) * Exp(Radix(n), |s| - i)
  }

  lemma NextDigit(n: Notation, s: string, i: nat)
    requires i < |s|
    ensures Weighted(n, s, i + 1) == Weighted(n, s, i) + Exp(Radix(n), |s| - i - 1) * CharToInt(n, s[i])
  {
    hide CharToInt, Radix;
    assert s[..i + 1][..i] == s[..i];
    Weights(Positional(n, s[..i]), Radix(n), CharToInt(n, s[i]), Exp(Radix(n), |s| - i - 1));
  }

  lemma Weights(p: int, r: int, d: int, e: int)
    ensures (p * r + d) * e == p * (e * r) + e * d
  {
  }

  lemma AllDigits(n: Notation, s: string)
    ensures Weighted(n, s, 0) == 0 && Weighted(n, s, |s|) == Positional(n, s)
  {
    assert s[..0] == [] && s[..|s|] == s;
  }

  lemma DigitStep(n: Notation, s: string, i: nat, r: nat, weight: nat)
    requires i < |s| && r == Weighted(n, s, i) % TWO_64 && weight == Exp(Radix(n), |s| - i - 1) % TWO_64
    ensures (r + weight * CharToInt(n, s[i]) % TWO_64) % TWO_64 == Weighted(n, s, i + 1) % TWO_64
  {
    hide Weighted, Exp, CharToInt, Radix;
    var e, d := Exp(Radix(n), |s| - i - 1), CharToInt(n, s[i]);
    NextDigit(n, s, i);
    MulMod(e, d);
    AddMod(Weighted(n, s, i), e * d);
  }

  /** `parse_const_int` computes the positional value modulo 2^64, whatever the length. */
  method ParseConstInt(buffer: string, n: Notation) returns (result: nat)
    ensures result == Positional(n, buffer) % TWO_64
  {
    hide Weighted, Positional, Exp, CharToInt, Radix;
    AllDigits(n, buffer);
    result := 0;
    for i := 0 to |buffer|
      invariant result == Weighted(n, buffer, i) % TWO_64
    {
      var position := |buffer| - i - 1;
      var weight := IntPow(Radix(n), position);
      DigitStep(n, buffer, i, result, weight);
      result := (result + weight * CharToInt(n, buffer[i]) % TWO_64) % TWO_64;
    }
  }

  // ----- printing -----

  function DigitChar(d: nat): char
    requires d < 10
  {
    '0' + d as char
  }

  function Decimal(v: nat): string {
    if v < 10 then [DigitChar(v)] else Decimal(v / 10) + [DigitChar(v % 10)]
  }

  function Digits(v: nat): string {
    if v == 0 then [] else Decimal(v)
  }

  function Reversed(s: string): (r: string)
    ensures |r| == |s| && forall i :: 0 <= i < |s| ==> r[i] == s[|s| - 1 - i]
  {
    seq(|s|, i requires 0 <= i < |s| => s[|s| - 1 - i])
  }

  lemma LastDigit(v: nat, output: string)
    requires v > 0
    ensures Digits(v) + Reversed(output) == Digits(v / 10) + Reversed(output + [DigitChar(v % 10)])
  {
    var digit := DigitChar(v % 10);
    assert Digits(v) == Digits(v / 10) + [digit];
    assert Reversed(output + [digit]) == [digit] + Reversed(output);
  }

  /** The loop of both printers: the last digit first. */
  method BackwardDigits(value: nat) returns (output: string)
    ensures Digits(value) == Reversed(output)
  {
    output := [];
    var v := value;
    while v > 0
      invariant Digits(value) == Digits(v) + Reversed(output)
    {
      var digit := DigitChar(v % 10);
      LastDigit(v, output);
      output := output + [digit];
      v := v / 10;
    }
  }

  method ReverseText(text: string) returns (output: string)
    ensures output == Reversed(text)
  {
    output := text;
    var l, r := 0, |text| - 1;
    while l < r
      invariant 0 <= l <= |text| && l + r == |text| - 1 && r >= l - 1 && |output| == |text|
      invariant forall k :: l <= k <= r ==> output[k] == text[k]
      invariant forall k :: 0 <= k < l || r < k < |text| ==> output[k] == text[|text| - 1 - k]
    {
      var t := output[l];
      output := output[l := output[r]];
      output := output[r := t];
      assert |text| - 1 - l == r && |text| - 1 - r == l;
      l, r := l + 1, r - 1;
    }
  }

  method FormatU64(value: nat) returns (output: string)
    ensures output == Decimal(value)
  {
    if value == 0 {
      return "0";
    }
    output := BackwardDigits(value);
    output := ReverseText(output);
  }

  /** Negating the least value is undefined in C++. */
  method FormatS64(value: S64) returns (output: string)
    requires value != -TWO_63
    ensures output == if value < 0 then "-" + Decimal(-value) else Decimal(value)
  {
    if value == 0 {
      return "0";
    }
    var negative := value < 0;
    output := BackwardDigits(if negative then -value else value);
    if negative {
      assert Reversed(output + "-") == "-" + Reversed(output);
      output := output + "-";
    }
    output := ReverseText(output);
  }

  // ----- round trips -----

  /** Printing and reading back. */
  lemma {:induction false} ReadsBack(v: nat)
    ensures Positional(Digit, Decimal(v)) == v
  {
    if v < 10 {
      assert Decimal(v)[..0] == [];
    } else {
      ReadsBack(v / 10);
      var s := Decimal(v);
      assert s[..|s| - 1] == Decimal(v / 10);
    }
  }

  // ----- every notation -----

  const BITS: string := "01"
  const DIGITS: string := "0123456789"
  const UPPER: string := "0123456789ABCDEF"
  const LOWER: string := "0123456789abcdef"

  /** The digit characters of a notation, in the order of their values. */
  predicate Spells(alphabet: string, n: Notation) {
    match n
    case Bin => alphabet == BITS
    case Digit => alphabet == DIGITS
    case Hex => alphabet == UPPER || alphabet == LOWER
  }

  /** The numeral of `v` in the base with as many digits as the alphabet has characters. */
  function Numeral(alphabet: string, v: nat): (r: string)
    requires |alphabet| >= 2
    ensures r != []
  {
    var base := |alphabet|;
    if v < base then [alphabet[v]] else Numeral(alphabet, v / base) + [alphabet[v % base]]
  }

  lemma DigitsSpelled(n: Notation, alphabet: string)
    requires Spells(alphabet, n)
    ensures |alphabet| == Radix(n) && (|alphabet| == 2 || |alphabet| == 10 || |alphabet| == 16)
    ensures forall d :: 0 <= d < |alphabet| ==> CharToInt(n, alphabet[d]) == d
  {
    match n
    case Bin =>
    case Digit =>
      assert forall d :: 0 <= d < 10 ==> alphabet[d] as nat == '0' as nat + d;
    case Hex =>
      assert forall d :: 0 <= d < 10 ==> alphabet[d] as nat == '0' as nat + d;
      var a := if alphabet == UPPER then 'A' else 'a';
      assert forall d :: 10 <= d < 16 ==> alphabet[d] as nat == a as nat + (d - 10);
  }

  /** The numeral of every number is read as that number: binary, decimal and hexadecimal, in
      capital or small letters. */
  lemma {:induction false} ReadsEveryNotation(n: Notation, alphabet: string, v: nat)
    requires Spells(alphabet, n) && |alphabet| >= 2
    ensures Positional(n, Numeral(alphabet, v)) == v
  {
    hide Spells, CharToInt, Radix;
    DigitsSpelled(n, alphabet);
    var base := |alphabet|;
    var s := Numeral(alphabet, v);
    if v < base {
      assert s[..0] == [];
    } else {
      QuotientAndDigit(v, base);
      ReadsEveryNotation(n, alphabet, v / base);
      assert s[..|s| - 1] == Numeral(alphabet, v / base);
    }
  }

  lemma NumeralGrows(n: Notation, alphabet: string, p: nat, d: nat, v: nat)
    requires |alphabet| == Radix(n) && d < |alphabet| && v == p * Radix(n) + d
    ensures Numeral(alphabet, v) == (if p == 0 then [] else Numeral(alphabet, p)) + [alphabet[d]]
    ensures p > 0 || d > 0 ==> v > 0
  {
    match n
    case Bin => Division(p, 2, d);
    case Digit => Division(p, 10, d);
    case Hex => Division(p, 16, d);
  }

  lemma LastSpelled(n: Notation, alphabet: string, s: string)
    requires Spells(alphabet, n) && |alphabet| >= 2 && s != [] && s[|s| - 1] in alphabet
    ensures var p, v, last := Positional(n, s[..|s| - 1]), Positional(n, s), s[|s| - 1];
            && Numeral(alphabet, v) == (if p == 0 then [] else Numeral(alphabet, p)) + [last]
            && (p > 0 || last != alphabet[0] ==> v > 0)
  {
    hide Spells, CharToInt, Radix, Numeral;
    DigitsSpelled(n, alphabet);
    var d :| 0 <= d < |alphabet| && alphabet[d] == s[|s| - 1];
    assert CharToInt(n, s[|s| - 1]) == d;
    NumeralGrows(n, alphabet, Positional(n, s[..|s| - 1]), d, Positional(n, s));
  }

  /** Among the texts over the alphabet without leading zero only the numeral denotes the number. */
  lemma {:induction false} OnlyNumeral(n: Notation, alphabet: string, s: string)
    requires Spells(alphabet, n) && |alphabet| >= 2
    requires s != [] && (forall i :: 0 <= i < |s| ==> s[i] in alphabet) && (s[0] == alphabet[0] ==> |s| == 1)
    ensures Numeral(alphabet, Positional(n, s)) == s && (s[0] != alphabet[0] ==> Positional(n, s) > 0)
  {
    hide Spells, CharToInt, Radix, Numeral;
    var init := s[..|s| - 1];
    assert s == init + [s[|s| - 1]];
    LastSpelled(n, alphabet, s);
    if init == [] {
      assert Positional(n, init) == 0;
    } else {
      hide Positional;
      OnlyNumeral(n, alphabet, init);
    }
  }

  lemma Division(p: nat, base: nat, d: nat)
    requires d < base && (base == 2 || base == 10 || base == 16)
    ensures (p * base + d) / base == p && (p * base + d) % base == d && (p > 0 ==> p * base + d >= base)
  {
    if base == 2 {
    } else if base == 10 {
    } else {
    }
  }

  lemma QuotientAndDigit(v: nat, base: nat)
    requires base == 2 || base == 10 || base == 16
    ensures v / base * base + v % base == v && (v >= base ==> v / base < v)
  {
    if base == 2 {
    } else if base == 10 {
    } else {
    }
  }

  /** Capital and small letters denote the same digits, also in one text. */
  lemma {:induction false} CaseIgnored(s: string, t: string)
    requires |s| == |t|
    requires forall i :: 0 <= i < |s| ==>
               exists d :: 0 <= d < 16 && s[i] in {UPPER[d], LOWER[d]} && t[i] in {UPPER[d], LOWER[d]}
    ensures Positional(Hex, s) == Positional(Hex, t)
  {
    hide CharToInt;
    if s != [] {
      var k := |s| - 1;
      var d :| 0 <= d < 16 && s[k] in {UPPER[d], LOWER[d]} && t[k] in {UPPER[d], LOWER[d]};
      DigitsSpelled(Hex, UPPER);
      DigitsSpelled(Hex, LOWER);
      CaseIgnored(s[..k], t[..k]);
    }
  }

  lemma DigitCharacters(c: char)
    ensures c == '1' ==> c in BITS
    ensures '0' <= c <= '9' ==> c in DIGITS && c in UPPER
    ensures 'A' <= c <= 'F' ==> c in UPPER
    ensures 'a' <= c <= 'f' ==> c in LOWER
  {
    if c == '1' {
      assert BITS[1] == c;
    }
    if '0' <= c <= '9' {
      assert DIGITS[c as nat - '0' as nat] == c == UPPER[c as nat - '0' as nat];
    }
    if 'A' <= c <= 'F' {
      assert UPPER[c as nat - 'A' as nat + 10] == c;
    }
    if 'a' <= c <= 'f' {
      assert LOWER[c as nat - 'a' as nat + 10] == c;
    }
  }

  /** A character that is no digit of the notation counts as the digit zero. */
  lemma OthersCountZero(n: Notation, s: string, c: char)
    requires forall alphabet :: Spells(alphabet, n) ==> c !in alphabet
    ensures Positional(n, s + [c]) == Positional(n, s + ['0'])
  {
    assert (s + [c])[..|s|] == s == (s + ['0'])[..|s|];
    assert Spells(BITS, Bin) && Spells(DIGITS, Digit) && Spells(UPPER, Hex) && Spells(LOWER, Hex);
    DigitCharacters(c);
  }

  /** `format_u64` prints the decimal numeral. */
  lemma {:induction false} DecimalIsNumeral(v: nat)
    ensures Decimal(v) == Numeral(DIGITS, v)
  {
    var d := if v < 10 then v else v % 10;
    assert DIGITS[d] as nat == '0' as nat + d;
    if v >= 10 {
      DecimalIsNumeral(v / 10);
    }
  }

  predicate IsNumeral(s: string) {
    s != [] && (forall i :: 0 <= i < |s| ==> '0' <= s[i] <= '9') && (s[0] == '0' ==> |s| == 1)
  }

  /** What is printed is a numeral without a leading zero. */
  lemma {:induction false} PrintsNumeral(v: nat)
    ensures IsNumeral(Decimal(v)) && (v > 0 ==> Decimal(v)[0] != '0')
  {
    if v >= 10 {
      PrintsNumeral(v / 10);
    }
  }

  /** The printed numeral is the only one that denotes the number. */
  lemma {:induction false} PrintsTheNumeral(s: string)
    requires IsNumeral(s)
    ensures Decimal(Positional(Digit, s)) == s && (s[0] != '0' ==> Positional(Digit, s) > 0)
  {
    var init := s[..|s| - 1];
    var d := CharToInt(Digit, s[|s| - 1]);
    assert s == init + [s[|s| - 1]] && DigitChar(d) == s[|s| - 1];
    if init != [] {
      PrintsTheNumeral(init);
      var p := Positional(Digit, init);
      assert (p * 10 + d) / 10 == p && (p * 10 + d) % 10 == d;
    }
  }

  /** `parse_const_int` of `format_u64` is the identity on every 64-bit value. */
  lemma RoundTrip(v: nat)
    requires v < TWO_64
    ensures Positional(Digit, Decimal(v)) % TWO_64 == v
  {
  }

  /** What `format_u64` prints is what `parse_const_int` reads. */
  method PrintAndParse(value: nat) returns (result: nat)
    requires value < TWO_64
    ensures result == value
  {
    var text := FormatU64(value);
    RoundTrip(value);
    result := ParseConstInt(text, Digit);
  }
}
