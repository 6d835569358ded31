/**
  The 64-bit arithmetic of the abstract machine: wrap-around, C++ division and the
  bitwise operators. `None` marks what C++ (and the x86 `idiv`) leaves undefined.
*/
module Word64 {
  datatype Option<+T> = None | Some(value: T)

  const TWO_63: int := 0x8000_0000_0000_0000
  const TWO_64: int := 0x1_0000_0000_0000_0000

  type S64 = x: int | -TWO_63 <= x < TWO_63

  datatype UnaryOp = Negate | BitNot | LogNot

  datatype BinaryOp =
    | Add | Sub | Mul | Div | Mod
    | BitAnd | BitOr | BitXor | ShiftLeft | ShiftRight
    | CmpEq | CmpNeq | CmpLt | CmpGt | CmpLte | CmpGte

  function Wrap(x: int): (r: S64)
    ensures (r - x) % TWO_64 == 0
    ensures -TWO_63 <= x < TWO_63 ==> r == x
  {
    var m := x % TWO_64;
    if m < TWO_63 then m else m - TWO_64
  }

  function Unsigned(x: int): (r: nat)
    ensures r < TWO_64
  {
    x % TWO_64
  }

  function Pow2(n: nat): (r: nat)
    ensures r >= 1
  {
    if n == 0 then 1 else 2 * Pow2(n - 1)
  }

  function Abs(x: int): nat {
    if x < 0 then -x else x
  }

  /** C++ `/`: the quotient is truncated toward zero. */
  function TruncDiv(a: int, b: int): int
    requires b != 0
  {
    var q := Abs(a) / Abs(b);
    if (a < 0) == (b < 0) then q else -q
  }

  /** C++ `%`: the remainder takes the sign of the dividend. */
  function TruncMod(a: int, b: int): int
    requires b != 0
  {
    a - TruncDiv(a, b) * b
  }

  function Bool(b: bool): int {
    if b then 1 else 0
  }

  /** One bit of `&`, `|` or `^`. */
  function Bit(op: BinaryOp, x: nat, y: nat): nat {
    match op
    case BitAnd => if x == 1 && y == 1 then 1 else 0
    case BitOr => if x == 1 || y == 1 then 1 else 0
    case _ => if x != y then 1 else 0
  }

  function Bits(op: BinaryOp, x: nat, y: nat, n: nat): nat {
    if n == 0 then 0 else Bit(op, x % 2, y % 2) + 2 * Bits(op, x / 2, y / 2, n - 1)
  }

  function EvalUnary(op: UnaryOp, a: int): int {
    match op
    case Negate => Wrap(-a)
    case BitNot => -1 - a
    case LogNot => Bool(a == 0)
  }

  /** The value an executed binary opcode pushes, `a` being the left (top) operand. */
  function EvalBinary(op: BinaryOp, a: int, b: int): Option<int> {
    match op
    case Add => Some(Wrap(a + b))
    case Sub => Some(Wrap(a - b))
    case Mul => Some(Wrap(a * b))
    case Div =>
      if b == 0 then Some(0) else if a == -TWO_63 && b == -1 then None else Some(TruncDiv(a, b))
    case Mod =>
      if b == 0 then Some(0) else if a == -TWO_63 && b == -1 then None else Some(TruncMod(a, b))
    case BitAnd => Some(Wrap(Bits(op, Unsigned(a), Unsigned(b), 64)))
    case BitOr => Some(Wrap(Bits(op, Unsigned(a), Unsigned(b), 64)))
    case BitXor => Some(Wrap(Bits(op, Unsigned(a), Unsigned(b), 64)))
    case ShiftLeft => if 0 <= b < 64 then Some(Wrap(a * Pow2(b))) else None
    case ShiftRight => if 0 <= b < 64 then Some(a / Pow2(b)) else None
    case CmpEq => Some(Bool(a == b))
    case CmpNeq => Some(Bool(a != b))
    case CmpLt => Some(Bool(a < b))
    case CmpGt => Some(Bool(a > b))
    case CmpLte => Some(Bool(a <= b))
    case CmpGte => Some(Bool(a >= b))
  }
}
