/** The C type `long` as the shell uses it: 64 bits, two's complement.

    Signed overflow is undefined in C.  The table fixes wrap-around for it, and the
    evaluator and its specification both go through this one table. */
module CLong {

  const TWO_63: int := 0x8000_0000_0000_0000
  const TWO_64: int := 0x1_0000_0000_0000_0000
  const LONG_MIN: int := -TWO_63
  const LONG_MAX: int := TWO_63 - 1
  const WIDTH: nat := 64

  type Long = x: int | LONG_MIN <= x <= LONG_MAX

  /** The strict binary operators of the arithmetic grammar. */
  datatype BinOp =
    | Mul | Div | Mod
    | Add | Sub
    | Shl | Shr
    | Lt | Le | Gt | Ge
    | Eq | Ne
    | And | Xor | Or

  datatype ArithError = DivisionByZero | InvalidShiftWidth | InvalidTarget | ReadOnly

  datatype LongResult = Value(value: Long) | Error(error: ArithError)

  // ---------- conversions ----------

  /** The bit pattern of a long, read as an unsigned number. */
  function ToUnsigned(x: Long): (u: nat)
    ensures u < TWO_64
  {
    if x < 0 then x + TWO_64 else x
  }

  function FromUnsigned(u: nat): (x: Long)
    requires u < TWO_64
    ensures ToUnsigned(x) == u
  {
    if u > LONG_MAX then u - TWO_64 else u
  }

  /** Wrap-around: the long congruent to `x` modulo 2^64. */
  function Wrap(x: int): (r: Long)
    ensures (x - r) % TWO_64 == 0
    ensures LONG_MIN <= x <= LONG_MAX ==> r == x
  {
    FromUnsigned(x % TWO_64)
  }

  function Pow2(n: nat): (p: nat)
    ensures p >= 1
  {
    if n == 0 then 1 else 2 * Pow2(n - 1)
  }

  lemma {:induction false} Pow2Sum(m: nat, n: nat)
    ensures Pow2(m + n) == Pow2(m) * Pow2(n)
  {
    if m == 0 {
    } else {
      Pow2Sum(m - 1, n);
      assert Pow2(m + n) == 2 * Pow2(m - 1 + n);
    }
  }

  lemma Pow2Of64()
    ensures Pow2(WIDTH) == TWO_64
  {
    assert Pow2(4) == 16 by {
      assert Pow2(2) == 4;
    }
    hide Pow2;
    Pow2Sum(4, 4);
    Pow2Sum(8, 8);
    Pow2Sum(16, 16);
    Pow2Sum(32, 32);
  }

  // ---------- division ----------

  function Abs(x: int): nat {
    if x < 0 then -x else x
  }

  /** C division truncates toward zero. */
  function TruncDiv(a: int, b: int): (q: int)
    requires b != 0
  {
    var q := Abs(a) / Abs(b);
    if (a < 0) == (b < 0) then q else -q
  }

  /** The C remainder has the sign of the dividend. */
  function TruncMod(a: int, b: int): (r: int)
    requires b != 0
  {
    var r := Abs(a) % Abs(b);
    if a < 0 then -r else r
  }

  /** The defining law of C division: quotient and remainder rebuild the dividend, the
      remainder is smaller than the divisor and never has the sign opposite to the dividend. */
  lemma TruncatedDivision(a: int, b: int)
    requires b != 0
    ensures a == TruncDiv(a, b) * b + TruncMod(a, b)
    ensures Abs(TruncMod(a, b)) < Abs(b)
    ensures TruncMod(a, b) != 0 ==> (TruncMod(a, b) < 0 <==> a < 0)
  {
    var q, r := Abs(a) / Abs(b), Abs(a) % Abs(b);
    assert Abs(a) == q * Abs(b) + r;
    assert (-q) * b == q * (-b) == -(q * b);
  }

  // ---------- bit operations ----------

  function BitOf(op: BinOp, x: bool, y: bool): bool
    requires op in {And, Xor, Or}
  {
    match op
    case And => x && y
    case Xor => x != y
    case _ => x || y
  }

  predicate Bit(u: nat, i: nat) {
    if i == 0 then u % 2 == 1 else Bit(u / 2, i - 1)
  }

  /** The low `width` bits of two patterns, combined bit by bit. */
  function Zip(op: BinOp, a: nat, b: nat, width: nat): (r: nat)
    requires op in {And, Xor, Or}
    ensures r < Pow2(width)
  {
    if width == 0 then 0
    else
      (if BitOf(op, a % 2 == 1, b % 2 == 1) then 1 else 0) + 2 * Zip(op, a / 2, b / 2, width - 1)
  }

  lemma {:induction false} ZipBit(op: BinOp, a: nat, b: nat, width: nat, i: nat)
    requires op in {And, Xor, Or} && i < width
    ensures Bit(Zip(op, a, b, width), i) == BitOf(op, Bit(a, i), Bit(b, i))
  {
    if i > 0 {
      ZipBit(op, a / 2, b / 2, width - 1, i - 1);
      assert Zip(op, a, b, width) / 2 == Zip(op, a / 2, b / 2, width - 1);
    }
  }

  function Bitwise(op: BinOp, a: Long, b: Long): Long
    requires op in {And, Xor, Or}
  {
    Pow2Of64();
    FromUnsigned(Zip(op, ToUnsigned(a), ToUnsigned(b), WIDTH))
  }

  /** `&`, `^` and `|` act on each of the 64 bits of the two's complement patterns. */
  lemma BitwiseBits(op: BinOp, a: Long, b: Long, i: nat)
    requires op in {And, Xor, Or} && i < WIDTH
    ensures Bit(ToUnsigned(Bitwise(op, a, b)), i)
         == BitOf(op, Bit(ToUnsigned(a), i), Bit(ToUnsigned(b), i))
  {
    Pow2Of64();
    ZipBit(op, ToUnsigned(a), ToUnsigned(b), WIDTH, i);
  }

  // ---------- the operator table ----------

  function Truth(b: bool): Long {
    if b then 1 else 0
  }

  predicate ValidShiftWidth(n: Long) {
    0 <= n < WIDTH
  }

  function Binary(op: BinOp, a: Long, b: Long): (r: LongResult)
    ensures r.Error? <==>
            || (op in {Div, Mod} && b == 0)
            || (op in {Shl, Shr} && !ValidShiftWidth(b))
  {
    match op
    case Mul => Value(Wrap(a * b))
    case Div => if b == 0 then Error(DivisionByZero) else Value(Wrap(TruncDiv(a, b)))
    case Mod => if b == 0 then Error(DivisionByZero) else Value(Wrap(TruncMod(a, b)))
    case Add => Value(Wrap(a + b))
    case Sub => Value(Wrap(a - b))
    case Shl => if !ValidShiftWidth(b) then Error(InvalidShiftWidth) else Value(Wrap(a * Pow2(b)))
    case Shr => if !ValidShiftWidth(b) then Error(InvalidShiftWidth) else Value(Wrap(a / Pow2(b)))
    case Lt => Value(Truth(a < b))
    case Le => Value(Truth(a <= b))
    case Gt => Value(Truth(a > b))
    case Ge => Value(Truth(a >= b))
    case Eq => Value(Truth(a == b))
    case Ne => Value(Truth(a != b))
    case And => Value(Bitwise(And, a, b))
    case Xor => Value(Bitwise(Xor, a, b))
    case Or => Value(Bitwise(Or, a, b))
  }

  datatype UnOp = Plus | Minus | Bang | Tilde

  function Unary(op: UnOp, a: Long): Long {
    match op
    case Plus => a
    case Minus => Wrap(-(a as int))
    case Bang => Truth(a == 0)
    case Tilde => -(a as int) - 1
  }
}
