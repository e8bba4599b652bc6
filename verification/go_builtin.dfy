/**
 The parts of Go's built-in arithmetic that the date type relies on, on a
 64-bit platform: `int` is a two's-complement 64-bit integer whose `+` and `-`
 wrap around, `/` truncates toward zero and `%` takes the sign of the dividend,
 and `byte` is an unsigned 8-bit integer.
 */
module GoBuiltin {

  const TWO_TO_64: int := 0x1_0000_0000_0000_0000
  const MIN_INT64: int := -0x8000_0000_0000_0000
  const MAX_INT64: int := 0x7FFF_FFFF_FFFF_FFFF

  /** Go's `int` (and `int64`) on a 64-bit platform. */
  type Int64 = x: int | MIN_INT64 <= x <= MAX_INT64

  /** Go's `byte`; a Go `string` and a `[]byte` are both sequences of these. */
  type Byte = b: int | 0 <= b < 0x100

  /** The value a 64-bit register holds after an addition or subtraction whose exact result is `x`. */
  function Wrap(x: int): (r: Int64)
    ensures MIN_INT64 <= x <= MAX_INT64 ==> r == x
  {
    (x - MIN_INT64) % TWO_TO_64 + MIN_INT64
  }

  /** Wrapping only ever moves a value by a whole number of 2^64 steps. */
  lemma WrapOffset(x: int)
    ensures Wrap(x) == x - ((x - MIN_INT64) / TWO_TO_64) * TWO_TO_64
  {
  }

  /** Values that differ by a multiple of 2^64 wrap to the same register contents. */
  lemma {:induction false} WrapPeriodic(x: int, k: int)
    ensures Wrap(x + k * TWO_TO_64) == Wrap(x)
  {
    var a := x - MIN_INT64;
    var q, r := a / TWO_TO_64, a % TWO_TO_64;
    assert a + k * TWO_TO_64 == (q + k) * TWO_TO_64 + r;
    ModUnique(a + k * TWO_TO_64, q + k, r);
  }

  /** Adding `n` and then subtracting the original value gives back `n`, overflow or not. */
  lemma {:induction false} SubUndoesAdd(a: Int64, n: Int64)
    ensures Wrap(Wrap(a + n) - a) == n
  {
    var q := (a + n - MIN_INT64) / TWO_TO_64;
    WrapOffset(a + n);
    assert Wrap(a + n) - a == n + (-q) * TWO_TO_64;
    WrapPeriodic(n, -q);
  }

  /** Wrapping an intermediate sum does not change the wrapped total. */
  lemma {:induction false} WrapAddWrapped(x: int, y: int)
    ensures Wrap(Wrap(x) + y) == Wrap(x + y)
  {
    var q := (x - MIN_INT64) / TWO_TO_64;
    WrapOffset(x);
    assert Wrap(x) + y == x + y + (-q) * TWO_TO_64;
    WrapPeriodic(x + y, -q);
  }

  /** Wrapping addition is associative. */
  lemma WrapAssociative(x: int, y: int, z: int)
    ensures Wrap(Wrap(x + y) + z) == Wrap(x + Wrap(y + z))
  {
    WrapAddWrapped(x + y, z);
    WrapAddWrapped(y + z, x);
    assert Wrap(y + z) + x == x + Wrap(y + z);
  }

  /** Euclidean remainder by 2^64 is determined by any quotient/remainder split. */
  lemma ModUnique(a: int, q: int, r: int)
    requires a == q * TWO_TO_64 + r && 0 <= r < TWO_TO_64
    ensures a % TWO_TO_64 == r && a / TWO_TO_64 == q
  {
    var q', r' := a / TWO_TO_64, a % TWO_TO_64;
    assert (q' - q) * TWO_TO_64 == r - r';
  }

  /** Go's integer `a / b` for a positive divisor: the quotient truncated toward zero. */
  function Quo(a: int, b: int): (q: int)
    requires b > 0
    ensures 0 <= a ==> 0 <= b * q <= a < b * q + b
    ensures a < 0 ==> b * q - b < a <= b * q <= 0
  {
    if a >= 0 then
      DivisionBounds(a, b);
      a / b
    else
      DivisionBounds(-a, b);
      -((-a) / b)
  }

  /** Euclidean division of a non-negative dividend, written as bounds on the product. */
  lemma DivisionBounds(n: int, b: int)
    requires n >= 0 && b > 0
    ensures 0 <= b * (n / b) <= n < b * (n / b) + b
    ensures b * -(n / b) == -(b * (n / b))
  {
  }

  /** Go's integer `a % b` for a positive divisor: `a - b * (a / b)`, carrying the sign of `a`. */
  function Rem(a: int, b: int): (r: int)
    requires b > 0
    ensures -b < r < b
    ensures 0 <= a ==> 0 <= r
    ensures a < 0 ==> r <= 0
  {
    a - b * Quo(a, b)
  }

  /** Go's defining identity for `/` and `%`: `a == (a / b) * b + a % b`. */
  lemma RemIdentity(a: int, b: int)
    requires b > 0
    ensures a == b * Quo(a, b) + Rem(a, b)
  {
  }
}
