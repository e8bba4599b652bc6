/**
 Go's `strconv.Atoi`, the integer parser that `FromString` applies to the
 year, month and day fields: an optional leading `+` or `-`, then one or more
 ASCII decimal digits, and a value that fits a 64-bit `int`.
 */
module Strconv {
  import opened Results
  import opened GoBuiltin

  const PLUS: Byte := 0x2B   // '+'
  const MINUS: Byte := 0x2D  // '-'
  const ZERO: Byte := 0x30   // '0'
  const NINE: Byte := 0x39   // '9'

  /** The two ways `strconv.Atoi` fails (`strconv.ErrSyntax` and `strconv.ErrRange`). */
  datatype NumError = ErrSyntax | ErrRange

  predicate IsDigit(b: Byte) {
    ZERO <= b <= NINE
  }

  predicate AllDigits(s: seq<Byte>) {
    forall i | 0 <= i < |s| :: IsDigit(s[i])
  }

  function Pow10(n: nat): (p: nat)
    ensures p >= 1
  {
    if n == 0 then 1 else 10 * Pow10(n - 1)
  }

  /** The value of a run of decimal digits, accumulated left to right as `n = n*10 + digit`. */
  function DigitsValue(s: seq<Byte>): (n: nat)
    requires AllDigits(s)
    ensures n < Pow10(|s|)
    decreases |s|
  {
    if s == [] then 0 else DigitsValue(s[..|s| - 1]) * 10 + (s[|s| - 1] - ZERO)
  }

  /** The input with at most one leading sign removed. */
  function Unsigned(s: seq<Byte>): (u: seq<Byte>)
    ensures |s| > 0 && (s[0] == PLUS || s[0] == MINUS) ==> u == s[1..]
    ensures |s| == 0 || (s[0] != PLUS && s[0] != MINUS) ==> u == s
  {
    if |s| > 0 && (s[0] == PLUS || s[0] == MINUS) then s[1..] else s
  }

  /**
   `strconv.Atoi(s)`. An accepted input is an optional sign followed by at least
   one digit; a negative result needs a leading `-`; inputs shorter than 19
   bytes never overflow, so for them a well-formed input always succeeds.
   */
  function Atoi(s: seq<Byte>): (r: Result<Int64, NumError>)
    ensures r.Ok? ==> |Unsigned(s)| > 0 && AllDigits(Unsigned(s))
    ensures r.Ok? ==> -(Pow10(|s| - 1) as int) < r.value < Pow10(|s|)
    ensures r.Ok? && r.value < 0 ==> s[0] == MINUS
    ensures 0 < |s| < 19 && |Unsigned(s)| > 0 && AllDigits(Unsigned(s)) ==> r.Ok?
  {
    var body := Unsigned(s);
    if |body| == 0 || !AllDigits(body) then
      Err(ErrSyntax)
    else
      var magnitude: int := DigitsValue(body);
      var n := if s[0] == MINUS then -magnitude else magnitude;
      if |s| < 19 then
        assert Pow10(|body|) <= Pow10(18) by { Pow10Monotone(|body|, 18); }
        Pow10Of18();
        Ok(n)
      else if MIN_INT64 <= n <= MAX_INT64 then
        Ok(n)
      else
        Err(ErrRange)
  }

  /** Eighteen decimal digits always fit in a 64-bit `int`. */
  lemma Pow10Of18()
    ensures Pow10(18) == 1_000_000_000_000_000_000 < MAX_INT64
  {
    assert Pow10(3) == 1_000;
    assert Pow10(6) == 1_000_000;
    assert Pow10(9) == 1_000_000_000;
    assert Pow10(12) == 1_000_000_000_000;
    assert Pow10(15) == 1_000_000_000_000_000;
  }

  lemma {:induction false} Pow10Monotone(a: nat, b: nat)
    requires a <= b
    ensures Pow10(a) <= Pow10(b)
    decreases b
  {
    if a < b {
      Pow10Monotone(a, b - 1);
    }
  }

  /** `n` written in exactly `w` decimal digits, with leading zeros. */
  function Field(n: nat, w: nat): (s: seq<Byte>)
    requires n < Pow10(w)
    ensures |s| == w && AllDigits(s)
    decreases w
  {
    if w == 0 then [] else Field(n / 10, w - 1) + [ZERO + n % 10]
  }

  /** Reading back a zero-padded field gives the number that was written. */
  lemma {:induction false} DigitsValueOfField(n: nat, w: nat)
    requires n < Pow10(w)
    ensures DigitsValue(Field(n, w)) == n
    decreases w
  {
    if w > 0 {
      var s := Field(n, w);
      assert s[..w - 1] == Field(n / 10, w - 1);
      DigitsValueOfField(n / 10, w - 1);
    }
  }

  /** `Atoi` inverts zero-padded formatting. */
  lemma AtoiOfField(n: nat, w: nat)
    requires 0 < w < 18 && n < Pow10(w)
    ensures Atoi(Field(n, w)) == Ok(n)
  {
    DigitsValueOfField(n, w);
    assert Unsigned(Field(n, w)) == Field(n, w);
    Pow10Monotone(w, 18);
  }

  /** `Atoi` inverts zero-padded formatting behind an explicit sign. */
  lemma AtoiOfSignedField(n: nat, w: nat)
    requires 0 < w < 18 && n < Pow10(w)
    ensures Atoi([PLUS] + Field(n, w)) == Ok(n)
    ensures Atoi([MINUS] + Field(n, w)) == Ok(-(n as int))
  {
    DigitsValueOfField(n, w);
    var f := Field(n, w);
    Pow10Monotone(w, 18);
    Pow10Of18();
    var p, m := [PLUS] + f, [MINUS] + f;
    assert p[0] == PLUS && p[1..] == f && Unsigned(p) == f;
    assert m[0] == MINUS && m[1..] == f && Unsigned(m) == f;
    assert |p| < 19 && |m| < 19;
  }
}
