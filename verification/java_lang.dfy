/** Java `long` arithmetic the report handler relies on: the range of a
    64-bit two's-complement integer, integer division that truncates toward
    zero, and the saturating `TimeUnit.MILLISECONDS.toNanos` conversion. */
module JavaLang {

  const LongMin: int := -0x8000_0000_0000_0000
  const LongMax: int := 0x7FFF_FFFF_FFFF_FFFF

  /** A value of Java's `long` type. */
  type Long = x: int | LongMin <= x <= LongMax

  const NanosPerMilli: int := 1_000_000

  function Abs(x: int): (n: nat)
  {
    if x < 0 then -x else x
  }

  lemma ProductAtLeast(q: nat, y: nat, k: nat)
    requires y >= k
    ensures q * y >= q * k
  {
    assert q * y == q * k + q * (y - k);
  }

  lemma QuotientBound(x: nat, y: nat)
    requires y > 0
    ensures x / y <= x
    ensures y >= 2 ==> 2 * (x / y) <= x
  {
    var q: nat := x / y;
    assert q * y <= x;
    ProductAtLeast(q, y, 1);
    if y >= 2 {
      ProductAtLeast(q, y, 2);
    }
  }

  /** Java's `a / b` on `long` (section 15.17.2 of the Java Language
      Specification): the quotient rounded toward zero, with the single
      overflowing case `Long.MIN_VALUE / -1` wrapping back to
      `Long.MIN_VALUE`. A zero divisor throws `ArithmeticException`, which
      callers model before dividing. */
  function Div(a: Long, b: Long): (q: Long)
    requires b != 0
  {
    if a == LongMin && b == -1 then LongMin
    else
      QuotientBound(Abs(a), Abs(b));
      var m := Abs(a) / Abs(b);
      if (a < 0) == (b < 0) then m else -m
  }

  /** The quotient rounds toward zero: what it leaves over is smaller than
      the divisor and carries the sign of the dividend. */
  lemma DivTruncates(a: Long, b: Long)
    requires b != 0
    requires !(a == LongMin && b == -1)
    ensures Abs(a - Div(a, b) * b) < Abs(b)
    ensures a - Div(a, b) * b == 0 || (a - Div(a, b) * b < 0 <==> a < 0)
  {
  }

  /** On a non-negative dividend and a positive divisor, Java's division and
      Dafny's Euclidean division agree. */
  lemma DivMatchesEuclidean(a: Long, b: Long)
    requires a >= 0 && b > 0
    ensures Div(a, b) == a / b
  {
  }

  /** `TimeUnit.MILLISECONDS.toNanos(ms)`: multiplies by one million, and
      saturates at `Long.MAX_VALUE` / `Long.MIN_VALUE` instead of
      overflowing. */
  function ToNanos(ms: Long): (ns: Long)
  {
    if ms > LongMax / NanosPerMilli then LongMax
    else if ms < -(LongMax / NanosPerMilli) then LongMin
    else ms * NanosPerMilli
  }

  /** The conversion is exact whenever the product fits in a `long`, and
      clamps to the nearest bound otherwise. */
  lemma ToNanosExactOrClamped(ms: Long)
    ensures LongMin <= ms * NanosPerMilli <= LongMax ==> ToNanos(ms) == ms * NanosPerMilli
    ensures ms * NanosPerMilli > LongMax ==> ToNanos(ms) == LongMax
    ensures ms * NanosPerMilli < LongMin ==> ToNanos(ms) == LongMin
  {
  }

  /** Converting preserves order and sign, so a later or larger deadline in
      milliseconds is never a smaller one in nanoseconds. */
  lemma ToNanosMonotonic(a: Long, b: Long)
    requires a <= b
    ensures ToNanos(a) <= ToNanos(b)
    ensures a >= 0 ==> ToNanos(a) >= 0
    ensures a < 0 ==> ToNanos(a) < 0
  {
  }
}
