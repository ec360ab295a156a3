/** `Decimal.quantize(Decimal('0.00'))` under Python's default decimal
    context (rounding ROUND_HALF_EVEN), on exact rationals (`real`). */
module Decimals {

  function Abs(x: real): (r: real)
    ensures r >= 0.0 && (r == x || r == -x)
  {
    if x < 0.0 then -x else x
  }

  /** `x` rounded to a whole number of hundredths, ties to the even one. */
  function Hundredths(x: real): (n: int)
    ensures (n as real) - 0.5 <= x * 100.0 <= (n as real) + 0.5
    ensures x * 100.0 == (n as real) - 0.5 || x * 100.0 == (n as real) + 0.5 ==> n % 2 == 0
  {
    var scaled := x * 100.0;
    var f := scaled.Floor;
    var frac := scaled - f as real;
    if frac < 0.5 then f
    else if frac > 0.5 then f + 1
    else if f % 2 == 0 then f
    else f + 1
  }

  /** `x.quantize(Decimal('0.00'))`: the nearest multiple of 0.01, ties to
      the even multiple. */
  function Quantize2(x: real): (r: real)
    ensures r == (Hundredths(x) as real) / 100.0
    ensures x - 0.005 <= r <= x + 0.005
  {
    (Hundredths(x) as real) / 100.0
  }

  /** Quantizing a value that already has two decimals changes nothing. */
  lemma QuantizeExact(n: int)
    ensures Quantize2((n as real) / 100.0) == (n as real) / 100.0
  {
    var x := (n as real) / 100.0;
    assert x * 100.0 == n as real;
    assert (x * 100.0).Floor == n;
  }

  /** Quantizing twice is quantizing once. */
  lemma QuantizeIdempotent(x: real)
    ensures Quantize2(Quantize2(x)) == Quantize2(x)
  {
    QuantizeExact(Hundredths(x));
  }

  /** Quantizing keeps the order of values. */
  lemma QuantizeMonotonic(x: real, y: real)
    requires x <= y
    ensures Quantize2(x) <= Quantize2(y)
  {
    var sx, sy := x * 100.0, y * 100.0;
    assert sx <= sy;
    var fx, fy := sx.Floor, sy.Floor;
    assert fx <= fy;
  }

  /** A quantized value exceeds 1.00 exactly when the value exceeds 1.005:
      1.005 itself rounds to the even 1.00. */
  lemma QuantizeAboveOne(y: real)
    ensures Quantize2(y) > 1.0 <==> y > 1.005
  {
    var n := Hundredths(y);
    if n > 100 {
      assert y * 100.0 != 100.5;
    }
  }
}
