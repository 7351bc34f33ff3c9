/** Decimal arithmetic shared by the handlers and the admin form: powers of
    ten and rounding to the nearest integer with ties to even, the rounding
    of Python's `round` and of `decimal`'s default context. */
module Numbers {

  function Pow10(k: nat): (r: nat)
    ensures r >= 1
  {
    if k == 0 then 1 else 10 * Pow10(k - 1)
  }

  /** The integer nearest to `y`, ties to the even one. */
  function RoundHalfEven(y: real): int {
    var f := y.Floor;
    var frac := y - f as real;
    if frac < 0.5 then f
    else if frac > 0.5 then f + 1
    else if f % 2 == 0 then f
    else f + 1
  }

  /** Rounding moves a value by at most one half. */
  lemma {:induction false} RoundHalfEvenClose(y: real)
    ensures -0.5 <= RoundHalfEven(y) as real - y <= 0.5
  {
  }

  /** Rounding keeps the order of its arguments. */
  lemma {:induction false} RoundHalfEvenMonotone(y1: real, y2: real)
    requires y1 <= y2
    ensures RoundHalfEven(y1) <= RoundHalfEven(y2)
  {
    var f1, f2 := y1.Floor, y2.Floor;
    assert f1 <= f2;
    if f1 == f2 {
      assert y1 - f1 as real <= y2 - f2 as real;
    }
  }

  /** An integer is its own rounding. */
  lemma {:induction false} RoundHalfEvenWhole(n: int)
    ensures RoundHalfEven(n as real) == n
  {
  }

  /** Dividing a whole number by a scale and multiplying back, then
      rounding, gives the number again. */
  lemma {:induction false} RoundScaledWhole(n: int, p: nat)
    requires p >= 1
    ensures RoundHalfEven(n as real / p as real * p as real) == n
  {
    assert n as real / p as real * p as real == n as real;
    RoundHalfEvenWhole(n);
  }
}
