/**
 * Rounding helpers and sums. `Math.Round(x, d)` in C# rounds to the
 * nearest multiple of 10^-d and breaks ties towards the even neighbour
 * (MidpointRounding.ToEven, the default); here that rule is applied to exact reals.
 */
module Numeric {

  /** The integer nearest to `y`, ties going to the even integer. */
  function RoundToEven(y: real): (n: int)
    ensures (n as real) - 0.5 <= y <= (n as real) + 0.5
    ensures y - (y.Floor as real) == 0.5 ==> n % 2 == 0
  {
    var f := y.Floor;
    var frac := y - f as real;
    if frac > 0.5 then f + 1
    else if frac < 0.5 then f
    else if f % 2 == 0 then f else f + 1
  }

  lemma RoundToEvenMonotonic(a: real, b: real)
    requires a <= b
    ensures RoundToEven(a) <= RoundToEven(b)
  {
    var fa, fb := a.Floor, b.Floor;
    if fa < fb {
      assert RoundToEven(a) <= fa + 1 <= fb <= RoundToEven(b);
    }
  }

  lemma RoundToEvenOfInt(n: int)
    ensures RoundToEven(n as real) == n
  {
    assert (n as real).Floor == n;
  }

  /** `Math.Round(x, 2)`: a whole number of hundredths, at most half a hundredth away, ties to an even count. */
  function Round2(x: real): (r: real)
    ensures (r * 100.0).Floor as real == r * 100.0
    ensures r - 0.005 <= x <= r + 0.005
    ensures x * 100.0 - ((x * 100.0).Floor as real) == 0.5 ==> (r * 100.0).Floor % 2 == 0
  {
    var n := RoundToEven(x * 100.0);
    assert n as real / 100.0 * 100.0 == n as real;
    n as real / 100.0
  }

  /** `Math.Round(x, 4)`: a whole number of ten-thousandths, at most half of one away, ties to an even count. */
  function Round4(x: real): (r: real)
    ensures (r * 10000.0).Floor as real == r * 10000.0
    ensures r - 0.00005 <= x <= r + 0.00005
    ensures x * 10000.0 - ((x * 10000.0).Floor as real) == 0.5 ==> (r * 10000.0).Floor % 2 == 0
  {
    var n := RoundToEven(x * 10000.0);
    assert n as real / 10000.0 * 10000.0 == n as real;
    n as real / 10000.0
  }

  /** Midpoints go to the even neighbour: 2.5 to 2, 3.5 to 4, and 0.125 to 0.12. */
  lemma BankersTies()
    ensures RoundToEven(2.5) == 2 && RoundToEven(3.5) == 4
    ensures Round2(0.125) == 0.12
  {
    assert (2.5).Floor == 2 && (3.5).Floor == 3;
    assert 0.125 * 100.0 == 12.5 && (12.5).Floor == 12;
  }

  /** Rounding to two places keeps a value inside [0, 100]. */
  lemma Round2Within(x: real)
    requires 0.0 <= x <= 100.0
    ensures 0.0 <= Round2(x) <= 100.0
  {
    RoundToEvenMonotonic(0.0, x * 100.0);
    RoundToEvenMonotonic(x * 100.0, 10000.0);
    RoundToEvenOfInt(0);
    RoundToEvenOfInt(10000);
  }

  /** A hundred rounds to itself. */
  lemma Round2Hundred()
    ensures Round2(100.0) == 100.0
  {
    assert 100.0 * 100.0 == 10000 as real;
    RoundToEvenOfInt(10000);
  }

  /** A share of `t` taken as a percentage lies in [0, 100], and all of it is exactly 100. */
  lemma PercentWithin(c: nat, t: nat)
    requires c <= t && t > 0
    ensures 0.0 <= (c as real) * 100.0 / (t as real) <= 100.0
    ensures c == t ==> (c as real) * 100.0 / (t as real) == 100.0
  {
    var x := (c as real) * 100.0;
    var y := t as real;
    assert x <= y * 100.0;
    assert x / y * y == x;
  }

  /** Rounding to four places keeps a value inside [0.6, 1]. */
  lemma Round4Within(x: real)
    requires 0.6 <= x <= 1.0
    ensures 0.6 <= Round4(x) <= 1.0
  {
    RoundToEvenMonotonic(6000.0, x * 10000.0);
    RoundToEvenMonotonic(x * 10000.0, 10000.0);
    RoundToEvenOfInt(6000);
    RoundToEvenOfInt(10000);
  }

  /** `Math.Clamp(v, lo, hi)`. */
  function Clamp(v: int, lo: int, hi: int): (r: int)
    requires lo <= hi
    ensures lo <= r <= hi
    ensures lo <= v <= hi ==> r == v
    ensures v < lo ==> r == lo
    ensures v > hi ==> r == hi
  {
    if v < lo then lo else if v > hi then hi else v
  }

  /** The sum of `xs`, added left to right (Python's `sum`). */
  function Sum(xs: seq<real>): (r: real)
    ensures (forall i :: 0 <= i < |xs| ==> xs[i] >= 0.0) ==> r >= 0.0
    decreases |xs|
  {
    if xs == [] then 0.0 else Sum(xs[..|xs| - 1]) + xs[|xs| - 1]
  }
}
