/**
 * Rounding of transfer amounts to cents, as the recorded `Valor` is
 * `round(valor, 2)`: the nearest multiple of 1/100, ties to the even cent.
 * The model works on exact values; binary floating point is not modelled.
 */
module Rounding {

  /** True when `x` is a whole number of cents. */
  predicate IsCents(x: real) {
    (x * 100.0).Floor as real == x * 100.0
  }

  function Round2(x: real): (r: real)
    ensures IsCents(r)
    ensures -0.005 <= r - x <= 0.005
    ensures IsCents(x) ==> r == x
  {
    var c := x * 100.0;
    var f := c.Floor;
    var frac := c - f as real;
    var n := if frac < 0.5 then f
             else if frac > 0.5 then f + 1
             else if f % 2 == 0 then f
             else f + 1;
    var r := n as real / 100.0;
    assert r * 100.0 == n as real;
    assert (n as real).Floor == n;
    assert -0.5 <= n as real - c <= 0.5;
    assert r - x == (n as real - c) / 100.0;
    assert frac == 0.0 ==> r == x;
    r
  }

  /** Rounding twice is rounding once. */
  lemma Round2Idempotent(x: real)
    ensures Round2(Round2(x)) == Round2(x)
  {
  }

  /** Rounding never changes the sign of an amount of at least half a cent. */
  lemma Round2Positive(x: real)
    requires x > 0.005
    ensures Round2(x) > 0.0
  {
  }
}
