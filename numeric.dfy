/**
 * The two roundings the engine applies to real numbers:
 * `Number(x.toFixed(3))` and `Math.round(x)`.
 */
module Numeric {

  /** The nearest integer to `x`, halves going up; the shape of both roundings below. */
  function HalfUp(x: real): (n: int)
    ensures x - 0.5 < n as real <= x + 0.5
  {
    (x + 0.5).Floor
  }

  /**
   * `Math.round(x)`: the nearest integer, a tie going towards positive
   * infinity.
   */
  function JsRound(x: real): (n: int)
    ensures x - 0.5 < n as real <= x + 0.5
  {
    HalfUp(x)
  }

  /**
   * `Number(x.toFixed(3))`: the nearest multiple of 0.001. `toFixed` rounds
   * the magnitude and puts the sign back, so a tie goes away from zero.
   */
  function Round3(x: real): (r: real)
    ensures -0.0005 <= r - x <= 0.0005
    ensures (r * 1000.0).Floor as real == r * 1000.0
    ensures x >= 0.0 ==> r >= 0.0
    ensures x <= 0.0 ==> r <= 0.0
  {
    var n := if x < 0.0 then -HalfUp(-x * 1000.0) else HalfUp(x * 1000.0);
    assert x * 1000.0 - 0.5 <= n as real <= x * 1000.0 + 0.5;
    assert x >= 0.0 ==> n >= 0;
    assert x <= 0.0 ==> n <= 0;
    Thousandths(n);
    n as real / 1000.0
  }

  lemma {:induction false} Thousandths(n: int)
    ensures (n as real / 1000.0) * 1000.0 == n as real
    ensures ((n as real / 1000.0) * 1000.0).Floor == n
  {
  }

  /** `Math.round` never reverses an order. */
  lemma {:induction false} JsRoundMonotone(x: real, y: real)
    requires x <= y
    ensures JsRound(x) <= JsRound(y)
  {
  }

  /** A multiple of 0.001 is left as it is. */
  lemma {:induction false} Round3Exact(k: int)
    ensures Round3(k as real / 1000.0) == k as real / 1000.0
  {
    var x := k as real / 1000.0;
    assert x * 1000.0 == k as real;
    if x < 0.0 {
      assert -x * 1000.0 == -k as real;
      assert HalfUp(-x * 1000.0) == -k;
    } else {
      assert HalfUp(x * 1000.0) == k;
    }
  }
}
