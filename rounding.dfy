/**
 * `Math.round((a / b) * 100)` for non-negative counts, in exact integer arithmetic:
 * the percentage is the nearest integer to 100·a/b, halves rounded up.
 */
module Rounding {

  function RoundPercent(a: nat, b: nat): (r: nat)
    requires b > 0
    ensures 2 * b * r <= 200 * a + b < 2 * b * (r + 1)
  {
    (200 * a + b) / (2 * b)
  }

  /** Multiplying by a non-negative factor keeps the order. */
  lemma MulMonotone(k: nat, x: int, y: int)
    requires x <= y
    ensures k * x <= k * y
  {
    assert k * y - k * x == k * (y - x);
  }

  /** A part of a whole is between 0% and 100%, 100% exactly when it is the whole, 0% when empty. */
  lemma RoundPercentBounds(a: nat, b: nat)
    requires b > 0 && a <= b
    ensures RoundPercent(a, b) <= 100
    ensures RoundPercent(a, b) == 100 <==> 200 * a >= 199 * b
    ensures a == b ==> RoundPercent(a, b) == 100
    ensures a == 0 ==> RoundPercent(a, b) == 0
  {
    var r := RoundPercent(a, b);
    var b2 := 2 * b;
    assert b2 * r <= 200 * a + b < b2 * (r + 1);
    if r >= 101 {
      MulMonotone(b2, 101, r);
      assert false;
    }
    if 200 * a >= 199 * b && r < 100 {
      MulMonotone(b2, r + 1, 100);
      assert false;
    }
    if r == 100 {
      assert b2 * 100 == 200 * b;
    }
    if a == 0 && r > 0 {
      MulMonotone(b2, 1, r);
      assert false;
    }
  }
}
