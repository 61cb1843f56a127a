/**
  The per-product arithmetic shared by both report versions: the price
  after the category discount, its two-decimal display value, and the tier.
 */
module Pricing {
  import opened Catalog

  /** The threshold above which an entry is Premium. */
  const PremiumThreshold: real := 50.0

  /** `price * (1 - discount)`, computed exactly. */
  function DiscountedPrice(price: real, discount: real): (r: real)
    ensures discount == 0.0 ==> r == price
    ensures 0.0 <= price && 0.0 <= discount <= 1.0 ==> 0.0 <= r <= price
  {
    var r := price * (1.0 - discount);
    assert 0.0 <= price && 0.0 <= discount <= 1.0 ==> 0.0 <= r <= price by {
      if 0.0 <= price && 0.0 <= discount <= 1.0 {
        FractionBounds(price, 1.0 - discount);
      }
    }
    r
  }

  /** A non-negative amount scaled by a fraction in [0, 1] stays between 0 and itself. */
  lemma FractionBounds(a: real, f: real)
    requires 0.0 <= a && 0.0 <= f <= 1.0
    ensures 0.0 <= a * f <= a
  {
    assert a * f <= a * 1.0;
  }

  /** The tier of a price: Premium strictly above the threshold, so a price
      of exactly 50 is Standard. */
  function TierOf(price: real): (t: Tier)
    ensures t == Premium <==> price > PremiumThreshold
    ensures price == PremiumThreshold ==> t == Standard
  {
    if price > PremiumThreshold then Premium else Standard
  }

  /** A whole number of hundredths. */
  predicate IsCents(x: real)
  {
    (x * 100.0).Floor as real == x * 100.0
  }

  /** The nearest multiple of 0.01 to a non-negative `x`, the larger one on a tie. */
  function RoundHalfUp2(x: real): (r: real)
    requires 0.0 <= x
    ensures IsCents(r)
    ensures 0.0 <= r
    ensures -0.005 < r - x <= 0.005
  {
    var n := (x * 100.0 + 0.5).Floor;
    assert n as real * 100.0 / 100.0 == n as real;
    (n as real) / 100.0
  }

  /** The value of `toFixed(2)` on an exact real: the magnitude is rounded
      to the nearest hundredth (half up) and the sign put back, so ties
      round away from zero. */
  function Round2(x: real): (r: real)
    ensures IsCents(r)
    ensures -0.005 <= r - x <= 0.005
    ensures 0.0 <= x ==> 0.0 <= r
  {
    if x < 0.0 then
      var m := RoundHalfUp2(-x);
      NegatedCents(m);
      -m
    else RoundHalfUp2(x)
  }

  lemma NegatedCents(x: real)
    requires IsCents(x)
    ensures IsCents(-x)
  {
    var k := (x * 100.0).Floor;
    assert -x * 100.0 == (-k) as real;
  }

  /** Rounding a value that already has two decimals leaves it unchanged;
      in particular rounding is idempotent. */
  lemma Round2OfCents(x: real)
    requires IsCents(x)
    ensures Round2(x) == x
  {
    var k := (x * 100.0).Floor;
    if x < 0.0 {
      assert (-x * 100.0 + 0.5).Floor == -k;
    } else {
      assert (x * 100.0 + 0.5).Floor == k;
    }
  }

  lemma Round2Idempotent(x: real)
    ensures Round2(Round2(x)) == Round2(x)
  {
    Round2OfCents(Round2(x));
  }
}
