/**
 * The per-ticker arithmetic of one simulator tick, with prices held as whole
 * cents and every intermediate value an exact rational. The random draw `z`
 * (a standard-normal sample in the JavaScript server) is an input.
 */
module Pricing {

  /** JavaScript's `Math.round`: the nearest integer, halves rounded up (toward +infinity). */
  function Round(x: real): (r: int)
    ensures x - 0.5 < r as real <= x + 0.5
  {
    (x + 0.5).Floor
  }

  /**
   * The outcome of one tick for one ticker: the new price and its change in
   * cents, and the percentage change in hundredths of a percent (so 123
   * stands for the JavaScript server's 1.23).
   */
  datatype Move = Move(next: int, change: int, pctChange: int)

  /**
   * `next` in cents: `old * (1 + z * sigma)` in dollars with a volatility
   * `sigma` of 0.5% per tick, clamped below at 0.01 and rounded to cents.
   */
  function NextPrice(previous: int, z: real): (next: int)
    // whatever z is, the floor clamp keeps the new price at one cent or more
    ensures next >= 1
    // above the clamp, the old price moved by z * 0.5% and rounded to the nearest cent
    ensures var target := previous as real * (1.0 + z * 0.005);
      target >= 1.0 ==> target - 0.5 < next as real <= target + 0.5
    // below one cent, the clamp gives exactly one cent
    ensures previous as real * (1.0 + z * 0.005) < 1.0 ==> next == 1
  {
    var pct := z * 0.005;
    var raw := (previous as real / 100.0) * (1.0 + pct);
    assert raw * 100.0 == previous as real * (1.0 + pct);
    var clamped := if raw < 0.01 then 0.01 else raw;
    Round(clamped * 100.0)
  }

  /** `change`: the difference of the two prices, rounded to cents. */
  function ChangeCents(previous: int, next: int): (change: int)
    // both prices are whole cents, so the rounding is exact
    ensures change == next - previous
  {
    Round((next as real / 100.0 - previous as real / 100.0) * 100.0)
  }

  /** `pctChange` in hundredths of a percent: 0 for an old price of 0, else the rounded ratio. */
  function PctChange(previous: int, change: int): (r: int)
    ensures previous == 0 ==> r == 0
    ensures previous != 0 ==>
      var q := change as real * 10000.0 / previous as real;
      q - 0.5 < r as real <= q + 0.5
  {
    if previous == 0 then 0
    else
      var ratio := (change as real / 100.0) / (previous as real / 100.0);
      assert ratio == change as real / previous as real;
      assert ratio * 10000.0 == change as real * 10000.0 / previous as real;
      Round(ratio * 10000.0)
  }

  /** One tick for one ticker whose price is `previous` cents, given the draw `z`. */
  function Advance(previous: int, z: real): (m: Move)
    ensures m.next == NextPrice(previous, z) && m.next >= 1
    ensures m.change == m.next - previous
    ensures m.pctChange == PctChange(previous, m.change)
  {
    var next := NextPrice(previous, z);
    var change := ChangeCents(previous, next);
    Move(next, change, PctChange(previous, change))
  }

  /** Rounding a whole number leaves it unchanged. */
  lemma RoundWhole(n: int)
    ensures Round(n as real) == n
  {
  }

  /** For whole numbers, the floor of the exact quotient is Dafny's (Euclidean) division. */
  lemma FloorOfQuotient(a: int, b: int)
    requires b > 0
    ensures (a as real / b as real).Floor == a / b
  {
    var q, r := a / b, a % b;
    assert a == q * b + r && 0 <= r < b;
    assert a as real / b as real == q as real + r as real / b as real;
    assert 0.0 <= r as real / b as real < 1.0;
  }

  /** Division undoes multiplication by a non-zero divisor. */
  lemma QuotientByProduct(a: real, b: real, x: real)
    requires b != 0.0 && x * b == a
    ensures a / b == x
  {
  }

  /**
   * For a positive old price, the percentage change is the change relative
   * to the old price, rounded half up to hundredths of a percent; in whole
   * numbers, `(20000 * change + old) div (2 * old)`.
   */
  lemma PctChangeExact(previous: int, change: int)
    requires previous > 0
    ensures PctChange(previous, change) == (20000 * change + previous) / (2 * previous)
  {
    var p := previous as real;
    var x := change as real / p;
    assert (change as real / 100.0) / (p / 100.0) == x;
    assert x * p == change as real;
    QuotientByProduct((20000 * change + previous) as real, (2 * previous) as real, x * 10000.0 + 0.5);
    FloorOfQuotient(20000 * change + previous, 2 * previous);
  }

  /** The percentage change has the sign of the change. */
  lemma PctChangeSign(previous: int, change: int)
    requires previous > 0
    ensures change >= 0 ==> PctChange(previous, change) >= 0
    ensures change <= 0 ==> PctChange(previous, change) <= 0
  {
    PctChangeExact(previous, change);
    var n, d := 20000 * change + previous, 2 * previous;
    if change <= 0 {
      assert n < d;
      assert n / d <= 0;
    }
  }

  /** Rounding never reverses an order between a real and a whole number. */
  lemma RoundBetween(y: real, n: int)
    ensures y >= n as real ==> Round(y) >= n
    ensures y <= n as real ==> Round(y) <= n
  {
  }

  /**
   * The price moves in the direction of the draw: a non-negative draw never
   * lowers it and a non-positive draw never raises it (the floor clamp only
   * ever lifts a price that was falling).
   */
  lemma NextFollowsDraw(previous: int, z: real)
    requires previous >= 1
    ensures z >= 0.0 ==> NextPrice(previous, z) >= previous
    ensures z <= 0.0 ==> NextPrice(previous, z) <= previous
  {
    var p := previous as real;
    var pct := z * 0.005;
    var raw := (p / 100.0) * (1.0 + pct);
    assert raw * 100.0 == p + p * pct;
    var clamped := if raw < 0.01 then 0.01 else raw;
    if z >= 0.0 {
      assert p * pct >= 0.0;
    }
    if z <= 0.0 {
      assert p * -pct >= 0.0;
      assert p * pct == -(p * -pct);
    }
    RoundBetween(clamped * 100.0, previous);
  }

  /** A whole tick follows the draw: price, change and percentage change all move its way. */
  lemma AdvanceFollowsDraw(previous: int, z: real)
    requires previous >= 1
    ensures var m := Advance(previous, z);
      (z >= 0.0 ==> m.next >= previous && m.change >= 0 && m.pctChange >= 0) &&
      (z <= 0.0 ==> m.next <= previous && m.change <= 0 && m.pctChange <= 0)
  {
    NextFollowsDraw(previous, z);
    PctChangeSign(previous, Advance(previous, z).change);
  }

  /** A draw of exactly zero leaves the price where it was: no change, 0%. */
  lemma AdvanceZeroDraw(previous: int)
    requires previous >= 1
    ensures Advance(previous, 0.0) == Move(previous, 0, 0)
  {
    AdvanceFollowsDraw(previous, 0.0);
  }
}
