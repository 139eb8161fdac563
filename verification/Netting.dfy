/**
 * Netting a capital loss against capital gains: the non-discountable gains first, then the
 * discount-eligible ones; and rounding to the cent.
 */
module Netting {

  function Min(a: real, b: real): real {
    if a <= b then a else b
  }

  function Max(a: real, b: real): real {
    if a >= b then a else b
  }

  /** What a gain keeps after as much of `loss` as it can absorb is taken off it. */
  function Left(gain: real, loss: real): real {
    gain - Min(gain, loss)
  }

  /** The loss a gain could not absorb. */
  function Unused(gain: real, loss: real): real {
    loss - Min(gain, loss)
  }

  /** The assessable gain before any rounding: the non-discountable remainder in full and
      half of the discount-eligible remainder. */
  function Assessable(other: real, discounted: real, loss: real): real {
    Left(other, loss) + Left(discounted, Unused(other, loss)) / 2.0
  }

  /** The closed form the optimiser minimises, clamped at nil. */
  lemma AssessableClosedForm(other: real, discounted: real, loss: real)
    requires other >= 0.0 && discounted >= 0.0 && loss >= 0.0
    ensures Assessable(other, discounted, loss)
            == Max(0.0, (other + discounted - loss) / 2.0 + Max(0.0, other - loss) / 2.0)
  {
  }

  /** Round to the cent, halves away from zero. A zero has no sign here. */
  function ToCents(x: real): (r: real)
    ensures AtCent(r) && (x >= 0.0 ==> r >= 0.0) && (x <= 0.0 ==> r <= 0.0)
    ensures x >= 0.0 ==> r - 0.005 <= x < r + 0.005
    ensures x <= 0.0 ==> r - 0.005 < x <= r + 0.005
    ensures AtCent(x) ==> r == x
  {
    var cents := if x >= 0.0 then (x * 100.0 + 0.5).Floor else -(0.5 - x * 100.0).Floor;
    assert IsCents(cents as real / 100.0, cents);
    NearestCent(x, cents);
    cents as real / 100.0
  }

  lemma NearestCent(x: real, cents: int)
    requires cents == if x >= 0.0 then (x * 100.0 + 0.5).Floor else -(0.5 - x * 100.0).Floor
    ensures (x >= 0.0 ==> cents >= 0) && (x <= 0.0 ==> cents <= 0)
    ensures x >= 0.0 ==> cents as real / 100.0 - 0.005 <= x < cents as real / 100.0 + 0.005
    ensures x <= 0.0 ==> cents as real / 100.0 - 0.005 < x <= cents as real / 100.0 + 0.005
    ensures AtCent(x) ==> x == cents as real / 100.0
  {
    if n :| IsCents(x, n) { assert n == cents; }
  }

  predicate IsCents(x: real, cents: int) {
    x * 100.0 == cents as real
  }

  ghost predicate AtCent(x: real) {
    exists cents :: IsCents(x, cents)
  }

  lemma ToCentsMonotone(x: real, y: real)
    requires x <= y
    ensures ToCents(x) <= ToCents(y)
  {
    if 0.0 <= x { assert (x * 100.0 + 0.5).Floor <= (y * 100.0 + 0.5).Floor; }
    else if y < 0.0 { assert (0.5 - y * 100.0).Floor <= (0.5 - x * 100.0).Floor; }
  }

  /** A loss rounds as the gain of the same size does. */
  lemma ToCentsIsOdd(x: real)
    ensures ToCents(-x) == -ToCents(x)
  {
  }

  lemma CentArithmetic(x: real, y: real)
    requires AtCent(x) && AtCent(y)
    ensures AtCent(x + y) && AtCent(x - y) && AtCent(Min(x, y))
  {
    var a :| IsCents(x, a);
    var b :| IsCents(y, b);
    assert IsCents(x + y, a + b);
    assert IsCents(x - y, a - b);
  }
}
