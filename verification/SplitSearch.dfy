/**
 * The search for the cheapest split between the classes of gains: a handful of breakpoints, of
 * which one is always a best split.
 */
module SplitSearch {
  import opened Lots
  import opened Netting

  /** Half of what is left of the gains after the losses, the non-discountable part counted
      twice: the assessable gain before it is clamped at nil. */
  function Position(other: real, discounted: real, loss: real): real {
    (other + discounted - loss) / 2.0 + Max(0.0, other - loss) / 2.0
  }

  // ----- Breakpoints -------------------------------------------------------------------------

  function Ceiling(x: real): int {
    -((-x).Floor)
  }

  /** The points where the non-discountable gain overtakes the losses inside one lot, at whole
      units either side. */
  function CrossingIn(lot: Lot, unitsBefore: int, gainBefore: real, loss: real): seq<int> {
    if lot.gain > 0.0 && gainBefore < loss <= gainBefore + Times(lot.gain, lot.quantity) then
      var crossing := unitsBefore as real + (loss - gainBefore) / lot.gain;
      [crossing.Floor, Ceiling(crossing)]
    else []
  }

  /** The breakpoints the non-discountable lots contribute. */
  function OtherPoints(other: seq<Lot>, unitsBefore: int, gainBefore: real, loss: real): seq<int> {
    if other == [] then []
    else
      var after := unitsBefore + other[0].quantity;
      CrossingIn(other[0], unitsBefore, gainBefore, loss) + [after]
      + OtherPoints(other[1..], after, gainBefore + Times(other[0].gain, other[0].quantity), loss)
  }

  /** The breakpoints the discount-eligible lots contribute, counted back from `left`. */
  function DiscountedPoints(discounted: seq<Lot>, left: int): seq<int> {
    if discounted == [] then []
    else [left - discounted[0].quantity] + DiscountedPoints(discounted[1..], left - discounted[0].quantity)
  }

  /** What the search ranks a split by: `k` non-discountable units and `left - k`
      discount-eligible ones, doubled and without the constant the losses contribute. */
  function Cost(other: seq<Lot>, discounted: seq<Lot>, loss: real, left: nat, k: int): real {
    if 0 <= k <= left then
      PrefixGain(other, k) + PrefixGain(discounted, left - k) + Max(0.0, PrefixGain(other, k) - loss)
    else 0.0
  }

  /** Within a lot the prefix gain is a straight line, and away from the crossing it stays on
      one side of the losses. */
  lemma {:induction false} StraightBetweenOtherPoints(
    other: seq<Lot>, unitsBefore: int, gainBefore: real, loss: real, k: int)
    requires forall p :: p in other ==> p.gain > 0.0 && p.quantity > 0
    requires unitsBefore < k < unitsBefore + Total(other)
    requires k !in OtherPoints(other, unitsBefore, gainBefore, loss)
    ensures var at := k - unitsBefore;
            var below, here, above :=
              PrefixGain(other, at - 1), PrefixGain(other, at), PrefixGain(other, at + 1);
            && above - here == here - below
            && (gainBefore + above <= loss || loss <= gainBefore + below)
  {
    hide CrossingIn;
    var q, g, at := other[0].quantity, other[0].gain, k - unitsBefore;
    var after := gainBefore + Times(g, q);
    PointsOfFirst(other, unitsBefore, gainBefore, loss);
    if at < q {
      NothingLeft(other[1..]);
      StraightInsideLot(other[0], unitsBefore, gainBefore, loss, k);
    } else {
      StraightBetweenOtherPoints(other[1..], unitsBefore + q, after, loss, k);
      assert PrefixGain(other, at - 1) == Times(g, q) + PrefixGain(other[1..], at - q - 1);
      assert PrefixGain(other, at) == Times(g, q) + PrefixGain(other[1..], at - q);
      assert PrefixGain(other, at + 1) == Times(g, q) + PrefixGain(other[1..], at - q + 1);
    }
  }

  /** The first lot's points, its end and the later lots' points are all listed. */
  lemma PointsOfFirst(other: seq<Lot>, unitsBefore: int, gainBefore: real, loss: real)
    requires other != []
    ensures var points := OtherPoints(other, unitsBefore, gainBefore, loss);
            var q, g := other[0].quantity, other[0].gain;
            var rest := OtherPoints(other[1..], unitsBefore + q, gainBefore + Times(g, q), loss);
            && unitsBefore + q in points
            && (forall x :: x in CrossingIn(other[0], unitsBefore, gainBefore, loss) ==> x in points)
            && (forall x :: x in rest ==> x in points)
  {
    hide CrossingIn, Times;
    var q := other[0].quantity;
    var crossing := CrossingIn(other[0], unitsBefore, gainBefore, loss);
    var rest := OtherPoints(other[1..], unitsBefore + q, gainBefore + Times(other[0].gain, q), loss);
    assert OtherPoints(other, unitsBefore, gainBefore, loss) == crossing + [unitsBefore + q] + rest;
    assert (crossing + [unitsBefore + q] + rest)[|crossing|] == unitsBefore + q;
  }

  /** A whole `at` that is neither the floor nor the ceiling of `base + offset` is at least a
      unit away from it. */
  lemma AUnitAway(base: int, offset: real, at: int)
    requires base + at != (base as real + offset).Floor && base + at != Ceiling(base as real + offset)
    ensures (at + 1) as real <= offset || offset <= (at - 1) as real
  {
    var crossing := base as real + offset;
    assert crossing.Floor as real <= crossing < (crossing.Floor + 1) as real;
    assert (Ceiling(crossing) - 1) as real < crossing <= Ceiling(crossing) as real;
    if base + at < crossing.Floor { assert base + at + 1 <= crossing.Floor; }
  }

  lemma TimesOrder(g: real, m: int, n: int)
    requires g >= 0.0 && m <= n
    ensures Times(g, m) <= Times(g, n) && Times(g, 0) == 0.0
  {
    ScaleUp(g, m as real, n as real);
  }

  lemma ScaleUp(g: real, x: real, y: real)
    requires g >= 0.0 && x <= y
    ensures g * x <= g * y
  {
  }

  lemma StraightInsideLot(lot: Lot, unitsBefore: int, gainBefore: real, loss: real, k: int)
    requires lot.gain > 0.0 && unitsBefore < k < unitsBefore + lot.quantity
    requires k !in CrossingIn(lot, unitsBefore, gainBefore, loss)
    ensures var at := k - unitsBefore;
            var below, here, above := Times(lot.gain, at - 1), Times(lot.gain, at), Times(lot.gain, at + 1);
            && above - here == here - below
            && (gainBefore + above <= loss || loss <= gainBefore + below)
  {
    var g, q, at := lot.gain, lot.quantity, k - unitsBefore;
    TimesSum(g, at - 1, 1);
    TimesSum(g, at, 1);
    TimesOrder(g, 0, at - 1);
    TimesOrder(g, at + 1, q);
    if gainBefore < loss <= gainBefore + Times(g, q) {
      var offset := (loss - gainBefore) / g;
      var points := CrossingIn(lot, unitsBefore, gainBefore, loss);
      assert points[0] == (unitsBefore as real + offset).Floor;
      assert points[1] == Ceiling(unitsBefore as real + offset);
      AUnitAway(unitsBefore, offset, at);
      if (at + 1) as real <= offset {
        UnderQuotient(g, loss - gainBefore, at + 1);
      } else {
        OverQuotient(g, loss - gainBefore, at - 1);
      }
    }
  }

  lemma UnderQuotient(g: real, d: real, n: int)
    requires g > 0.0 && n as real <= d / g
    ensures Times(g, n) <= d
  {
    var q := d / g;
    assert q * g == d;
    ScaleUp(g, n as real, q);
  }

  lemma OverQuotient(g: real, d: real, n: int)
    requires g > 0.0 && d / g <= n as real
    ensures d <= Times(g, n)
  {
    var q := d / g;
    assert q * g == d;
    ScaleUp(g, q, n as real);
  }

  lemma {:induction false} StraightBetweenDiscountedPoints(discounted: seq<Lot>, left: int, k: int)
    requires forall p :: p in discounted ==> p.quantity > 0
    requires 0 < left - k < Total(discounted)
    requires k !in DiscountedPoints(discounted, left)
    ensures var at := left - k;
            PrefixGain(discounted, at + 1) - PrefixGain(discounted, at)
            == PrefixGain(discounted, at) - PrefixGain(discounted, at - 1)
  {
    var q, g, at := discounted[0].quantity, discounted[0].gain, left - k;
    assert DiscountedPoints(discounted, left)[0] == left - q;
    if at < q {
      NothingLeft(discounted[1..]);
      TimesSum(g, at - 1, 1);
      TimesSum(g, at, 1);
    } else {
      var rest := DiscountedPoints(discounted[1..], left - q);
      assert forall x :: x in rest ==> x in DiscountedPoints(discounted, left);
      StraightBetweenDiscountedPoints(discounted[1..], left - q, k);
    }
  }

  // ----- The least cost lies on a breakpoint --------------------------------------------------

  /** `f` has no corner at `x`. */
  ghost predicate StraightAt(f: int -> real, x: int) {
    f(x + 1) - f(x) == f(x) - f(x - 1)
  }

  ghost predicate CornersAmong(f: int -> real, points: seq<int>, lo: int, hi: int) {
    lo in points && hi in points && forall x :: lo < x < hi && x !in points ==> StraightAt(f, x)
  }

  /** Sliding downhill from any point of a function without other corners ends on a corner. */
  lemma {:induction false} SlideRight(f: int -> real, points: seq<int>, lo: int, hi: int, k: int) returns (b: int)
    requires CornersAmong(f, points, lo, hi) && lo <= k < hi && f(k + 1) <= f(k)
    ensures b in points && lo <= b <= hi && f(b) <= f(k)
    decreases hi - k
  {
    if k + 1 in points {
      b := k + 1;
    } else {
      assert StraightAt(f, k + 1);
      b := SlideRight(f, points, lo, hi, k + 1);
    }
  }

  lemma {:induction false} SlideLeft(f: int -> real, points: seq<int>, lo: int, hi: int, k: int) returns (b: int)
    requires CornersAmong(f, points, lo, hi) && lo < k <= hi && f(k - 1) <= f(k)
    ensures b in points && lo <= b <= hi && f(b) <= f(k)
    decreases k - lo
  {
    if k - 1 in points {
      b := k - 1;
    } else {
      assert StraightAt(f, k - 1);
      b := SlideLeft(f, points, lo, hi, k - 1);
    }
  }

  lemma SomeCornerIsNoDearer(f: int -> real, points: seq<int>, lo: int, hi: int, k: int) returns (b: int)
    requires CornersAmong(f, points, lo, hi) && lo <= k <= hi
    ensures b in points && lo <= b <= hi && f(b) <= f(k)
  {
    if k in points {
      b := k;
    } else {
      assert StraightAt(f, k);
      if f(k + 1) <= f(k) { b := SlideRight(f, points, lo, hi, k); }
      else { b := SlideLeft(f, points, lo, hi, k); }
    }
  }

  function CostFunction(other: seq<Lot>, discounted: seq<Lot>, loss: real, left: nat): int -> real {
    k => Cost(other, discounted, loss, left, k)
  }

  predicate Gains(ranked: seq<Lot>) {
    forall p :: p in ranked ==> p.gain > 0.0 && p.quantity > 0
  }

  /** The cost's only corners are the breakpoints. */
  lemma CostCorners(other: seq<Lot>, discounted: seq<Lot>, loss: real, left: nat, lo: int, hi: int, points: seq<int>)
    requires Gains(other) && Gains(discounted)
    requires 0 <= lo <= hi <= left && left - Total(discounted) <= lo && hi <= Total(other)
    requires lo in points && hi in points
    requires forall x :: x in OtherPoints(other, 0, 0.0, loss) ==> x in points
    requires forall x :: x in DiscountedPoints(discounted, left) ==> x in points
    ensures CornersAmong(CostFunction(other, discounted, loss, left), points, lo, hi)
  {
    var f := CostFunction(other, discounted, loss, left);
    forall x | lo < x < hi && x !in points ensures StraightAt(f, x) {
      CostStraight(other, discounted, loss, left, x);
    }
  }

  lemma CostStraight(other: seq<Lot>, discounted: seq<Lot>, loss: real, left: nat, x: int)
    requires Gains(other) && Gains(discounted)
    requires 0 < x < Total(other) && 0 < left - x < Total(discounted)
    requires x !in OtherPoints(other, 0, 0.0, loss) && x !in DiscountedPoints(discounted, left)
    ensures Cost(other, discounted, loss, left, x + 1) - Cost(other, discounted, loss, left, x)
            == Cost(other, discounted, loss, left, x) - Cost(other, discounted, loss, left, x - 1)
  {
    var a, b, c := PrefixGain(other, x - 1), PrefixGain(other, x), PrefixGain(other, x + 1);
    var d, e, f := PrefixGain(discounted, left - (x - 1)), PrefixGain(discounted, left - x),
                   PrefixGain(discounted, left - (x + 1));
    assert c - b == b - a && (c <= loss || loss <= a) by {
      StraightBetweenOtherPoints(other, 0, 0.0, loss, x);
    }
    assert d - e == e - f by { StraightBetweenDiscountedPoints(discounted, left, x); }
    assert a <= b <= c by {
      PrefixSlope(other, x - 1, x, 0.0);
      PrefixSlope(other, x, x + 1, 0.0);
    }
    assert Cost(other, discounted, loss, left, x - 1) == a + d + Max(0.0, a - loss);
    assert Cost(other, discounted, loss, left, x) == b + e + Max(0.0, b - loss);
    assert Cost(other, discounted, loss, left, x + 1) == c + f + Max(0.0, c - loss);
  }

  // ----- The search -------------------------------------------------------------------------

  method Breakpoints(other: seq<Lot>, discounted: seq<Lot>, loss: real, left: nat, lo: int, hi: int)
    returns (points: seq<int>)
    ensures points == [lo, hi] + OtherPoints(other, 0, 0.0, loss) + DiscountedPoints(discounted, left)
  {
    points := [lo, hi];
    var unitsBefore, gainBefore, i := 0, 0.0, 0;
    while i < |other|
      invariant 0 <= i <= |other|
      invariant points + OtherPoints(other[i..], unitsBefore, gainBefore, loss)
                == [lo, hi] + OtherPoints(other, 0, 0.0, loss)
    {
      var lot := other[i];
      assert other[i..][0] == lot && other[i..][1..] == other[i + 1..];
      var crossing := CrossingIn(lot, unitsBefore, gainBefore, loss);
      unitsBefore := unitsBefore + lot.quantity;
      gainBefore := gainBefore + Times(lot.gain, lot.quantity);
      ghost var rest := OtherPoints(other[i + 1..], unitsBefore, gainBefore, loss);
      assert points + (crossing + [unitsBefore] + rest) == (points + crossing + [unitsBefore]) + rest;
      points := points + crossing + [unitsBefore];
      i := i + 1;
    }
    assert points + [] == points;
    var counted := CountedBack(discounted, left);
    points := points + counted;
  }

  method CountedBack(discounted: seq<Lot>, left: nat) returns (points: seq<int>)
    ensures points == DiscountedPoints(discounted, left)
  {
    points := [];
    var at, j := left as int, 0;
    while j < |discounted|
      invariant 0 <= j <= |discounted|
      invariant points + DiscountedPoints(discounted[j..], at) == DiscountedPoints(discounted, left)
    {
      assert discounted[j..][0] == discounted[j] && discounted[j..][1..] == discounted[j + 1..];
      at := at - discounted[j].quantity;
      points := points + [at];
      j := j + 1;
    }
    assert points + [] == points;
  }

  /** `k` costs less than `x`, or as much and is no larger. */
  predicate Preferred(f: int -> real, k: int, x: int) {
    f(k) < f(x) || (f(k) == f(x) && k <= x)
  }

  /** The cheapest point in range, the smallest of equals; `lo` when none is in range. */
  method CheapestSplit(points: seq<int>, lo: int, hi: int, other: seq<Lot>, discounted: seq<Lot>, loss: real, left: nat)
    returns (k: int)
    ensures lo <= hi && lo in points ==> lo <= k <= hi
    ensures lo > hi ==> k == lo
    ensures forall x :: x in points && lo <= x <= hi ==>
              Preferred(CostFunction(other, discounted, loss, left), k, x)
  {
    k := lo;
    var found, i := false, 0;
    while i < |points|
      invariant 0 <= i <= |points|
      invariant found ==> lo <= k <= hi
      invariant !found ==> k == lo && forall x :: x in points[..i] ==> !(lo <= x <= hi)
      invariant forall x :: x in points[..i] && lo <= x <= hi ==>
                  Preferred(CostFunction(other, discounted, loss, left), k, x)
    {
      var x := points[i];
      assert points[..i + 1] == points[..i] + [x];
      if lo <= x <= hi {
        var cx, ck := Cost(other, discounted, loss, left, x), Cost(other, discounted, loss, left, k);
        if !found || cx < ck || (cx == ck && x < k) { k := x; }
        found := true;
      }
      i := i + 1;
    }
    assert points[..i] == points;
  }

  /** From a least point, walking left on the flat ends on a corner no further right. */
  lemma {:induction false} CornerNoFurther(f: int -> real, points: seq<int>, lo: int, hi: int, k: int) returns (b: int)
    requires CornersAmong(f, points, lo, hi) && lo <= k <= hi
    requires forall x :: lo <= x <= hi ==> f(k) <= f(x)
    ensures b in points && lo <= b <= k && f(b) == f(k)
    decreases k - lo
  {
    if k in points {
      b := k;
    } else {
      assert StraightAt(f, k) && f(k) <= f(k - 1) && f(k) <= f(k + 1);
      b := CornerNoFurther(f, points, lo, hi, k - 1);
    }
  }

  /** The gain classes hold `k` and `left - k` units. */
  predicate Holds(other: seq<Lot>, discounted: seq<Lot>, left: nat, k: nat) {
    k <= left && k <= Total(other) && left - k <= Total(discounted)
  }

  /** `k` is a best split of the units left after the losses. */
  ghost predicate BestSplit(other: seq<Lot>, discounted: seq<Lot>, loss: real, left: nat, k: nat) {
    && Holds(other, discounted, left, k)
    && forall x: nat :: Holds(other, discounted, left, x)
         ==> Cost(other, discounted, loss, left, k) <= Cost(other, discounted, loss, left, x)
  }

  lemma BestSplitHolds(other: seq<Lot>, discounted: seq<Lot>, loss: real, left: nat, k: nat)
    requires BestSplit(other, discounted, loss, left, k)
    ensures Holds(other, discounted, left, k)
  {
  }

  /** No split as cheap takes fewer non-discountable units. */
  ghost predicate FewestOther(other: seq<Lot>, discounted: seq<Lot>, loss: real, left: nat, k: nat) {
    forall x: nat :: Holds(other, discounted, left, x) && x < k
                     ==> Cost(other, discounted, loss, left, k) < Cost(other, discounted, loss, left, x)
  }

  /** The cheapest breakpoint, the smallest of equals, is a best split and takes the fewest
      non-discountable units of all that are. */
  lemma BreakpointsSuffice(other: seq<Lot>, discounted: seq<Lot>, loss: real, left: nat,
                           lo: int, hi: int, points: seq<int>, k: int)
    requires Gains(other) && Gains(discounted) && left <= Total(other) + Total(discounted)
    requires lo == (if left > Total(discounted) then left - Total(discounted) else 0)
    requires hi == MinNat(left, Total(other))
    requires points == [lo, hi] + OtherPoints(other, 0, 0.0, loss) + DiscountedPoints(discounted, left)
    requires lo <= k <= hi
    requires forall x :: x in points && lo <= x <= hi ==>
               Preferred(CostFunction(other, discounted, loss, left), k, x)
    ensures BestSplit(other, discounted, loss, left, k) && FewestOther(other, discounted, loss, left, k)
  {
    assert points[0] == lo && points[1] == hi;
    CostCorners(other, discounted, loss, left, lo, hi, points);
    hide Cost, OtherPoints, DiscountedPoints, Total, CornersAmong, Gains;
    var f := CostFunction(other, discounted, loss, left);
    forall x: int | lo <= x <= hi ensures f(k) <= f(x) {
      var b := SomeCornerIsNoDearer(f, points, lo, hi, x);
    }
    forall x: nat | Holds(other, discounted, left, x) ensures f(k) <= f(x) && (f(x) <= f(k) ==> k <= x) {
      if f(x) <= f(k) {
        var b := CornerNoFurther(f, points, lo, hi, x);
      }
    }
  }
}
