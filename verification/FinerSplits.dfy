/**
 * Splits finer than the quantities' own unit: when one is cheaper than the best whole split the
 * optimiser finds.
 */
module FinerSplits {
  import opened Calendar
  import opened Lots
  import opened Netting
  import opened SplitSearch

  /** The gain of the first `x` units of a class, a unit taken in part where `x` is not whole. */
  function Along(ranked: seq<Lot>, x: real): real {
    if ranked == [] then 0.0
    else
      var take := if x <= ranked[0].quantity as real then x else ranked[0].quantity as real;
      ranked[0].gain * take + Along(ranked[1..], x - take)
  }

  /** What a split at any point `x` is ranked by. */
  function FineCost(other: seq<Lot>, discounted: seq<Lot>, loss: real, left: nat, x: real): real {
    Along(other, x) + Along(discounted, left as real - x) + Max(0.0, Along(other, x) - loss)
  }

  /** The gain of the unit after the first `i`. */
  function Step(ranked: seq<Lot>, i: nat): real {
    PrefixGain(ranked, i + 1) - PrefixGain(ranked, i)
  }

  function PartOf(u: real, x: real): real {
    u * x
  }

  lemma {:induction false} NoneAlong(ranked: seq<Lot>)
    ensures Along(ranked, 0.0) == 0.0
  {
    if ranked != [] { NoneAlong(ranked[1..]); }
  }

  /** Between whole units the gain is a straight line. */
  lemma {:induction false} BetweenUnits(ranked: seq<Lot>, k: nat, u: real)
    requires k < Total(ranked) && 0.0 <= u <= 1.0
    ensures Along(ranked, k as real + u) == PrefixGain(ranked, k) + PartOf(u, Step(ranked, k))
  {
    if k < ranked[0].quantity {
      InsideFirst(ranked, k, u);
    } else {
      hide Along, PrefixGain, Times, Step, PartOf;
      var q := ranked[0].quantity;
      var i, part := k - q, PartOf(u, Step(ranked[1..], k - q));
      assert Along(ranked[1..], i as real + u) == PrefixGain(ranked[1..], i) + part by {
        BetweenUnits(ranked[1..], i, u);
      }
      assert k as real + u - q as real == i as real + u;
      FirstStepIs(ranked, k);
      PrefixAt(ranked, k);
      AlongPastFirst(ranked, k as real + u);
    }
  }

  lemma InsideFirst(ranked: seq<Lot>, k: nat, u: real)
    requires ranked != [] && k < ranked[0].quantity && 0.0 <= u <= 1.0
    ensures Along(ranked, k as real + u) == PrefixGain(ranked, k) + PartOf(u, Step(ranked, k))
  {
    var g := ranked[0].gain;
    NoneAlong(ranked[1..]);
    NothingLeft(ranked[1..]);
    FirstStepIs(ranked, k);
    assert g * (k as real + u) == Times(g, k) + u * g;
  }

  lemma AlongPastFirst(ranked: seq<Lot>, x: real)
    requires ranked != [] && x >= ranked[0].quantity as real
    ensures Along(ranked, x)
            == Times(ranked[0].gain, ranked[0].quantity) + Along(ranked[1..], x - ranked[0].quantity as real)
  {
  }

  lemma {:induction false} AtWholeUnits(ranked: seq<Lot>, k: nat)
    requires k <= Total(ranked)
    ensures Along(ranked, k as real) == PrefixGain(ranked, k)
  {
    if k < Total(ranked) {
      BetweenUnits(ranked, k, 0.0);
    } else if k > 0 {
      BetweenUnits(ranked, k - 1, 1.0);
    } else {
      NoneAlong(ranked);
      NothingLeft(ranked);
    }
  }

  /** Each unit of a ranked class gains at least what the one before it did. */
  lemma {:induction false} StepsAscend(ranked: seq<Lot>, i: nat, j: nat)
    requires Ascending(ranked) && i <= j < Total(ranked)
    ensures Step(ranked, i) <= Step(ranked, j)
  {
    hide Times;
    var q := ranked[0].quantity;
    FirstIsLeast(ranked);
    FirstStepIs(ranked, i);
    FirstStepIs(ranked, j);
    if q <= i {
      StepsAscend(ranked[1..], i - q, j - q);
    } else if q <= j {
      PrefixSlope(ranked[1..], j - q, j - q + 1, ranked[0].gain);
      OneUnit(ranked[0].gain);
    }
  }

  lemma OneUnit(g: real)
    ensures Times(g, 1) == g
  {
  }

  lemma FirstStepIs(ranked: seq<Lot>, i: nat)
    requires ranked != []
    ensures var q := ranked[0].quantity;
            Step(ranked, i) == if i < q then ranked[0].gain else Step(ranked[1..], i - q)
  {
    NothingLeft(ranked[1..]);
    TimesSum(ranked[0].gain, i, 1);
  }

  // ----- Splitting one unit ---------------------------------------------------------------------------

  /** There is a unit to split between the `j`th and the next split. */
  predicate UnitAt(other: seq<Lot>, discounted: seq<Lot>, left: nat, j: nat) {
    j < left && j < Total(other) && left - j <= Total(discounted)
  }

  /** The unit where the non-discountable gain overtakes the losses, of which a discount-eligible
      unit would gain more than a non-discountable one, though less than twice as much. */
  predicate OvertakesInside(other: seq<Lot>, discounted: seq<Lot>, loss: real, left: nat, j: nat) {
    && UnitAt(other, discounted, left, j)
    && PrefixGain(other, j) < loss < PrefixGain(other, j + 1)
    && Step(other, j) < Step(discounted, left - j - 1) < 2.0 * Step(other, j)
  }

  /** The cost a part `u` of the way from one whole split to the next. */
  lemma CostInside(other: seq<Lot>, discounted: seq<Lot>, loss: real, left: nat, j: nat, u: real)
    requires UnitAt(other, discounted, left, j) && 0.0 <= u <= 1.0
    ensures var a, e := PrefixGain(other, j), PrefixGain(discounted, left - j);
            var g, h := Step(other, j), Step(discounted, left - j - 1);
            && FineCost(other, discounted, loss, left, j as real + u)
               == a + PartOf(u, g) + e - PartOf(u, h) + Max(0.0, a + PartOf(u, g) - loss)
            && Cost(other, discounted, loss, left, j) == a + e + Max(0.0, a - loss)
            && Cost(other, discounted, loss, left, j + 1) == a + g + e - h + Max(0.0, a + g - loss)
  {
    hide Along, PrefixGain, Step, Max, Total, PartOf;
    var x, d, v := j as real + u, left - j - 1, 1.0 - u;
    var a, g, h := PrefixGain(other, j), Step(other, j), Step(discounted, d);
    assert Along(other, x) == a + PartOf(u, g) by { BetweenUnits(other, j, u); }
    assert left as real - x == d as real + v;
    assert Along(discounted, d as real + v) == PrefixGain(discounted, d) + PartOf(v, h) by {
      BetweenUnits(discounted, d, v);
    }
    NextUnit(other, j);
    NextUnit(discounted, d);
    PartLeft(PrefixGain(discounted, d), PrefixGain(discounted, left - j), h, u, v);
    assert FineCost(other, discounted, loss, left, x)
           == Along(other, x) + Along(discounted, left as real - x) + Max(0.0, Along(other, x) - loss);
  }

  lemma NextUnit(ranked: seq<Lot>, i: nat)
    ensures PrefixGain(ranked, i + 1) == PrefixGain(ranked, i) + Step(ranked, i)
  {
  }

  lemma PartLeft(from: real, to: real, d: real, u: real, v: real)
    requires to == from + d && v == 1.0 - u
    ensures from + PartOf(v, d) == to - PartOf(u, d)
  {
    assert v * d == d - u * d;
  }

  /** A convex bend: a part `u` of `g` on top of `a` overtakes `loss` on the way. Below both ends
      only where it falls first and rises after. */
  lemma BelowBothEnds(a: real, e: real, g: real, h: real, loss: real, u: real)
    requires 0.0 < u < 1.0 && g > 0.0
    requires var f := a + PartOf(u, g) + e - PartOf(u, h) + Max(0.0, a + PartOf(u, g) - loss);
             f < a + e + Max(0.0, a - loss) && f < a + g + e - h + Max(0.0, a + g - loss)
    ensures a < loss < a + g && g < h < 2.0 * g
  {
    var p, q, s, t := Parts(u, g, h);
    Bend(a, e, p, q, s, t, loss);
  }

  /** What a part `u` of a step changes, and the rest of it: signs agree. */
  lemma Parts(u: real, g: real, h: real) returns (p: real, q: real, s: real, t: real)
    requires 0.0 < u < 1.0 && g > 0.0
    ensures s == u * g && p == s - u * h && s + t == g && p + q == g - h && s > 0.0 && t > 0.0
    ensures (p < 0.0 <==> g < h) && (q < 0.0 <==> g < h)
    ensures (s + p > 0.0 <==> h < 2.0 * g) && (t + q > 0.0 <==> h < 2.0 * g)
  {
    p, q := Part(u, g - h);
    s, t := Part(u, g);
    var sp, tq := Part(u, 2.0 * g - h);
    assert u * (g - h) == u * g - u * h;
    assert u * (2.0 * g - h) == u * g + u * (g - h);
  }

  lemma Part(u: real, x: real) returns (p: real, q: real)
    requires 0.0 < u < 1.0
    ensures p == u * x && q == x - p
    ensures (x < 0.0 <==> p < 0.0) && (x < 0.0 <==> q < 0.0) && (x > 0.0 <==> p > 0.0) && (x > 0.0 <==> q > 0.0)
  {
    var v := 1.0 - u;
    SameSign(u, x);
    SameSign(v, x);
    assert v * x == x - u * x;
    p, q := u * x, v * x;
  }

  lemma Bend(a: real, e: real, p: real, q: real, s: real, t: real, loss: real)
    requires s > 0.0 && t > 0.0 && (p < 0.0 <==> q < 0.0) && (s + p > 0.0 <==> t + q > 0.0)
    requires var f := a + e + p + Max(0.0, a + s - loss);
             f < a + e + Max(0.0, a - loss) && f < a + e + p + q + Max(0.0, a + s + t - loss)
    ensures a < loss < a + s + t && p < 0.0 && s + p > 0.0
  {
  }

  lemma SameSign(u: real, x: real)
    requires u > 0.0
    ensures (x < 0.0 <==> u * x < 0.0) && (x > 0.0 <==> u * x > 0.0)
  {
  }

  lemma PositiveFactor(x: real, g: real)
    requires g > 0.0 && x * g > 0.0
    ensures x > 0.0
  {
  }

  /** At the point where the gain meets the losses the cost is below both ends. */
  lemma MeetingPoint(a: real, g: real, h: real, loss: real) returns (u: real)
    requires a < loss < a + g && g < h < 2.0 * g
    ensures 0.0 < u < 1.0 && a + u * g == loss && u == (loss - a) / g
    ensures u * g - u * h < 0.0
    ensures u * g - u * h < g - h + (a + g - loss)
  {
    u := (loss - a) / g;
    assert u * g == loss - a;
    assert (1.0 - u) * g == a + g - loss;
    PositiveFactor(u, g);
    PositiveFactor(1.0 - u, g);
    var p, q, s, t := Parts(u, g, h);
  }

  // ----- When a finer split is cheaper ------------------------------------------------------------------

  /** Short of such a unit the cost falls, past it the cost rises: the unit's two ends are the
      best whole splits on their sides. */
  lemma {:induction false} FallsBefore(other: seq<Lot>, discounted: seq<Lot>, loss: real, left: nat, k: nat, j: nat)
    requires Gains(other) && Ascending(other) && Ascending(discounted)
    requires OvertakesInside(other, discounted, loss, left, j) && Holds(other, discounted, left, k) && k <= j
    ensures Cost(other, discounted, loss, left, j) <= Cost(other, discounted, loss, left, k)
    decreases j - k
  {
    if k < j {
      hide PrefixGain, Total, Ascending;
      FallsBefore(other, discounted, loss, left, k + 1, j);
      StepsAscend(other, k, j);
      StepsAscend(discounted, left - j - 1, left - k - 1);
      assert PrefixGain(other, k + 1) <= PrefixGain(other, j) by { PrefixSlope(other, k + 1, j, 0.0); }
      assert PrefixGain(other, k) <= PrefixGain(other, j) by { PrefixSlope(other, k, j, 0.0); }
    }
  }

  lemma {:induction false} RisesAfter(other: seq<Lot>, discounted: seq<Lot>, loss: real, left: nat, k: nat, j: nat)
    requires Gains(other) && Ascending(other) && Ascending(discounted)
    requires OvertakesInside(other, discounted, loss, left, j) && Holds(other, discounted, left, k) && j < k
    ensures Cost(other, discounted, loss, left, j + 1) <= Cost(other, discounted, loss, left, k)
    decreases k - j
  {
    if j + 1 < k {
      hide PrefixGain, Total, Ascending;
      RisesAfter(other, discounted, loss, left, k - 1, j);
      StepsAscend(other, j, k - 1);
      StepsAscend(discounted, left - k, left - j - 1);
      assert PrefixGain(other, j + 1) <= PrefixGain(other, k - 1) by { PrefixSlope(other, j + 1, k - 1, 0.0); }
      assert PrefixGain(other, j + 1) <= PrefixGain(other, k) by { PrefixSlope(other, j + 1, k, 0.0); }
    }
  }

  /** A split the classes can make, of units taken in part too. */
  ghost predicate FineHolds(other: seq<Lot>, discounted: seq<Lot>, left: nat, x: real) {
    0.0 <= x <= left as real && x <= Total(other) as real && left as real - x <= Total(discounted) as real
  }

  /** Whole splits cost the same either way. */
  lemma WholeSplit(other: seq<Lot>, discounted: seq<Lot>, loss: real, left: nat, k: nat)
    requires Holds(other, discounted, left, k)
    ensures FineCost(other, discounted, loss, left, k as real) == Cost(other, discounted, loss, left, k)
  {
    AtWholeUnits(other, k);
    AtWholeUnits(discounted, left - k);
    assert left as real - k as real == (left - k) as real;
  }

  lemma StepGains(other: seq<Lot>, j: nat)
    requires Gains(other) && j < Total(other)
    ensures Step(other, j) > 0.0
  {
    var g := LeastGain(other);
    PrefixSlope(other, j, j + 1, g);
    OneUnit(g);
  }

  lemma LeastGain(other: seq<Lot>) returns (g: real)
    requires Gains(other)
    ensures g > 0.0 && forall p :: p in other ==> p.gain >= g
  {
    g := 1.0;
    var i := 0;
    while i < |other|
      invariant 0 <= i <= |other| && g > 0.0 && forall p :: p in other[..i] ==> p.gain >= g
    {
      assert other[..i + 1] == other[..i] + [other[i]] && other[i] in other;
      if other[i].gain < g { g := other[i].gain; }
      i := i + 1;
    }
    assert other[..i] == other;
  }

  /** A split below the best whole one splits a unit that overtakes the losses. */
  lemma CheaperSplitsAUnit(other: seq<Lot>, discounted: seq<Lot>, loss: real, left: nat, k: nat, x: real)
    requires Gains(other) && BestSplit(other, discounted, loss, left, k) && FineHolds(other, discounted, left, x)
    requires FineCost(other, discounted, loss, left, x) < Cost(other, discounted, loss, left, k)
    ensures 0.0 <= x && OvertakesInside(other, discounted, loss, left, x.Floor)
  {
    hide FineCost, Cost, Gains, BestSplit, FineHolds, UnitAt, OvertakesInside;
    var j := UnitSplit(other, discounted, loss, left, k, x);
    var u := x - j as real;
    assert x == j as real + u;
    BelowOvertakes(other, discounted, loss, left, j, u);
  }

  lemma BelowOvertakes(other: seq<Lot>, discounted: seq<Lot>, loss: real, left: nat, j: nat, u: real)
    requires Gains(other) && UnitAt(other, discounted, left, j) && 0.0 < u < 1.0
    requires FineCost(other, discounted, loss, left, j as real + u) < Cost(other, discounted, loss, left, j)
    requires FineCost(other, discounted, loss, left, j as real + u) < Cost(other, discounted, loss, left, j + 1)
    ensures OvertakesInside(other, discounted, loss, left, j)
  {
    hide FineCost, Cost, PrefixGain, Gains, Step, Max, UnitAt, PartOf;
    CostInside(other, discounted, loss, left, j, u);
    UnitIsHeld(other, discounted, left, j);
    StepGains(other, j);
    NextUnit(other, j);
    BelowBothEnds(PrefixGain(other, j), PrefixGain(discounted, left - j), Step(other, j),
                  Step(discounted, left - j - 1), loss, u);
  }

  lemma UnitIsHeld(other: seq<Lot>, discounted: seq<Lot>, left: nat, j: nat)
    requires UnitAt(other, discounted, left, j)
    ensures j < left && j < Total(other)
  {
  }

  /** Such a split is not whole, and splits the unit it lies in below both whole ones. */
  lemma UnitSplit(other: seq<Lot>, discounted: seq<Lot>, loss: real, left: nat, k: nat, x: real) returns (j: nat)
    requires BestSplit(other, discounted, loss, left, k) && FineHolds(other, discounted, left, x)
    requires FineCost(other, discounted, loss, left, x) < Cost(other, discounted, loss, left, k)
    ensures 0.0 <= x && j == x.Floor && 0.0 < x - j as real < 1.0 && UnitAt(other, discounted, left, j)
    ensures FineCost(other, discounted, loss, left, x) < Cost(other, discounted, loss, left, j)
    ensures FineCost(other, discounted, loss, left, x) < Cost(other, discounted, loss, left, j + 1)
  {
    hide FineCost, Cost, Total;
    j := x.Floor;
    if x == j as real {
      WholeSplit(other, discounted, loss, left, j);
    }
    assert Holds(other, discounted, left, j) && Holds(other, discounted, left, j + 1);
  }

  ghost predicate SomeUnitOvertakes(other: seq<Lot>, discounted: seq<Lot>, loss: real, left: nat) {
    exists j: nat :: OvertakesInside(other, discounted, loss, left, j)
  }

  /** Some split of parts of units costs less than the whole split `k`. */
  ghost predicate SomeFinerIsCheaper(other: seq<Lot>, discounted: seq<Lot>, loss: real, left: nat, k: nat) {
    exists x :: FineHolds(other, discounted, left, x)
                && FineCost(other, discounted, loss, left, x) < Cost(other, discounted, loss, left, k)
  }

  /** A finer split is cheaper than the best whole one exactly when some unit overtakes the losses
      and a discount-eligible unit in its place would gain more, though less than twice as much. */
  lemma FinerSplitIsCheaperIff(other: seq<Lot>, discounted: seq<Lot>, loss: real, left: nat, k: nat)
    requires Gains(other) && Ascending(other) && Ascending(discounted)
    requires BestSplit(other, discounted, loss, left, k)
    ensures SomeFinerIsCheaper(other, discounted, loss, left, k)
            <==> SomeUnitOvertakes(other, discounted, loss, left)
  {
    if x :| FineHolds(other, discounted, left, x)
            && FineCost(other, discounted, loss, left, x) < Cost(other, discounted, loss, left, k) {
      CheaperSplitsAUnit(other, discounted, loss, left, k, x);
    }
    if j: nat :| OvertakesInside(other, discounted, loss, left, j) {
      var x := SplitsCheaper(other, discounted, loss, left, k, j);
    }
  }

  /** Where the non-discountable gain meets the losses inside a unit. */
  function Crossing(other: seq<Lot>, loss: real, j: nat): real {
    if Step(other, j) == 0.0 then j as real else j as real + (loss - PrefixGain(other, j)) / Step(other, j)
  }

  lemma MeetInside(other: seq<Lot>, discounted: seq<Lot>, loss: real, left: nat, j: nat) returns (x: real, u: real)
    requires OvertakesInside(other, discounted, loss, left, j)
    ensures 0.0 < u < 1.0 && x == j as real + u && x == Crossing(other, loss, j)
    ensures PrefixGain(other, j) + PartOf(u, Step(other, j)) == loss
    ensures FineCost(other, discounted, loss, left, x) < Cost(other, discounted, loss, left, j)
    ensures FineCost(other, discounted, loss, left, x) < Cost(other, discounted, loss, left, j + 1)
  {
    hide FineCost, Cost, PrefixGain, Total, Step;
    NextUnit(other, j);
    u := MeetingPoint(PrefixGain(other, j), Step(other, j), Step(discounted, left - j - 1), loss);
    x := j as real + u;
    CostInside(other, discounted, loss, left, j, u);
  }

  lemma SplitsCheaper(other: seq<Lot>, discounted: seq<Lot>, loss: real, left: nat, k: nat, j: nat) returns (x: real)
    requires Gains(other) && Ascending(other) && Ascending(discounted)
    requires Holds(other, discounted, left, k) && OvertakesInside(other, discounted, loss, left, j)
    ensures FineHolds(other, discounted, left, x) && x == Crossing(other, loss, j)
    ensures FineCost(other, discounted, loss, left, x) < Cost(other, discounted, loss, left, k)
  {
    hide FineCost, Cost, PrefixGain, Gains, Ascending, Total;
    var u;
    x, u := MeetInside(other, discounted, loss, left, j);
    if k <= j { FallsBefore(other, discounted, loss, left, k, j); }
    else { RisesAfter(other, discounted, loss, left, k, j); }
  }

  /** Either side of where the gain meets the losses the cost is no less. */
  lemma LeastAtMeeting(a: real, e: real, g: real, h: real, loss: real, v: real, u: real)
    requires a + PartOf(v, g) == loss && g < h < 2.0 * g
    ensures a + PartOf(v, g) + e - PartOf(v, h) + Max(0.0, a + PartOf(v, g) - loss)
            <= a + PartOf(u, g) + e - PartOf(u, h) + Max(0.0, a + PartOf(u, g) - loss)
  {
    var d := u - v;
    assert PartOf(u, g) == PartOf(v, g) + d * g && PartOf(u, h) == PartOf(v, h) + d * h;
    if d >= 0.0 {
      ScaleUp(d, h, 2.0 * g);
      assert d * (2.0 * g) == d * g + d * g;
    } else {
      ScaleUp(-d, g, h);
      assert -d * g == -(d * g) && -d * h == -(d * h);
    }
  }

  /** Only one unit overtakes the losses. */
  lemma OneOvertakes(other: seq<Lot>, discounted: seq<Lot>, loss: real, left: nat, i: nat, j: nat)
    requires Gains(other) && OvertakesInside(other, discounted, loss, left, i)
    requires OvertakesInside(other, discounted, loss, left, j)
    ensures i == j
  {
    hide Step;
    if i < j { PrefixSlope(other, i + 1, j, 0.0); }
    if j < i { PrefixSlope(other, j + 1, i, 0.0); }
  }

  /** Where some unit overtakes the losses so, the split at the crossing is the cheapest of all. */
  lemma CrossingIsCheapest(other: seq<Lot>, discounted: seq<Lot>, loss: real, left: nat, k: nat, j: nat, x: real)
    requires Gains(other) && Ascending(other) && Ascending(discounted)
    requires BestSplit(other, discounted, loss, left, k) && OvertakesInside(other, discounted, loss, left, j)
    requires FineHolds(other, discounted, left, x)
    ensures FineHolds(other, discounted, left, Crossing(other, loss, j))
    ensures FineCost(other, discounted, loss, left, Crossing(other, loss, j))
            <= FineCost(other, discounted, loss, left, x)
  {
    hide FineCost, Cost, PrefixGain, Gains, Ascending, Total, Crossing, OvertakesInside;
    var y := SplitsCheaper(other, discounted, loss, left, k, j);
    if FineCost(other, discounted, loss, left, x) < Cost(other, discounted, loss, left, k) {
      CheaperSplitsAUnit(other, discounted, loss, left, k, x);
      OneOvertakes(other, discounted, loss, left, x.Floor, j);
      InsideOneUnit(other, discounted, loss, left, j, x - j as real);
      assert j as real + (x - j as real) == x;
    }
  }

  lemma InsideOneUnit(other: seq<Lot>, discounted: seq<Lot>, loss: real, left: nat, j: nat, u: real)
    requires OvertakesInside(other, discounted, loss, left, j) && 0.0 <= u <= 1.0
    ensures FineCost(other, discounted, loss, left, Crossing(other, loss, j))
            <= FineCost(other, discounted, loss, left, j as real + u)
  {
    hide FineCost, Cost, PrefixGain, Total, Crossing, Step, PartOf;
    var y, v := MeetInside(other, discounted, loss, left, j);
    CostInside(other, discounted, loss, left, j, u);
    CostInside(other, discounted, loss, left, j, v);
    LeastAtMeeting(PrefixGain(other, j), PrefixGain(discounted, left - j), Step(other, j),
                   Step(discounted, left - j - 1), loss, v, u);
  }

  /** A loss of one and one unit left to sell, of a lot gaining three or of an eligible one gaining
      four: a third of the first and the rest of the second cost less than a whole unit of either. */
  lemma OneThirdIsCheaper(bought: Date)
    ensures var other, discounted := [Lot(1, bought, 1, 3.0, false)], [Lot(2, bought, 1, 4.0, true)];
            && FineCost(other, discounted, 1.0, 1, 1.0 / 3.0) < Cost(other, discounted, 1.0, 1, 0)
            && FineCost(other, discounted, 1.0, 1, 1.0 / 3.0) < Cost(other, discounted, 1.0, 1, 1)
  {
    var other, discounted := [Lot(1, bought, 1, 3.0, false)], [Lot(2, bought, 1, 4.0, true)];
    assert PrefixGain(other, 0) == 0.0 && PrefixGain(other, 1) == 3.0;
    assert PrefixGain(discounted, 0) == 0.0 && PrefixGain(discounted, 1) == 4.0;
    CostInside(other, discounted, 1.0, 1, 0, 1.0 / 3.0);
  }
}
