/**
 * Allocations that sell units in part, however small: exactly when the optimiser's picks, in whole
 * units, are no worse than any of them.
 */
module FineAllocations {
  import opened Lots
  import opened Netting
  import opened Sorting
  import opened SplitSearch
  import opened ClassPicks
  import opened FinerSplits

  /** How much of each parcel, by trade id. */
  type Fine = int -> real

  function FineUnits(lots: seq<Lot>, u: Fine): real {
    if lots == [] then 0.0 else u(lots[0].tradeId) + FineUnits(lots[1..], u)
  }

  function FineGain(lots: seq<Lot>, u: Fine): real {
    if lots == [] then 0.0 else PartOf(u(lots[0].tradeId), lots[0].gain) + FineGain(lots[1..], u)
  }

  ghost predicate FineWithin(lots: seq<Lot>, u: Fine) {
    forall p :: p in lots ==> 0.0 <= u(p.tradeId) <= p.quantity as real
  }

  ghost predicate FineFeasible(lots: seq<Lot>, u: Fine, units: nat) {
    FineWithin(lots, u) && FineUnits(lots, u) == units as real
  }

  /** A class's gain straight off the lots as they come. */
  function FineGainIn(lots: seq<Lot>, c: Class, u: Fine): real {
    FineGain(OfClass(lots, c), u)
  }

  function FinePositionOf(lots: seq<Lot>, u: Fine): real {
    Position(FineGainIn(lots, Other, u), FineGainIn(lots, Discounted, u), -FineGainIn(lots, Loss, u))
  }

  // ----- The ranked prefix is no dearer than any allocation in parts --------------------------------

  lemma PartsAdd(u: real, v: real, g: real)
    ensures PartOf(u + v, g) == PartOf(u, g) + PartOf(v, g) && PartOf(0.0, g) == 0.0
    ensures PartOf(u - v, g) == PartOf(u, g) - PartOf(v, g)
  {
  }

  lemma PartsOrder(u: real, g: real, h: real)
    requires u >= 0.0 && g <= h
    ensures PartOf(u, g) <= PartOf(u, h)
  {
    ScaleUp(u, g, h);
  }

  /** What the first lot gives of the first `x` units. */
  function Given(lot: Lot, x: real): real {
    if x <= lot.quantity as real then x else lot.quantity as real
  }

  lemma AlongStep(ranked: seq<Lot>, x: real)
    requires ranked != []
    ensures Along(ranked, x)
            == PartOf(Given(ranked[0], x), ranked[0].gain) + Along(ranked[1..], x - Given(ranked[0], x))
  {
  }

  lemma {:induction false} FineAtLeastPerUnit(ranked: seq<Lot>, u: Fine, g: real)
    requires FineWithin(ranked, u) && forall p :: p in ranked ==> p.gain >= g
    ensures 0.0 <= FineUnits(ranked, u) <= Total(ranked) as real
    ensures FineGain(ranked, u) >= PartOf(FineUnits(ranked, u), g)
  {
    PartsAdd(0.0, 0.0, g);
    if ranked != [] {
      hide PartOf;
      assert ranked[0] in ranked && forall p :: p in ranked[1..] ==> p in ranked;
      FineAtLeastPerUnit(ranked[1..], u, g);
      PartsOrder(u(ranked[0].tradeId), g, ranked[0].gain);
      PartsAdd(u(ranked[0].tradeId), FineUnits(ranked[1..], u), g);
    }
  }

  lemma {:induction false} AlongSlope(ranked: seq<Lot>, a: real, b: real, g: real)
    requires 0.0 <= a <= b <= Total(ranked) as real && forall p :: p in ranked ==> p.gain >= g
    ensures Along(ranked, b) - Along(ranked, a) >= PartOf(b - a, g)
  {
    PartsAdd(0.0, 0.0, g);
    if ranked != [] {
      hide PartOf, Along;
      var x, y, h := Given(ranked[0], a), Given(ranked[0], b), ranked[0].gain;
      assert ranked[0] in ranked && forall p :: p in ranked[1..] ==> p in ranked;
      AlongStep(ranked, a);
      AlongStep(ranked, b);
      AlongSlope(ranked[1..], a - x, b - y, g);
      PartsAdd(y, x, h);
      PartsOrder(y - x, g, h);
      PartsAdd(y - x, b - y - (a - x), g);
    } else {
      assert Along(ranked, b) == Along(ranked, a);
    }
  }

  /** Within the first lot. */
  lemma FineFirstCovers(ranked: seq<Lot>, u: Fine)
    requires ranked != [] && FineWithin(ranked, u) && forall p :: p in ranked[1..] ==> p.gain >= ranked[0].gain
    requires 0.0 <= FineUnits(ranked, u) <= ranked[0].quantity as real
    ensures Along(ranked, FineUnits(ranked, u)) <= FineGain(ranked, u)
  {
    hide PartOf, Along;
    var g, t := ranked[0].gain, u(ranked[0].tradeId);
    assert forall p :: p in ranked[1..] ==> p in ranked;
    FineAtLeastPerUnit(ranked[1..], u, g);
    AlongStep(ranked, FineUnits(ranked, u));
    NoneAlong(ranked[1..]);
    PartsAdd(t, FineUnits(ranked[1..], u), g);
  }

  /** Past the first lot. */
  lemma FineLaterLotsToo(ranked: seq<Lot>, u: Fine)
    requires ranked != [] && FineWithin(ranked, u) && forall p :: p in ranked[1..] ==> p.gain >= ranked[0].gain
    requires ranked[0].quantity as real < FineUnits(ranked, u)
    requires 0.0 <= FineUnits(ranked[1..], u) <= Total(ranked[1..]) as real
    requires Along(ranked[1..], FineUnits(ranked[1..], u)) <= FineGain(ranked[1..], u)
    ensures Along(ranked, FineUnits(ranked, u)) <= FineGain(ranked, u)
  {
    hide *;
    var g, q, t := ranked[0].gain, ranked[0].quantity as real, u(ranked[0].tradeId);
    var units, rest := FineUnits(ranked, u), FineUnits(ranked[1..], u);
    FineSteps(ranked, u);
    PastFirst(ranked, units);
    SlopeBy(ranked[1..], units - q, rest, q - t, g);
    PartsAdd(q, t, g);
  }

  lemma FineSteps(ranked: seq<Lot>, u: Fine)
    requires ranked != [] && FineWithin(ranked, u)
    ensures 0.0 <= u(ranked[0].tradeId) <= ranked[0].quantity as real
    ensures FineUnits(ranked, u) == u(ranked[0].tradeId) + FineUnits(ranked[1..], u)
    ensures FineGain(ranked, u) == PartOf(u(ranked[0].tradeId), ranked[0].gain) + FineGain(ranked[1..], u)
  {
    assert ranked[0] in ranked;
  }

  lemma PastFirst(ranked: seq<Lot>, x: real)
    requires ranked != [] && x > ranked[0].quantity as real
    ensures var q := ranked[0].quantity as real;
            Along(ranked, x) == PartOf(q, ranked[0].gain) + Along(ranked[1..], x - q)
  {
    AlongStep(ranked, x);
  }

  lemma SlopeBy(ranked: seq<Lot>, a: real, b: real, d: real, g: real)
    requires 0.0 <= a <= b <= Total(ranked) as real && d == b - a && forall p :: p in ranked ==> p.gain >= g
    ensures Along(ranked, b) - Along(ranked, a) >= PartOf(d, g)
  {
    hide PartOf, Along;
    AlongSlope(ranked, a, b, g);
  }

  lemma {:induction false} FinePrefixIsLeast(ranked: seq<Lot>, u: Fine)
    requires Ascending(ranked) && FineWithin(ranked, u)
    ensures 0.0 <= FineUnits(ranked, u) <= Total(ranked) as real
    ensures Along(ranked, FineUnits(ranked, u)) <= FineGain(ranked, u)
  {
    if ranked != [] {
      hide Along, PartOf;
      assert ranked[0] in ranked && forall p :: p in ranked[1..] ==> p in ranked;
      FirstIsLeast(ranked);
      FinePrefixIsLeast(ranked[1..], u);
      if FineUnits(ranked, u) <= ranked[0].quantity as real {
        FineFirstCovers(ranked, u);
      } else {
        FineLaterLotsToo(ranked, u);
      }
    }
  }

  // ----- Ranking a class changes neither its units nor its gain -----------------------------------------

  lemma {:induction false} FineInsertSums(x: Lot, s: seq<Lot>, u: Fine)
    ensures FineUnits(Insert(x, s, Cheapest()), u) == u(x.tradeId) + FineUnits(s, u)
    ensures FineGain(Insert(x, s, Cheapest()), u) == PartOf(u(x.tradeId), x.gain) + FineGain(s, u)
  {
    hide PartOf;
    var r := Insert(x, s, Cheapest());
    if s != [] && !Cheapest()(x, s[0]) {
      FineInsertSums(x, s[1..], u);
      assert r[1..] == Insert(x, s[1..], Cheapest());
    } else {
      assert r[1..] == s;
    }
  }

  lemma {:induction false} FineSortSums(s: seq<Lot>, u: Fine)
    ensures FineUnits(Sort(s, Cheapest()), u) == FineUnits(s, u)
    ensures FineGain(Sort(s, Cheapest()), u) == FineGain(s, u)
  {
    if s != [] {
      FineSortSums(s[1..], u);
      FineInsertSums(s[0], Sort(s[1..], Cheapest()), u);
    }
  }

  lemma {:induction false} FineClassesPartition(lots: seq<Lot>, u: Fine)
    ensures FineUnits(lots, u)
            == FineUnits(OfClass(lots, Loss), u) + FineUnits(OfClass(lots, Other), u)
               + FineUnits(OfClass(lots, Discounted), u)
  {
    if lots != [] {
      FineClassesPartition(lots[1..], u);
      FineClassStep(lots, Loss, u);
      FineClassStep(lots, Other, u);
      FineClassStep(lots, Discounted, u);
    }
  }

  lemma FineClassStep(lots: seq<Lot>, c: Class, u: Fine)
    requires lots != []
    ensures FineUnits(OfClass(lots, c), u)
            == (if ClassOf(lots[0]) == c then u(lots[0].tradeId) else 0.0) + FineUnits(OfClass(lots[1..], c), u)
  {
    var rest := OfClass(lots[1..], c);
    assert ([lots[0]] + rest)[1..] == rest;
  }

  /** One ranked class under an allocation of the whole list. */
  lemma FineClass(lots: seq<Lot>, c: Class, u: Fine)
    requires DistinctIds(lots) && FineWithin(lots, u)
    ensures var ranked := Ranked(lots, c);
            && Ascending(ranked) && FineWithin(ranked, u)
            && FineUnits(ranked, u) == FineUnits(OfClass(lots, c), u)
            && FineGain(ranked, u) == FineGainIn(lots, c, u)
            && 0.0 <= FineUnits(ranked, u) <= Total(ranked) as real
            && Along(ranked, FineUnits(ranked, u)) <= FineGainIn(lots, c, u)
  {
    RankedRanks(lots, c);
    FineSortSums(OfClass(lots, c), u);
    FinePrefixIsLeast(Ranked(lots, c), u);
  }

  // ----- Losses first and some split, again --------------------------------------------------------------

  lemma {:induction false} AlongFalls(losses: seq<Lot>, a: real, b: real)
    requires 0.0 <= a <= b && forall p :: p in losses ==> p.gain <= 0.0
    ensures Along(losses, b) <= Along(losses, a)
  {
    if losses != [] {
      hide PartOf, Along;
      var x, y, g := Given(losses[0], a), Given(losses[0], b), losses[0].gain;
      assert losses[0] in losses && forall p :: p in losses[1..] ==> p in losses;
      AlongStep(losses, a);
      AlongStep(losses, b);
      AlongFalls(losses[1..], a - x, b - y);
      PartsAdd(y, x, g);
      PartsOrder(y - x, g, 0.0);
      NoPart(y - x);
    } else {
      assert Along(losses, b) == Along(losses, a);
    }
  }

  lemma NoPart(u: real)
    ensures PartOf(u, 0.0) == 0.0
  {
  }

  lemma AlongRises(ranked: seq<Lot>, a: real, b: real)
    requires Gains(ranked) && 0.0 <= a <= b <= Total(ranked) as real
    ensures Along(ranked, a) <= Along(ranked, b)
  {
    hide Along, PartOf;
    AlongSlope(ranked, a, b, 0.0);
    NoPart(b - a);
  }

  /** The position of every loss unit and some split of the rest. */
  function SplitPosition(r: Ranking, m: nat, left: nat, x: real): real {
    Position(Along(r.other, x), Along(r.discounted, left as real - x), -PrefixGain(r.losses, m))
  }

  /** It ranks splits as their cost does. */
  lemma SplitPositionIsCost(r: Ranking, m: nat, left: nat, x: real)
    ensures var loss := -PrefixGain(r.losses, m);
            SplitPosition(r, m, left, x) == (FineCost(r.other, r.discounted, loss, left, x) - loss) / 2.0
  {
    hide Along, PrefixGain, Max;
  }

  /** The classes hold gains and losses as they should. */
  lemma ClassesAre(lots: seq<Lot>)
    requires DistinctIds(lots) && forall p :: p in lots ==> p.quantity > 0
    ensures var r := RankingOf(lots);
            && r.For(lots) && Gains(r.other) && Gains(r.discounted) && Ascending(r.other) && Ascending(r.discounted)
            && (forall p :: p in r.losses ==> p.gain <= 0.0)
            && Total(r.losses) + Total(r.other) + Total(r.discounted) == Total(lots)
  {
    RankedRanks(lots, Loss);
    RankedRanks(lots, Other);
    RankedRanks(lots, Discounted);
    ClassesPartition(lots, id => 0);
  }

  /** Where the split goes: as many non-discountable units as the allocation has, if there is room. */
  lemma RoomForSplit(a: real, b: real, l: real, units: nat, m: nat, total: nat) returns (x: real)
    requires 0.0 <= l <= total as real && m == MinNat(units, total) && 0.0 <= a && 0.0 <= b
    requires l + a + b == units as real
    ensures 0.0 <= x <= a && 0.0 <= (units - m) as real - x <= b && l <= m as real
  {
    x := Min(a, (units - m) as real);
  }

  /** Whatever an allocation takes, in whatever parts, every loss unit first and some split of the
      rest does no worse. */
  lemma SomeFineSplitIsNoWorse(lots: seq<Lot>, u: Fine, units: nat, m: nat) returns (x: real)
    requires DistinctIds(lots) && forall p :: p in lots ==> p.quantity > 0
    requires FineFeasible(lots, u, units) && m == MinNat(units, Total(RankingOf(lots).losses))
    ensures FineHolds(RankingOf(lots).other, RankingOf(lots).discounted, units - m, x)
    ensures SplitPosition(RankingOf(lots), m, units - m, x) <= FinePositionOf(lots, u)
  {
    hide Along, PrefixGain, Position, FineUnits, FineGainIn, Total, Ranked, Gains, Ascending, Ranking.For;
    var r := RankingOf(lots);
    ClassesAre(lots);
    FineClass(lots, Loss, u);
    FineClass(lots, Other, u);
    FineClass(lots, Discounted, u);
    FineClassesPartition(lots, u);
    var l, a, b := FineUnits(r.losses, u), FineUnits(r.other, u), FineUnits(r.discounted, u);
    x := RoomForSplit(a, b, l, units, m, Total(r.losses));
    AlongRises(r.other, x, a);
    AlongRises(r.discounted, (units - m) as real - x, b);
    AlongFalls(r.losses, l, m as real);
    AtWholeUnits(r.losses, m);
    PositionMonotone(Along(r.other, x), Along(r.discounted, (units - m) as real - x), -PrefixGain(r.losses, m),
                     FineGainIn(lots, Other, u), FineGainIn(lots, Discounted, u), -FineGainIn(lots, Loss, u));
  }

  // ----- An allocation for every split ----------------------------------------------------------------------

  /** What the first `x` units of a class take from one lot. */
  function FineTaken(ranked: seq<Lot>, x: real, id: int): real {
    if ranked == [] then 0.0
    else if ranked[0].tradeId == id then Given(ranked[0], x)
    else FineTaken(ranked[1..], x - Given(ranked[0], x), id)
  }

  lemma {:induction false} NothingElsewhere(ranked: seq<Lot>, x: real, id: int)
    requires forall p :: p in ranked ==> p.tradeId != id
    ensures FineTaken(ranked, x, id) == 0.0
  {
    if ranked != [] {
      assert ranked[0] in ranked && forall p :: p in ranked[1..] ==> p in ranked;
      NothingElsewhere(ranked[1..], x - Given(ranked[0], x), id);
    }
  }

  ghost predicate TakesAlong(ranked: seq<Lot>, x: real, u: Fine) {
    forall p :: p in ranked ==> u(p.tradeId) == FineTaken(ranked, x, p.tradeId)
  }

  lemma TakesAlongRest(ranked: seq<Lot>, x: real, u: Fine)
    requires ranked != [] && DistinctIds(ranked) && TakesAlong(ranked, x, u)
    ensures u(ranked[0].tradeId) == Given(ranked[0], x)
    ensures DistinctIds(ranked[1..]) && TakesAlong(ranked[1..], x - Given(ranked[0], x), u)
  {
    assert ranked[0] in ranked;
    forall p | p in ranked[1..]
      ensures u(p.tradeId) == FineTaken(ranked[1..], x - Given(ranked[0], x), p.tradeId)
    {
      var i :| 0 <= i < |ranked| - 1 && ranked[1..][i] == p;
      assert ranked[i + 1] == p && p in ranked;
    }
  }

  /** It takes `x` units, none beyond a lot's quantity, and makes their gain. */
  lemma {:induction false} FineTakenSums(ranked: seq<Lot>, x: real, u: Fine)
    requires DistinctIds(ranked) && 0.0 <= x <= Total(ranked) as real && TakesAlong(ranked, x, u)
    ensures FineWithin(ranked, u) && FineUnits(ranked, u) == x && FineGain(ranked, u) == Along(ranked, x)
  {
    if ranked != [] {
      hide DistinctIds, TakesAlong, Along, PartOf;
      var rest := x - Given(ranked[0], x);
      TakesAlongRest(ranked, x, u);
      FineTakenSums(ranked[1..], rest, u);
      AlongStep(ranked, x);
      assert ranked == [ranked[0]] + ranked[1..];
    }
  }

  /** Every loss unit that `m` asks for, `x` non-discountable ones and the rest discount-eligible. */
  function SplitAllocation(r: Ranking, m: nat, left: nat, x: real): Fine {
    id => FineTaken(r.losses, m as real, id) + FineTaken(r.other, x, id)
          + FineTaken(r.discounted, left as real - x, id)
  }

  function ShareOf(c: Class, m: nat, left: nat, x: real): real {
    match c case Loss => m as real case Other => x case Discounted => left as real - x
  }

  /** A lot of another class is not among a class's lots. */
  lemma OtherClassApart(lots: seq<Lot>, p: Lot, c: Class, x: real)
    requires DistinctIds(lots) && p in lots && ClassOf(p) != c
    ensures FineTaken(Ranked(lots, c), x, p.tradeId) == 0.0
  {
    RankedRanks(lots, c);
    forall q | q in Ranked(lots, c) ensures q.tradeId != p.tradeId {
      if q.tradeId == p.tradeId { SameIdSameLot(lots, q, p); }
    }
    NothingElsewhere(Ranked(lots, c), x, p.tradeId);
  }

  lemma SplitTakesFrom(lots: seq<Lot>, m: nat, left: nat, x: real, p: Lot)
    requires DistinctIds(lots) && p in lots
    ensures SplitAllocation(RankingOf(lots), m, left, x)(p.tradeId)
            == FineTaken(Ranked(lots, ClassOf(p)), ShareOf(ClassOf(p), m, left, x), p.tradeId)
  {
    hide Ranked, FineTaken;
    if !ClassOf(p).Loss? { OtherClassApart(lots, p, Loss, m as real); }
    if !ClassOf(p).Other? { OtherClassApart(lots, p, Other, x); }
    if !ClassOf(p).Discounted? { OtherClassApart(lots, p, Discounted, left as real - x); }
  }

  /** Each class gets its share, cheapest first. */
  lemma SplitByClass(lots: seq<Lot>, m: nat, left: nat, x: real, c: Class)
    requires DistinctIds(lots) && 0.0 <= ShareOf(c, m, left, x) <= Total(Ranked(lots, c)) as real
    ensures var u, ranked := SplitAllocation(RankingOf(lots), m, left, x), Ranked(lots, c);
            && FineWithin(ranked, u) && FineUnits(OfClass(lots, c), u) == ShareOf(c, m, left, x)
            && FineGainIn(lots, c, u) == Along(ranked, ShareOf(c, m, left, x))
  {
    hide SplitAllocation, FineTaken, Along, PartOf, ShareOf;
    var u, ranked := SplitAllocation(RankingOf(lots), m, left, x), Ranked(lots, c);
    RankedRanks(lots, c);
    forall p | p in ranked ensures u(p.tradeId) == FineTaken(ranked, ShareOf(c, m, left, x), p.tradeId) {
      SplitTakesFrom(lots, m, left, x, p);
    }
    FineTakenSums(ranked, ShareOf(c, m, left, x), u);
    FineSortSums(OfClass(lots, c), u);
  }

  /** Every split is an allocation. */
  lemma SplitIsAllocation(lots: seq<Lot>, m: nat, left: nat, x: real)
    requires DistinctIds(lots)
    requires m <= Total(RankingOf(lots).losses)
    requires FineHolds(RankingOf(lots).other, RankingOf(lots).discounted, left, x)
    ensures var u := SplitAllocation(RankingOf(lots), m, left, x);
            && FineFeasible(lots, u, m + left) && FinePositionOf(lots, u) == SplitPosition(RankingOf(lots), m, left, x)
  {
    hide SplitAllocation, Ranked, Along, Position, FineUnits, FineGainIn, Total;
    var u := SplitAllocation(RankingOf(lots), m, left, x);
    SplitByClass(lots, m, left, x, Loss);
    SplitByClass(lots, m, left, x, Other);
    SplitByClass(lots, m, left, x, Discounted);
    FineClassesPartition(lots, u);
    AtWholeUnits(RankingOf(lots).losses, m);
    forall p | p in lots ensures 0.0 <= u(p.tradeId) <= p.quantity as real {
      SplitByClass(lots, m, left, x, ClassOf(p));
      RankedHas(lots, p);
    }
  }

  lemma RankedHas(lots: seq<Lot>, p: Lot)
    requires p in lots
    ensures p in Ranked(lots, ClassOf(p))
  {
    ClassMembers(lots, ClassOf(p), p);
    SortMembers(OfClass(lots, ClassOf(p)), Cheapest(), p);
  }

  // ----- When the picks are no worse than any of them ---------------------------------------------------------

  lemma BestSplitExists(other: seq<Lot>, discounted: seq<Lot>, loss: real, left: nat) returns (k: nat)
    requires left <= Total(other) + Total(discounted)
    ensures BestSplit(other, discounted, loss, left, k)
  {
    hide Cost, Total;
    var lo := if left > Total(discounted) then left - Total(discounted) else 0;
    var hi := MinNat(left, Total(other));
    k := lo;
    var x := lo;
    while x < hi
      invariant lo <= x <= hi && lo <= k <= x
      invariant forall y: nat :: lo <= y <= x ==>
                  Cost(other, discounted, loss, left, k) <= Cost(other, discounted, loss, left, y)
    {
      x := x + 1;
      if Cost(other, discounted, loss, left, x) < Cost(other, discounted, loss, left, k) { k := x; }
    }
  }

  /** The units and the loss the optimiser's search is left with. */
  function LossesTaken(lots: seq<Lot>, units: nat): nat {
    MinNat(units, Total(RankingOf(lots).losses))
  }

  function LossMade(lots: seq<Lot>, units: nat): real {
    -PrefixGain(RankingOf(lots).losses, LossesTaken(lots, units))
  }

  /** The position of any optimal picks is that of the losses and a best split. */
  lemma OptimalPosition(lots: seq<Lot>, units: nat, t: Allocation) returns (k: nat)
    requires DistinctIds(lots) && (forall p :: p in lots ==> p.quantity > 0) && units <= Total(lots)
    requires Optimal(lots, units, t)
    ensures var r, left := RankingOf(lots), units - LossesTaken(lots, units);
            && BestSplit(r.other, r.discounted, LossMade(lots, units), left, k)
            && PositionOf(lots, t) == (Cost(r.other, r.discounted, LossMade(lots, units), left, k)
                                       - LossMade(lots, units)) / 2.0
  {
    hide Cost, PositionOf, PrefixGain, Ranking.For, Ranking.PrefixPosition, Total, Optimal, BestSplit, RankingOf,
         Ranking.Picks, Gains, Ascending, Feasible;
    var r, m := RankingOf(lots), LossesTaken(lots, units);
    ClassesAre(lots);
    k := BestSplitExists(r.other, r.discounted, LossMade(lots, units), units - m);
    BestSplitHolds(r.other, r.discounted, LossMade(lots, units), units - m, k);
    var n := Share(m, k, units - m - k);
    BestPicksAreOptimal(lots, r, units, r.Picks(n), k);
    PicksAllocate(lots, r, n);
    BothOptimal(lots, units, t, Taken(r.Picks(n)));
    SplitsAsCost(r, m, units - m, k);
  }

  lemma BothOptimal(lots: seq<Lot>, units: nat, t: Allocation, u: Allocation)
    requires Optimal(lots, units, t) && Optimal(lots, units, u)
    ensures PositionOf(lots, t) == PositionOf(lots, u)
  {
    assert NoWorse(lots, t, u) && NoWorse(lots, u, t);
  }

  /** No allocation, in parts of units however small, has a smaller position. */
  ghost predicate OptimalInParts(lots: seq<Lot>, units: nat, t: Allocation) {
    forall u: Fine :: FineFeasible(lots, u, units) ==> PositionOf(lots, t) <= FinePositionOf(lots, u)
  }

  /** Some unit overtakes the losses with a discount-eligible unit in its place gaining more, though
      less than twice as much. */
  ghost predicate OvertakesSomewhere(lots: seq<Lot>, units: nat) {
    var r := RankingOf(lots);
    SomeUnitOvertakes(r.other, r.discounted, LossMade(lots, units), units - LossesTaken(lots, units))
  }

  /** A better allocation in parts gives a cheaper split in parts. */
  lemma BetterGivesCheaper(lots: seq<Lot>, u: Fine, units: nat, k: nat)
    requires DistinctIds(lots) && forall p :: p in lots ==> p.quantity > 0
    requires FineFeasible(lots, u, units)
    requires var r, loss := RankingOf(lots), LossMade(lots, units);
             var cost := Cost(r.other, r.discounted, loss, units - LossesTaken(lots, units), k);
            FinePositionOf(lots, u) < (cost - loss) / 2.0
    ensures var r := RankingOf(lots);
            SomeFinerIsCheaper(r.other, r.discounted, LossMade(lots, units), units - LossesTaken(lots, units), k)
  {
    hide FinePositionOf, FineFeasible, Cost, FineCost, RankingOf, PrefixGain, SplitPosition, FineHolds, Total;
    var m := LossesTaken(lots, units);
    var x := SomeFineSplitIsNoWorse(lots, u, units, m);
    SplitPositionIsCost(RankingOf(lots), m, units - m, x);
  }

  /** A cheaper split in parts is a better allocation in parts. */
  lemma CheaperGivesBetter(lots: seq<Lot>, units: nat, k: nat) returns (u: Fine)
    requires DistinctIds(lots)
    requires var r := RankingOf(lots);
             SomeFinerIsCheaper(r.other, r.discounted, LossMade(lots, units), units - LossesTaken(lots, units), k)
    ensures FineFeasible(lots, u, units)
    ensures var r, loss := RankingOf(lots), LossMade(lots, units);
            var cost := Cost(r.other, r.discounted, loss, units - LossesTaken(lots, units), k);
            FinePositionOf(lots, u) < (cost - loss) / 2.0
  {
    hide FinePositionOf, FineFeasible, Cost, FineCost, RankingOf, PrefixGain, SplitPosition, FineHolds, SplitAllocation;
    var r, m := RankingOf(lots), LossesTaken(lots, units);
    var left, loss := units - m, LossMade(lots, units);
    var x :| FineHolds(r.other, r.discounted, left, x)
             && FineCost(r.other, r.discounted, loss, left, x) < Cost(r.other, r.discounted, loss, left, k);
    u := SplitAllocation(r, m, left, x);
    SplitIsAllocation(lots, m, left, x);
    SplitPositionIsCost(r, m, left, x);
  }

  /** The optimiser's picks, the best in whole units, are no worse than any allocation in parts of
      units exactly when no unit overtakes the losses so. */
  lemma OptimalInPartsIff(lots: seq<Lot>, units: nat, t: Allocation)
    requires DistinctIds(lots) && (forall p :: p in lots ==> p.quantity > 0) && units <= Total(lots)
    requires Optimal(lots, units, t)
    ensures OptimalInParts(lots, units, t) <==> !OvertakesSomewhere(lots, units)
  {
    hide Optimal, PositionOf, FinePositionOf, FineFeasible, Cost, BestSplit, RankingOf, PrefixGain, Total,
         SomeUnitOvertakes, SomeFinerIsCheaper, Ranking.For;
    var r, m := RankingOf(lots), LossesTaken(lots, units);
    ClassesAre(lots);
    var k := OptimalPosition(lots, units, t);
    FinerSplitIsCheaperIff(r.other, r.discounted, LossMade(lots, units), units - m, k);
    forall u: Fine | FineFeasible(lots, u, units) && FinePositionOf(lots, u) < PositionOf(lots, t)
      ensures OvertakesSomewhere(lots, units)
    {
      BetterGivesCheaper(lots, u, units, k);
    }
    if OvertakesSomewhere(lots, units) {
      var u := CheaperGivesBetter(lots, units, k);
    }
  }

  /** Some unit overtakes the losses so: then selling every loss unit and splitting at the crossing
      is the best of all allocations in parts. */
  lemma CrossingIsBestInParts(lots: seq<Lot>, units: nat, j: nat, u: Fine)
    requires DistinctIds(lots) && (forall p :: p in lots ==> p.quantity > 0) && units <= Total(lots)
    requires var r := RankingOf(lots);
             OvertakesInside(r.other, r.discounted, LossMade(lots, units), units - LossesTaken(lots, units), j)
    requires FineFeasible(lots, u, units)
    ensures var r, m := RankingOf(lots), LossesTaken(lots, units);
            var best := SplitAllocation(r, m, units - m, Crossing(r.other, LossMade(lots, units), j));
            FineFeasible(lots, best, units) && FinePositionOf(lots, best) <= FinePositionOf(lots, u)
  {
    hide FinePositionOf, FineFeasible, BestSplit, RankingOf, PrefixGain, Total, FineCost, OvertakesInside, Crossing,
         SplitAllocation, SplitPosition, FineHolds, Ranking.For;
    var r, m := RankingOf(lots), LossesTaken(lots, units);
    var left, loss := units - m, LossMade(lots, units);
    ClassesAre(lots);
    var k := BestSplitExists(r.other, r.discounted, loss, left);
    var x := SomeFineSplitIsNoWorse(lots, u, units, m);
    var y := Crossing(r.other, loss, j);
    CrossingIsCheapest(r.other, r.discounted, loss, left, k, j, x);
    SplitIsAllocation(lots, m, left, y);
    SplitPositionIsCost(r, m, left, x);
    SplitPositionIsCost(r, m, left, y);
  }
}
