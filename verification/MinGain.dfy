/**
 * The minimum-gain strategy: which units of which parcels to sell so that the sale's assessable
 * gain is the least.
 */
module MinGain {
  import opened Calendar
  import opened CgtDiscount
  import opened ClassPicks
  import opened Lots
  import opened Netting
  import opened SplitSearch

  datatype CandidateParcel = CandidateParcel(tradeId: int, acquired: Date, quantity: nat, costBase: real)

  type Parcel = p: CandidateParcel | p.quantity > 0 witness CandidateParcel(0, YearMonthDay(2000, 1, 1), 1, 0.0)

  function LotOf(p: Parcel, price: real, saleDate: Date): Lot {
    Lot(p.tradeId, p.acquired, p.quantity, price - p.costBase / p.quantity as real,
        DiscountEligible(p.acquired, saleDate))
  }

  function LotsOf(parcels: seq<Parcel>, price: real, saleDate: Date): (lots: seq<Lot>)
    ensures forall p :: p in lots ==> p.quantity > 0
  {
    if parcels == [] then [] else [LotOf(parcels[0], price, saleDate)] + LotsOf(parcels[1..], price, saleDate)
  }

  // ----- In terms of the parcels --------------------------------------------------------------

  /** The gain of selling `n` units of a parcel: the proceeds less their part of its cost base. */
  function GainOn(p: Parcel, price: real, n: int): real {
    price * n as real - p.costBase * n as real / p.quantity as real
  }

  /** A sale's gains, those of parcels owned twelve months apart, and its losses. */
  datatype Sums = Sums(other: real, discounted: real, losses: real) {
    function With(g: real, owned: bool): Sums {
      if g <= 0.0 then this.(losses := losses - g)
      else if owned then this.(discounted := discounted + g)
      else this.(other := other + g)
    }
  }

  function SumsOf(parcels: seq<Parcel>, price: real, saleDate: Date, t: Allocation): Sums {
    if parcels == [] then Sums(0.0, 0.0, 0.0)
    else
      SumsOf(parcels[1..], price, saleDate, t).With(GainOn(parcels[0], price, t(parcels[0].tradeId)),
                                                    OwnedTwelveMonths(parcels[0].acquired, saleDate))
  }

  /** What a sale adds to the assessable gain, the year's only one. */
  function AssessedOn(parcels: seq<Parcel>, price: real, saleDate: Date, t: Allocation): real {
    var s := SumsOf(parcels, price, saleDate, t);
    Assessable(s.other, s.discounted, s.losses)
  }

  /** The same before the clamp at nil: a negative figure is half the loss left over. */
  function StandingOn(parcels: seq<Parcel>, price: real, saleDate: Date, t: Allocation): real {
    var s := SumsOf(parcels, price, saleDate, t);
    Position(s.other, s.discounted, s.losses)
  }

  function Held(parcels: seq<Parcel>): nat {
    if parcels == [] then 0 else parcels[0].quantity + Held(parcels[1..])
  }

  function SoldFrom(parcels: seq<Parcel>, t: Allocation): int {
    if parcels == [] then 0 else t(parcels[0].tradeId) + SoldFrom(parcels[1..], t)
  }

  /** The allocation sells `units`, none beyond a parcel's quantity. */
  ghost predicate Sells(parcels: seq<Parcel>, t: Allocation, units: int) {
    (forall p :: p in parcels ==> 0 <= t(p.tradeId) <= p.quantity) && SoldFrom(parcels, t) == units
  }

  predicate DistinctTrades(parcels: seq<Parcel>) {
    forall i, j :: 0 <= i < j < |parcels| ==> parcels[i].tradeId != parcels[j].tradeId
  }

  /** No allocation of the same units adds less, nor leaves more loss over where it adds nothing. */
  ghost predicate LeastGain(parcels: seq<Parcel>, units: nat, price: real, saleDate: Date, t: Allocation) {
    && Sells(parcels, t, units)
    && forall u: Allocation :: Sells(parcels, u, units) ==>
         && AssessedOn(parcels, price, saleDate, t) <= AssessedOn(parcels, price, saleDate, u)
         && StandingOn(parcels, price, saleDate, t) <= StandingOn(parcels, price, saleDate, u)
  }

  /** A whole parcel gains its proceeds less its whole cost base. */
  lemma WholeParcelGain(p: Parcel, price: real)
    ensures GainOn(p, price, p.quantity) == price * p.quantity as real - p.costBase
  {
  }

  lemma LotGain(p: Parcel, price: real, saleDate: Date, n: int)
    ensures Times(LotOf(p, price, saleDate).gain, n) == GainOn(p, price, n)
  {
    var cost, q, units := p.costBase, p.quantity as real, n as real;
    assert (price - cost / q) * units == price * units - cost / q * units;
    assert cost / q * units == cost * units / q;
  }

  /** Units make a gain exactly when each of them does. */
  lemma LotSign(g: real, n: int)
    requires n >= 0
    ensures Times(g, n) > 0.0 <==> g > 0.0 && n > 0
    ensures n == 0 ==> Times(g, n) == 0.0
  {
  }

  lemma {:induction false} LotsAreParcels(parcels: seq<Parcel>, price: real, saleDate: Date, t: Allocation)
    ensures var lots := LotsOf(parcels, price, saleDate);
            && |lots| == |parcels| && (forall i :: 0 <= i < |lots| ==> lots[i] == LotOf(parcels[i], price, saleDate))
            && Total(lots) == Held(parcels) && UnitsOf(lots, t) == SoldFrom(parcels, t)
  {
    if parcels != [] { LotsAreParcels(parcels[1..], price, saleDate, t); }
  }

  function SumsByClass(lots: seq<Lot>, t: Allocation): Sums {
    Sums(GainIn(lots, Other, t), GainIn(lots, Discounted, t), -GainIn(lots, Loss, t))
  }

  lemma {:induction false} SumsAreClasses(parcels: seq<Parcel>, price: real, saleDate: Date, t: Allocation)
    requires forall p :: p in parcels ==> t(p.tradeId) >= 0
    ensures SumsOf(parcels, price, saleDate, t) == SumsByClass(LotsOf(parcels, price, saleDate), t)
  {
    if parcels == [] {
    } else {
      hide SumsByClass, GainOn, OwnedTwelveMonths, Sums.With;
      assert parcels[0] in parcels && forall q :: q in parcels[1..] ==> q in parcels;
      SumsAreClasses(parcels[1..], price, saleDate, t);
      FirstSums(parcels, price, saleDate, t);
    }
  }

  lemma FirstSums(parcels: seq<Parcel>, price: real, saleDate: Date, t: Allocation)
    requires parcels != [] && t(parcels[0].tradeId) >= 0
    ensures var p := parcels[0];
            SumsByClass(LotsOf(parcels, price, saleDate), t)
            == SumsByClass(LotsOf(parcels[1..], price, saleDate), t).With(GainOn(p, price, t(p.tradeId)),
                                                                       OwnedTwelveMonths(p.acquired, saleDate))
  {
    hide GainIn, Times, GainOn, LotOf, ClassOf, OwnedTwelveMonths, Sums.With;
    var p, lots := parcels[0], LotsOf(parcels[1..], price, saleDate);
    ParcelClass(p, price, saleDate, t(p.tradeId));
    FirstInClass(parcels, price, saleDate, t, Loss);
    FirstInClass(parcels, price, saleDate, t, Other);
    FirstInClass(parcels, price, saleDate, t, Discounted);
    WithClass(SumsByClass(lots, t), GainOn(p, price, t(p.tradeId)), OwnedTwelveMonths(p.acquired, saleDate),
              ClassOf(LotOf(p, price, saleDate)));
  }

  /** Which class what a parcel sells falls in. */
  lemma ParcelClass(p: Parcel, price: real, saleDate: Date, n: int)
    requires n >= 0
    ensures var lot, g := LotOf(p, price, saleDate), GainOn(p, price, n);
            && lot.tradeId == p.tradeId && Times(lot.gain, n) == g
            && (g <= 0.0 ==> ClassOf(lot).Loss? || g == 0.0)
            && (g > 0.0 ==> ClassOf(lot) == if OwnedTwelveMonths(p.acquired, saleDate) then Discounted else Other)
  {
    EligibleIffOwnedTwelveMonths(p.acquired, saleDate);
    hide DiscountEligible, OwnedTwelveMonths, Times, GainOn;
    LotGain(p, price, saleDate, n);
    LotSign(LotOf(p, price, saleDate).gain, n);
  }

  lemma WithClass(s: Sums, g: real, owned: bool, c: Class)
    requires (g <= 0.0 ==> c.Loss? || g == 0.0) && (g > 0.0 ==> c == if owned then Discounted else Other)
    ensures s.With(g, owned) == Sums(s.other + (if c.Other? then g else 0.0),
                                     s.discounted + (if c.Discounted? then g else 0.0),
                                     s.losses - (if c.Loss? then g else 0.0))
  {
  }

  lemma FirstInClass(parcels: seq<Parcel>, price: real, saleDate: Date, t: Allocation, c: Class)
    requires parcels != []
    ensures var lot := LotOf(parcels[0], price, saleDate);
            GainIn(LotsOf(parcels, price, saleDate), c, t)
            == (if ClassOf(lot) == c then Times(lot.gain, t(lot.tradeId)) else 0.0)
               + GainIn(LotsOf(parcels[1..], price, saleDate), c, t)
  {
    hide LotOf, ClassOf, Times;
  }

  lemma SellsIsFeasible(parcels: seq<Parcel>, price: real, saleDate: Date, t: Allocation, units: int)
    ensures Sells(parcels, t, units) <==> Feasible(LotsOf(parcels, price, saleDate), t, units)
  {
    var lots := LotsOf(parcels, price, saleDate);
    LotsAreParcels(parcels, price, saleDate, t);
    if Sells(parcels, t, units) {
      forall l | l in lots ensures 0 <= t(l.tradeId) <= l.quantity {
        var i :| 0 <= i < |lots| && lots[i] == l;
        assert parcels[i] in parcels;
      }
    }
    if Feasible(lots, t, units) {
      forall p | p in parcels ensures 0 <= t(p.tradeId) <= p.quantity {
        var i :| 0 <= i < |parcels| && parcels[i] == p;
        assert lots[i] in lots;
      }
    }
  }

  /** The best allocation of the lots is the best of the parcels. */
  lemma OptimalOnParcels(parcels: seq<Parcel>, units: nat, price: real, saleDate: Date, t: Allocation)
    requires Optimal(LotsOf(parcels, price, saleDate), units, t)
    ensures LeastGain(parcels, units, price, saleDate, t)
  {
    hide SumsOf, GainIn, Assessable, Position, LotsOf;
    var lots := LotsOf(parcels, price, saleDate);
    SellsIsFeasible(parcels, price, saleDate, t, units);
    SumsAreClasses(parcels, price, saleDate, t);
    forall u: Allocation | Sells(parcels, u, units)
      ensures AssessedOn(parcels, price, saleDate, t) <= AssessedOn(parcels, price, saleDate, u)
              && StandingOn(parcels, price, saleDate, t) <= StandingOn(parcels, price, saleDate, u)
    {
      SellsIsFeasible(parcels, price, saleDate, u, units);
      SumsAreClasses(parcels, price, saleDate, u);
      assert NoWorse(lots, t, u);
    }
  }

  // ----- Which of the least --------------------------------------------------------------------

  function UnitGain(p: Parcel, price: real): real {
    price - p.costBase / p.quantity as real
  }

  /** Both make losses, or both gains that are discounted alike. */
  predicate SameClass(p: Parcel, q: Parcel, price: real, saleDate: Date) {
    if UnitGain(p, price) <= 0.0 then UnitGain(q, price) <= 0.0
    else
      UnitGain(q, price) > 0.0
      && (OwnedTwelveMonths(p.acquired, saleDate) <==> OwnedTwelveMonths(q.acquired, saleDate))
  }

  /** The smaller gain each unit makes, then the earlier acquisition, then the lower trade id. */
  predicate SoldBefore(p: Parcel, q: Parcel, price: real) {
    || UnitGain(p, price) < UnitGain(q, price)
    || (UnitGain(p, price) == UnitGain(q, price)
        && (p.acquired.Before(q.acquired) || (p.acquired == q.acquired && p.tradeId < q.tradeId)))
  }

  /** Within a class a parcel is sold out before a later one is touched. */
  ghost predicate InOrder(parcels: seq<Parcel>, price: real, saleDate: Date, t: Allocation) {
    forall p, q :: p in parcels && q in parcels && SameClass(p, q, price, saleDate) && SoldBefore(p, q, price)
                   && t(q.tradeId) > 0
                   ==> t(p.tradeId) == p.quantity
  }

  /** The units sold at a gain from parcels not owned for twelve months. */
  function ShortHeld(parcels: seq<Parcel>, price: real, saleDate: Date, t: Allocation): int {
    if parcels == [] then 0
    else
      (if UnitGain(parcels[0], price) > 0.0 && !OwnedTwelveMonths(parcels[0].acquired, saleDate)
       then t(parcels[0].tradeId) else 0) + ShortHeld(parcels[1..], price, saleDate, t)
  }

  /** Of the allocations that are as good, none sells fewer such units. */
  ghost predicate FewestShortHeld(parcels: seq<Parcel>, units: nat, price: real, saleDate: Date, t: Allocation) {
    forall u: Allocation :: Sells(parcels, u, units)
                            && StandingOn(parcels, price, saleDate, u) <= StandingOn(parcels, price, saleDate, t)
                            ==> ShortHeld(parcels, price, saleDate, t) <= ShortHeld(parcels, price, saleDate, u)
  }

  /** Each pick takes something from a parcel, and no parcel has two. */
  ghost predicate FromParcels(parcels: seq<Parcel>, picks: seq<Pick>) {
    && (forall k :: k in picks ==> k.units > 0 && exists p :: p in parcels && p.tradeId == k.tradeId)
    && (forall i, j :: 0 <= i < j < |picks| ==> picks[i].tradeId != picks[j].tradeId)
  }

  lemma LotClass(p: Parcel, price: real, saleDate: Date)
    ensures var lot := LotOf(p, price, saleDate);
            && lot.gain == UnitGain(p, price) && lot.acquired == p.acquired && lot.tradeId == p.tradeId
            && lot.quantity == p.quantity
            && ClassOf(lot) == (if UnitGain(p, price) <= 0.0 then Loss
                                else if OwnedTwelveMonths(p.acquired, saleDate) then Discounted else Other)
  {
    EligibleIffOwnedTwelveMonths(p.acquired, saleDate);
  }

  lemma PicksInOrder(parcels: seq<Parcel>, price: real, saleDate: Date, n: Share)
    requires RankingOf(LotsOf(parcels, price, saleDate)).For(LotsOf(parcels, price, saleDate))
    ensures InOrder(parcels, price, saleDate, Taken(RankingOf(LotsOf(parcels, price, saleDate)).Picks(n)))
  {
    hide Ranking.For, Ranking.Picks, RankingOf, LotOf, UnitGain, OwnedTwelveMonths, ClassOf, LotsOf;
    var lots := LotsOf(parcels, price, saleDate);
    forall p, q | p in parcels && q in parcels && SameClass(p, q, price, saleDate) && SoldBefore(p, q, price)
                  && Taken(RankingOf(lots).Picks(n))(q.tradeId) > 0
      ensures Taken(RankingOf(lots).Picks(n))(p.tradeId) == p.quantity
    {
      LotIn(parcels, price, saleDate, p);
      LotIn(parcels, price, saleDate, q);
      LotClass(p, price, saleDate);
      LotClass(q, price, saleDate);
      OneTradeOneLot(lots, p, q, price, saleDate);
      SoldOutFirst(lots, n, LotOf(p, price, saleDate), LotOf(q, price, saleDate));
    }
  }

  lemma LotIn(parcels: seq<Parcel>, price: real, saleDate: Date, p: Parcel)
    requires p in parcels
    ensures LotOf(p, price, saleDate) in LotsOf(parcels, price, saleDate)
  {
    var i :| 0 <= i < |parcels| && parcels[i] == p;
    LotsAreParcels(parcels, price, saleDate, id => 0);
    assert LotsOf(parcels, price, saleDate)[i] == LotOf(p, price, saleDate);
  }

  /** Parcels of which one is sold before the other are two. */
  lemma OneTradeOneLot(lots: seq<Lot>, p: Parcel, q: Parcel, price: real, saleDate: Date)
    requires RankingOf(lots).For(lots) && LotOf(p, price, saleDate) in lots && LotOf(q, price, saleDate) in lots
    requires SoldBefore(p, q, price)
    ensures p.tradeId != q.tradeId
  {
    LotClass(p, price, saleDate);
    LotClass(q, price, saleDate);
    if p.tradeId == q.tradeId { SameIdSameLot(lots, LotOf(p, price, saleDate), LotOf(q, price, saleDate)); }
  }

  lemma {:induction false} ShortHeldIsOther(parcels: seq<Parcel>, price: real, saleDate: Date, t: Allocation)
    ensures ShortHeld(parcels, price, saleDate, t) == UnitsIn(LotsOf(parcels, price, saleDate), Other, t)
  {
    if parcels != [] {
      hide LotOf, ClassOf, UnitGain, OwnedTwelveMonths;
      LotClass(parcels[0], price, saleDate);
      ShortHeldIsOther(parcels[1..], price, saleDate, t);
    }
  }

  lemma PicksSellFewest(parcels: seq<Parcel>, units: nat, price: real, saleDate: Date, r: Ranking, picks: seq<Pick>,
                        k: nat)
    requires r.For(LotsOf(parcels, price, saleDate)) && BestPicks(r, units, picks, k) && FewestPicks(r, units, k)
    ensures FewestShortHeld(parcels, units, price, saleDate, Taken(picks))
  {
    hide Ranking.For, BestPicks, FewestPicks, LotsOf, SumsOf, Position, GainIn, UnitsIn, ShortHeld;
    var lots := LotsOf(parcels, price, saleDate);
    BestPicksAreOptimal(lots, r, units, picks, k);
    var n := BestPicksShare(lots, r, units, picks, k);
    SellsIsFeasible(parcels, price, saleDate, Taken(picks), units);
    SumsAreClasses(parcels, price, saleDate, Taken(picks));
    ShortHeldIsOther(parcels, price, saleDate, Taken(picks));
    forall u: Allocation
      | Sells(parcels, u, units)
        && StandingOn(parcels, price, saleDate, u) <= StandingOn(parcels, price, saleDate, Taken(picks))
      ensures ShortHeld(parcels, price, saleDate, Taken(picks)) <= ShortHeld(parcels, price, saleDate, u)
    {
      SellsIsFeasible(parcels, price, saleDate, u, units);
      SumsAreClasses(parcels, price, saleDate, u);
      ShortHeldIsOther(parcels, price, saleDate, u);
      TakesNoFewer(lots, r, u, units, picks, k);
    }
  }

  lemma PicksFromParcels(parcels: seq<Parcel>, price: real, saleDate: Date, picks: seq<Pick>)
    requires FromEachOnce(LotsOf(parcels, price, saleDate), picks)
    ensures FromParcels(parcels, picks)
  {
    var lots := LotsOf(parcels, price, saleDate);
    LotsAreParcels(parcels, price, saleDate, id => 0);
    forall k | k in picks ensures exists p :: p in parcels && p.tradeId == k.tradeId {
      var l :| l in lots && l.tradeId == k.tradeId;
      var i :| 0 <= i < |lots| && lots[i] == l;
      assert parcels[i] in parcels;
    }
  }

  /** The minimum-gain picks for a sale of `units`, no more than are held. */
  method MinGainPicks(parcels: seq<Parcel>, units: nat, price: real, saleDate: Date) returns (picks: seq<Pick>)
    requires DistinctTrades(parcels) && units <= Held(parcels)
    ensures LeastGain(parcels, units, price, saleDate, Taken(picks)) && FromParcels(parcels, picks)
    ensures InOrder(parcels, price, saleDate, Taken(picks))
    ensures FewestShortHeld(parcels, units, price, saleDate, Taken(picks))
    ensures Optimal(LotsOf(parcels, price, saleDate), units, Taken(picks))
  {
    hide LeastGain, FewestShortHeld, InOrder, FromParcels, Optimal, BestPicks, FewestPicks;
    var lots := LotsOf(parcels, price, saleDate);
    LotsAreParcels(parcels, price, saleDate, id => 0);
    var r := RankClasses(lots);
    ghost var k;
    picks, k := PickFrom(r, units);
    BestPicksAreOptimal(lots, r, units, picks, k);
    OptimalOnParcels(parcels, units, price, saleDate, Taken(picks));
    ghost var n := BestPicksShare(lots, r, units, picks, k);
    PicksInOrder(parcels, price, saleDate, n);
    PicksFromEachOnce(lots, r, n);
    PicksFromParcels(parcels, price, saleDate, picks);
    PicksSellFewest(parcels, units, price, saleDate, r, picks, k);
  }
}
