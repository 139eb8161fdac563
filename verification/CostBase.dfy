/**
 * The reduction a statement takes off each group of a parcel's units, and the walk that applies
 * reductions to a cost base one at a time.
 *
 * A statement sees a parcel's units in three groups: still held, carried out by a rollover, and
 * disposed of during its income year. Every figure is in the parcel's as-acquired units, and exact.
 */
module CostBase {
  import opened Calendar
  import opened Disposals
  import opened Netting

  /** Where the costed units stand. */
  datatype Whereabouts = InParcel | DisposedOn(date: YearMonthDay) | CarriedAway

  /** The units an event sees held, carried out and disposed of during its income year. */
  datatype Groups = Groups(held: real, carried: real, sold: real)

  function GroupsOf(e: AmitEvent, quantity: real): Groups {
    var carried := Max(Min(e.carriedOut, quantity), 0.0);
    var disposed := Max(Min(e.disposedByYearEnd, quantity - carried), 0.0);
    Groups(quantity - carried - disposed, carried, Max(disposed - Max(e.disposedBeforeYearStart, 0.0), 0.0))
  }

  /** The coverage a group takes: the held units first, then those carried out, then those
      disposed of during the year. */
  function CoverageOf(e: AmitEvent, quantity: real, at: Whereabouts): (real, real) {
    var g := GroupsOf(e, quantity);
    var covered := e.statement.covered;
    match at
    case DisposedOn(d) =>
      if d.Before(FyStart(e.statement.yearEnd)) then (0.0, 0.0)
      else if OnOrBefore(d, e.statement.yearEnd) then (Min(Max(covered - g.held - g.carried, 0.0), g.sold), g.sold)
      else (Min(covered, g.held), g.held)
    case CarriedAway => (Min(Max(covered - g.held, 0.0), g.carried), g.carried)
    case InParcel => (Min(covered, g.held), g.held)
  }

  /** `perUnit` on the covered units of a group, spread evenly over the group's units: one
      division, at the end. */
  function Apportion(perUnit: real, coverage: real, units: real, size: real): real {
    if size <= 0.0 then 0.0 else perUnit * coverage * units / size
  }

  /** The reduction reaching `units` of a `quantity`-unit parcel. */
  function ReductionForUnits(e: AmitEvent, quantity: real, units: real, at: Whereabouts): real {
    Apportion(e.statement.perUnit, CoverageOf(e, quantity, at).0, units, CoverageOf(e, quantity, at).1)
  }

  /** The same for a single unit. */
  function PerUnitFor(e: AmitEvent, quantity: real, at: Whereabouts): real {
    ReductionForUnits(e, quantity, 1.0, at)
  }

  lemma ApportionIsRate(perUnit: real, coverage: real, units: real, size: real)
    ensures Apportion(perUnit, coverage, units, size) == Apportion(perUnit, coverage, 1.0, size) * units
  {
    var p := perUnit * coverage;
    if size > 0.0 { assert p * units / size == p / size * units; }
  }

  lemma ApportionWhole(perUnit: real, coverage: real, size: real)
    requires size >= 0.0 && (size == 0.0 ==> coverage == 0.0)
    ensures Apportion(perUnit, coverage, 1.0, size) * size == perUnit * coverage
  {
    var p := perUnit * coverage;
    if size > 0.0 { assert p / size * size == p; }
  }

  // ----- Every unit once -----------------------------------------------------------------------

  function WhereOf(c: Consumption): Whereabouts {
    if c.disposal then DisposedOn(c.date) else CarriedAway
  }

  function Consumed(ledger: seq<Consumption>): real {
    if ledger == [] then 0.0 else ledger[0].units + Consumed(ledger[1..])
  }

  /** What a statement takes off the units a ledger consumed, each where it stands. */
  function ReductionOf(e: AmitEvent, quantity: real, ledger: seq<Consumption>): real {
    if ledger == [] then 0.0
    else ReductionForUnits(e, quantity, ledger[0].units, WhereOf(ledger[0])) + ReductionOf(e, quantity, ledger[1..])
  }

  /** What a statement takes off the whole parcel: the units still in it, and every consumption. */
  function WholeReduction(s: Statement, quantity: real, ledger: seq<Consumption>): real {
    ReductionForUnits(EventOf(s, ledger), quantity, quantity - Consumed(ledger), InParcel)
    + ReductionOf(EventOf(s, ledger), quantity, ledger)
  }

  ghost predicate Wholesome(ledger: seq<Consumption>) {
    forall c :: c in ledger ==> c.units >= 0.0
  }

  /** A year starts no later than the day it ends on. */
  predicate Proper(y: YearMonthDay) {
    OnOrBefore(FyStart(y), y)
  }

  lemma DatesAreProper(d: YearMonthDay)
    requires d.Valid()
    ensures Proper(d)
  {
  }

  // A consumption's units by the group a statement ending on `y` sees them in, and the three
  // groups' rates, as triples.

  function Dot(rates: Groups, units: Groups): real {
    rates.held * units.held + rates.carried * units.carried + rates.sold * units.sold
  }

  function Add(a: Groups, b: Groups): Groups {
    Groups(a.held + b.held, a.carried + b.carried, a.sold + b.sold)
  }

  lemma Spread(r: real, a: real, b: real)
    ensures r * a + r * b == r * (a + b)
  {
  }

  lemma DotAdd(r: Groups, a: Groups, b: Groups)
    ensures Dot(r, a) + Dot(r, b) == Dot(r, Add(a, b))
  {
    Spread(r.held, a.held, b.held);
    Spread(r.carried, a.carried, b.carried);
    Spread(r.sold, a.sold, b.sold);
  }

  function UnitsSeen(c: Consumption, y: YearMonthDay): Groups {
    if !c.disposal then Groups(0.0, c.units, 0.0)
    else if c.date.Before(FyStart(y)) then Groups(0.0, 0.0, 0.0)
    else if OnOrBefore(c.date, y) then Groups(0.0, 0.0, c.units)
    else Groups(c.units, 0.0, 0.0)
  }

  function AllSeen(ledger: seq<Consumption>, y: YearMonthDay): Groups {
    if ledger == [] then Groups(0.0, 0.0, 0.0) else Add(UnitsSeen(ledger[0], y), AllSeen(ledger[1..], y))
  }

  function Rates(e: AmitEvent, quantity: real): Groups {
    Groups(PerUnitFor(e, quantity, InParcel), PerUnitFor(e, quantity, CarriedAway),
           PerUnitFor(e, quantity, DisposedOn(e.statement.yearEnd)))
  }

  /** Which coverage a consumption's units fall under. */
  lemma CoverageSeen(e: AmitEvent, quantity: real, c: Consumption)
    requires Proper(e.statement.yearEnd)
    ensures var y := e.statement.yearEnd;
            CoverageOf(e, quantity, WhereOf(c)) ==
              if !c.disposal then CoverageOf(e, quantity, CarriedAway)
              else if c.date.Before(FyStart(y)) then (0.0, 0.0)
              else if OnOrBefore(c.date, y) then CoverageOf(e, quantity, DisposedOn(y))
              else CoverageOf(e, quantity, InParcel)
  {
  }

  lemma Only(r: Groups, u: real)
    ensures Dot(r, Groups(u, 0.0, 0.0)) == r.held * u
    ensures Dot(r, Groups(0.0, u, 0.0)) == r.carried * u
    ensures Dot(r, Groups(0.0, 0.0, u)) == r.sold * u
    ensures Dot(r, Groups(0.0, 0.0, 0.0)) == 0.0
  {
  }

  lemma RateTimesUnits(e: AmitEvent, quantity: real, units: real, at: Whereabouts)
    ensures ReductionForUnits(e, quantity, units, at) == PerUnitFor(e, quantity, at) * units
  {
    ApportionIsRate(e.statement.perUnit, CoverageOf(e, quantity, at).0, units, CoverageOf(e, quantity, at).1);
  }

  lemma SameCoverage(e: AmitEvent, quantity: real, a: Whereabouts, b: Whereabouts)
    requires CoverageOf(e, quantity, a) == CoverageOf(e, quantity, b)
    ensures PerUnitFor(e, quantity, a) == PerUnitFor(e, quantity, b)
  {
  }

  lemma NoCoverage(e: AmitEvent, quantity: real, at: Whereabouts)
    requires CoverageOf(e, quantity, at) == (0.0, 0.0)
    ensures PerUnitFor(e, quantity, at) == 0.0
  {
  }

  lemma ReductionSeen(e: AmitEvent, quantity: real, c: Consumption)
    requires Proper(e.statement.yearEnd)
    ensures ReductionForUnits(e, quantity, c.units, WhereOf(c))
            == Dot(Rates(e, quantity), UnitsSeen(c, e.statement.yearEnd))
  {
    var y := e.statement.yearEnd;
    RateTimesUnits(e, quantity, c.units, WhereOf(c));
    Only(Rates(e, quantity), c.units);
    CoverageSeen(e, quantity, c);
    if !c.disposal { SameCoverage(e, quantity, WhereOf(c), CarriedAway); }
    else if c.date.Before(FyStart(y)) { NoCoverage(e, quantity, WhereOf(c)); }
    else if OnOrBefore(c.date, y) { SameCoverage(e, quantity, WhereOf(c), DisposedOn(y)); }
    else { SameCoverage(e, quantity, WhereOf(c), InParcel); }
  }

  lemma {:induction false} ReductionByGroup(e: AmitEvent, quantity: real, ledger: seq<Consumption>)
    requires Proper(e.statement.yearEnd)
    ensures ReductionOf(e, quantity, ledger) == Dot(Rates(e, quantity), AllSeen(ledger, e.statement.yearEnd))
  {
    var y := e.statement.yearEnd;
    if ledger == [] {
      Only(Rates(e, quantity), 0.0);
    } else {
      ReductionSeen(e, quantity, ledger[0]);
      ReductionByGroup(e, quantity, ledger[1..]);
      DotAdd(Rates(e, quantity), UnitsSeen(ledger[0], y), AllSeen(ledger[1..], y));
    }
  }

  lemma EarlierYearIsEarlier(d: YearMonthDay, y: YearMonthDay)
    requires Proper(y)
    ensures d.Before(FyStart(y)) ==> OnOrBefore(d, y)
  {
  }

  lemma {:induction false} SeenIsCounted(ledger: seq<Consumption>, y: YearMonthDay)
    requires Wholesome(ledger) && Proper(y)
    ensures var seen := AllSeen(ledger, y);
            && seen.carried == CarriedOut(ledger)
            && seen.sold == DisposedBy(ledger, y) - DisposedBefore(ledger, FyStart(y))
            && seen.held == Consumed(ledger) - CarriedOut(ledger) - DisposedBy(ledger, y)
            && seen.held >= 0.0 && seen.carried >= 0.0 && seen.sold >= 0.0
            && DisposedBefore(ledger, FyStart(y)) >= 0.0
  {
    hide FyStart, OnOrBefore, YearMonthDay.Before, Proper;
    if ledger != [] {
      assert ledger[0] in ledger;
      EarlierYearIsEarlier(ledger[0].date, y);
      SeenIsCounted(ledger[1..], y);
    }
  }

  lemma GroupsFit(e: AmitEvent, quantity: real)
    requires e.carriedOut >= 0.0 && 0.0 <= e.disposedBeforeYearStart <= e.disposedByYearEnd
    requires e.carriedOut + e.disposedByYearEnd <= quantity
    ensures GroupsOf(e, quantity) == Groups(quantity - e.carriedOut - e.disposedByYearEnd, e.carriedOut,
                                            e.disposedByYearEnd - e.disposedBeforeYearStart)
  {
  }

  /** The groups an event sees are the ledger's own. */
  lemma GroupsAreSeen(s: Statement, quantity: real, ledger: seq<Consumption>)
    requires Wholesome(ledger) && Consumed(ledger) <= quantity && Proper(s.yearEnd)
    ensures var g := GroupsOf(EventOf(s, ledger), quantity);
            && g == Add(Groups(quantity - Consumed(ledger), 0.0, 0.0), AllSeen(ledger, s.yearEnd))
            && g.held >= 0.0 && g.carried >= 0.0
            && g.held + g.carried + g.sold == quantity - DisposedBefore(ledger, FyStart(s.yearEnd))
  {
    SeenIsCounted(ledger, s.yearEnd);
    GroupsFit(EventOf(s, ledger), quantity);
  }

  /** The three groups' coverages add up to the units covered. */
  lemma CoveragesAddUp(e: AmitEvent, quantity: real)
    requires e.statement.covered >= 0.0 && Proper(e.statement.yearEnd)
    requires GroupsOf(e, quantity).held >= 0.0 && GroupsOf(e, quantity).carried >= 0.0
    ensures var g, y := GroupsOf(e, quantity), e.statement.yearEnd;
            var h, c, s := CoverageOf(e, quantity, InParcel), CoverageOf(e, quantity, CarriedAway),
                           CoverageOf(e, quantity, DisposedOn(y));
            && h.0 + c.0 + s.0 == Min(e.statement.covered, g.held + g.carried + g.sold)
            && g == Groups(h.1, c.1, s.1)
            && (h.1 == 0.0 ==> h.0 == 0.0) && (c.1 == 0.0 ==> c.0 == 0.0) && (s.1 == 0.0 ==> s.0 == 0.0)
  {
  }

  /** A statement's units go to the units still held, then to those carried out, then to those
      disposed of in the year: no group takes any before the ones ahead of it are covered. */
  lemma CoverageFillsInOrder(e: AmitEvent, quantity: real)
    requires e.statement.covered >= 0.0 && Proper(e.statement.yearEnd)
    requires GroupsOf(e, quantity).held >= 0.0 && GroupsOf(e, quantity).carried >= 0.0
    ensures var held, carried := CoverageOf(e, quantity, InParcel), CoverageOf(e, quantity, CarriedAway);
            var sold := CoverageOf(e, quantity, DisposedOn(e.statement.yearEnd));
            && (carried.0 > 0.0 ==> held.0 == held.1)
            && (sold.0 > 0.0 ==> held.0 == held.1 && carried.0 == carried.1)
            && held.0 <= held.1 && carried.0 <= carried.1 && sold.0 <= sold.1
  {
  }

  /** Every group at its rate comes to the figure per unit on the units covered. */
  lemma WholeGroups(e: AmitEvent, quantity: real)
    requires e.statement.covered >= 0.0 && Proper(e.statement.yearEnd)
    requires GroupsOf(e, quantity).held >= 0.0 && GroupsOf(e, quantity).carried >= 0.0
    ensures var g := GroupsOf(e, quantity);
            Dot(Rates(e, quantity), g) == e.statement.perUnit * Min(e.statement.covered, g.held + g.carried + g.sold)
  {
    hide Apportion, CoverageOf, GroupsOf, Proper;
    var p, y := e.statement.perUnit, e.statement.yearEnd;
    var g := GroupsOf(e, quantity);
    var h, c, s := CoverageOf(e, quantity, InParcel), CoverageOf(e, quantity, CarriedAway),
                   CoverageOf(e, quantity, DisposedOn(y));
    CoveragesAddUp(e, quantity);
    GroupSizes(e, quantity);
    ThreeWholes(p, h.0, h.1, c.0, c.1, s.0, s.1);
  }

  lemma GroupSizes(e: AmitEvent, quantity: real)
    ensures GroupsOf(e, quantity).sold >= 0.0
  {
  }

  lemma ThreeWholes(p: real, a: real, x: real, b: real, y: real, c: real, z: real)
    requires x >= 0.0 && y >= 0.0 && z >= 0.0
    requires (x == 0.0 ==> a == 0.0) && (y == 0.0 ==> b == 0.0) && (z == 0.0 ==> c == 0.0)
    ensures Dot(Groups(Apportion(p, a, 1.0, x), Apportion(p, b, 1.0, y), Apportion(p, c, 1.0, z)), Groups(x, y, z))
            == p * (a + b + c)
  {
    ApportionWhole(p, a, x);
    ApportionWhole(p, b, y);
    ApportionWhole(p, c, z);
    Spread(p, a, b);
    Spread(p, a + b, c);
  }

  lemma StillHeldIsDot(e: AmitEvent, quantity: real, still: real)
    ensures ReductionForUnits(e, quantity, still, InParcel) == Dot(Rates(e, quantity), Groups(still, 0.0, 0.0))
  {
    hide Apportion, CoverageOf, GroupsOf, Dot, PerUnitFor, ReductionForUnits;
    RateTimesUnits(e, quantity, still, InParcel);
    Only(Rates(e, quantity), still);
  }

  lemma WholeIsDot(s: Statement, quantity: real, ledger: seq<Consumption>)
    requires Proper(s.yearEnd)
    ensures var e := EventOf(s, ledger);
            WholeReduction(s, quantity, ledger)
            == Dot(Rates(e, quantity), Add(Groups(quantity - Consumed(ledger), 0.0, 0.0), AllSeen(ledger, s.yearEnd)))
  {
    hide Apportion, CoverageOf, GroupsOf, Dot, Add, Rates, AllSeen, ReductionOf, ReductionForUnits, Consumed, Proper;
    var e := EventOf(s, ledger);
    StillHeldIsDot(e, quantity, quantity - Consumed(ledger));
    ReductionByGroup(e, quantity, ledger);
    DotAdd(Rates(e, quantity), Groups(quantity - Consumed(ledger), 0.0, 0.0), AllSeen(ledger, s.yearEnd));
  }

  /** The statement's reduction over the whole parcel is its figure per unit on the units it
      covers that were held at any time in its year: however the parcel was split up and sold,
      nothing more and nothing less is taken off. */
  lemma ReductionConserved(s: Statement, quantity: real, ledger: seq<Consumption>)
    requires Wholesome(ledger) && Consumed(ledger) <= quantity && s.covered >= 0.0 && s.yearEnd.Valid()
    ensures WholeReduction(s, quantity, ledger)
            == s.perUnit * Min(s.covered, quantity - DisposedBefore(ledger, FyStart(s.yearEnd)))
  {
    hide Apportion, CoverageOf, GroupsOf, Dot, Rates, AllSeen, WholeReduction;
    DatesAreProper(s.yearEnd);
    GroupsAreSeen(s, quantity, ledger);
    WholeIsDot(s, quantity, ledger);
    WholeGroups(EventOf(s, ledger), quantity);
  }
}
