/**
 * A parcel's AMMA statements against its ledger of consumptions, and what recording one more
 * disposal does to the counters each statement carries.
 */
module Disposals {
  import opened Calendar

  /** The financial year a date falls in, by the calendar year of its 30 June end. */
  function TaxYearFor(d: YearMonthDay): int {
    if d.month >= 7 then d.year + 1 else d.year
  }

  /** The 1 July on which the financial year containing `d` began. */
  function FyStart(d: YearMonthDay): YearMonthDay {
    YearMonthDay(TaxYearFor(d) - 1, 7, 1)
  }

  predicate OnOrBefore(a: YearMonthDay, b: YearMonthDay) {
    a == b || a.Before(b)
  }

  /** Units leaving the parcel: a disposal, or units a rollover carried into a replacement. */
  datatype Consumption = Consumption(date: YearMonthDay, disposal: bool, units: real)

  /** An AMMA statement's adjustment row: the year it ends, its reduction per unit and the units
      of the parcel it covers. */
  datatype Statement = Statement(yearEnd: YearMonthDay, perUnit: real, covered: real)

  datatype AmitEvent = AmitEvent(
    statement: Statement,
    disposedByYearEnd: real,
    disposedBeforeYearStart: real,
    carriedOut: real)

  // ----- Reading the ledger -------------------------------------------------------------------

  function DisposedBy(ledger: seq<Consumption>, d: YearMonthDay): real {
    if ledger == [] then 0.0
    else
      (if ledger[0].disposal && OnOrBefore(ledger[0].date, d) then ledger[0].units else 0.0)
      + DisposedBy(ledger[1..], d)
  }

  function DisposedBefore(ledger: seq<Consumption>, d: YearMonthDay): real {
    if ledger == [] then 0.0
    else
      (if ledger[0].disposal && ledger[0].date.Before(d) then ledger[0].units else 0.0)
      + DisposedBefore(ledger[1..], d)
  }

  function CarriedOut(ledger: seq<Consumption>): real {
    if ledger == [] then 0.0
    else (if ledger[0].disposal then 0.0 else ledger[0].units) + CarriedOut(ledger[1..])
  }

  function EventOf(s: Statement, ledger: seq<Consumption>): AmitEvent {
    AmitEvent(s, DisposedBy(ledger, s.yearEnd), DisposedBefore(ledger, FyStart(s.yearEnd)), CarriedOut(ledger))
  }

  function EventsOf(statements: seq<Statement>, ledger: seq<Consumption>): seq<AmitEvent> {
    if statements == [] then [] else [EventOf(statements[0], ledger)] + EventsOf(statements[1..], ledger)
  }

  // ----- A disposal not yet recorded -----------------------------------------------------------

  function WithDisposal(e: AmitEvent, units: real, saleDate: YearMonthDay): AmitEvent {
    e.(disposedByYearEnd := e.disposedByYearEnd + (if OnOrBefore(saleDate, e.statement.yearEnd) then units else 0.0),
       disposedBeforeYearStart := e.disposedBeforeYearStart
                                  + (if saleDate.Before(FyStart(e.statement.yearEnd)) then units else 0.0))
  }

  function EventsWithDisposal(events: seq<AmitEvent>, units: real, saleDate: YearMonthDay): seq<AmitEvent> {
    if events == [] then []
    else [WithDisposal(events[0], units, saleDate)] + EventsWithDisposal(events[1..], units, saleDate)
  }

  lemma {:induction false} Recorded(ledger: seq<Consumption>, i: nat, c: Consumption, d: YearMonthDay)
    requires i <= |ledger|
    ensures var after := ledger[..i] + [c] + ledger[i..];
            && DisposedBy(after, d)
               == DisposedBy(ledger, d) + (if c.disposal && OnOrBefore(c.date, d) then c.units else 0.0)
            && DisposedBefore(after, d)
               == DisposedBefore(ledger, d) + (if c.disposal && c.date.Before(d) then c.units else 0.0)
            && CarriedOut(after) == CarriedOut(ledger) + (if c.disposal then 0.0 else c.units)
  {
    var after := ledger[..i] + [c] + ledger[i..];
    if i == 0 {
      assert after[1..] == ledger;
    } else {
      assert after[1..] == ledger[1..][..i - 1] + [c] + ledger[1..][i - 1..];
      Recorded(ledger[1..], i - 1, c, d);
    }
  }

  /** Rehearsing a sale is recording it: the counters adjusted for a contemplated sale are the
      counters of the ledger with that sale in it, wherever in the ledger it is entered. */
  lemma {:induction false} RehearsingIsRecording(statements: seq<Statement>, ledger: seq<Consumption>, i: nat,
                                                 units: real, saleDate: YearMonthDay)
    requires i <= |ledger|
    ensures EventsWithDisposal(EventsOf(statements, ledger), units, saleDate)
            == EventsOf(statements, ledger[..i] + [Consumption(saleDate, true, units)] + ledger[i..])
  {
    if statements != [] {
      var s := statements[0];
      Recorded(ledger, i, Consumption(saleDate, true, units), s.yearEnd);
      Recorded(ledger, i, Consumption(saleDate, true, units), FyStart(s.yearEnd));
      RehearsingIsRecording(statements[1..], ledger, i, units, saleDate);
      assert EventsOf(statements, ledger)[1..] == EventsOf(statements[1..], ledger);
    }
  }

  /** Two contemplated sales in either order, and two on one date as one. */
  lemma {:induction false} DisposalsCommute(events: seq<AmitEvent>, m: real, a: YearMonthDay, n: real, b: YearMonthDay)
    ensures EventsWithDisposal(EventsWithDisposal(events, m, a), n, b)
            == EventsWithDisposal(EventsWithDisposal(events, n, b), m, a)
    ensures EventsWithDisposal(EventsWithDisposal(events, m, a), n, a) == EventsWithDisposal(events, m + n, a)
  {
    if events != [] {
      assert EventsWithDisposal(events, m, a)[1..] == EventsWithDisposal(events[1..], m, a);
      assert EventsWithDisposal(events, n, b)[1..] == EventsWithDisposal(events[1..], n, b);
      DisposalsCommute(events[1..], m, a, n, b);
    }
  }

  // ----- Consecutive years ----------------------------------------------------------------------

  ghost predicate Sound(ledger: seq<Consumption>) {
    forall c :: c in ledger ==> c.units >= 0.0 && c.date.Valid()
  }

  /** The statement year ending in `y`. */
  function YearEnd(y: int): YearMonthDay {
    YearMonthDay(y, 6, 30)
  }

  /** A financial year is the twelve months to 30 June, and every date is in one. */
  lemma YearsFollow(y: int, d: YearMonthDay)
    requires d.Valid()
    ensures YearEnd(y).Valid() && Succ(YearEnd(y)) == FyStart(YearEnd(y + 1)) == YearMonthDay(y, 7, 1)
    ensures TaxYearFor(d) == y <==> OnOrBefore(YearMonthDay(y - 1, 7, 1), d) && OnOrBefore(d, YearEnd(y))
    ensures FyStart(d) == YearMonthDay(TaxYearFor(d) - 1, 7, 1)
  {
  }

  function InYear(ledger: seq<Consumption>, y: int): real {
    DisposedBy(ledger, YearEnd(y)) - DisposedBefore(ledger, FyStart(YearEnd(y)))
  }

  /** What is disposed of before a year starts is what was disposed of by the last year's end,
      over any ledger; and never more than what is disposed of by its own end. */
  lemma {:induction false} YearsMeet(ledger: seq<Consumption>, y: int)
    requires Sound(ledger)
    ensures DisposedBefore(ledger, FyStart(YearEnd(y + 1))) == DisposedBy(ledger, YearEnd(y))
    ensures DisposedBefore(ledger, FyStart(YearEnd(y))) <= DisposedBy(ledger, YearEnd(y))
  {
    if ledger != [] {
      assert ledger[0] in ledger;
      YearsMeet(ledger[1..], y);
    }
  }

  /** A disposal is in exactly the year it falls in: that year's window holds it and no other
      year's does. */
  lemma InItsYearOnly(c: Consumption, y: int)
    requires c.disposal && c.date.Valid()
    ensures InYear([c], y) == if TaxYearFor(c.date) == y then c.units else 0.0
  {
    Recorded([], 0, c, YearEnd(y));
    Recorded([], 0, c, FyStart(YearEnd(y)));
    var none: seq<Consumption> := [];
    assert none[..0] + [c] + none[0..] == [c];
  }

  function InYears(ledger: seq<Consumption>, from: int, last: int): real
    requires from <= last
    decreases last - from
  {
    InYear(ledger, from) + if from == last then 0.0 else InYears(ledger, from + 1, last)
  }

  /** Over any run of years the in-year figures telescope: nothing disposed of is counted twice
      and nothing is missed. */
  lemma {:induction false} YearsTelescope(ledger: seq<Consumption>, from: int, last: int)
    requires from <= last && Sound(ledger)
    ensures InYears(ledger, from, last)
            == DisposedBy(ledger, YearEnd(last)) - DisposedBefore(ledger, FyStart(YearEnd(from)))
    decreases last - from
  {
    if from < last {
      YearsMeet(ledger, from);
      YearsTelescope(ledger, from + 1, last);
    }
  }
}
