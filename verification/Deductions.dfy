/**
 * Which question of the return an investment expense is claimed at, from what is recorded of the
 * listing it was incurred for.
 *
 * The listings and the income rows are what the database holds; a row counts for its foreign
 * income when that is more than nil, and a row of no known listing counts for nothing.
 */
module Deductions {
  import opened Calendar
  import opened Common
  import opened Disposals

  /** A listing as it is entered. */
  datatype Listing = Listing(amit: bool, amitFrom: Option<YearMonthDay>, nonAud: bool)

  datatype IncomeRow = IncomeRow(listing: int, trust: bool, foreign: real)

  datatype Facts = Facts(listing: Listing, trustIncome: bool, foreignIncome: bool, anyIncome: bool)

  datatype Destination = DividendAndInterest | ForeignIncome | ForeignDebt | TrustDistributions {
    /** How specific the income is. Both foreign questions are one step up from the default. */
    function Rank(): nat {
      match this
      case DividendAndInterest => 0
      case ForeignIncome => 1
      case ForeignDebt => 1
      case TrustDistributions => 2
    }
  }

  // ----- The facts ---------------------------------------------------------------------------------

  /** What some income rows say of a listing. */
  ghost function FactsOf(l: Listing, id: int, rows: seq<IncomeRow>): Facts {
    Facts(l, exists r :: r in rows && r.listing == id && r.trust,
          exists r :: r in rows && r.listing == id && r.foreign > 0.0,
          exists r :: r in rows && r.listing == id)
  }

  ghost predicate Loaded(facts: map<int, Facts>, listings: map<int, Listing>, rows: seq<IncomeRow>) {
    facts.Keys == listings.Keys && forall id :: id in listings ==> facts[id] == FactsOf(listings[id], id, rows)
  }

  lemma OneRowMore(l: Listing, id: int, rows: seq<IncomeRow>, r: IncomeRow)
    ensures var was, now := FactsOf(l, id, rows), FactsOf(l, id, rows + [r]);
            now == if r.listing != id then was
                   else Facts(l, was.trustIncome || r.trust, was.foreignIncome || r.foreign > 0.0, true)
  {
    assert forall x :: x in rows + [r] <==> x in rows || x == r;
    assert r in rows + [r];
  }

  lemma NextRow(facts: map<int, Facts>, listings: map<int, Listing>, rows: seq<IncomeRow>, i: nat)
    requires i < |rows| && Loaded(facts, listings, rows[..i])
    ensures forall id :: id in listings ==> var r := rows[i];
              FactsOf(listings[id], id, rows[..i + 1])
              == if r.listing != id then facts[id]
                 else Facts(listings[id], facts[id].trustIncome || r.trust,
                            facts[id].foreignIncome || r.foreign > 0.0, true)
  {
    hide FactsOf;
    forall id | id in listings
      ensures var r := rows[i];
              FactsOf(listings[id], id, rows[..i + 1])
              == if r.listing != id then facts[id]
                 else Facts(listings[id], facts[id].trustIncome || r.trust,
                            facts[id].foreignIncome || r.foreign > 0.0, true)
    {
      OneRowMore(listings[id], id, rows[..i], rows[i]);
      assert rows[..i + 1] == rows[..i] + [rows[i]];
    }
  }

  lemma ListingsKept(facts: map<int, Facts>, listings: map<int, Listing>, rows: seq<IncomeRow>)
    requires Loaded(facts, listings, rows)
    ensures forall id :: id in listings ==> facts[id].listing == listings[id]
  {
  }

  lemma NoRows(facts: map<int, Facts>, listings: map<int, Listing>)
    requires facts == map id | id in listings :: Facts(listings[id], false, false, false)
    ensures Loaded(facts, listings, [])
  {
  }

  /** The loop over the income rows, marking each row's listing as it goes. */
  method Load(listings: map<int, Listing>, rows: seq<IncomeRow>) returns (facts: map<int, Facts>)
    ensures Loaded(facts, listings, rows)
  {
    hide FactsOf;
    facts := map id | id in listings :: Facts(listings[id], false, false, false);
    NoRows(facts, listings);
    var i := 0;
    while i < |rows|
      invariant 0 <= i <= |rows| && Loaded(facts, listings, rows[..i])
    {
      var r := rows[i];
      NextRow(facts, listings, rows, i);
      ListingsKept(facts, listings, rows[..i]);
      if r.listing in facts {
        var f := facts[r.listing];
        facts := facts[r.listing :=
                         Facts(f.listing, f.trustIncome || r.trust, f.foreignIncome || r.foreign > 0.0, true)];
      }
      i := i + 1;
    }
    assert rows[..i] == rows;
  }

  // ----- The destination ----------------------------------------------------------------------------

  predicate AmitInTaxYear(amit: bool, from: Option<YearMonthDay>, taxYear: int) {
    amit && (from.None? || TaxYearFor(from.value) <= taxYear)
  }

  function DestinationOf(f: Facts, debt: bool, taxYear: int): Destination {
    var amitYear := AmitInTaxYear(f.listing.amit, f.listing.amitFrom, taxYear);
    var ordinaryTrustYear := f.listing.amit && !amitYear;
    if amitYear || ordinaryTrustYear || f.trustIncome then TrustDistributions
    else if f.foreignIncome || (!f.anyIncome && f.listing.nonAud) then if debt then ForeignDebt else ForeignIncome
    else DividendAndInterest
  }

  function DestinationFor(facts: map<int, Facts>, id: Option<int>, debt: bool, taxYear: int): Destination {
    if id.None? || id.value !in facts then DividendAndInterest else DestinationOf(facts[id.value], debt, taxYear)
  }

  /** The year does not matter: a fund is a trust before it is an AMIT and after. */
  lemma YearDoesNotMatter(facts: map<int, Facts>, id: Option<int>, debt: bool, a: int, b: int)
    ensures DestinationFor(facts, id, debt, a) == DestinationFor(facts, id, debt, b)
  {
  }

  /** Neither the order nor the repetition of income rows matters. */
  lemma RowsAreASet(facts: map<int, Facts>, others: map<int, Facts>, listings: map<int, Listing>,
                    a: seq<IncomeRow>, b: seq<IncomeRow>)
    requires Loaded(facts, listings, a) && Loaded(others, listings, b) && forall r :: r in a <==> r in b
    ensures facts == others
  {
    forall id | id in listings ensures facts[id] == others[id] {
      assert FactsOf(listings[id], id, a) == FactsOf(listings[id], id, b);
    }
  }

  /** A row that says nothing but that there is income. */
  predicate Bare(r: IncomeRow) {
    !r.trust && r.foreign <= 0.0
  }

  /** One more row, however long the history, only ever moves a listing's expenses up from the
      default, then to foreign income, then to the trust; but for one drop: the first row of a
      listing quoted abroad that is no AMIT, when that row is bare. */
  lemma RowsOnlyClimbBut(l: Listing, id: int, rows: seq<IncomeRow>, r: IncomeRow, debt: bool, taxYear: int)
    ensures DestinationOf(FactsOf(l, id, rows + [r]), debt, taxYear).Rank()
            < DestinationOf(FactsOf(l, id, rows), debt, taxYear).Rank()
            <==> r.listing == id && Bare(r) && l.nonAud && !l.amit && forall x :: x in rows ==> x.listing != id
  {
    OneRowMore(l, id, rows, r);
  }

  /** A destination reached once some row exists is never left but upwards. */
  lemma {:induction false} HistoryClimbs(l: Listing, id: int, rows: seq<IncomeRow>, more: seq<IncomeRow>, debt: bool,
                                         taxYear: int)
    requires exists x :: x in rows && x.listing == id
    ensures DestinationOf(FactsOf(l, id, rows), debt, taxYear).Rank()
            <= DestinationOf(FactsOf(l, id, rows + more), debt, taxYear).Rank()
  {
    if more == [] {
      assert rows + more == rows;
    } else {
      var front, r := more[..|more| - 1], more[|more| - 1];
      HistoryClimbs(l, id, rows, front, debt, taxYear);
      assert forall x :: x in rows ==> x in rows + front;
      RowsOnlyClimbBut(l, id, rows + front, r, debt, taxYear);
      assert rows + more == rows + front + [r];
    }
  }

  /** What is recorded of a listing. */
  ghost predicate HasRow(rows: seq<IncomeRow>, id: int, chosen: IncomeRow -> bool) {
    exists r :: r in rows && r.listing == id && chosen(r)
  }

  /** Where an expense goes, by the listing and the rows themselves. A listing that is or was to be
      an AMIT, or has paid trust income, goes with the trusts. Else one that has paid foreign income,
      or has paid nothing and is quoted abroad, goes with foreign income, a debt deduction apart.
      Anything else goes with dividends and interest. */
  lemma WhereItGoes(facts: map<int, Facts>, listings: map<int, Listing>, rows: seq<IncomeRow>,
                    id: Option<int>, debt: bool, taxYear: int)
    requires Loaded(facts, listings, rows)
    ensures var goes := DestinationFor(facts, id, debt, taxYear);
            var known := id.Some? && id.value in listings;
            var trust := known && (listings[id.value].amit || HasRow(rows, id.value, (r: IncomeRow) => r.trust));
            var foreign := known && (|| HasRow(rows, id.value, (r: IncomeRow) => r.foreign > 0.0)
                                     || (listings[id.value].nonAud && !HasRow(rows, id.value, (r: IncomeRow) => true)));
            && (goes.TrustDistributions? <==> trust)
            && (goes.ForeignIncome? <==> !trust && foreign && !debt)
            && (goes.ForeignDebt? <==> !trust && foreign && debt)
            && (goes.DividendAndInterest? <==> !trust && !foreign)
  {
    if id.Some? && id.value in listings {
      assert facts[id.value] == FactsOf(listings[id.value], id.value, rows);
    }
  }
}
