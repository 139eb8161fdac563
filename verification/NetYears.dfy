/** Netting capital losses year after year, the loss left over carried into the next year. */
module NetYears {
  import opened Common
  import opened Netting

  /** The part of a year's gains that came of CGT events E10, G1 and C2, counted among its
      discount-eligible and other gains already. */
  datatype Events = Events(e10: real, g1: real, c2: real)

  /** One tax year's gross gains and losses. */
  datatype Gross = Gross(discountEligible: real, other: real, losses: real, events: Events) {
    predicate Valid() {
      && discountEligible >= 0.0 && other >= 0.0 && losses >= 0.0
      && events.e10 >= 0.0 && events.g1 >= 0.0 && events.c2 >= 0.0
    }
  }

  type Year = g: Gross | g.Valid() witness Gross(0.0, 0.0, 0.0, Events(0.0, 0.0, 0.0))

  const QUIET: Year := Gross(0.0, 0.0, 0.0, Events(0.0, 0.0, 0.0))

  datatype Row = Row(
    taxYear: int,
    discountEligibleGains: real,
    otherGains: real,
    capitalLosses: real,
    broughtForward: real,
    netDiscount: real,
    netOther: real,
    cgtDiscount: real,
    netCapitalGain: real,
    carriedForward: real,
    events: Events)
  {
    /** The loss this row used up. */
    function Applied(): real {
      (otherGains - netOther) + (discountEligibleGains - netDiscount)
    }

    ghost predicate AllAtTheCent() {
      && AtCent(discountEligibleGains) && AtCent(otherGains) && AtCent(capitalLosses)
      && AtCent(broughtForward) && AtCent(netDiscount) && AtCent(netOther)
      && AtCent(cgtDiscount) && AtCent(netCapitalGain) && AtCent(carriedForward)
      && AtCent(events.e10) && AtCent(events.g1) && AtCent(events.c2)
    }
  }

  /** A year's worksheet when `toOther` of the available losses goes against the
      non-discountable gains and `toDiscount` against the discount-eligible ones. */
  function Worksheet(year: int, g: Year, broughtForward: real, toOther: real, toDiscount: real): Row
    requires toDiscount <= ToCents(g.discountEligible)
  {
    var discounted, other, losses := ToCents(g.discountEligible), ToCents(g.other), ToCents(g.losses);
    var netOther, netDiscount := other - toOther, discounted - toDiscount;
    var discount := ToCents(netDiscount / 2.0);
    Row(year, discounted, other, losses, broughtForward, netDiscount, netOther, discount,
        netOther + (netDiscount - discount), losses + broughtForward - toOther - toDiscount,
        Events(ToCents(g.events.e10), ToCents(g.events.g1), ToCents(g.events.c2)))
  }

  /** The year as the report nets it: non-discountable gains first. */
  function NetRow(year: int, g: Year, broughtForward: real): (r: Row)
    requires broughtForward >= 0.0
    ensures r.carriedForward >= 0.0
  {
    var available := ToCents(g.losses) + broughtForward;
    var toOther := Min(ToCents(g.other), available);
    Worksheet(year, g, broughtForward, toOther,
              Min(ToCents(g.discountEligible), available - toOther))
  }

  /** Any way a taxpayer may split a year's losses: within each gain, and leaving none
      unused while a gain remains. */
  predicate LawfulSplit(g: Year, broughtForward: real, toOther: real, toDiscount: real)
    requires broughtForward >= 0.0
  {
    var available := ToCents(g.losses) + broughtForward;
    && 0.0 <= toOther <= ToCents(g.other)
    && 0.0 <= toDiscount <= ToCents(g.discountEligible)
    && toOther + toDiscount == Min(available, ToCents(g.other) + ToCents(g.discountEligible))
  }

  /** No lawful split of a year's losses assesses less, the discount's rounding included,
      and every one of them carries the same loss forward. */
  lemma NetRowIsLeast(year: int, g: Year, broughtForward: real, toOther: real, toDiscount: real)
    requires broughtForward >= 0.0 && LawfulSplit(g, broughtForward, toOther, toDiscount)
    ensures var theirs := Worksheet(year, g, broughtForward, toOther, toDiscount);
            && NetRow(year, g, broughtForward).netCapitalGain <= theirs.netCapitalGain
            && NetRow(year, g, broughtForward).carriedForward == theirs.carriedForward
  {
    var ours := NetRow(year, g, broughtForward);
    var theirs := Worksheet(year, g, broughtForward, toOther, toDiscount);
    assert ours.netDiscount + ours.netOther == theirs.netDiscount + theirs.netOther;
    ToCentsMonotone(theirs.netDiscount / 2.0, ours.netDiscount / 2.0);
  }

  /** Subtracting losses in order keeps whole cents whole. */
  lemma OffsetAtTheCent(discounted: real, other: real, available: real)
    requires AtCent(discounted) && AtCent(other) && AtCent(available)
    ensures var toOther := Min(other, available);
            var toDiscount := Min(discounted, available - toOther);
            && AtCent(other - toOther) && AtCent(discounted - toDiscount)
            && AtCent(available - toOther - toDiscount)
  {
    CentArithmetic(other, available);
    var toOther := Min(other, available);
    CentArithmetic(other, toOther);
    CentArithmetic(available, toOther);
    CentArithmetic(discounted, available - toOther);
    var toDiscount := Min(discounted, available - toOther);
    CentArithmetic(discounted, toDiscount);
    CentArithmetic(available - toOther, toDiscount);
  }

  lemma NetRowAtTheCent(year: int, g: Year, broughtForward: real)
    requires broughtForward >= 0.0 && AtCent(broughtForward)
    ensures NetRow(year, g, broughtForward).AllAtTheCent()
  {
    var row := NetRow(year, g, broughtForward);
    CentArithmetic(row.capitalLosses, broughtForward);
    OffsetAtTheCent(row.discountEligibleGains, row.otherGains, row.capitalLosses + broughtForward);
    CentArithmetic(row.netDiscount, row.cgtDiscount);
    CentArithmetic(row.netOther, row.netDiscount - row.cgtDiscount);
  }

  /** A year's recorded facts, or none. */
  function FactsOf(buckets: map<int, Year>, y: int): Year {
    if y in buckets then buckets[y] else QUIET
  }

  /** The rows of the years `from..=to`: every year with recorded facts, and every quiet
      year that still carries a balance. */
  function Chain(buckets: map<int, Year>, broughtForward: real, from: int, to: int): (rows: seq<Row>)
    requires broughtForward >= 0.0
    decreases 1 + to - from
  {
    if from > to then []
    else if from !in buckets && broughtForward == 0.0 then Chain(buckets, broughtForward, from + 1, to)
    else
      var row := NetRow(from, FactsOf(buckets, from), broughtForward);
      [row] + Chain(buckets, row.carriedForward, from + 1, to)
  }

  /** The loss carried into year `y`, without reference to any row: each year adds its
      losses, takes off its gains, and never goes below nil. */
  function Balance(buckets: map<int, Year>, broughtForward: real, from: int, y: int): (b: real)
    requires broughtForward >= 0.0 && from <= y
    ensures b >= 0.0
    decreases y - from
  {
    if from == y then broughtForward
    else
      var g := FactsOf(buckets, y - 1);
      Max(0.0, Balance(buckets, broughtForward, from, y - 1)
               + ToCents(g.losses) - ToCents(g.other) - ToCents(g.discountEligible))
  }

  lemma QuietIsNil()
    ensures ToCents(0.0) == 0.0
  {
    assert IsCents(0.0, 0);
  }

  /** One year of `Balance` is one row's carried-forward figure. */
  lemma CarriesBalance(year: int, g: Year, b: real)
    requires b >= 0.0
    ensures NetRow(year, g, b).carriedForward
            == Max(0.0, b + ToCents(g.losses) - ToCents(g.other) - ToCents(g.discountEligible))
    ensures NetRow(year, QUIET, b).carriedForward == b
  {
    QuietIsNil();
  }

  /** Starting a year later from the balance that year leaves. */
  lemma {:induction false} BalanceShift(buckets: map<int, Year>, b: real, from: int, y: int)
    requires b >= 0.0 && from < y
    ensures Balance(buckets, b, from, y)
            == Balance(buckets, Balance(buckets, b, from, from + 1), from + 1, y)
    decreases y - from
  {
    if from + 1 < y { BalanceShift(buckets, b, from, y - 1); }
  }

  /** The state the walk is in when it reaches year `from`, one step at a time. */
  lemma StepBalance(buckets: map<int, Year>, b: real, from: int)
    requires b >= 0.0
    ensures from !in buckets ==> Balance(buckets, b, from, from + 1) == b
    ensures var g := FactsOf(buckets, from);
            Balance(buckets, b, from, from + 1) == NetRow(from, g, b).carriedForward
  {
    QuietIsNil();
    assert Balance(buckets, b, from, from) == b;
    CarriesBalance(from, FactsOf(buckets, from), b);
  }

  /** Which years are reported, and with what balance: a year has a row exactly when it has
      recorded facts or a loss is carried into it, the row is that year's netting of that
      balance, and no other row exists. */
  lemma {:induction false} ChainReportsEveryBalance(buckets: map<int, Year>, b: real, from: int, to: int, y: int)
    requires b >= 0.0 && from <= y <= to
    ensures var carried := Balance(buckets, b, from, y);
            var due := NetRow(y, FactsOf(buckets, y), carried);
            && (y in buckets || carried != 0.0 ==> due in Chain(buckets, b, from, to))
            && (forall r :: r in Chain(buckets, b, from, to) && r.taxYear == y
                            ==> r == due && (y in buckets || carried != 0.0))
    decreases 1 + to - from
  {
    StepBalance(buckets, b, from);
    ChainWithin(buckets, Balance(buckets, b, from, from + 1), from + 1, to);
    if from < y {
      BalanceShift(buckets, b, from, y);
      ChainReportsEveryBalance(buckets, Balance(buckets, b, from, from + 1), from + 1, to, y);
    }
  }

  lemma {:induction false} ChainWithin(buckets: map<int, Year>, b: real, from: int, to: int)
    requires b >= 0.0
    ensures forall r :: r in Chain(buckets, b, from, to) ==> from <= r.taxYear <= to
    ensures forall i, j :: 0 <= i < j < |Chain(buckets, b, from, to)|
                           ==> Chain(buckets, b, from, to)[i].taxYear < Chain(buckets, b, from, to)[j].taxYear
    decreases 1 + to - from
  {
    if from <= to {
      StepBalance(buckets, b, from);
      ChainWithin(buckets, Balance(buckets, b, from, from + 1), from + 1, to);
    }
  }

  function TotalLosses(rows: seq<Row>): real {
    if rows == [] then 0.0 else rows[0].capitalLosses + TotalLosses(rows[1..])
  }

  function TotalApplied(rows: seq<Row>): real {
    if rows == [] then 0.0 else rows[0].Applied() + TotalApplied(rows[1..])
  }

  /** In one year, what is available is what is applied and what is carried on. */
  lemma RowConserves(year: int, g: Year, b: real)
    requires b >= 0.0
    ensures var row := NetRow(year, g, b); b + row.capitalLosses == row.Applied() + row.carriedForward
  {
  }

  lemma YearConserves(buckets: map<int, Year>, b: real, from: int)
    requires b >= 0.0
    ensures var row := NetRow(from, FactsOf(buckets, from), b);
            && row.carriedForward == Balance(buckets, b, from, from + 1)
            && b + row.capitalLosses == row.Applied() + row.carriedForward
    ensures from !in buckets ==> Balance(buckets, b, from, from + 1) == b
  {
    StepBalance(buckets, b, from);
    RowConserves(from, FactsOf(buckets, from), b);
  }

  /** No loss is dropped and none is used twice, over any run of years: what came in is what
      was applied plus what is still carried. */
  lemma {:induction false} LossesConserved(buckets: map<int, Year>, b: real, from: int, to: int)
    requires b >= 0.0 && from <= to + 1
    ensures var rows := Chain(buckets, b, from, to);
            b + TotalLosses(rows) == TotalApplied(rows) + Balance(buckets, b, from, to + 1)
    decreases 1 + to - from
  {
    hide NetRow, Row.Applied;
    if from <= to {
      YearConserves(buckets, b, from);
      BalanceShift(buckets, b, from, to + 1);
      LossesConserved(buckets, Balance(buckets, b, from, from + 1), from + 1, to);
    }
  }

  /** Every figure of every row is at the cent. */
  lemma {:induction false} ChainAtTheCent(buckets: map<int, Year>, b: real, from: int, to: int)
    requires b >= 0.0 && AtCent(b)
    ensures forall r :: r in Chain(buckets, b, from, to) ==> r.AllAtTheCent()
    decreases 1 + to - from
  {
    if from <= to {
      StepBalance(buckets, b, from);
      NetRowAtTheCent(from, FactsOf(buckets, from), b);
      ChainAtTheCent(buckets, Balance(buckets, b, from, from + 1), from + 1, to);
    }
  }

  /** A taxpayer's own choice, year by year, of how much loss goes against the
      non-discountable gains and how much against the discount-eligible ones. */
  type Policy = int -> (real, real)

  /** The loss a policy carries into year `y`: what it did not use before. */
  function CarriedUnder(policy: Policy, buckets: map<int, Year>, b: real, from: int, y: int): real
    requires from <= y
    decreases y - from
  {
    if from == y then b
    else CarriedUnder(policy, buckets, b, from, y - 1) + ToCents(FactsOf(buckets, y - 1).losses)
         - policy(y - 1).0 - policy(y - 1).1
  }

  ghost predicate LawfulRun(policy: Policy, buckets: map<int, Year>, b: real, from: int, to: int) {
    forall y :: from <= y <= to ==>
      && CarriedUnder(policy, buckets, b, from, y) >= 0.0
      && LawfulSplit(FactsOf(buckets, y), CarriedUnder(policy, buckets, b, from, y),
                     policy(y).0, policy(y).1)
  }

  /** Whatever a lawful policy chose before, it carries the same loss into every year. */
  lemma {:induction false} PoliciesCarryAlike(
    policy: Policy, buckets: map<int, Year>, b: real, from: int, to: int, y: int)
    requires b >= 0.0 && from <= y <= to + 1 && LawfulRun(policy, buckets, b, from, to)
    ensures CarriedUnder(policy, buckets, b, from, y) == Balance(buckets, b, from, y)
    decreases y - from
  {
    if from < y {
      PoliciesCarryAlike(policy, buckets, b, from, to, y - 1);
      var carried := CarriedUnder(policy, buckets, b, from, y - 1);
      assert LawfulSplit(FactsOf(buckets, y - 1), carried, policy(y - 1).0, policy(y - 1).1);
    }
  }

  /** Over a whole run of years no lawful policy assesses less than the report does, in any
      year of the run. */
  lemma NoPolicyDoesBetter(
    policy: Policy, buckets: map<int, Year>, b: real, from: int, to: int, y: int)
    requires b >= 0.0 && from <= y <= to && LawfulRun(policy, buckets, b, from, to)
    ensures var g := FactsOf(buckets, y);
            NetRow(y, g, Balance(buckets, b, from, y)).netCapitalGain
            <= Worksheet(y, g, CarriedUnder(policy, buckets, b, from, y), policy(y).0, policy(y).1).netCapitalGain
  {
    PoliciesCarryAlike(policy, buckets, b, from, to, y);
    NetRowIsLeast(y, FactsOf(buckets, y), Balance(buckets, b, from, y), policy(y).0, policy(y).1);
  }

  ghost predicate Bounds(buckets: map<int, Year>, through: int, first: int, last: int) {
    && (buckets.Keys == {} ==> first == through == last)
    && (buckets.Keys != {} ==>
          && first in buckets.Keys && (forall y :: y in buckets.Keys ==> first <= y <= last)
          && through <= last && (last == through || last in buckets.Keys))
  }

  /** The first and last years of the series: filler runs to the later of `through` and the
      last year with activity. */
  method YearBounds(buckets: map<int, Year>, through: int) returns (first: int, last: int)
    ensures Bounds(buckets, through, first, last)
  {
    var rest := buckets.Keys;
    if rest == {} { return through, through; }
    first := Pick(rest);
    last := if first > through then first else through;
    rest := rest - {first};
    while rest != {}
      invariant rest <= buckets.Keys && first in buckets.Keys && through <= last
      invariant last == through || last in buckets.Keys
      invariant forall y :: y in buckets.Keys && y !in rest ==> first <= y <= last
      decreases |rest|
    {
      var y := Pick(rest);
      if y < first { first := y; }
      if y > last { last := y; }
      rest := rest - {y};
    }
  }

  // ----- What every row says --------------------------------------------------------------------

  /** A year's own columns: its facts at the cent, or nothing where it has none. */
  predicate OwnColumns(row: Row, buckets: map<int, Year>) {
    if row.taxYear in buckets then
      var g := buckets[row.taxYear];
      && row.discountEligibleGains == ToCents(g.discountEligible) && row.otherGains == ToCents(g.other)
      && row.capitalLosses == ToCents(g.losses)
      && row.events.e10 == ToCents(g.events.e10) && row.events.g1 == ToCents(g.events.g1)
      && row.events.c2 == ToCents(g.events.c2)
    else
      && row.discountEligibleGains == row.otherGains == row.capitalLosses == 0.0
      && row.events.e10 == row.events.g1 == row.events.c2 == 0.0
  }

  /** The worksheet from those columns: the losses come off the other gains first, half of what is
      left of the discount-eligible ones is the discount, and what is left of the losses goes on. */
  ghost predicate WorksOut(row: Row) {
    var losses := row.capitalLosses + row.broughtForward;
    && row.netOther == Max(row.otherGains - losses, 0.0)
    && row.netOther + row.netDiscount == Max(row.otherGains + row.discountEligibleGains - losses, 0.0)
    && AtCent(row.cgtDiscount) && 2.0 * row.cgtDiscount - 0.01 <= row.netDiscount <= 2.0 * row.cgtDiscount
    && row.netCapitalGain == row.netOther + row.netDiscount - row.cgtDiscount
    && row.carriedForward == Max(losses - row.otherGains - row.discountEligibleGains, 0.0)
  }

  /** The gain assessed is the year's netting, in the taxpayer's favour by no more than half a
      cent. */
  predicate AssessesTheNetting(row: Row) {
    var exact := Assessable(row.otherGains, row.discountEligibleGains, row.capitalLosses + row.broughtForward);
    exact - 0.005 <= row.netCapitalGain <= exact
  }

  lemma WorksheetWorksOut(year: int, g: Year, b: real)
    requires b >= 0.0 && AtCent(b)
    ensures WorksOut(NetRow(year, g, b)) && AssessesTheNetting(NetRow(year, g, b))
  {
    hide ToCents, AtCent;
    var row := NetRow(year, g, b);
    NetRowAtTheCent(year, g, b);
    HalvedUp(row.netDiscount);
  }

  /** Half a whole number of cents rounds to at least half, by no more than half a cent. */
  lemma HalvedUp(x: real)
    requires x >= 0.0 && AtCent(x)
    ensures AtCent(ToCents(x / 2.0)) && 2.0 * ToCents(x / 2.0) - 0.01 <= x <= 2.0 * ToCents(x / 2.0)
  {
    hide ToCents, IsCents;
    var half := ToCents(x / 2.0);
    var n :| IsCents(x, n);
    var m :| IsCents(half, m);
    HalfCents(x, n, half, m);
  }

  lemma HalfCents(x: real, n: int, half: real, m: int)
    requires IsCents(x, n) && IsCents(half, m) && half - 0.005 <= x / 2.0 < half + 0.005
    ensures 2.0 * half - 0.01 <= x <= 2.0 * half
  {
    var k := 2 * m + 1;
    assert n as real < k as real;
    assert n < k;
  }

  /** What the rows of a series say: in ascending years, a row for each that has facts or a loss
      carried into it and for no other, worked out from its own columns and that loss. */
  ghost predicate Reports(rows: seq<Row>, buckets: map<int, Year>, opening: real, first: int, last: int)
    requires opening >= 0.0
  {
    && (forall i, j :: 0 <= i < j < |rows| ==> rows[i].taxYear < rows[j].taxYear)
    && (forall y :: first <= y <= last && (y in buckets || Balance(buckets, opening, first, y) != 0.0)
                    ==> exists row :: row in rows && row.taxYear == y)
    && forall row :: row in rows ==>
         && first <= row.taxYear <= last
         && row.broughtForward == Balance(buckets, opening, first, row.taxYear)
         && (row.taxYear in buckets || row.broughtForward != 0.0)
         && OwnColumns(row, buckets) && WorksOut(row) && AssessesTheNetting(row)
  }

  lemma {:induction false} BalanceAtTheCent(buckets: map<int, Year>, b: real, from: int, y: int)
    requires b >= 0.0 && AtCent(b) && from <= y
    ensures AtCent(Balance(buckets, b, from, y))
    decreases y - from
  {
    if from < y {
      hide ToCents, AtCent;
      BalanceAtTheCent(buckets, b, from, y - 1);
      var g, before := FactsOf(buckets, y - 1), Balance(buckets, b, from, y - 1);
      QuietIsNil();
      CentArithmetic(before, ToCents(g.losses));
      CentArithmetic(before + ToCents(g.losses), ToCents(g.other));
      CentArithmetic(before + ToCents(g.losses) - ToCents(g.other), ToCents(g.discountEligible));
    }
  }

  lemma ChainReports(buckets: map<int, Year>, b: real, first: int, last: int)
    requires b >= 0.0 && AtCent(b)
    ensures Reports(Chain(buckets, b, first, last), buckets, b, first, last)
  {
    hide Balance, WorksOut, NetRow, Chain, ToCents;
    var rows := Chain(buckets, b, first, last);
    ChainWithin(buckets, b, first, last);
    forall y | first <= y <= last && (y in buckets || Balance(buckets, b, first, y) != 0.0)
      ensures exists row :: row in rows && row.taxYear == y
    {
      ChainReportsEveryBalance(buckets, b, first, last, y);
      OwnRow(buckets, y, Balance(buckets, b, first, y));
    }
    forall row | row in rows
      ensures row.broughtForward == Balance(buckets, b, first, row.taxYear) && OwnColumns(row, buckets)
      ensures (row.taxYear in buckets || row.broughtForward != 0.0) && WorksOut(row) && AssessesTheNetting(row)
    {
      var y := row.taxYear;
      var carried := Balance(buckets, b, first, y);
      ChainReportsEveryBalance(buckets, b, first, last, y);
      BalanceAtTheCent(buckets, b, first, y);
      OwnRow(buckets, y, carried);
      WorksheetWorksOut(y, FactsOf(buckets, y), carried);
    }
  }

  lemma OwnRow(buckets: map<int, Year>, y: int, b: real)
    requires b >= 0.0
    ensures var row := NetRow(y, FactsOf(buckets, y), b);
            row.taxYear == y && row.broughtForward == b && OwnColumns(row, buckets)
  {
    hide ToCents;
    QuietIsNil();
  }

  /** The report's walk: one mutable brought-forward balance over the years in order. */
  method NetEveryYear(buckets: map<int, Year>, opening: real, through: int) returns (rows: seq<Row>)
    requires opening >= 0.0
    ensures exists first, last :: Bounds(buckets, through, first, last)
                                  && rows == Chain(buckets, ToCents(opening), first, last)
                                  && Reports(rows, buckets, ToCents(opening), first, last)
  {
    hide Reports, Balance, ToCents, NetRow;
    var first, last := YearBounds(buckets, through);
    var broughtForward := ToCents(opening);
    rows := [];
    var y := first;
    while y <= last
      invariant first <= y && broughtForward >= 0.0
      invariant rows + Chain(buckets, broughtForward, y, last)
                == Chain(buckets, ToCents(opening), first, last)
    {
      if y in buckets || broughtForward != 0.0 {
        var row := NetRow(y, FactsOf(buckets, y), broughtForward);
        assert rows + ([row] + Chain(buckets, row.carriedForward, y + 1, last))
               == (rows + [row]) + Chain(buckets, row.carriedForward, y + 1, last);
        rows := rows + [row];
        broughtForward := row.carriedForward;
      }
      y := y + 1;
    }
    assert rows == rows + Chain(buckets, broughtForward, y, last);
    ChainReports(buckets, ToCents(opening), first, last);
  }
}
