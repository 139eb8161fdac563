/**
 * The adjusted cost base of some units of a parcel: what its statements and its payments take off
 * them, in the order they arise.
 *
 * Two reports walk the same reductions: one costs the units, the other looks for the capital gains
 * they run past nil by. And a third figure is costed before there is a sale to cost.
 */
module CostedUnits {
  import opened Calendar
  import opened Common
  import opened CostBase
  import opened Disposals
  import opened Netting
  import opened Payments
  import opened ReductionWalks
  import opened Sorting

  datatype Source = FromStatement | FromPayment

  /** A reduction, when it arises and from what. */
  datatype Row = Row(date: YearMonthDay, source: Source, amount: real)

  /** By date; on one day statements come before payments. */
  function RowOrder(): (Row, Row) -> bool {
    (a: Row, b: Row) =>
      a.date.Before(b.date) || (a.date == b.date && (a.source.FromStatement? || b.source.FromPayment?))
  }

  lemma RowOrderIsTotal()
    ensures TotalOrder(RowOrder())
  {
  }

  function RowAmounts(rows: seq<Row>): seq<real> {
    if rows == [] then [] else [rows[0].amount] + RowAmounts(rows[1..])
  }

  function WhereaboutsOf(c: Cohort): Whereabouts {
    if c.leftOn.None? then InParcel else if c.disposal then DisposedOn(c.leftOn.value) else CarriedAway
  }

  /** What the statements take off, one row each. */
  function StatementRows(events: seq<AmitEvent>, quantity: real, c: Cohort): seq<Row> {
    if events == [] then []
    else
      [Row(events[0].statement.yearEnd, FromStatement,
           ReductionForUnits(events[0], quantity, c.units, WhereaboutsOf(c)))]
      + StatementRows(events[1..], quantity, c)
  }

  /** What the payments take off: a row for each that reaches the units, unless one cannot be
      netted. */
  function PaymentRows(payments: seq<Payment>, splits: seq<Rebase>, parcel: Parcel, c: Cohort): Option<seq<Row>> {
    if payments == [] then Some([])
    else
      var p, rest := payments[0], PaymentRows(payments[1..], splits, parcel, c);
      match Reaches(p, splits, parcel, c.leftOn)
      case NotReached => rest
      case OtherCurrency => None
      case Reached(x) => if rest.Some? then Some([Row(p.date, FromPayment, Times(x, c.units))] + rest.value) else None
  }

  /** The parcel's facts a cost base starts from. */
  datatype Costing = Costing(parcel: Parcel, quantity: real, initial: real, payments: seq<Payment>, splits: seq<Rebase>)

  type Costs = k: Costing | k.quantity > 0.0 && k.initial >= 0.0
    witness Costing(Payments.Parcel("", YearMonthDay(2000, 1, 1), YearMonthDay(2000, 1, 1), None), 1.0, 0.0, [], [])

  /** The units' share of the parcel's initial cost base. */
  function Prorated(k: Costs, units: real): real {
    k.initial * units / k.quantity
  }

  /** The adjusted cost base of a cohort's units. */
  function CostOf(k: Costs, events: seq<AmitEvent>, c: Cohort): Option<real> {
    var payments := PaymentRows(k.payments, k.splits, k.parcel, c);
    if payments.None? then None
    else
      Some(Walk(Prorated(k, c.units),
                RowAmounts(Sort(StatementRows(events, k.quantity, c) + payments.value, RowOrder()))))
  }

  // ----- Costing, step by step ---------------------------------------------------------------------

  method CostUnits(k: Costs, events: seq<AmitEvent>, c: Cohort) returns (cost: Option<real>)
    requires c.units >= 0.0
    ensures cost == CostOf(k, events, c)
  {
    var rows: seq<Row> := [];
    var i := 0;
    while i < |events|
      invariant 0 <= i <= |events|
      invariant rows + StatementRows(events[i..], k.quantity, c) == StatementRows(events, k.quantity, c)
    {
      assert events[i..][0] == events[i] && events[i..][1..] == events[i + 1..];
      rows := rows + [Row(events[i].statement.yearEnd, FromStatement,
                          ReductionForUnits(events[i], k.quantity, c.units, WhereaboutsOf(c)))];
      i := i + 1;
    }
    assert rows + [] == rows;
    var paid := PaidRows(k, c);
    if paid.None? { return None; }
    StartIsNotNegative(k, c.units);
    var balance, _ := ReductionWalk(Prorated(k, c.units), RowAmounts(Sort(rows + paid.value, RowOrder())));
    cost := Some(balance);
  }

  lemma StartIsNotNegative(k: Costs, units: real)
    requires units >= 0.0
    ensures Prorated(k, units) >= 0.0
  {
    var n := k.initial * units;
    assert n >= 0.0;
  }

  /** The rows still to come in front of which others stand. */
  function InFront(rows: seq<Row>, rest: Option<seq<Row>>): Option<seq<Row>> {
    if rest.Some? then Some(rows + rest.value) else None
  }

  method PaidRows(k: Costs, c: Cohort) returns (rows: Option<seq<Row>>)
    ensures rows == PaymentRows(k.payments, k.splits, k.parcel, c)
  {
    var done: seq<Row> := [];
    ghost var all := PaymentRows(k.payments, k.splits, k.parcel, c);
    assert k.payments[0..] == k.payments && (all.Some? ==> done + all.value == all.value);
    var i := 0;
    while i < |k.payments|
      invariant 0 <= i <= |k.payments|
      invariant InFront(done, PaymentRows(k.payments[i..], k.splits, k.parcel, c))
                == all
    {
      var p := k.payments[i];
      assert k.payments[i..][0] == p && k.payments[i..][1..] == k.payments[i + 1..];
      ghost var rest := PaymentRows(k.payments[i + 1..], k.splits, k.parcel, c);
      match Reaches(p, k.splits, k.parcel, c.leftOn) {
        case NotReached =>
        case OtherCurrency => return None;
        case Reached(x) =>
          var row := Row(p.date, FromPayment, Times(x, c.units));
          if rest.Some? { assert done + ([row] + rest.value) == (done + [row]) + rest.value; }
          done := done + [row];
      }
      i := i + 1;
    }
    assert done + [] == done;
    rows := Some(done);
  }

  // ----- What units cost -----------------------------------------------------------------------------

  /** The units' part of what the parcel cost. */
  predicate IsShare(start: real, units: real, k: Costs) {
    start * k.quantity == k.initial * units
  }

  lemma StartIsShare(k: Costs, units: real)
    ensures IsShare(Prorated(k, units), units, k)
  {
  }

  /** Units no event reached cost their share of what the parcel cost. */
  lemma UntouchedCost(k: Costs, c: Cohort)
    requires k.payments == []
    ensures CostOf(k, [], c).Some? && CostOf(k, [], c).value * k.quantity == k.initial * c.units
  {
    StartIsShare(k, c.units);
    assert Sort<Row>([], RowOrder()) == [];
  }

  function UnitsOf(cohorts: seq<Cohort>): real {
    if cohorts == [] then 0.0 else cohorts[0].units + UnitsOf(cohorts[1..])
  }

  /** What cohorts cost together, those that can be costed. */
  function CostTogether(k: Costs, cohorts: seq<Cohort>): real {
    if cohorts == [] then 0.0
    else (match CostOf(k, [], cohorts[0]) case Some(x) => x case None => 0.0) + CostTogether(k, cohorts[1..])
  }

  lemma {:induction false} TogetherIsShare(k: Costs, cohorts: seq<Cohort>)
    requires k.payments == []
    ensures CostTogether(k, cohorts) * k.quantity == k.initial * UnitsOf(cohorts)
  {
    if cohorts != [] {
      hide CostOf;
      TogetherIsShare(k, cohorts[1..]);
      UntouchedCost(k, cohorts[0]);
      SumsTimes(CostOf(k, [], cohorts[0]).value, CostTogether(k, cohorts[1..]), k.quantity);
      SumsTimes(cohorts[0].units, UnitsOf(cohorts[1..]), k.initial);
    }
  }

  lemma SumsTimes(a: real, b: real, x: real)
    ensures (a + b) * x == a * x + b * x && x * (a + b) == x * a + x * b
  {
  }

  /** However a parcel is divided, its parts cost what it cost. */
  lemma PartsCostTheWhole(k: Costs, cohorts: seq<Cohort>)
    requires k.payments == [] && UnitsOf(cohorts) == k.quantity
    ensures CostTogether(k, cohorts) == k.initial
  {
    TogetherIsShare(k, cohorts);
    SameFactor(CostTogether(k, cohorts), k.initial, k.quantity);
  }

  lemma SameFactor(a: real, b: real, x: real)
    requires a * x == b * x && x > 0.0
    ensures a == b
  {
    assert (a - b) * x == 0.0;
  }

  /** Rows in the order they arise: no later day before an earlier one, and on one day no payment
      before a statement. */
  ghost predicate AsTheyArise(rows: seq<Row>) {
    forall i, j :: 0 <= i < j < |rows| ==>
      && !rows[j].date.Before(rows[i].date)
      && (rows[i].date == rows[j].date ==> rows[i].source.FromStatement? || rows[j].source.FromPayment?)
  }

  function OfOneDay(date: YearMonthDay, source: Source): Row -> bool {
    (r: Row) => r.date == date && r.source == source
  }

  /** The same rows, those of one kind on one day in the same order. */
  ghost predicate SameRows(rows: seq<Row>, given: seq<Row>) {
    forall date, source :: Chosen(rows, OfOneDay(date, source)) == Chosen(given, OfOneDay(date, source))
  }

  /** What units cost: their share of the initial cost base, walked down by their rows as they
      arise. */
  lemma CostMeans(k: Costs, events: seq<AmitEvent>, c: Cohort) returns (rows: seq<Row>, start: real)
    requires CostOf(k, events, c).Some?
    ensures IsShare(start, c.units, k)
    ensures PaymentRows(k.payments, k.splits, k.parcel, c).Some?
    ensures var given := StatementRows(events, k.quantity, c) + PaymentRows(k.payments, k.splits, k.parcel, c).value;
            AsTheyArise(rows) && SameRows(rows, given)
    ensures CostOf(k, events, c).value == Walk(start, RowAmounts(rows))
  {
    var given := StatementRows(events, k.quantity, c) + PaymentRows(k.payments, k.splits, k.parcel, c).value;
    rows, start := Sort(given, RowOrder()), Prorated(k, c.units);
    StartIsShare(k, c.units);
    SortedArise(given);
  }

  lemma SortedArise(given: seq<Row>)
    ensures AsTheyArise(Sort(given, RowOrder())) && SameRows(Sort(given, RowOrder()), given)
  {
    var rows := Sort(given, RowOrder());
    RowOrderIsTotal();
    SortSorted(given, RowOrder());
    forall i, j | 0 <= i < j < |rows|
      ensures !rows[j].date.Before(rows[i].date)
      ensures rows[i].date == rows[j].date ==> rows[i].source.FromStatement? || rows[j].source.FromPayment?
    {
      assert RowOrder()(rows[i], rows[j]);
    }
    forall date, source ensures Chosen(rows, OfOneDay(date, source)) == Chosen(given, OfOneDay(date, source)) {
      SortKeepsOrder(given, RowOrder(), OfOneDay(date, source));
    }
  }

  function Taken(rows: seq<Row>): real {
    if rows == [] then 0.0 else rows[0].amount + Taken(rows[1..])
  }

  /** What is left is the share less every reduction in full, plus the gains they ran past nil by. */
  lemma CostReconciles(k: Costs, events: seq<AmitEvent>, c: Cohort) returns (start: real, gains: real)
    requires c.units >= 0.0 && CostOf(k, events, c).Some?
    ensures IsShare(start, c.units, k)
    ensures gains >= 0.0 && CostOf(k, events, c).value >= 0.0
    ensures PaymentRows(k.payments, k.splits, k.parcel, c).Some?
    ensures var taken := Taken(StatementRows(events, k.quantity, c))
                         + Taken(PaymentRows(k.payments, k.splits, k.parcel, c).value);
            CostOf(k, events, c).value == start - taken + gains
  {
    CostIsWalk(k, events, c);
    hide *;
    var a, b := StatementRows(events, k.quantity, c), PaymentRows(k.payments, k.splits, k.parcel, c).value;
    start := Prorated(k, c.units);
    StartIsShare(k, c.units);
    StartIsNotNegative(k, c.units);
    var amounts := RowAmounts(Sort(a + b, RowOrder()));
    WalkConserves(start, amounts);
    gains := Sum(Excesses(start, amounts));
    SortTakes(a + b);
    TakenBoth(a, b);
  }

  lemma CostIsWalk(k: Costs, events: seq<AmitEvent>, c: Cohort)
    requires CostOf(k, events, c).Some?
    ensures PaymentRows(k.payments, k.splits, k.parcel, c).Some?
    ensures var given := StatementRows(events, k.quantity, c) + PaymentRows(k.payments, k.splits, k.parcel, c).value;
            CostOf(k, events, c).value == Walk(Prorated(k, c.units), RowAmounts(Sort(given, RowOrder())))
  {
  }

  lemma {:induction false} InsertTakes(x: Row, s: seq<Row>)
    ensures Sum(RowAmounts(Insert(x, s, RowOrder()))) == x.amount + Sum(RowAmounts(s))
  {
    if s != [] && !RowOrder()(x, s[0]) {
      InsertTakes(x, s[1..]);
      assert Insert(x, s, RowOrder())[1..] == Insert(x, s[1..], RowOrder());
    } else {
      assert ([x] + s)[1..] == s && RowAmounts([x] + s)[1..] == RowAmounts(s);
    }
  }

  lemma {:induction false} SortTakes(s: seq<Row>)
    ensures Sum(RowAmounts(Sort(s, RowOrder()))) == Taken(s)
  {
    if s != [] {
      SortTakes(s[1..]);
      InsertTakes(s[0], Sort(s[1..], RowOrder()));
    }
  }

  lemma {:induction false} TakenBoth(a: seq<Row>, b: seq<Row>)
    ensures Taken(a + b) == Taken(a) + Taken(b)
  {
    if a == [] { assert a + b == b; } else {
      assert (a + b)[1..] == a[1..] + b;
      TakenBoth(a[1..], b);
    }
  }

  // ----- What each event takes off -----------------------------------------------------------------

  /** One row a statement, on the day its year ends. */
  lemma {:induction false} EachStatementOnce(events: seq<AmitEvent>, quantity: real, c: Cohort)
    ensures var rows := StatementRows(events, quantity, c);
            && |rows| == |events|
            && forall i :: 0 <= i < |rows| ==>
                 rows[i].date == events[i].statement.yearEnd && rows[i].source.FromStatement?
  {
    if events != [] { EachStatementOnce(events[1..], quantity, c); }
  }

  function StillHeld(units: real): Cohort {
    Cohort(None, None, false, units)
  }

  function Consuming(x: Consumption): Cohort {
    Cohort(Some(x.date), Some(x.date), x.disposal, x.units)
  }

  /** What one statement takes off the units a ledger consumed. */
  function TakenOff(s: AmitEvent, quantity: real, ledger: seq<Consumption>): real {
    if ledger == [] then 0.0
    else Taken(StatementRows([s], quantity, Consuming(ledger[0]))) + TakenOff(s, quantity, ledger[1..])
  }

  lemma OneStatement(e: AmitEvent, quantity: real, c: Cohort)
    ensures Taken(StatementRows([e], quantity, c)) == ReductionForUnits(e, quantity, c.units, WhereaboutsOf(c))
  {
    hide ReductionForUnits, WhereaboutsOf;
    assert StatementRows([], quantity, c) == [];
    assert [e][1..] == [] && StatementRows([e], quantity, c)[1..] == [];
  }

  lemma {:induction false} TakenOffIs(e: AmitEvent, quantity: real, ledger: seq<Consumption>)
    ensures TakenOff(e, quantity, ledger) == ReductionOf(e, quantity, ledger)
  {
    if ledger != [] {
      hide ReductionForUnits, StatementRows;
      OneStatement(e, quantity, Consuming(ledger[0]));
      TakenOffIs(e, quantity, ledger[1..]);
    }
  }

  /** Over the units still in the parcel and every lot that left it, a statement takes off what it
      says on each unit it covers, once. */
  lemma StatementReachesAll(s: Statement, quantity: real, ledger: seq<Consumption>)
    requires Wholesome(ledger) && Consumed(ledger) <= quantity && s.covered >= 0.0 && s.yearEnd.Valid()
    ensures var e := EventOf(s, ledger);
            Taken(StatementRows([e], quantity, StillHeld(quantity - Consumed(ledger)))) + TakenOff(e, quantity, ledger)
            == s.perUnit * Min(s.covered, quantity - DisposedBefore(ledger, FyStart(s.yearEnd)))
  {
    hide StatementRows, ReductionForUnits, TakenOff, EventOf, ReductionOf, Min;
    var e := EventOf(s, ledger);
    OneStatement(e, quantity, StillHeld(quantity - Consumed(ledger)));
    TakenOffIs(e, quantity, ledger);
    ReductionConserved(s, quantity, ledger);
  }

  /** What a payment takes off units acquired: its figure, re-based to them. */
  function PaidRow(p: Payment, splits: seq<Rebase>, parcel: Parcel, units: real): Row {
    Row(p.date, FromPayment, Times(Times(p.perUnit, Ratio(splits, parcel.traded, p.date)), units))
  }

  predicate AreRowsOf(rows: seq<Row>, due: seq<Payment>, splits: seq<Rebase>, parcel: Parcel, units: real) {
    |rows| == |due| && forall i :: 0 <= i < |due| ==> rows[i] == PaidRow(due[i], splits, parcel, units)
  }

  lemma OneRowMore(rows: seq<Row>, p: Payment, due: seq<Payment>, splits: seq<Rebase>, parcel: Parcel, units: real)
    requires AreRowsOf(rows, due, splits, parcel, units)
    ensures AreRowsOf([PaidRow(p, splits, parcel, units)] + rows, [p] + due, splits, parcel, units)
  {
    hide PaidRow;
  }

  /** One row for each payment that is due while the units were held, on its own day, re-based to
      the units acquired; and none at all if one of those is in another currency. */
  lemma {:induction false} EachPaymentOnce(payments: seq<Payment>, splits: seq<Rebase>, parcel: Parcel, c: Cohort)
    ensures var rows := PaymentRows(payments, splits, parcel, c);
            var due := Chosen(payments, p => Due(p, parcel, c.leftOn));
            && (rows.Some? <==> forall p :: p in due ==> p.currency == parcel.currency)
            && (rows.Some? ==> AreRowsOf(rows.value, due, splits, parcel, c.units))
  {
    hide Due, Ratio, Times;
    if payments == [] {
    } else {
      hide AreRowsOf;
      var p := payments[0];
      ReachedIff(p, splits, parcel, c.leftOn);
      EachPaymentOnce(payments[1..], splits, parcel, c);
      if Reaches(p, splits, parcel, c.leftOn).Reached? && PaymentRows(payments[1..], splits, parcel, c).Some? {
        OneRowMore(PaymentRows(payments[1..], splits, parcel, c).value, p,
                   Chosen(payments[1..], p => Due(p, parcel, c.leftOn)), splits, parcel, c.units);
      }
    }
  }

  // ----- A rehearsed cost base ---------------------------------------------------------------------

  /** Units stated on a later day, in the units the parcel was acquired in. */
  function AsAcquired(units: real, k: Costs, onDay: YearMonthDay): real {
    units / Ratio(k.splits, k.parcel.traded, onDay)
  }

  function Sold(units: real, saleDate: YearMonthDay, settled: YearMonthDay): Cohort {
    Cohort(Some(saleDate), Some(settled), true, units)
  }

  /** Units about to be sold stand where the ledger's entry for them will, and re-based to the day
      of sale they are the units stated. */
  lemma SaleIsADisposal(units: real, k: Costs, saleDate: YearMonthDay, settled: YearMonthDay)
    ensures WhereaboutsOf(Sold(units, saleDate, settled)) == WhereOf(Consumption(saleDate, true, units))
    ensures Sold(units, saleDate, settled).leftOn == Some(saleDate)
    ensures Times(AsAcquired(units, k, saleDate), Ratio(k.splits, k.parcel.traded, saleDate)) == units
  {
    hide Ratio;
  }

  /** The adjusted cost base of units about to be sold, before any sale is recorded. */
  function RehearsedCost(k: Costs, statements: seq<Statement>, ledger: seq<Consumption>, units: real,
                         saleDate: YearMonthDay, settled: YearMonthDay): Option<real> {
    var acquired := AsAcquired(units, k, saleDate);
    CostOf(k, EventsWithDisposal(EventsOf(statements, ledger), acquired, saleDate), Sold(acquired, saleDate, settled))
  }

  /** The adjusted cost base the realised-gains report gives one recorded sale of a ledger. */
  function RecordedCost(k: Costs, statements: seq<Statement>, ledger: seq<Consumption>, sale: Consumption,
                        settled: YearMonthDay): Option<real> {
    CostOf(k, EventsOf(statements, ledger), Sold(sale.units, sale.date, settled))
  }

  /** The figure read off an estimate is the figure the report gives once the sale is entered,
      wherever in the ledger it falls: statements, payments, splits and refusals included. */
  lemma EstimateIsReported(k: Costs, statements: seq<Statement>, ledger: seq<Consumption>, i: nat, units: real,
                           saleDate: YearMonthDay, settled: YearMonthDay)
    requires i <= |ledger|
    ensures var sale := Consumption(saleDate, true, AsAcquired(units, k, saleDate));
            RehearsedCost(k, statements, ledger, units, saleDate, settled)
            == RecordedCost(k, statements, ledger[..i] + [sale] + ledger[i..], sale, settled)
  {
    RehearsingIsRecording(statements, ledger, i, AsAcquired(units, k, saleDate), saleDate);
  }

  // ----- The two reports walk alike -----------------------------------------------------------------

  /** The rows the gains report walks: every payment the parcel is entitled to, at nothing where the
      units were gone when it was paid. */
  function GainRows(payments: seq<Payment>, splits: seq<Rebase>, parcel: Parcel, c: Cohort): Option<seq<Row>> {
    if payments == [] then Some([])
    else
      var p, rest := payments[0], GainRows(payments[1..], splits, parcel, c);
      match Reaches(p, splits, parcel, None)
      case NotReached => rest
      case OtherCurrency => None
      case Reached(x) =>
        if rest.Some? then Some([Row(p.date, FromPayment, ReductionOn(p, x, c))] + rest.value) else None
  }

  /** `b` is `a` without some rows of nothing. */
  ghost predicate Thinned(a: seq<Row>, b: seq<Row>) {
    if a == [] then b == []
    else
      || (b != [] && a[0] == b[0] && Thinned(a[1..], b[1..]))
      || (a[0].amount == 0.0 && Thinned(a[1..], b))
  }

  lemma {:induction false} ThinnedMembers(a: seq<Row>, b: seq<Row>)
    requires Thinned(a, b)
    ensures forall r :: r in b ==> r in a
  {
    if a != [] {
      if b != [] && a[0] == b[0] && Thinned(a[1..], b[1..]) {
        ThinnedMembers(a[1..], b[1..]);
        assert forall r :: r in b ==> r == b[0] || r in b[1..];
      } else {
        ThinnedMembers(a[1..], b);
      }
    }
  }

  lemma ThinnedKeeps(x: Row, a: seq<Row>, b: seq<Row>)
    requires Thinned(a, b)
    ensures Thinned([x] + a, [x] + b)
    ensures x.amount == 0.0 ==> Thinned([x] + a, b)
  {
    assert ([x] + a)[1..] == a && ([x] + b)[1..] == b;
  }

  /** What goes in front of all the rows goes in front of those left of them. */
  lemma GoesInFront(x: Row, a: seq<Row>, b: seq<Row>)
    requires Thinned(a, b) && SortedBy(a, RowOrder()) && a != [] && RowOrder()(x, a[0])
    ensures Insert(x, b, RowOrder()) == [x] + b && Insert(x, a, RowOrder()) == [x] + a
  {
    ThinnedMembers(a, b);
    if b != [] {
      assert b[0] in b;
      var i :| 0 <= i < |a| && a[i] == b[0];
      RowOrderIsTotal();
      assert RowOrder()(a[0], b[0]) && RowOrder()(x, b[0]);
    }
  }

  lemma {:induction false} InsertThinned(x: Row, a: seq<Row>, b: seq<Row>)
    requires Thinned(a, b) && SortedBy(a, RowOrder())
    ensures Thinned(Insert(x, a, RowOrder()), Insert(x, b, RowOrder()))
  {
    var le := RowOrder();
    if a == [] {
    } else if le(x, a[0]) {
      GoesInFront(x, a, b);
      ThinnedKeeps(x, a, b);
    } else if b != [] && a[0] == b[0] && Thinned(a[1..], b[1..]) {
      InsertThinned(x, a[1..], b[1..]);
      ThinnedKeeps(a[0], Insert(x, a[1..], le), Insert(x, b[1..], le));
    } else {
      InsertThinned(x, a[1..], b);
      ThinnedKeeps(a[0], Insert(x, a[1..], le), Insert(x, b, le));
    }
  }

  lemma {:induction false} InsertNothing(x: Row, a: seq<Row>, b: seq<Row>)
    requires Thinned(a, b) && x.amount == 0.0
    ensures Thinned(Insert(x, a, RowOrder()), b)
  {
    var le := RowOrder();
    if a == [] || le(x, a[0]) {
      ThinnedKeeps(x, a, b);
    } else if b != [] && a[0] == b[0] && Thinned(a[1..], b[1..]) {
      InsertNothing(x, a[1..], b[1..]);
      ThinnedKeeps(a[0], Insert(x, a[1..], le), b[1..]);
      assert b == [a[0]] + b[1..];
    } else {
      InsertNothing(x, a[1..], b);
      ThinnedKeeps(a[0], Insert(x, a[1..], le), b);
    }
  }

  lemma {:induction false} SortThinned(a: seq<Row>, b: seq<Row>)
    requires Thinned(a, b)
    ensures Thinned(Sort(a, RowOrder()), Sort(b, RowOrder()))
  {
    if a != [] {
      RowOrderIsTotal();
      SortSorted(a[1..], RowOrder());
      if b != [] && a[0] == b[0] && Thinned(a[1..], b[1..]) {
        SortThinned(a[1..], b[1..]);
        InsertThinned(a[0], Sort(a[1..], RowOrder()), Sort(b[1..], RowOrder()));
      } else {
        SortThinned(a[1..], b);
        InsertNothing(a[0], Sort(a[1..], RowOrder()), Sort(b, RowOrder()));
      }
    }
  }

  /** Rows of nothing change no balance. */
  lemma {:induction false} WalkThinned(balance: real, a: seq<Row>, b: seq<Row>)
    requires Thinned(a, b) && balance >= 0.0
    ensures Walk(balance, RowAmounts(a)) == Walk(balance, RowAmounts(b))
    decreases |a|
  {
    if a != [] {
      assert RowAmounts(a)[1..] == RowAmounts(a[1..]);
      if b != [] && a[0] == b[0] && Thinned(a[1..], b[1..]) {
        assert RowAmounts(b)[1..] == RowAmounts(b[1..]);
        WalkThinned(Max(balance - a[0].amount, 0.0), a[1..], b[1..]);
      } else {
        WalkThinned(balance, a[1..], b);
      }
    }
  }

  /** A payment the cost base leaves out comes to nothing in the gains report. */
  lemma {:induction false} PaymentsThinned(payments: seq<Payment>, splits: seq<Rebase>, parcel: Parcel, c: Cohort)
    requires GainRows(payments, splits, parcel, c).Some?
    ensures PaymentRows(payments, splits, parcel, c).Some?
    ensures Thinned(GainRows(payments, splits, parcel, c).value, PaymentRows(payments, splits, parcel, c).value)
  {
    if payments != [] {
      var p := payments[0];
      PaymentsThinned(payments[1..], splits, parcel, c);
      if c.leftOn.Some? { DatesCompare(c.leftOn.value, p.date); }
      if Reaches(p, splits, parcel, None).Reached? {
        var a := GainRows(payments[1..], splits, parcel, c).value;
        var b := PaymentRows(payments[1..], splits, parcel, c).value;
        ThinnedKeeps(Row(p.date, FromPayment, ReductionOn(p, Reaches(p, splits, parcel, None).perUnit, c)), a, b);
      }
    }
  }

  lemma {:induction false} SameFront(front: seq<Row>, a: seq<Row>, b: seq<Row>)
    requires Thinned(a, b)
    ensures Thinned(front + a, front + b)
  {
    if front == [] {
      assert front + a == a && front + b == b;
    } else {
      SameFront(front[1..], a, b);
      ThinnedKeeps(front[0], front[1..] + a, front[1..] + b);
      assert front + a == [front[0]] + (front[1..] + a) && front + b == [front[0]] + (front[1..] + b);
    }
  }

  /** Where the gains report can walk a cohort at all, its walk ends on the balance the cohort's
      units are costed at: both agree on which event exhausted the cost base. */
  lemma WalksAgree(k: Costs, events: seq<AmitEvent>, c: Cohort)
    requires c.units >= 0.0 && GainRows(k.payments, k.splits, k.parcel, c).Some?
    ensures var rows := StatementRows(events, k.quantity, c) + GainRows(k.payments, k.splits, k.parcel, c).value;
            CostOf(k, events, c) == Some(Walk(Prorated(k, c.units), RowAmounts(Sort(rows, RowOrder()))))
  {
    var front := StatementRows(events, k.quantity, c);
    PaymentsThinned(k.payments, k.splits, k.parcel, c);
    var a, b := GainRows(k.payments, k.splits, k.parcel, c).value, PaymentRows(k.payments, k.splits, k.parcel, c).value;
    SameFront(front, a, b);
    SortThinned(front + a, front + b);
    StartIsNotNegative(k, c.units);
    WalkThinned(Prorated(k, c.units), Sort(front + a, RowOrder()), Sort(front + b, RowOrder()));
  }
}
