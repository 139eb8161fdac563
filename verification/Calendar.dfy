/**
 * The proleptic Gregorian calendar: dates, their order, their day ordinals,
 * and month arithmetic that clamps a day the target month lacks.
 */
module Calendar {

  predicate IsLeap(y: int) {
    y % 4 == 0 && (y % 100 != 0 || y % 400 == 0)
  }

  function DaysIn(y: int, m: int): (n: int)
    requires 1 <= m <= 12
    ensures 28 <= n <= 31
  {
    if m == 2 then (if IsLeap(y) then 29 else 28)
    else if m == 4 || m == 6 || m == 9 || m == 11 then 30
    else 31
  }

  /** The months' lengths, as the Gregorian calendar has them. */
  lemma MonthLengths(y: int, m: int)
    requires 1 <= m <= 12
    ensures var february := if y % 400 == 0 || (y % 4 == 0 && y % 100 != 0) then 29 else 28;
            DaysIn(y, m) == [31, february, 31, 30, 31, 30, 31, 31, 30, 31, 30, 31][m - 1]
  {
  }

  datatype YearMonthDay = YearMonthDay(year: int, month: int, day: int) {
    predicate Valid() {
      1 <= month <= 12 && 1 <= day <= DaysIn(year, month)
    }

    predicate Before(other: YearMonthDay) {
      year < other.year
      || (year == other.year && month < other.month)
      || (year == other.year && month == other.month && day < other.day)
    }
  }

  type Date = d: YearMonthDay | d.Valid() witness YearMonthDay(2000, 1, 1)

  /** The day after `d`. */
  function Succ(d: Date): (r: Date)
    ensures d.Before(r)
  {
    if d.day < DaysIn(d.year, d.month) then YearMonthDay(d.year, d.month, d.day + 1)
    else if d.month < 12 then YearMonthDay(d.year, d.month + 1, 1)
    else YearMonthDay(d.year + 1, 1, 1)
  }

  /** The same month and day `n` years on, the day clamped to the target month's length. */
  function AddYears(d: Date, n: int): (r: Date)
    ensures r.year == d.year + n && r.month == d.month
  {
    var last := DaysIn(d.year + n, d.month);
    YearMonthDay(d.year + n, d.month, if d.day <= last then d.day else last)
  }

  /** Days in the year before the first of month `m`. */
  function DaysBeforeMonth(y: int, m: int): (n: int)
    requires 1 <= m <= 12
    ensures 28 * (m - 1) <= n <= 31 * (m - 1)
  {
    if m == 1 then 0 else DaysBeforeMonth(y, m - 1) + DaysIn(y, m - 1)
  }

  /** Days before 1 January of year `y`, counted from a fixed origin. */
  function DaysBeforeYear(y: int): int {
    365 * (y - 1) + (y - 1) / 4 - (y - 1) / 100 + (y - 1) / 400
  }

  /** The day ordinal: consecutive dates have consecutive ordinals. */
  function Ordinal(d: Date): int {
    DaysBeforeYear(d.year) + DaysBeforeMonth(d.year, d.month) + d.day
  }

  /** A quotient steps exactly at the multiples of its divisor. */
  lemma DivStep(y: int, d: int)
    requires d > 0
    ensures y / d == (y - 1) / d + (if y % d == 0 then 1 else 0)
  {
    var q, r := (y - 1) / d, (y - 1) % d;
    assert y - 1 == d * q + r;
    if r + 1 < d {
      QuotientUnique(y, d, q, r + 1);
    } else {
      assert y == d * (q + 1);
      QuotientUnique(y, d, q + 1, 0);
    }
  }

  lemma QuotientUnique(x: int, d: int, q: int, r: int)
    requires 0 <= r < d && x == d * q + r
    ensures x / d == q && x % d == r
  {
    var e := x / d - q;
    assert d * e == r - x % d;
    assert -d < d * e < d;
    assert e == 0;
  }

  lemma YearLength(y: int)
    ensures DaysBeforeYear(y + 1) == DaysBeforeYear(y) + (if IsLeap(y) then 366 else 365)
  {
    DivStep(y, 4);
    DivStep(y, 100);
    DivStep(y, 400);
  }

  /** Only 29 February moves the months after it. */
  lemma {:induction false} LeapShift(x: int, y: int, m: int)
    requires 1 <= m <= 12
    ensures DaysBeforeMonth(x, m) - (if m > 2 && IsLeap(x) then 1 else 0)
            == DaysBeforeMonth(y, m) - (if m > 2 && IsLeap(y) then 1 else 0)
  {
    if m > 1 { LeapShift(x, y, m - 1); }
  }

  lemma DecemberStart(y: int)
    ensures DaysBeforeMonth(y, 12) == if IsLeap(y) then 335 else 334
  {
    LeapShift(y, 1, 12);
    assert DaysBeforeMonth(1, 4) == 90;
    assert DaysBeforeMonth(1, 8) == 212;
  }

  /** Ordinals count days: one step of the calendar is one step of the ordinal. */
  lemma SuccIsNextOrdinal(d: Date)
    ensures Ordinal(Succ(d)) == Ordinal(d) + 1
  {
    if d.day == DaysIn(d.year, d.month) && d.month == 12 {
      DecemberStart(d.year);
      YearLength(d.year);
    }
  }

  lemma {:induction false} MonthsMonotone(y: int, m: int, n: int)
    requires 1 <= m < n <= 12
    ensures DaysBeforeMonth(y, m) + DaysIn(y, m) <= DaysBeforeMonth(y, n)
    decreases n
  {
    if m < n - 1 { MonthsMonotone(y, m, n - 1); }
  }

  lemma {:induction false} YearsMonotone(x: int, y: int)
    requires x < y
    ensures DaysBeforeYear(x) + (if IsLeap(x) then 366 else 365) <= DaysBeforeYear(y)
    decreases y - x
  {
    if x == y - 1 { YearLength(x); } else { YearsMonotone(x, y - 1); YearLength(y - 1); }
  }

  lemma OrdinalWithinYear(d: Date)
    ensures DaysBeforeYear(d.year) < Ordinal(d)
    ensures Ordinal(d) <= DaysBeforeYear(d.year) + (if IsLeap(d.year) then 366 else 365)
  {
    DecemberStart(d.year);
    if d.month < 12 { MonthsMonotone(d.year, d.month, 12); }
  }

  /** The calendar order is the order of the ordinals. */
  lemma OrdinalOrder(a: Date, b: Date)
    ensures a.Before(b) <==> Ordinal(a) < Ordinal(b)
    ensures a == b <==> Ordinal(a) == Ordinal(b)
  {
    if a.Before(b) { OrdinalStrict(a, b); }
    if b.Before(a) { OrdinalStrict(b, a); }
  }

  lemma OrdinalStrict(a: Date, b: Date)
    requires a.Before(b)
    ensures Ordinal(a) < Ordinal(b)
  {
    if a.year < b.year {
      YearsMonotone(a.year, b.year);
      OrdinalWithinYear(a);
      OrdinalWithinYear(b);
    } else if a.month < b.month {
      MonthsMonotone(a.year, a.month, b.month);
    }
  }
}
