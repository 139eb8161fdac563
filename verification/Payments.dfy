/**
 * Return-of-capital payments: which units one reaches, and what becomes of it when the units were
 * sold between its record date and the day it was paid.
 */
module Payments {
  import opened Calendar
  import opened Common
  import opened Disposals

  datatype Split = Split(date: YearMonthDay, after: real, before: real)

  type Rebase = s: Split | s.after > 0.0 && s.before > 0.0 witness Split(YearMonthDay(2000, 1, 1), 1.0, 1.0)

  datatype Payment = Payment(date: YearMonthDay, perUnit: real, currency: string, recordDate: Option<YearMonthDay>)

  /** The operation a replacement parcel came of, and when its units joined this register. */
  datatype Rollover = Rollover(on: YearMonthDay, registeredFrom: YearMonthDay)

  datatype Parcel = Parcel(currency: string, traded: YearMonthDay, settled: YearMonthDay, rollover: Option<Rollover>)
  {
    function RegisteredFrom(): YearMonthDay {
      if rollover.Some? then rollover.value.registeredFrom else settled
    }
  }

  /** Units at the later date for one at the earlier: every split after `from`, no later than
      `upTo`. */
  function Ratio(splits: seq<Rebase>, from: YearMonthDay, upTo: YearMonthDay): (r: real)
    ensures r > 0.0
  {
    if splits == [] then 1.0
    else
      var rest := Ratio(splits[1..], from, upTo);
      if OnOrBefore(splits[0].date, from) || upTo.Before(splits[0].date) then rest
      else Times(splits[0].after / splits[0].before, rest)
  }

  function Times(x: real, y: real): (r: real)
    ensures x > 0.0 && y > 0.0 ==> r > 0.0
  {
    x * y
  }

  /** What a payment comes to for each as-acquired unit, nothing, or amounts that cannot be netted. */
  datatype Reach = NotReached | Reached(perUnit: real) | OtherCurrency

  /** Entitled by its record date, or without one by the day it is paid, and still held then. */
  predicate Entitled(p: Payment, parcel: Parcel) {
    OnOrBefore(parcel.RegisteredFrom(), if p.recordDate.Some? then p.recordDate.value else p.date)
  }

  function Reaches(p: Payment, splits: seq<Rebase>, parcel: Parcel, upTo: Option<YearMonthDay>): Reach {
    if !Entitled(p, parcel) || (upTo.Some? && upTo.value.Before(p.date)) then NotReached
    else if parcel.rollover.Some? && OnOrBefore(p.date, parcel.rollover.value.on) then NotReached
    else if p.currency != parcel.currency then OtherCurrency
    else Reached(Times(p.perUnit, Ratio(splits, parcel.traded, p.date)))
  }

  /** The units were on the register by the payment's record date, or by its day where it has none;
      the payment is no later than the day looked back from and, for a replacement parcel, is later
      than the operation it came of. */
  predicate Due(p: Payment, parcel: Parcel, upTo: Option<YearMonthDay>) {
    var asked := if p.recordDate.Some? then p.recordDate.value else p.date;
    && (upTo.None? || !upTo.value.Before(p.date))
    && match parcel.rollover
       case Some(o) => !asked.Before(o.registeredFrom) && o.on.Before(p.date)
       case None => !asked.Before(parcel.settled)
  }

  /** Which payments reach a parcel, and which cannot be netted. */
  lemma ReachedIff(p: Payment, splits: seq<Rebase>, parcel: Parcel, upTo: Option<YearMonthDay>)
    ensures var r := Reaches(p, splits, parcel, upTo);
            && (r.Reached? <==> Due(p, parcel, upTo) && p.currency == parcel.currency)
            && (r.OtherCurrency? <==> Due(p, parcel, upTo) && p.currency != parcel.currency)
  {
  }

  /** One split re-bases the units of every earlier day, up to the day looked at. */
  lemma RatioOfOne(s: Rebase, from: YearMonthDay, upTo: YearMonthDay)
    ensures Times(Ratio([s], from, upTo), s.before)
            == if from.Before(s.date) && !upTo.Before(s.date) then s.after else s.before
  {
    DatesCompare(from, s.date);
    assert Times(1.0, 1.0) == 1.0;
  }

  /** Several splits re-base in turn. */
  lemma {:induction false} RatioJoins(a: seq<Rebase>, b: seq<Rebase>, from: YearMonthDay, upTo: YearMonthDay)
    ensures Ratio(a + b, from, upTo) == Times(Ratio(a, from, upTo), Ratio(b, from, upTo))
  {
    if a == [] {
      assert a + b == b;
    } else {
      assert (a + b)[1..] == a[1..] + b;
      RatioJoins(a[1..], b, from, upTo);
      hide Times;
      TimesAlong(a[0].after / a[0].before, Ratio(a[1..], from, upTo), Ratio(b, from, upTo));
    }
  }

  /** Units with one history: when they left the parcel, when they left the register, and whether
      a real disposal took them. */
  datatype Cohort = Cohort(leftOn: Option<YearMonthDay>, leftRegister: Option<YearMonthDay>, disposal: bool,
                           units: real)

  /** The payment reduces the units' cost base: they were held when it was paid. */
  predicate Reduces(p: Payment, c: Cohort) {
    c.leftOn.None? || OnOrBefore(p.date, c.leftOn.value)
  }

  /** The payment ends a right to receive it, CGT event C2: the units were registered at its record
      date and disposed of before it was paid. */
  predicate EndsRight(p: Payment, c: Cohort) {
    && p.recordDate.Some? && c.disposal
    && c.leftRegister.Some? && p.recordDate.value.Before(c.leftRegister.value)
    && c.leftOn.Some? && c.leftOn.value.Before(p.date)
  }

  /** What comes off the cost base of a cohort's units, and what is a gain in whole. */
  function ReductionOn(p: Payment, perUnit: real, c: Cohort): real {
    if Reduces(p, c) then Times(perUnit, c.units) else 0.0
  }

  function RightEnded(p: Payment, perUnit: real, c: Cohort): Option<real> {
    if EndsRight(p, c) then Some(Times(perUnit, c.units)) else None
  }

  lemma DatesCompare(a: YearMonthDay, b: YearMonthDay)
    ensures a.Before(b) <==> !OnOrBefore(b, a)
  {
  }

  /** A payment never both reduces a cost base and is a gain in whole. It is neither only for units
      gone before it was paid that were off the register by its record date, that a rollover took,
      or for which no record date is known. */
  lemma PaymentCountsOnce(p: Payment, perUnit: real, c: Cohort)
    requires c.leftOn.Some? <==> c.leftRegister.Some?
    ensures !(Reduces(p, c) && EndsRight(p, c))
    ensures !Reduces(p, c) && !EndsRight(p, c)
            <==> && c.leftOn.Some? && c.leftOn.value.Before(p.date)
                 && (p.recordDate.None? || !c.disposal || OnOrBefore(c.leftRegister.value, p.recordDate.value))
  {
    if c.leftOn.Some? {
      DatesCompare(c.leftOn.value, p.date);
      if p.recordDate.Some? { DatesCompare(p.recordDate.value, c.leftRegister.value); }
    }
  }

  /** Of the payment on a cohort's units: it comes off their cost base, unless they were gone by the
      day it was paid; then it is a gain in whole if a disposal took them off the register after its
      record date, and nothing otherwise. */
  lemma PaymentTakes(p: Payment, perUnit: real, c: Cohort)
    requires c.leftOn.Some? <==> c.leftRegister.Some?
    ensures var whole, gone := Times(perUnit, c.units), c.leftOn.Some? && c.leftOn.value.Before(p.date);
            var owed := gone && c.disposal && p.recordDate.Some? && p.recordDate.value.Before(c.leftRegister.value);
            && ReductionOn(p, perUnit, c) == (if gone then 0.0 else whole)
            && RightEnded(p, perUnit, c) == (if owed then Some(whole) else None)
  {
    if c.leftOn.Some? { DatesCompare(c.leftOn.value, p.date); }
  }

  lemma TimesAlong(x: real, y: real, z: real)
    ensures Times(Times(x, y), z) == Times(x, Times(y, z))
  {
  }

  /** Per as-acquired unit is per unit then held: a split between takes nothing and adds nothing. */
  lemma PaidOnUnitsThen(p: Payment, splits: seq<Rebase>, parcel: Parcel, units: real)
    ensures var r := Reaches(p, splits, parcel, None);
            r.Reached? ==> Times(r.perUnit, units)
                           == Times(p.perUnit, Times(Ratio(splits, parcel.traded, p.date), units))
  {
    TimesAlong(p.perUnit, Ratio(splits, parcel.traded, p.date), units);
  }

  /** Re-basing in two legs is re-basing in one. */
  lemma {:induction false} RatioSplits(splits: seq<Rebase>, from: YearMonthDay, mid: YearMonthDay, upTo: YearMonthDay)
    requires OnOrBefore(from, mid) && OnOrBefore(mid, upTo)
    ensures Ratio(splits, from, upTo) == Times(Ratio(splits, from, mid), Ratio(splits, mid, upTo))
  {
    if splits != [] {
      var s, rest := splits[0], splits[1..];
      RatioSplits(rest, from, mid, upTo);
      hide Times;
      var f, a, b := s.after / s.before, Ratio(rest, from, mid), Ratio(rest, mid, upTo);
      DatesCompare(mid, s.date);
      if !OnOrBefore(s.date, from) && !upTo.Before(s.date) {
        if mid.Before(s.date) { Regrouped(f, a, b); } else { TimesAlong(f, a, b); }
      }
    } else {
      assert Times(1.0, 1.0) == 1.0;
    }
  }

  lemma Regrouped(f: real, a: real, b: real)
    ensures Times(f, Times(a, b)) == Times(a, Times(f, b))
  {
  }
}
