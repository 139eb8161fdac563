/**
 * The 12-month ownership rule of the CGT discount: the one comparison
 * `DiscountEligible`, and what it means when the owned days are counted out.
 */
module CgtDiscount {
  import opened Calendar

  /** `event_date - Months::new(12) > acquired`, with the month arithmetic clamping. */
  predicate DiscountEligible(acquired: Date, event: Date) {
    acquired.Before(AddYears(event, -1))
  }

  /** The form the source rejects: the anniversary counted forward from the acquisition. */
  predicate EligibleForward(acquired: Date, event: Date) {
    AddYears(acquired, 1).Before(event)
  }

  /** The anniversary of a period's first day: the same month and day a year on, or
      1 March for a period starting on 29 February. */
  function Anniversary(first: Date): (r: Date) {
    if first.day <= DaysIn(first.year + 1, first.month)
    then YearMonthDay(first.year + 1, first.month, first.day)
    else YearMonthDay(first.year + 1, 3, 1)
  }

  /** Days owned, excluding both the acquisition day and the event day. */
  function OwnedDays(acquired: Date, event: Date): int {
    Ordinal(event) - Ordinal(acquired) - 1
  }

  /** Section 115-25 of the ITAA 1997 counted out in days: the owned days, starting the
      day after the acquisition, fill the twelve months that start there. */
  predicate OwnedTwelveMonths(acquired: Date, event: Date) {
    var first := Succ(acquired);
    OwnedDays(acquired, event) >= Ordinal(Anniversary(first)) - Ordinal(first)
  }

  /** In calendar terms: eligible from the anniversary of the first owned day onwards. */
  lemma EligibleFromAnniversary(acquired: Date, event: Date)
    ensures DiscountEligible(acquired, event) <==> !event.Before(Anniversary(Succ(acquired)))
  {
  }

  /** Subtracting twelve clamped months agrees with counting the owned days, for every
      pair of dates. */
  lemma EligibleIffOwnedTwelveMonths(acquired: Date, event: Date)
    ensures DiscountEligible(acquired, event) <==> OwnedTwelveMonths(acquired, event)
  {
    var first := Succ(acquired);
    var eligible, counted := DiscountEligible(acquired, event), OwnedTwelveMonths(acquired, event);
    var boundary := Ordinal(Anniversary(first));
    assert eligible <==> !event.Before(Anniversary(first)) by { EligibleFromAnniversary(acquired, event); }
    assert event.Before(Anniversary(first)) <==> Ordinal(event) < boundary by {
      OrdinalOrder(event, Anniversary(first));
    }
    assert counted <==> Ordinal(event) >= boundary by { SuccIsNextOrdinal(acquired); }
  }

  predicate LeapDayAfter28February(acquired: Date, event: Date) {
    acquired.month == 2 && acquired.day == 28
    && event == YearMonthDay(acquired.year + 1, 2, 29)
  }

  /** The backward and forward forms differ on exactly one family of pairs, and there
      the forward form is the generous one. */
  lemma ForwardDiffersOnlyOnTheLeapDay(acquired: Date, event: Date)
    ensures DiscountEligible(acquired, event) ==> EligibleForward(acquired, event)
    ensures EligibleForward(acquired, event) && !DiscountEligible(acquired, event)
            <==> LeapDayAfter28February(acquired, event)
  {
  }

  /** Waiting longer never loses the discount, and neither does having bought earlier. */
  lemma EligibilityMonotone(acquired: Date, event: Date, earlier: Date, later: Date)
    requires DiscountEligible(acquired, event)
    requires Ordinal(earlier) <= Ordinal(acquired) && Ordinal(event) <= Ordinal(later)
    ensures DiscountEligible(earlier, later)
  {
    OrdinalOrder(acquired, earlier);
    OrdinalOrder(later, event);
    OrdinalOrder(acquired, AddYears(event, -1));
  }

  /** What the clamp does to the ordinal: twelve months back is 365 or 366 days back. */
  lemma TwelveMonthsInDays(d: Date)
    ensures 365 <= Ordinal(d) - Ordinal(AddYears(d, -1)) <= 366
  {
    YearLength(d.year - 1);
    LeapShift(d.year, d.year - 1, d.month);
  }

  /** Eligible pairs are at least 366 days apart, every pair 367 or more days apart is
      eligible, and only a gap of exactly 366 days depends on where it falls. */
  lemma EligibilityInDays(acquired: Date, event: Date)
    ensures DiscountEligible(acquired, event) ==> Ordinal(event) - Ordinal(acquired) >= 366
    ensures Ordinal(event) - Ordinal(acquired) >= 367 ==> DiscountEligible(acquired, event)
    ensures Ordinal(event) - Ordinal(acquired) == 366
            ==> (DiscountEligible(acquired, event)
                 <==> Ordinal(event) - Ordinal(AddYears(event, -1)) == 365)
  {
    TwelveMonthsInDays(event);
    OrdinalOrder(acquired, AddYears(event, -1));
  }
}
