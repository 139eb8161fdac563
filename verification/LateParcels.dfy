/**
 * A rounded holding whose parcels change afterwards: which stored counts a back-dated parcel moves,
 * and which a dropped one does.
 */
module LateParcels {
  import opened Common
  import opened LargestRemainder
  import opened Sorting
  import opened RoundingLaws
  import opened RoundingStability
  import opened HoldingRounding
  import opened RegistryRounding

  // ----- What the stored counts add up to ------------------------------------------------------------

  function KeptSum(items: seq<Item>): nat {
    if items == [] then 0
    else (match items[0].keep case Some(count) => count case None => 0) + KeptSum(items[1..])
  }

  /** No parcel with a stored count is given another one. */
  ghost predicate NothingMoves(items: seq<Item>, total: nat) {
    var r := Released(items, total);
    forall x :: x in items && x.keep.Some? ==> x.Count(r, Stepped(items, r, total)) == x.keep.value
  }

  ghost predicate AllKept(items: seq<Item>) {
    forall x :: x in items ==> x.keep.Some?
  }

  lemma {:induction false} KeptBand(items: seq<Item>)
    requires AllKept(items)
    ensures LowSum(items, {}) == KeptSum(items) == HighSum(items, {})
  {
    if items != [] {
      assert items[0] in items;
      KeptBand(items[1..]);
    }
  }

  lemma {:induction false} UnmovedSum(items: seq<Item>, r: set<nat>, s: set<nat>)
    requires AllKept(items) && forall x :: x in items ==> x.Count(r, s) == x.keep.value
    ensures CountSum(items, r, s) == KeptSum(items)
  {
    if items != [] {
      assert items[0] in items;
      UnmovedSum(items[1..], r, s);
    }
  }

  /** One parcel without a stored count among others that have one. */
  ghost predicate OnlyFree(items: seq<Item>, k: nat) {
    k < |items| && items[k].keep.None? && AllKept(items[..k]) && AllKept(items[k + 1..])
  }

  lemma {:induction false} OneFreeBand(items: seq<Item>, k: nat)
    requires OnlyFree(items, k)
    ensures LowSum(items, {}) == KeptSum(items) + items[k].Low({})
    ensures HighSum(items, {}) == KeptSum(items) + items[k].High({})
  {
    if k == 0 {
      KeptBand(items[1..]);
    } else {
      NextFree(items, k);
      OneFreeBand(items[1..], k - 1);
    }
  }

  lemma {:induction false} OneFreeUnmoved(items: seq<Item>, k: nat, r: set<nat>, s: set<nat>)
    requires OnlyFree(items, k)
    requires forall x :: x in items && x.keep.Some? ==> x.Count(r, s) == x.keep.value
    ensures CountSum(items, r, s) == KeptSum(items) + items[k].Count(r, s)
  {
    if k == 0 {
      UnmovedSum(items[1..], r, s);
    } else {
      NextFree(items, k);
      assert items[0] in items;
      OneFreeUnmoved(items[1..], k - 1, r, s);
    }
  }

  lemma NextFree(items: seq<Item>, k: nat)
    requires OnlyFree(items, k) && k > 0
    ensures OnlyFree(items[1..], k - 1) && items[0].keep.Some? && items[1..][k - 1] == items[k]
  {
    assert items[..k][0] == items[0] && items[1..][..k - 1] == items[..k][1..];
    assert items[1..][k..] == items[k + 1..];
  }

  /** Where the others can absorb the total at once, every stored count stays, changed parcels'
      too. */
  lemma FittingMovesNothing(items: seq<Item>, total: nat)
    requires AllValid(items) && Distinct(items) && Shareable(items, total) && Fits(items, {}, total)
    ensures NothingMoves(items, total)
  {
    assert Released(items, total) == {};
    forall x | x in items && x.keep.Some? ensures x.index !in Stepped(items, {}, total) {
      SteppedAre(items, total, x);
      FreeMembers(StepOrder(items), {}, x);
    }
  }

  // ----- How far a rounded total grows ------------------------------------------------------------------

  lemma Combine(x: nat, rx: nat, y: nat, ry: nat, d: nat)
    ensures x * d + rx + (y * d + ry) == (x + y) * d + (rx + ry)
    ensures (x + y + 1) * d == (x + y) * d + d && (x + y + 2) * d == (x + y) * d + d + d
  {
    Distribute(x, y, d);
    Distribute(x + y, 1, d);
    Distribute(x + y, 2, d);
  }

  lemma AddedRemainders(a: nat, p: nat, d: nat)
    requires d > 0
    ensures var r := a % d + p % d;
            (a + p) / d == a / d + p / d + (if r < d then 0 else 1) && (a + p) % d == (if r < d then r else r - d)
  {
    DivMod(a, d);
    DivMod(p, d);
    Combine(a / d, a % d, p / d, p % d, d);
    QuotientIs(a + p, d, a / d + p / d + if a % d + p % d < d then 0 else 1);
  }

  /** More units round to as many more steps as they would alone, rounded down or up. */
  lemma RoundedGrowth(a: nat, p: nat, d: nat, rule: Rule)
    requires d > 0
    ensures p / d <= RoundTo(a + p, d, rule) - RoundTo(a, d, rule) <= p / d + (if p % d > 0 then 1 else 0)
  {
    AddedRemainders(a, p, d);
  }

  // ----- The holding as it was stored --------------------------------------------------------------------

  function StoredSum(parcels: seq<Parcel>, new_: nat, old_: nat): nat
    requires old_ > 0
  {
    if parcels == [] then 0
    else
      var n := parcels[0].num * new_;
      (match Keepable(parcels[0], n / old_, n % old_) case Some(count) => count case None => 0)
      + StoredSum(parcels[1..], new_, old_)
  }

  /** Every parcel has a stored count that is still a valid one for it, and they are the rounded
      holding. */
  ghost predicate Stored(parcels: seq<Parcel>, new_: nat, old_: nat, rule: Rule)
    requires old_ > 0
  {
    && AllKept(Shares(parcels, new_, old_))
    && StoredSum(parcels, new_, old_) == Total(parcels, new_, old_, rule)
  }

  /** The holding's parcels as its own rounding sees them. */
  function Shares(parcels: seq<Parcel>, new_: nat, old_: nat): (items: seq<Item>)
    requires old_ > 0
    ensures |items| == |parcels|
  {
    ItemsOf(parcels, 0, Numerators(parcels, new_), old_)
  }

  lemma {:induction false} KeptIsStored(parcels: seq<Parcel>, from: nat, new_: nat, old_: nat)
    requires old_ > 0
    ensures KeptSum(ItemsOf(parcels, from, Numerators(parcels, new_), old_)) == StoredSum(parcels, new_, old_)
  {
    if parcels != [] { KeptIsStored(parcels[1..], from + 1, new_, old_); }
  }

  lemma ShareAt(parcels: seq<Parcel>, new_: nat, old_: nat, i: nat)
    requires old_ > 0 && i < |parcels|
    ensures Shares(parcels, new_, old_)[i] == ItemOf(parcels[i], i, parcels[i].num * new_, old_)
  {
  }

  lemma {:induction false} StoredSplit(a: seq<Parcel>, b: seq<Parcel>, new_: nat, old_: nat)
    requires old_ > 0
    ensures Units(a + b) == Units(a) + Units(b)
    ensures StoredSum(a + b, new_, old_) == StoredSum(a, new_, old_) + StoredSum(b, new_, old_)
  {
    if a == [] { assert a + b == b; } else {
      assert (a + b)[1..] == a[1..] + b;
      StoredSplit(a[1..], b, new_, old_);
    }
  }

  /** Putting one parcel in adds its units and its stored count, if any. */
  lemma OneMore(before: seq<Parcel>, p: Parcel, after: seq<Parcel>, new_: nat, old_: nat)
    requires old_ > 0
    ensures Units(before + [p] + after) == Units(before + after) + p.num
    ensures StoredSum(before + [p] + after, new_, old_)
            == StoredSum(before + after, new_, old_) + StoredSum([p], new_, old_)
  {
    StoredSplit(before, after, new_, old_);
    StoredSplit(before + [p], after, new_, old_);
    StoredSplit(before, [p], new_, old_);
  }

  /** What the holding's parcels share by the rule. */
  function Total(parcels: seq<Parcel>, new_: nat, old_: nat, rule: Rule): nat
    requires old_ > 0
  {
    RoundTo(Units(parcels) * new_, old_, rule)
  }

  lemma SharesFitTheRule(parcels: seq<Parcel>, new_: nat, old_: nat, rule: Rule)
    requires new_ > 0 && old_ > 0
    ensures var items := Shares(parcels, new_, old_);
            AllValid(items) && Distinct(items) && Shareable(items, Total(parcels, new_, old_, rule))
  {
    NumeratorsPositive(parcels, new_);
    ItemsValid(parcels, Numerators(parcels, new_), old_);
    ValidIsDistinct(Shares(parcels, new_, old_));
    ByTheRule(parcels, new_, old_, rule);
  }

  // ----- A parcel entered afterwards ------------------------------------------------------------------------

  lemma OthersStayKept(before: seq<Parcel>, late: Parcel, after: seq<Parcel>, new_: nat, old_: nat)
    requires old_ > 0 && AllKept(Shares(before + after, new_, old_)) && late.prior.None?
    ensures OnlyFree(Shares(before + [late] + after, new_, old_), |before|)
  {
    var all, others := before + [late] + after, before + after;
    var items := Shares(all, new_, old_);
    ShareAt(all, new_, old_, |before|);
    forall i | 0 <= i < |items| && i != |before| ensures items[i].keep.Some? {
      var j := if i < |before| then i else i - 1;
      ShareAt(all, new_, old_, i);
      ShareAt(others, new_, old_, j);
      assert all[i] == others[j];
      assert Shares(others, new_, old_)[j] in Shares(others, new_, old_);
    }
  }

  /** The band the other parcels' stored counts leave: the late parcel must take what the total
      grows by. */
  lemma LateParcelBand(before: seq<Parcel>, late: Parcel, after: seq<Parcel>, new_: nat, old_: nat, rule: Rule)
    requires new_ > 0 && old_ > 0 && Stored(before + after, new_, old_, rule) && late.prior.None?
    ensures var all := before + [late] + after;
            var items, total, was := Shares(all, new_, old_), Total(all, new_, old_, rule),
                                     Total(before + after, new_, old_, rule);
            && KeptSum(items) == was && OnlyFree(items, |before|)
            && (Fits(items, {}, total) <==> late.num * new_ >= old_ || total > was)
  {
    hide Shares, Total, OnlyFree, KeptSum, LowSum, HighSum;
    var all := before + [late] + after;
    var n := late.num * new_;
    LateItem(before, late, after, new_, old_, rule);
    OneFreeBand(Shares(all, new_, old_), |before|);
    TotalGrows(before, late, after, new_, old_, rule);
    UnitOfItsOwn(n, old_);
  }

  /** The late parcel's own share, beside the stored counts. */
  lemma LateItem(before: seq<Parcel>, late: Parcel, after: seq<Parcel>, new_: nat, old_: nat, rule: Rule)
    requires old_ > 0 && Stored(before + after, new_, old_, rule) && late.prior.None?
    ensures var items, n := Shares(before + [late] + after, new_, old_), late.num * new_;
            && OnlyFree(items, |before|) && KeptSum(items) == Total(before + after, new_, old_, rule)
            && items[|before|].keep.None? && items[|before|].floor == n / old_ && items[|before|].rem == n % old_
  {
    hide Units, StoredSum, RoundTo, KeptSum, AllKept;
    var all := before + [late] + after;
    OneMore(before, late, after, new_, old_);
    LateHasNoCount(late, new_, old_);
    OthersStayKept(before, late, after, new_, old_);
    KeptIsStored(all, 0, new_, old_);
    ShareAt(all, new_, old_, |before|);
  }

  lemma TotalGrows(before: seq<Parcel>, late: Parcel, after: seq<Parcel>, new_: nat, old_: nat, rule: Rule)
    requires old_ > 0
    ensures var n := late.num * new_;
            var more := Total(before + [late] + after, new_, old_, rule) - Total(before + after, new_, old_, rule);
            n / old_ <= more <= n / old_ + (if n % old_ > 0 then 1 else 0)
  {
    hide Units, RoundTo, StoredSum;
    OneMore(before, late, after, new_, old_);
    LateGrowth(Units(before + after), late.num, new_, old_, rule);
  }

  lemma LateHasNoCount(late: Parcel, new_: nat, old_: nat)
    requires old_ > 0 && late.prior.None?
    ensures StoredSum([late], new_, old_) == 0
  {
  }

  lemma LateGrowth(units: nat, more: nat, new_: nat, old_: nat, rule: Rule)
    requires old_ > 0
    ensures var n := more * new_;
            n / old_ <= RoundTo((units + more) * new_, old_, rule) - RoundTo(units * new_, old_, rule)
            <= n / old_ + (if n % old_ > 0 then 1 else 0)
  {
    Distribute(units, more, new_);
    RoundedGrowth(units * new_, more * new_, old_, rule);
  }

  lemma UnitOfItsOwn(n: nat, d: nat)
    requires d > 0
    ensures n / d > 0 <==> n >= d
  {
    if n >= d { FloorAtLeast(1, n, d); } else { QuotientIs(n, d, 0); }
  }

  /** A parcel large enough for a unit of its own always fits beside the stored counts, wherever
      in the register it is entered, and so does a smaller one that brings the total a step: no
      stored count moves, and the late parcel takes what the total grows by. */
  lemma LateParcelMovesNothing(before: seq<Parcel>, late: Parcel, after: seq<Parcel>, new_: nat, old_: nat, rule: Rule)
    requires new_ > 0 && old_ > 0 && Stored(before + after, new_, old_, rule) && late.prior.None?
    requires var all := before + [late] + after;
             late.num * new_ >= old_ || Total(all, new_, old_, rule) > Total(before + after, new_, old_, rule)
    ensures var all := before + [late] + after;
            var items, total := Shares(all, new_, old_), Total(all, new_, old_, rule);
            var r := Released(items, total);
            && NothingMoves(items, total)
            && items[|before|].Count(r, Stepped(items, r, total)) == total - Total(before + after, new_, old_, rule)
  {
    var all := before + [late] + after;
    var items, total := Shares(all, new_, old_), Total(all, new_, old_, rule);
    var r := Released(items, total);
    SharesFitTheRule(all, new_, old_, rule);
    LateParcelBand(before, late, after, new_, old_, rule);
    FittingMovesNothing(items, total);
    OneFreeUnmoved(items, |before|, r, Stepped(items, r, total));
    CountsSumToTotal(items, total);
  }

  // Where a fraction stands in for one parcel's units, a holding may be a step short.

  /** A stored count of no more than the parcel must have. */
  predicate Tight(x: Item) {
    x.keep.Some? ==> x.keep.value == x.floor + if x.Emptied() then 1 else 0
  }

  lemma {:induction false} KeptSlack(items: seq<Item>)
    requires AllKept(items) && AllValid(items)
    ensures KeptSum(items) >= Floors(items) + Tally(items, IsEmptied())
    ensures KeptSum(items) == Floors(items) + Tally(items, IsEmptied()) ==> forall x :: x in items ==> Tight(x)
  {
    if items != [] {
      assert items[0] in items && forall x :: x in items[1..] ==> x in items;
      KeptSlack(items[1..]);
      assert items == [items[0]] + items[1..];
    }
  }

  lemma {:induction false} OneFreeSlack(items: seq<Item>, k: nat)
    requires OnlyFree(items, k) && AllValid(items) && items[k].Emptied()
    ensures KeptSum(items) + 1 >= Floors(items) + Tally(items, IsEmptied())
    ensures KeptSum(items) + 1 == Floors(items) + Tally(items, IsEmptied()) ==> forall x :: x in items ==> Tight(x)
  {
    assert items[0] in items && forall x :: x in items[1..] ==> x in items;
    if k == 0 {
      KeptSlack(items[1..]);
    } else {
      NextFree(items, k);
      OneFreeSlack(items[1..], k - 1);
    }
    assert items == [items[0]] + items[1..];
  }

  /** There is a step too few, and the parcel comes last of those that must have one. */
  ghost predicate LeftAtNothing(items: seq<Item>, total: nat, k: nat) {
    var emptied := Tally(items, IsEmptied());
    && emptied > total - Floors(items)
    && 0 < emptied <= |StepOrder(items)| && k < |items| && StepOrder(items)[emptied - 1] == items[k]
  }

  /** Left at nothing, the late parcel moves no other. */
  lemma LeftAtNothingMovesNothing(items: seq<Item>, total: nat, k: nat)
    requires AllValid(items) && Distinct(items) && Shareable(items, total) && OnlyFree(items, k)
    requires items[k].Emptied() && KeptSum(items) == total && LeftAtNothing(items, total, k)
    ensures NothingMoves(items, total)
  {
    hide Released, Stepped, Valid, LowSum, HighSum;
    OneFreeSlack(items, k);
    var order := StepOrder(items);
    forall x | x in items && x.keep.Some?
      ensures x.Count(Released(items, total), Stepped(items, Released(items, total), total)) == x.keep.value
    {
      InStepOrder(items, x);
      var i :| 0 <= i < |order| && order[i] == x;
      SortLength(items);
      TheRestEmptied(items, total, i);
      assert Tight(x);
    }
  }

  /** And where there is a step too few, only the parcel left at nothing has none. */
  lemma NothingIsLeft(items: seq<Item>, total: nat, k: nat)
    requires AllValid(items) && Distinct(items) && Shareable(items, total) && k < |items| && items[k].Emptied()
    requires Tally(items, IsEmptied()) == total - Floors(items) + 1
    requires var r := Released(items, total); items[k].Count(r, Stepped(items, r, total)) == 0
    ensures LeftAtNothing(items, total, k)
  {
    hide Released, Stepped, Floors, Ceilings, Tally, StepOrder;
    InStepOrder(items, items[k]);
    SortLength(items);
    TallyBound(items, IsEmptied());
    var i :| 0 <= i < |StepOrder(items)| && StepOrder(items)[i] == items[k];
    TheRestEmptied(items, total, i);
  }

  /** Of every holding that is accepted, those are the only late parcels that move nothing, and one
      more: the one left at nothing where a step is too few, for which a cash-in-lieu fraction then
      stands in. */
  lemma LateParcelMovesNothingIff(before: seq<Parcel>, late: Parcel, after: seq<Parcel>, new_: nat, old_: nat,
                                  rule: Rule, inLieu: nat)
    requires new_ > 0 && old_ > 0 && Stored(before + after, new_, old_, rule) && late.prior.None?
    requires var all := before + [late] + after;
             Distribution(Shares(all, new_, old_), Total(all, new_, old_, rule), inLieu).Ok?
    ensures var all := before + [late] + after;
            var items, total := Shares(all, new_, old_), Total(all, new_, old_, rule);
            NothingMoves(items, total)
            <==> || late.num * new_ >= old_
                 || total > Total(before + after, new_, old_, rule)
                 || LeftAtNothing(items, total, |before|)
  {
    hide Shares, Total, OnlyFree, NothingMoves, LeftAtNothing, Distribution, Stored, KeptSum, Released, Stepped;
    var all := before + [late] + after;
    var items, total := Shares(all, new_, old_), Total(all, new_, old_, rule);
    SharesFitTheRule(all, new_, old_, rule);
    RefusedIff(items, total, inLieu);
    if late.num * new_ >= old_ || total > Total(before + after, new_, old_, rule) {
      LateParcelMovesNothing(before, late, after, new_, old_, rule);
    } else {
      LateItem(before, late, after, new_, old_, rule);
      TotalGrows(before, late, after, new_, old_, rule);
      UnitOfItsOwn(late.num * new_, old_);
      SmallLateParcel(items, total, |before|);
    }
  }

  /** A late parcel without a unit of its own that brings the total none. */
  lemma SmallLateParcel(items: seq<Item>, total: nat, k: nat)
    requires AllValid(items) && Distinct(items) && Shareable(items, total) && OnlyFree(items, k)
    requires items[k].Emptied() && KeptSum(items) == total
    requires Tally(items, IsEmptied()) <= total - Floors(items) + 1
    ensures NothingMoves(items, total) <==> LeftAtNothing(items, total, k)
  {
    hide Released, Stepped, KeptSum, LowSum, HighSum, Floors, Ceilings, Tally;
    var r := Released(items, total);
    if NothingMoves(items, total) {
      OneFreeUnmoved(items, k, r, Stepped(items, r, total));
      CountsSumToTotal(items, total);
      if Floors(items) + Tally(items, IsEmptied()) <= total {
        NoneEmptied(items, total, items[k]);
      } else {
        NothingIsLeft(items, total, k);
      }
    }
    if LeftAtNothing(items, total, k) { LeftAtNothingMovesNothing(items, total, k); }
  }

  lemma TwoShares(was: Parcel, late: Parcel)
    requires was.num == 6 && late.num == 3
    ensures var items := Shares([was] + [late] + [], 1, 5);
            Floors(items) == 1 && Tally(items, IsEmptied()) == 1
  {
    var all := [was] + [late] + [];
    var items := Shares(all, 1, 5);
    ShareAt(all, 1, 5, 0);
    ShareAt(all, 1, 5, 1);
    assert all[0] == was && all[1] == late;
    assert items[0].floor == 1 && items[1].floor == 0;
    var last := items[1..];
    assert last[0] == items[1] && last[1..] == [];
    assert Floors(last) == 0 && Tally(last, IsEmptied()) == 1;
  }

  function OneForFive(id: nat, units: nat, stored: Option<nat>): Parcel
    requires units > 0
  {
    ParcelBefore(id, id, units as real, units,
                 if stored.Some? then Some(Prior(units as real, stored.value as real)) else None)
  }

  /** Six units consolidated one for five and rounded up hold two. Three units entered afterwards
      round up to one of their own, yet the total stays two and the stored count moves. */
  lemma RoundedUpLateParcelMovesAnother()
    ensures var was, late := OneForFive(1, 6, Some(2)), OneForFive(2, 3, None);
            var items, total := Shares([was] + [late] + [], 1, 5), Total([was] + [late] + [], 1, 5, Up);
            && Stored([was] + [], 1, 5, Up) && RoundTo(3, 5, Up) == 1 && total == 2
            && Distribution(items, total, 0).Ok? && !NothingMoves(items, total)
  {
    var was, late := OneForFive(1, 6, Some(2)), OneForFive(2, 3, None);
    var all := [was] + [late] + [];
    ShareAt([was] + [], 1, 5, 0);
    StoredSplit([was], [late], 1, 5);
    assert all == [was] + [late] && [was] + [] == [was];
    assert Units(all) == 9 && Units([was]) == 6;
    TwoShares(was, late);
    SharesFitTheRule(all, 1, 5, Up);
    assert Total(all, 1, 5, Up) == 2 && Total([was] + [], 1, 5, Up) == 2;
    hide Distribution, NothingMoves, Shares, Total;
    RefusedIff(Shares(all, 1, 5), 2, 0);
    LateParcelMovesNothingIff([was], late, [], 1, 5, Up, 0);
  }

  // ----- A parcel deleted afterwards ------------------------------------------------------------------------

  lemma OthersWereKept(before: seq<Parcel>, gone: Parcel, after: seq<Parcel>, new_: nat, old_: nat)
    requires old_ > 0 && AllKept(Shares(before + [gone] + after, new_, old_))
    ensures AllKept(Shares(before + after, new_, old_))
  {
    hide Shares, Keepable;
    var all, others := before + [gone] + after, before + after;
    var items := Shares(others, new_, old_);
    forall x | x in items ensures x.keep.Some? {
      var j :| 0 <= j < |items| && items[j] == x;
      var i := if j < |before| then j else j + 1;
      ShareAt(all, new_, old_, i);
      ShareAt(others, new_, old_, j);
      assert all[i] == others[j];
      assert Shares(all, new_, old_)[i] in Shares(all, new_, old_);
    }
  }

  /** Deleting a parcel moves no other stored count exactly when the total falls by the count the
      parcel had. */
  lemma DroppedParcelMovesNothingIff(before: seq<Parcel>, gone: Parcel, after: seq<Parcel>, new_: nat, old_: nat,
                                     rule: Rule)
    requires new_ > 0 && old_ > 0 && Stored(before + [gone] + after, new_, old_, rule)
    ensures NothingMoves(Shares(before + after, new_, old_), Total(before + after, new_, old_, rule))
            <==> Total(before + after, new_, old_, rule) + StoredSum([gone], new_, old_)
                 == Total(before + [gone] + after, new_, old_, rule)
  {
    var items, total := Shares(before + after, new_, old_), Total(before + after, new_, old_, rule);
    var r := Released(items, total);
    SharesFitTheRule(before + after, new_, old_, rule);
    OthersWereKept(before, gone, after, new_, old_);
    OneMore(before, gone, after, new_, old_);
    KeptIsStored(before + after, 0, new_, old_);
    KeptBand(items);
    CountsSumToTotal(items, total);
    if NothingMoves(items, total) {
      UnmovedSum(items, r, Stepped(items, r, total));
    } else if KeptSum(items) == total {
      FittingMovesNothing(items, total);
    }
  }

  function OneForThree(id: nat, stored: nat): Parcel {
    ParcelBefore(id, id, 100.0, 100, Some(Prior(100.0, stored as real)))
  }

  /** Three parcels of a hundred, consolidated one for three and rounded down, hold 34, 33 and 33;
      without the second the total is 66, and the first cannot keep its 34. */
  lemma DroppedParcelCanMoveAnother()
    ensures var a, b, c := OneForThree(1, 34), OneForThree(2, 33), OneForThree(3, 33);
            Stored([a] + [b] + [c], 1, 3, Down) && !NothingMoves(Shares([a] + [c], 1, 3), Total([a] + [c], 1, 3, Down))
  {
    var a, b, c := OneForThree(1, 34), OneForThree(2, 33), OneForThree(3, 33);
    var all := [a] + [b] + [c];
    forall i | 0 <= i < 3 ensures Shares(all, 1, 3)[i].keep.Some? {
      ShareAt(all, 1, 3, i);
    }
    StoredSplit([a] + [b], [c], 1, 3);
    StoredSplit([a], [b], 1, 3);
    StoredSplit([a], [c], 1, 3);
    assert Units(all) == 300 && Units([a] + [c]) == 200;
    DroppedParcelMovesNothingIff([a], b, [c], 1, 3, Down);
  }
}
