/**
 * What a distribution gives each parcel, told of the parcels themselves: their units, their
 * acquisition and their stored counts.
 */
module ParcelRounding {
  import opened Common
  import opened Sorting
  import opened LargestRemainder
  import opened RoundingLaws
  import opened RoundingStability
  import opened RoundingOrder
  import opened HoldingRounding

  predicate DistinctTrades(parcels: seq<Parcel>) {
    forall i, j :: 0 <= i < j < |parcels| ==> parcels[i].tradeId != parcels[j].tradeId
  }

  /** A count a parcel may be given: some steps, less than one away from its exact share. */
  predicate MayHave(x: nat, n: nat, d: nat) {
    0 < x && n - d < x * d < n + d
  }

  /** The parcel has the stored count `c`, and may have it still. */
  predicate StillValid(p: Parcel, n: nat, d: nat, c: nat) {
    p.prior.Some? && p.prior.value.onGrid == c as real && MayHave(c, n, d)
  }

  /** Its units are not those the stored count was made for. */
  predicate UnitsChanged(p: Parcel) {
    p.prior.Some? && p.prior.value.before != p.units
  }

  /** Whose stored count is given up first: changed units, then the later acquisition, then the
      higher trade id. */
  predicate GivenUpBefore(p: Parcel, q: Parcel) {
    if UnitsChanged(p) != UnitsChanged(q) then UnitsChanged(p)
    else if p.acquired != q.acquired then p.acquired > q.acquired
    else p.tradeId > q.tradeId
  }

  /** Counts the parcels may have that come to the total. */
  ghost predicate IsRounding(xs: seq<nat>, ns: seq<nat>, d: nat, total: nat) {
    |xs| == |ns| && Sum(xs) == total && forall i :: 0 <= i < |ns| ==> MayHave(xs[i], ns[i], d)
  }

  /** Counts that keep the stored count of a parcel and of every parcel given up after it. */
  ghost predicate KeepsFrom(parcels: seq<Parcel>, ns: seq<nat>, d: nat, i: nat, xs: seq<nat>)
    requires |ns| == |parcels| == |xs| && i < |parcels|
  {
    forall j, c :: 0 <= j < |parcels| && (j == i || GivenUpBefore(parcels[i], parcels[j]))
                   && StillValid(parcels[j], ns[j], d, c)
                   ==> xs[j] == c
  }

  /** A stored count moves only when no counts the parcels may have keep it and those given up
      after it. */
  ghost predicate MovesOnlyIfForced(parcels: seq<Parcel>, ns: seq<nat>, d: nat, total: nat, counts: seq<ParcelCount>)
    requires |ns| == |parcels| == |counts|
  {
    forall i, c :: 0 <= i < |parcels| && StillValid(parcels[i], ns[i], d, c) && counts[i].onGrid != c
                   ==> forall xs :: IsRounding(xs, ns, d, total) ==> !KeepsFrom(parcels, ns, d, i, xs)
  }

  /** Whose claim to an extra step comes first: a parcel of less than a step, then the larger
      remainder, then the earlier acquisition, then the lower trade id. */
  predicate ClaimsBefore(p: Parcel, n: nat, q: Parcel, m: nat, d: nat)
    requires d > 0
  {
    if (n < d) != (m < d) then n < d
    else if n % d != m % d then n % d > m % d
    else if p.acquired != q.acquired then p.acquired < q.acquired
    else p.tradeId < q.tradeId
  }

  /** The parcel keeps no stored count. */
  ghost predicate Afresh(p: Parcel, n: nat, d: nat, count: nat) {
    forall c :: StillValid(p, n, d, c) ==> count != c
  }

  /** Of parcels that keep no stored count, one is rounded up and another down only by claim. */
  ghost predicate StepsByClaim(parcels: seq<Parcel>, ns: seq<nat>, d: nat, counts: seq<ParcelCount>)
    requires d > 0 && |ns| == |parcels| == |counts|
  {
    forall i, j :: 0 <= i < |parcels| && 0 <= j < |parcels|
                   && Afresh(parcels[i], ns[i], d, counts[i].onGrid) && Afresh(parcels[j], ns[j], d, counts[j].onGrid)
                   && counts[i].onGrid * d > ns[i] && counts[j].onGrid * d < ns[j]
                   ==> ClaimsBefore(parcels[i], ns[i], parcels[j], ns[j], d)
  }

  /** The cash-in-lieu fraction rides whole on the first by claim of the parcels not rounded up. */
  ghost predicate FractionByClaim(parcels: seq<Parcel>, ns: seq<nat>, d: nat, inLieu: nat, counts: seq<ParcelCount>)
    requires d > 0 && |ns| == |parcels| == |counts|
  {
    forall i :: 0 <= i < |parcels| && counts[i].inLieu > 0 ==>
      && counts[i].inLieu == inLieu && counts[i].onGrid * d <= ns[i]
      && forall j :: 0 <= j < |parcels| && j != i && counts[j].onGrid * d <= ns[j]
                     ==> ClaimsBefore(parcels[i], ns[i], parcels[j], ns[j], d)
  }

  // ----- Items and parcels -----------------------------------------------------------------------

  lemma FloorBounds(c: nat, n: nat, d: nat)
    requires d > 0
    ensures n - d < c * d < n + d <==> n / d <= c <= n / d + (if n % d > 0 then 1 else 0)
    ensures c * d <= n <==> c <= n / d
  {
    DivMod(n, d);
    var q := n / d;
    Distribute(q, 1, d);
    Distribute(q, 2, d);
    if c <= q { MulMonotone(c, q, d); } else { MulMonotone(q + 1, c, d); }
    if c >= q + 2 { MulMonotone(q + 2, c, d); }
    if c < q { MulMonotone(c + 1, q, d); Distribute(c, 1, d); }
  }

  lemma KeepableIs(p: Parcel, n: nat, d: nat, c: nat)
    requires d > 0
    ensures Keepable(p, n / d, n % d) == Some(c) <==> StillValid(p, n, d, c)
  {
    FloorBounds(c, n, d);
  }

  function Shares(parcels: seq<Parcel>, ns: seq<nat>, d: nat): (items: seq<Item>)
    requires d > 0 && |ns| == |parcels|
    ensures |items| == |parcels| && forall i :: 0 <= i < |items| ==> items[i] == ItemOf(parcels[i], i, ns[i], d)
  {
    ItemsOf(parcels, 0, ns, d)
  }

  ghost predicate Sharing(parcels: seq<Parcel>, ns: seq<nat>, d: nat, total: nat) {
    && d > 0 && |ns| == |parcels| && (forall i :: 0 <= i < |ns| ==> ns[i] > 0)
    && DistinctTrades(parcels) && Shareable(Shares(parcels, ns, d), total)
  }

  lemma SharingIsValid(parcels: seq<Parcel>, ns: seq<nat>, d: nat, total: nat)
    requires Sharing(parcels, ns, d, total)
    ensures var items := Shares(parcels, ns, d);
            Valid(items) && AllValid(items) && Distinct(items) && Shareable(items, total)
  {
    ItemsValid(parcels, ns, d);
    ValidIsDistinct(Shares(parcels, ns, d));
  }

  /** The count the distribution gives a parcel, before any fraction. */
  function GivenTo(items: seq<Item>, total: nat, x: Item): nat {
    x.Count(Released(items, total), Stepped(items, Released(items, total), total))
  }

  // ----- Stored counts ------------------------------------------------------------------------------

  lemma {:induction false} SumBetween(items: seq<Item>, released: set<nat>, xs: seq<nat>)
    requires |xs| == |items|
    requires forall i :: 0 <= i < |items| ==> items[i].Low(released) <= xs[i] <= items[i].High(released)
    ensures LowSum(items, released) <= Sum(xs) <= HighSum(items, released)
  {
    if items != [] { SumBetween(items[1..], released, xs[1..]); }
  }

  /** Counts that keep what is not given up show that the others can absorb the total. */
  lemma RoundingFits(parcels: seq<Parcel>, ns: seq<nat>, d: nat, total: nat, released: set<nat>, xs: seq<nat>)
    requires d > 0 && |ns| == |parcels| && IsRounding(xs, ns, d, total)
    requires forall j, c :: 0 <= j < |parcels| && StillValid(parcels[j], ns[j], d, c) && j !in released ==> xs[j] == c
    ensures Fits(Shares(parcels, ns, d), released, total)
  {
    var items := Shares(parcels, ns, d);
    forall j | 0 <= j < |items| ensures items[j].Low(released) <= xs[j] <= items[j].High(released) {
      FloorBounds(xs[j], ns[j], d);
      if items[j].Kept(released).Some? { KeepableIs(parcels[j], ns[j], d, items[j].keep.value); }
    }
    SumBetween(items, released, xs);
  }

  lemma KeepIs(parcels: seq<Parcel>, ns: seq<nat>, d: nat, i: nat, c: nat)
    requires d > 0 && |ns| == |parcels| && i < |parcels|
    ensures Shares(parcels, ns, d)[i].keep == Some(c) <==> StillValid(parcels[i], ns[i], d, c)
  {
    KeepableIs(parcels[i], ns[i], d, c);
  }

  /** What stands after a parcel in the release order is given up after it. */
  lemma LaterInOrder(parcels: seq<Parcel>, ns: seq<nat>, d: nat, k: nat, m: nat)
    requires d > 0 && |ns| == |parcels| && DistinctTrades(parcels)
    requires k < m < |ReleaseOrder(Shares(parcels, ns, d))|
    ensures var order := ReleaseOrder(Shares(parcels, ns, d));
            var i, j := order[k].index, order[m].index;
            i < |parcels| && j < |parcels| && (i == j || GivenUpBefore(parcels[i], parcels[j]))
  {
    var items := Shares(parcels, ns, d);
    var order := ReleaseOrder(items);
    ReleaseInOrder(items);
    InReleaseOrder(items, order[k]);
    InReleaseOrder(items, order[m]);
    assert ReleaseFirst()(order[k], order[m]);
  }

  /** A stored count that some rounding keeps, with all those given up after it, is kept. */
  lemma KeptIfItCanBe(parcels: seq<Parcel>, ns: seq<nat>, d: nat, total: nat, i: nat, c: nat, xs: seq<nat>)
    requires Sharing(parcels, ns, d, total) && i < |parcels| && StillValid(parcels[i], ns[i], d, c)
    requires IsRounding(xs, ns, d, total) && KeepsFrom(parcels, ns, d, i, xs)
    ensures GivenTo(Shares(parcels, ns, d), total, Shares(parcels, ns, d)[i]) == c
  {
    hide Shareable, Fits, ReleaseOrder, Valid, Released, Stepped;
    var items := Shares(parcels, ns, d);
    SharingIsValid(parcels, ns, d, total);
    KeepIs(parcels, ns, d, i, c);
    if i in Released(items, total) {
      var k, p := ReleasedAt(items, total, items[i]);
      KeepsLater(parcels, ns, d, i, k, xs);
      RoundingFits(parcels, ns, d, total, Indices(ReleaseOrder(items)[..k]), xs);
    } else {
      KeptStays(items, total, items[i]);
    }
  }

  lemma KeepsLater(parcels: seq<Parcel>, ns: seq<nat>, d: nat, i: nat, k: nat, xs: seq<nat>)
    requires d > 0 && |ns| == |parcels| == |xs| && DistinctTrades(parcels) && i < |parcels|
    requires k < |ReleaseOrder(Shares(parcels, ns, d))|
    requires ReleaseOrder(Shares(parcels, ns, d))[k] == Shares(parcels, ns, d)[i]
    requires KeepsFrom(parcels, ns, d, i, xs)
    ensures var prefix := Indices(ReleaseOrder(Shares(parcels, ns, d))[..k]);
            forall j, c :: 0 <= j < |parcels| && StillValid(parcels[j], ns[j], d, c) && j !in prefix ==> xs[j] == c
  {
    hide ReleaseOrder, StillValid, GivenUpBefore, DistinctTrades;
    var items := Shares(parcels, ns, d);
    var prefix := Indices(ReleaseOrder(items)[..k]);
    forall j, c | 0 <= j < |parcels| && StillValid(parcels[j], ns[j], d, c) && j !in prefix ensures xs[j] == c {
      KeepIs(parcels, ns, d, j, c);
      var m := NotBefore(items, k, items[j]);
      if m > k { LaterInOrder(parcels, ns, d, k, m); }
    }
  }

  /** Where a released parcel stands in the release order: what is given up before it does not
      do. */
  lemma ReleasedAt(items: seq<Item>, total: nat, x: Item) returns (k: nat, p: nat)
    requires Distinct(items) && x in items && x.index in Released(items, total)
    ensures k < p <= |ReleaseOrder(items)| && ReleaseOrder(items)[k] == x
    ensures !Fits(items, Indices(ReleaseOrder(items)[..k]), total)
  {
    hide Fits, ReleaseOrder, Distinct;
    var order := ReleaseOrder(items);
    p := ReleasesShortestPrefix(items, order, {}, total);
    assert {} + Indices(order[..p]) == Indices(order[..p]);
    var y :| y in order[..p] && y.index == x.index;
    k :| 0 <= k < p && order[k] == y;
    InReleaseOrder(items, y);
    SameIndexSameItem(items, x, y);
    assert !Fits(items, {} + Indices(order[..k]), total);
    assert {} + Indices(order[..k]) == Indices(order[..k]);
  }

  lemma NotBefore(items: seq<Item>, k: nat, x: Item) returns (m: nat)
    requires x in items && x.keep.Some? && k <= |ReleaseOrder(items)|
    requires x.index !in Indices(ReleaseOrder(items)[..k])
    ensures k <= m < |ReleaseOrder(items)| && ReleaseOrder(items)[m] == x
  {
    hide ReleaseOrder;
    var order := ReleaseOrder(items);
    InReleaseOrder(items, x);
    assert forall i :: 0 <= i < k ==> order[..k][i] == order[i] && order[i].index in Indices(order[..k]);
    m :| 0 <= m < |order| && order[m] == x;
  }

  lemma KeptStays(items: seq<Item>, total: nat, x: Item)
    requires AllValid(items) && Distinct(items) && Shareable(items, total) && x in items && x.keep.Some?
    requires x.index !in Released(items, total)
    ensures GivenTo(items, total, x) == x.keep.value
  {
    var r := Released(items, total);
    if x.index in Stepped(items, r, total) {
      SteppedAre(items, total, x);
      FreeMembers(StepOrder(items), r, x);
    }
  }

  // ----- Extra steps and the fraction -------------------------------------------------------------------

  /** A parcel that keeps no stored count is free. */
  lemma AfreshIsFree(parcels: seq<Parcel>, ns: seq<nat>, d: nat, total: nat, i: nat)
    requires Sharing(parcels, ns, d, total) && i < |parcels|
    requires var items := Shares(parcels, ns, d); Afresh(parcels[i], ns[i], d, GivenTo(items, total, items[i]))
    ensures var items := Shares(parcels, ns, d); items[i].Kept(Released(items, total)).None?
  {
    hide Shareable, Released, Stepped, Valid;
    var items := Shares(parcels, ns, d);
    SharingIsValid(parcels, ns, d, total);
    if items[i].Kept(Released(items, total)).Some? {
      KeepIs(parcels, ns, d, i, items[i].keep.value);
      KeptStays(items, total, items[i]);
    }
  }

  lemma ClaimIs(parcels: seq<Parcel>, ns: seq<nat>, d: nat, i: nat, j: nat)
    requires d > 0 && |ns| == |parcels| && DistinctTrades(parcels) && i < |parcels| && j < |parcels| && i != j
    ensures var items := Shares(parcels, ns, d);
            ClaimsBefore(parcels[i], ns[i], parcels[j], ns[j], d) <==> !StrongerClaim(items[j], items[i])
  {
    LessThanAStep(ns[i], d);
    LessThanAStep(ns[j], d);
  }

  lemma LessThanAStep(n: nat, d: nat)
    requires d > 0
    ensures n / d == 0 <==> n < d
  {
    if n < d { QuotientIs(n, d, 0); } else { FloorAtLeast(1, n, d); }
  }

  /** Rounded up, a free parcel has its extra step; rounded down, it has none. */
  lemma SteppedIs(parcels: seq<Parcel>, ns: seq<nat>, d: nat, total: nat, i: nat)
    requires Sharing(parcels, ns, d, total) && i < |parcels|
    requires var items := Shares(parcels, ns, d); items[i].Kept(Released(items, total)).None?
    ensures var items := Shares(parcels, ns, d);
            GivenTo(items, total, items[i]) * d > ns[i] <==> i in Stepped(items, Released(items, total), total)
  {
    var items := Shares(parcels, ns, d);
    FloorBounds(GivenTo(items, total, items[i]), ns[i], d);
  }

  lemma DistributesByClaim(parcels: seq<Parcel>, ns: seq<nat>, d: nat, total: nat, i: nat, j: nat)
    requires Sharing(parcels, ns, d, total) && i < |parcels| && j < |parcels|
    requires var items := Shares(parcels, ns, d);
             var x, y := GivenTo(items, total, items[i]), GivenTo(items, total, items[j]);
             && Afresh(parcels[i], ns[i], d, x) && Afresh(parcels[j], ns[j], d, y)
             && x * d > ns[i] && y * d < ns[j]
    ensures ClaimsBefore(parcels[i], ns[i], parcels[j], ns[j], d)
  {
    hide GivenTo, Afresh, Released, Stepped, Valid, Shareable, StrongerClaim, ClaimsBefore;
    var items := Shares(parcels, ns, d);
    SharingIsValid(parcels, ns, d, total);
    AfreshIsFree(parcels, ns, d, total, i);
    AfreshIsFree(parcels, ns, d, total, j);
    SteppedIs(parcels, ns, d, total, i);
    SteppedIs(parcels, ns, d, total, j);
    ClaimIs(parcels, ns, d, i, j);
    if StrongerClaim(items[j], items[i]) { StepsGoToTheStrongerClaim(items, total, items[j], items[i]); }
  }

  lemma {:induction false} CarrierIsFirst(order: seq<Item>, r: set<nat>, s: set<nat>, k: nat)
    requires k < |order| && Carrier(order, r, s) == Some(order[k].index)
    requires forall i, j :: 0 <= i < j < |order| ==> order[i].index != order[j].index
    ensures order[k].Count(r, s) == order[k].floor
    ensures forall m :: 0 <= m < k ==> order[m].Count(r, s) != order[m].floor
  {
    if order[0].Count(r, s) == order[0].floor {
      assert order[0].index == order[k].index;
    } else {
      assert order[0].index == order[k].index ==> k == 0;
      if k == 0 {
        NoneCarries(order[1..], r, s, order[0].index);
      } else {
        assert order[1..][k - 1] == order[k];
        CarrierIsFirst(order[1..], r, s, k - 1);
        assert forall m :: 0 < m < k ==> order[m] == order[1..][m - 1];
      }
    }
  }

  lemma {:induction false} NoneCarries(order: seq<Item>, r: set<nat>, s: set<nat>, index: nat)
    requires forall x :: x in order ==> x.index != index
    ensures Carrier(order, r, s) != Some(index)
  {
    if order != [] {
      assert order[0] in order;
      NoneCarries(order[1..], r, s, index);
    }
  }

  lemma CarriesByClaim(parcels: seq<Parcel>, ns: seq<nat>, d: nat, total: nat, i: nat, j: nat)
    requires Sharing(parcels, ns, d, total) && i < |parcels| && j < |parcels| && i != j
    requires var items := Shares(parcels, ns, d);
             var r := Released(items, total);
             && Carrier(StepOrder(items), r, Stepped(items, r, total)) == Some(i)
             && GivenTo(items, total, items[j]) * d <= ns[j]
    ensures var items := Shares(parcels, ns, d);
            GivenTo(items, total, items[i]) * d <= ns[i] && ClaimsBefore(parcels[i], ns[i], parcels[j], ns[j], d)
  {
    hide Released, Stepped, Valid, Shareable, StrongerClaim, ClaimsBefore, Carrier;
    var items := Shares(parcels, ns, d);
    var order, r := StepOrder(items), Released(items, total);
    SharingIsValid(parcels, ns, d, total);
    StepOrderApart(items);
    var k := PlaceOf(items, items[i]);
    var m := PlaceOf(items, items[j]);
    CarrierIsFirst(order, r, Stepped(items, r, total), k);
    AtItsFloor(parcels, ns, d, total, i);
    AtItsFloor(parcels, ns, d, total, j);
    ClaimIs(parcels, ns, d, i, j);
    if StrongerClaim(items[j], items[i]) { StrongerStandsBefore(items, items[j], items[i], m, k); }
  }

  lemma StepOrderApart(items: seq<Item>)
    requires Distinct(items)
    ensures var order := StepOrder(items);
            forall i, j :: 0 <= i < j < |order| ==> order[i].index != order[j].index
  {
    SortKeepsIndicesApart(items, StepFirst());
  }

  lemma PlaceOf(items: seq<Item>, x: Item) returns (k: nat)
    requires x in items
    ensures k < |StepOrder(items)| && StepOrder(items)[k] == x
  {
    SortMembers(items, StepFirst(), x);
    k :| 0 <= k < |StepOrder(items)| && StepOrder(items)[k] == x;
  }

  lemma StrongerStandsBefore(items: seq<Item>, x: Item, y: Item, m: nat, k: nat)
    requires m < |StepOrder(items)| && k < |StepOrder(items)|
    requires StepOrder(items)[m] == x && StepOrder(items)[k] == y && StrongerClaim(x, y)
    ensures m < k
  {
    StepFirstIsOrder();
    SortSorted(items, StepFirst());
    assert !StepFirst()(y, x);
    var a, b := StepOrder(items)[k], StepOrder(items)[m];
    assert k < m ==> StepFirst()(a, b);
  }

  lemma AtItsFloor(parcels: seq<Parcel>, ns: seq<nat>, d: nat, total: nat, i: nat)
    requires Sharing(parcels, ns, d, total) && i < |parcels|
    ensures var items := Shares(parcels, ns, d);
            GivenTo(items, total, items[i]) * d <= ns[i] <==> GivenTo(items, total, items[i]) == items[i].floor
  {
    var items := Shares(parcels, ns, d);
    SharingIsValid(parcels, ns, d, total);
    CountWithinAStep(items, total, items[i]);
    FloorBounds(GivenTo(items, total, items[i]), ns[i], d);
  }

  // ----- The whole answer ----------------------------------------------------------------------------------

  /** The counts of a distribution, parcel by parcel. */
  lemma CountsGiven(parcels: seq<Parcel>, ns: seq<nat>, d: nat, total: nat, inLieu: nat, i: nat)
    requires Sharing(parcels, ns, d, total) && i < |parcels|
    ensures var items := Shares(parcels, ns, d);
            var count, r := Counts(items, total, inLieu)[i], Released(items, total);
            && count.onGrid == GivenTo(items, total, items[i])
            && (count.inLieu > 0 ==>
                  count.inLieu == inLieu && Carrier(StepOrder(items), r, Stepped(items, r, total)) == Some(i))
            && (inLieu > 0 && Carrier(StepOrder(items), r, Stepped(items, r, total)) == Some(i) ==> count.inLieu > 0)
  {
    hide Released, Stepped, Carrier;
    var items := Shares(parcels, ns, d);
    var r := Released(items, total);
    var s := Stepped(items, r, total);
    CountsAt(items, r, s, if inLieu > 0 then Carrier(StepOrder(items), r, s) else None, inLieu, i);
  }

  /** What each parcel of an accepted holding is given. */
  ghost predicate Settled(parcels: seq<Parcel>, ns: seq<nat>, d: nat, total: nat, inLieu: nat, counts: seq<ParcelCount>)
    requires d > 0 && |ns| == |parcels|
  {
    && |counts| == |parcels| && MovesOnlyIfForced(parcels, ns, d, total, counts)
    && StepsByClaim(parcels, ns, d, counts) && FractionByClaim(parcels, ns, d, inLieu, counts)
  }

  /** A refused holding names a parcel of less than a step, behind every such one listed before
      it. */
  ghost predicate NamesTheEmptied(parcels: seq<Parcel>, ns: seq<nat>, d: nat, id: int)
    requires d > 0 && |ns| == |parcels|
  {
    exists i :: 0 <= i < |parcels| && parcels[i].tradeId == id && ns[i] < d
                && forall j :: 0 <= j < i && ns[j] < d ==> ClaimsBefore(parcels[j], ns[j], parcels[i], ns[i], d)
  }

  lemma CountsSettle(parcels: seq<Parcel>, ns: seq<nat>, d: nat, total: nat, inLieu: nat)
    requires Sharing(parcels, ns, d, total)
    ensures Settled(parcels, ns, d, total, inLieu, Counts(Shares(parcels, ns, d), total, inLieu))
  {
    hide Counts, Sharing, MovesOnlyIfForced, StepsByClaim, FractionByClaim;
    SharingDivides(parcels, ns, d, total);
    MovesAreForced(parcels, ns, d, total, inLieu);
    StepsAreByClaim(parcels, ns, d, total, inLieu);
    CarriedByClaim(parcels, ns, d, total, inLieu);
  }

  lemma MovesAreForced(parcels: seq<Parcel>, ns: seq<nat>, d: nat, total: nat, inLieu: nat)
    requires Sharing(parcels, ns, d, total)
    ensures MovesOnlyIfForced(parcels, ns, d, total, Counts(Shares(parcels, ns, d), total, inLieu))
  {
    hide Counts, GivenTo, StillValid, MayHave, KeepsFrom, Sharing;
    SharingDivides(parcels, ns, d, total);
    var counts := Counts(Shares(parcels, ns, d), total, inLieu);
    forall i, c | 0 <= i < |parcels| && StillValid(parcels[i], ns[i], d, c) && counts[i].onGrid != c
      ensures forall xs :: IsRounding(xs, ns, d, total) ==> !KeepsFrom(parcels, ns, d, i, xs)
    {
      CountsGiven(parcels, ns, d, total, inLieu, i);
      forall xs | IsRounding(xs, ns, d, total) ensures !KeepsFrom(parcels, ns, d, i, xs) {
        if KeepsFrom(parcels, ns, d, i, xs) { KeptIfItCanBe(parcels, ns, d, total, i, c, xs); }
      }
    }
  }

  lemma StepsAreByClaim(parcels: seq<Parcel>, ns: seq<nat>, d: nat, total: nat, inLieu: nat)
    requires Sharing(parcels, ns, d, total)
    ensures StepsByClaim(parcels, ns, d, Counts(Shares(parcels, ns, d), total, inLieu))
  {
    hide Counts, GivenTo, ClaimsBefore, Afresh, Sharing;
    SharingDivides(parcels, ns, d, total);
    var counts := Counts(Shares(parcels, ns, d), total, inLieu);
    forall i, j | 0 <= i < |parcels| && 0 <= j < |parcels|
                  && Afresh(parcels[i], ns[i], d, counts[i].onGrid) && Afresh(parcels[j], ns[j], d, counts[j].onGrid)
                  && counts[i].onGrid * d > ns[i] && counts[j].onGrid * d < ns[j]
      ensures ClaimsBefore(parcels[i], ns[i], parcels[j], ns[j], d)
    {
      CountsGiven(parcels, ns, d, total, inLieu, i);
      CountsGiven(parcels, ns, d, total, inLieu, j);
      DistributesByClaim(parcels, ns, d, total, i, j);
    }
  }

  lemma SharingDivides(parcels: seq<Parcel>, ns: seq<nat>, d: nat, total: nat)
    requires Sharing(parcels, ns, d, total)
    ensures d > 0 && |ns| == |parcels|
  {
  }

  lemma CarriedByClaim(parcels: seq<Parcel>, ns: seq<nat>, d: nat, total: nat, inLieu: nat)
    requires Sharing(parcels, ns, d, total)
    ensures FractionByClaim(parcels, ns, d, inLieu, Counts(Shares(parcels, ns, d), total, inLieu))
  {
    hide Counts, GivenTo, ClaimsBefore, Carrier, Released, Stepped, Sharing;
    SharingDivides(parcels, ns, d, total);
    var counts := Counts(Shares(parcels, ns, d), total, inLieu);
    forall i | 0 <= i < |parcels| && counts[i].inLieu > 0
      ensures counts[i].inLieu == inLieu && counts[i].onGrid * d <= ns[i]
      ensures forall j :: 0 <= j < |parcels| && j != i && counts[j].onGrid * d <= ns[j]
                          ==> ClaimsBefore(parcels[i], ns[i], parcels[j], ns[j], d)
    {
      CountsGiven(parcels, ns, d, total, inLieu, i);
      CarrierAtItsFloor(parcels, ns, d, total, i);
      forall j | 0 <= j < |parcels| && j != i && counts[j].onGrid * d <= ns[j]
        ensures ClaimsBefore(parcels[i], ns[i], parcels[j], ns[j], d)
      {
        CountsGiven(parcels, ns, d, total, inLieu, j);
        CarriesByClaim(parcels, ns, d, total, i, j);
      }
    }
  }

  lemma CarrierAtItsFloor(parcels: seq<Parcel>, ns: seq<nat>, d: nat, total: nat, i: nat)
    requires Sharing(parcels, ns, d, total) && i < |parcels|
    requires var items := Shares(parcels, ns, d);
             var r := Released(items, total);
             Carrier(StepOrder(items), r, Stepped(items, r, total)) == Some(i)
    ensures var items := Shares(parcels, ns, d); GivenTo(items, total, items[i]) * d <= ns[i]
  {
    hide Released, Stepped, Valid, Shareable, Carrier;
    var items := Shares(parcels, ns, d);
    var order, r := StepOrder(items), Released(items, total);
    SharingIsValid(parcels, ns, d, total);
    StepOrderApart(items);
    var k := PlaceOf(items, items[i]);
    CarrierIsFirst(order, r, Stepped(items, r, total), k);
    AtItsFloor(parcels, ns, d, total, i);
  }

  lemma {:induction false} FirstEmptyAt(items: seq<Item>, counts: seq<ParcelCount>) returns (i: nat)
    requires |items| == |counts| && FirstEmpty(items, counts).Some?
    ensures i < |items| && items[i].tradeId == FirstEmpty(items, counts).value && counts[i] == ParcelCount(0, 0)
    ensures forall j :: 0 <= j < i ==> counts[j] != ParcelCount(0, 0)
  {
    if counts[0] == ParcelCount(0, 0) {
      i := 0;
    } else {
      var k := FirstEmptyAt(items[1..], counts[1..]);
      i := k + 1;
      assert forall j :: 0 < j < i ==> counts[j] == counts[1..][j - 1];
    }
  }

  /** One parcel of less than a step given something where another is given nothing. */
  lemma ServedByClaim(parcels: seq<Parcel>, ns: seq<nat>, d: nat, total: nat, inLieu: nat, i: nat, j: nat)
    requires Sharing(parcels, ns, d, total) && i < |parcels| && j < |parcels| && ns[j] < d
    requires var counts := Counts(Shares(parcels, ns, d), total, inLieu);
             counts[i] == ParcelCount(0, 0) && counts[j] != ParcelCount(0, 0)
    ensures ClaimsBefore(parcels[j], ns[j], parcels[i], ns[i], d)
  {
    hide Counts, Released, Stepped, Valid, Shareable, StrongerClaim, ClaimsBefore, Carrier;
    var items := Shares(parcels, ns, d);
    SharingIsValid(parcels, ns, d, total);
    CountsGiven(parcels, ns, d, total, inLieu, i);
    CountsGiven(parcels, ns, d, total, inLieu, j);
    ClaimIs(parcels, ns, d, j, i);
    if GivenTo(items, total, items[j]) == 0 {
      CarriesByClaim(parcels, ns, d, total, j, i);
    } else {
      EmptyIsFree(items, total, items[i]);
      SteppedIs(parcels, ns, d, total, i);
      MulMonotone(1, GivenTo(items, total, items[j]), d);
      if items[j].Kept(Released(items, total)).None? {
        SteppedIs(parcels, ns, d, total, j);
        if StrongerClaim(items[i], items[j]) { StepsGoToTheStrongerClaim(items, total, items[i], items[j]); }
      } else {
        KeptWhereSomeEmpty(items, total, items[i], items[j]);
      }
    }
  }

  lemma EmptyIsFree(items: seq<Item>, total: nat, x: Item)
    requires AllValid(items) && x in items && GivenTo(items, total, x) == 0
    ensures x.Kept(Released(items, total)).None?
  {
  }

  /** Where a parcel is left with nothing, no stored count is kept. */
  lemma KeptWhereSomeEmpty(items: seq<Item>, total: nat, x: Item, y: Item)
    requires AllValid(items) && Distinct(items) && Shareable(items, total) && x in items && y in items
    requires GivenTo(items, total, x) == 0
    ensures y.Kept(Released(items, total)).None?
  {
    hide Released, Stepped, Floors, Tally;
    if Floors(items) + Tally(items, IsEmptied()) <= total {
      NoneEmptied(items, total, x);
    } else {
      ReleasedFitsIff(items, total);
      ReleasedFits(items, total);
    }
  }

  lemma RefusedNamesOne(parcels: seq<Parcel>, ns: seq<nat>, d: nat, total: nat, inLieu: nat)
    requires Sharing(parcels, ns, d, total)
    requires Distribution(Shares(parcels, ns, d), total, inLieu).ParcelEmptied?
    ensures NamesTheEmptied(parcels, ns, d, Distribution(Shares(parcels, ns, d), total, inLieu).tradeId)
  {
    hide Counts, GivenTo, ClaimsBefore, Carrier, Released, Stepped;
    var items := Shares(parcels, ns, d);
    var counts := Counts(items, total, inLieu);
    var i := FirstEmptyAt(items, counts);
    CountsGiven(parcels, ns, d, total, inLieu, i);
    AtItsFloor(parcels, ns, d, total, i);
    LessThanAStep(ns[i], d);
    forall j | 0 <= j < i && ns[j] < d ensures ClaimsBefore(parcels[j], ns[j], parcels[i], ns[i], d) {
      ServedByClaim(parcels, ns, d, total, inLieu, i, j);
    }
  }

  /** An unchanged parcel's stored count stays wherever the others can absorb the total: where some
      counts the parcels may have keep every stored count of unchanged units. */
  lemma UnchangedStays(parcels: seq<Parcel>, ns: seq<nat>, d: nat, total: nat, counts: seq<ParcelCount>,
                       i: nat, c: nat, xs: seq<nat>)
    requires |ns| == |parcels| == |counts| && MovesOnlyIfForced(parcels, ns, d, total, counts)
    requires i < |parcels| && StillValid(parcels[i], ns[i], d, c) && parcels[i].prior.value.before == parcels[i].units
    requires IsRounding(xs, ns, d, total)
    requires forall j, e :: 0 <= j < |parcels| && StillValid(parcels[j], ns[j], d, e)
                            && parcels[j].prior.value.before == parcels[j].units
                            ==> xs[j] == e
    ensures counts[i].onGrid == c
  {
    assert KeepsFrom(parcels, ns, d, i, xs);
  }
}
