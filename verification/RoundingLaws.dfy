/**
 * What the distribution of a rounded holding guarantees, for every holding.
 */
module RoundingLaws {
  import opened Common
  import opened Sorting
  import opened LargestRemainder

  /** What both callers hand the distribution: a total between the shares all rounded down and
      all rounded up. */
  predicate Shareable(items: seq<Item>, total: nat) {
    Floors(items) <= total <= Ceilings(items)
  }

  ghost predicate AllValid(items: seq<Item>) {
    forall x :: x in items ==> x.Valid()
  }

  ghost predicate Distinct(items: seq<Item>) {
    forall i, j :: 0 <= i < j < |items| ==> items[i].index != items[j].index
  }

  // ----- Counting items with a property ---------------------------------------------------------

  function Tally(items: seq<Item>, p: Item -> bool): nat {
    if items == [] then 0 else (if p(items[0]) then 1 else 0) + Tally(items[1..], p)
  }

  lemma {:induction false} TallyInsert(x: Item, s: seq<Item>, le: (Item, Item) -> bool, p: Item -> bool)
    ensures Tally(Insert(x, s, le), p) == (if p(x) then 1 else 0) + Tally(s, p)
  {
    var r := Insert(x, s, le);
    if s != [] && !le(x, s[0]) {
      TallyInsert(x, s[1..], le, p);
      assert r[1..] == Insert(x, s[1..], le);
    } else {
      assert r[1..] == s;
    }
  }

  lemma {:induction false} TallySort(s: seq<Item>, le: (Item, Item) -> bool, p: Item -> bool)
    ensures Tally(Sort(s, le), p) == Tally(s, p)
  {
    if s != [] {
      TallySort(s[1..], le, p);
      TallyInsert(s[0], Sort(s[1..], le), le, p);
    }
  }

  /** When the items with a property come first, they are exactly the first `Tally` of them. */
  lemma {:induction false} TallyPrefix(s: seq<Item>, p: Item -> bool, k: nat)
    requires forall i, j :: 0 <= i < j < |s| && p(s[j]) ==> p(s[i])
    requires k < |s|
    ensures Tally(s, p) <= |s|
    ensures p(s[k]) <==> k < Tally(s, p)
  {
    if !p(s[0]) {
      NoneTallied(s, p);
    } else if |s| > 1 {
      TallyPrefix(s[1..], p, if k == 0 then 0 else k - 1);
    }
  }

  lemma {:induction false} NoneTallied(s: seq<Item>, p: Item -> bool)
    requires forall i :: 0 <= i < |s| ==> !p(s[i])
    ensures Tally(s, p) == 0
  {
    if s != [] { NoneTallied(s[1..], p); }
  }

  lemma {:induction false} SameTally(s: seq<Item>, p: Item -> bool, q: Item -> bool)
    requires forall x :: x in s ==> p(x) == q(x)
    ensures Tally(s, p) == Tally(s, q)
  {
    if s != [] {
      assert s[0] in s;
      SameTally(s[1..], p, q);
    }
  }

  // ----- Sorting keeps indices apart ----------------------------------------------------------

  lemma SortKeepsIndicesApart(s: seq<Item>, le: (Item, Item) -> bool)
    requires Distinct(s)
    ensures Distinct(Sort(s, le))
  {
    var index := (x: Item) => x.index as int;
    assert KeysApart(s, index);
    SortKeepsApart(s, le, index);
    var r := Sort(s, le);
    assert forall i, j :: 0 <= i < j < |r| ==> index(r[i]) != index(r[j]);
  }

  lemma StepFirstIsOrder()
    ensures TotalOrder(StepFirst())
  {
  }

  lemma ReleaseFirstIsOrder()
    ensures TotalOrder(ReleaseFirst())
  {
  }

  // ----- Releasing widens the band ---------------------------------------------------------------

  /** Releasing more counts never narrows what the free parcels can absorb. */
  lemma {:induction false} ReleasingWidens(items: seq<Item>, r: set<nat>, s: set<nat>)
    requires AllValid(items) && r <= s
    ensures LowSum(items, s) <= LowSum(items, r) && HighSum(items, r) <= HighSum(items, s)
  {
    if items != [] {
      assert items[0] in items;
      ReleasingWidens(items[1..], r, s);
    }
  }

  function IsEmptied(): Item -> bool {
    (x: Item) => x.Emptied()
  }

  function FreeEmptied(released: set<nat>): Item -> bool {
    (x: Item) => x.Kept(released).None? && x.Emptied()
  }

  function FreeOffGrid(released: set<nat>): Item -> bool {
    (x: Item) => x.Kept(released).None? && x.rem > 0
  }

  /** The band in terms of the free parcels: one step at least for each that would be emptied,
      one at most for each whose share is off the grid. */
  lemma {:induction false} Band(items: seq<Item>, released: set<nat>)
    ensures LowSum(items, released) == BaseSum(items, released) + Tally(items, FreeEmptied(released))
    ensures HighSum(items, released) == BaseSum(items, released) + Tally(items, FreeOffGrid(released))
  {
    if items != [] { Band(items[1..], released); }
  }

  ghost predicate AllReleased(items: seq<Item>, released: set<nat>) {
    forall x :: x in items ==> x.Kept(released).None?
  }

  lemma {:induction false} BandWhenAllReleased(items: seq<Item>, released: set<nat>)
    requires AllReleased(items, released)
    ensures BaseSum(items, released) == Floors(items)
    ensures LowSum(items, released) == Floors(items) + Tally(items, IsEmptied())
    ensures HighSum(items, released) == Ceilings(items)
  {
    if items != [] {
      assert items[0] in items;
      BandWhenAllReleased(items[1..], released);
    }
  }

  lemma {:induction false} KeepersAre(items: seq<Item>, x: Item)
    ensures x in Keepers(items) <==> x in items && x.keep.Some?
  {
    if items != [] { KeepersAre(items[1..], x); }
  }

  /** The release loop stops on a fit or with nothing left, and has released only what stood
      before that point. */
  lemma {:induction false} ReleaseStops(items: seq<Item>, order: seq<Item>, released: set<nat>, total: nat)
    ensures var r := ReleaseUntilFits(items, order, released, total);
            Fits(items, r, total) || r == released + Indices(order)
    ensures released <= ReleaseUntilFits(items, order, released, total) <= released + Indices(order)
    decreases |order|
  {
    if !Fits(items, released, total) && order != [] {
      ReleaseStops(items, order[1..], released + {order[0].index}, total);
      assert Indices(order) == {order[0].index} + Indices(order[1..]) by {
        forall i | i in Indices(order) ensures i in {order[0].index} + Indices(order[1..]) {
          var x :| x in order && x.index == i;
          assert x == order[0] || x in order[1..];
        }
      }
    } else if order == [] {
      assert Indices(order) == {};
    }
  }

  /** After releasing: a fit, or every parcel free. */
  lemma ReleasedFits(items: seq<Item>, total: nat)
    ensures Fits(items, Released(items, total), total) || AllReleased(items, Released(items, total))
  {
    var order := ReleaseOrder(items);
    ReleaseStops(items, order, {}, total);
    if !Fits(items, Released(items, total), total) {
      forall x | x in items ensures x.Kept(Released(items, total)).None? {
        if x.keep.Some? {
          KeepersAre(items, x);
          SortMembers(Keepers(items), ReleaseFirst(), x);
          assert x.index in Indices(order);
        }
      }
    }
  }

  lemma EverythingReleased(items: seq<Item>, r: set<nat>)
    ensures AllReleased(items, r + Indices(items))
  {
    forall x | x in items ensures x.Kept(r + Indices(items)).None? { assert x.index in Indices(items); }
  }

  /** A fit exists at all exactly when the total gives every parcel a step. */
  lemma ReleasedFitsIff(items: seq<Item>, total: nat)
    requires AllValid(items) && Shareable(items, total)
    ensures Fits(items, Released(items, total), total) <==> Floors(items) + Tally(items, IsEmptied()) <= total
  {
    var r := Released(items, total);
    var everything := r + Indices(items);
    ReleasedFits(items, total);
    EverythingReleased(items, r);
    BandWhenAllReleased(items, everything);
    ReleasingWidens(items, r, everything);
    if AllReleased(items, r) { BandWhenAllReleased(items, r); }
  }

  /** The extra steps left after the base counts: never negative, never more than the free
      parcels whose share is off the grid. */
  lemma ExtraWithinBand(items: seq<Item>, total: nat)
    requires AllValid(items) && Shareable(items, total)
    ensures var r := Released(items, total);
            BaseSum(items, r) <= total <= BaseSum(items, r) + Tally(items, FreeOffGrid(r))
  {
    var r := Released(items, total);
    ReleasedFits(items, total);
    Band(items, r);
    if AllReleased(items, r) { BandWhenAllReleased(items, r); }
  }

  // ----- The order of the extra steps ---------------------------------------------------------

  lemma {:induction false} FreeMembers(order: seq<Item>, released: set<nat>, x: Item)
    ensures x in Free(order, released) <==> x in order && x.Kept(released).None?
  {
    if order != [] { FreeMembers(order[1..], released, x); }
  }

  lemma {:induction false} FreeSorted(order: seq<Item>, released: set<nat>)
    requires SortedBy(order, StepFirst())
    ensures SortedBy(Free(order, released), StepFirst())
  {
    if order != [] {
      FreeSorted(order[1..], released);
      forall k | 0 <= k < |Free(order[1..], released)| ensures StepFirst()(order[0], Free(order[1..], released)[k]) {
        FreeMembers(order[1..], released, Free(order[1..], released)[k]);
      }
    }
  }

  lemma {:induction false} FreeTally(order: seq<Item>, released: set<nat>, p: Item -> bool)
    ensures Tally(Free(order, released), p) == Tally(order, (x: Item) => x.Kept(released).None? && p(x))
  {
    if order != [] { FreeTally(order[1..], released, p); }
  }

  function OffGrid(): Item -> bool {
    (x: Item) => x.rem > 0
  }

  /** The free parcels in step order: those the round-down would empty first, then those off
      the grid, then the rest. */
  lemma FreeOrder(items: seq<Item>, released: set<nat>, k: nat)
    requires AllValid(items) && k < |Free(StepOrder(items), released)|
    ensures var x := Free(StepOrder(items), released)[k];
            && x in items && x.Kept(released).None?
            && (x.Emptied() <==> k < Tally(items, FreeEmptied(released)))
            && (x.rem > 0 <==> k < Tally(items, FreeOffGrid(released)))
  {
    var order := StepOrder(items);
    var free := Free(order, released);
    StepFirstIsOrder();
    SortSorted(items, StepFirst());
    FreeSorted(order, released);
    forall x | x in free ensures x in items && x.Valid() {
      FreeMembers(order, released, x);
      SortMembers(items, StepFirst(), x);
    }
    FreeMembers(order, released, free[k]);
    forall i, j | 0 <= i < j < |free|
      ensures (IsEmptied()(free[j]) ==> IsEmptied()(free[i])) && (OffGrid()(free[j]) ==> OffGrid()(free[i]))
    {
      assert StepFirst()(free[i], free[j]);
      assert free[i] in free && free[i].Valid();
    }
    TallyPrefix(free, IsEmptied(), k);
    TallyPrefix(free, OffGrid(), k);
    FreeTally(order, released, IsEmptied());
    FreeTally(order, released, OffGrid());
    SameTally(order, (x: Item) => x.Kept(released).None? && IsEmptied()(x), FreeEmptied(released));
    SameTally(order, (x: Item) => x.Kept(released).None? && OffGrid()(x), FreeOffGrid(released));
    TallySort(items, StepFirst(), FreeEmptied(released));
    TallySort(items, StepFirst(), FreeOffGrid(released));
  }

  lemma {:induction false} FreeLength(order: seq<Item>, released: set<nat>)
    ensures |Free(order, released)| == Tally(order, (x: Item) => x.Kept(released).None?)
  {
    if order != [] { FreeLength(order[1..], released); }
  }

  lemma {:induction false} TallyMonotone(s: seq<Item>, p: Item -> bool, q: Item -> bool)
    requires forall x :: x in s && p(x) ==> q(x)
    ensures Tally(s, p) <= Tally(s, q)
  {
    if s != [] {
      assert s[0] in s;
      TallyMonotone(s[1..], p, q);
    }
  }

  /** There are enough free parcels off the grid for the extra steps. */
  lemma EnoughFree(items: seq<Item>, total: nat)
    requires AllValid(items) && Shareable(items, total)
    ensures var r := Released(items, total);
            total - BaseSum(items, r) <= |Free(StepOrder(items), r)|
  {
    var r := Released(items, total);
    var isFree := (x: Item) => x.Kept(r).None?;
    ExtraWithinBand(items, total);
    FreeLength(StepOrder(items), r);
    TallySort(items, StepFirst(), isFree);
    TallyMonotone(items, FreeOffGrid(r), isFree);
  }

  /** Which parcels get an extra step. */
  lemma SteppedAre(items: seq<Item>, total: nat, x: Item)
    requires AllValid(items) && Distinct(items) && Shareable(items, total) && x in items
    ensures var r := Released(items, total);
            var extra := total - BaseSum(items, r);
            x.index in Stepped(items, r, total)
            <==> exists k :: 0 <= k < extra && k < |Free(StepOrder(items), r)| && Free(StepOrder(items), r)[k] == x
  {
    var r := Released(items, total);
    var extra := total - BaseSum(items, r);
    var free := Free(StepOrder(items), r);
    ExtraWithinBand(items, total);
    EnoughFree(items, total);
    if x.index in Stepped(items, r, total) {
      var y :| y in free[..extra] && y.index == x.index;
      var k :| 0 <= k < extra && free[k] == y;
      FreeOrder(items, r, k);
      SameIndexSameItem(items, x, y);
    }
  }

  lemma SameIndexSameItem(items: seq<Item>, x: Item, y: Item)
    requires Distinct(items) && x in items && y in items && x.index == y.index
    ensures x == y
  {
    var i :| 0 <= i < |items| && items[i] == x;
    var j :| 0 <= j < |items| && items[j] == y;
    assert !(i < j) && !(j < i);
  }

  // ----- Every count within a step of its share -------------------------------------------------

  /** A parcel gets its share rounded down, or one step more where its share is off the grid. */
  lemma CountWithinAStep(items: seq<Item>, total: nat, x: Item)
    requires AllValid(items) && Distinct(items) && Shareable(items, total) && x in items
    ensures var r := Released(items, total);
            x.floor <= x.Count(r, Stepped(items, r, total)) <= x.Ceiling()
  {
    var r := Released(items, total);
    if x.index in Stepped(items, r, total) {
      SteppedAre(items, total, x);
      var k :| 0 <= k < total - BaseSum(items, r) && k < |Free(StepOrder(items), r)|
               && Free(StepOrder(items), r)[k] == x;
      FreeOrder(items, r, k);
      ExtraWithinBand(items, total);
    }
  }

  // ----- The counts sum to the total ----------------------------------------------------------

  function InSet(s: set<nat>): Item -> bool {
    (x: Item) => x.index in s
  }

  lemma {:induction false} CountSumSplit(items: seq<Item>, released: set<nat>, stepped: set<nat>)
    ensures CountSum(items, released, stepped) == BaseSum(items, released) + Tally(items, InSet(stepped))
  {
    if items != [] { CountSumSplit(items[1..], released, stepped); }
  }

  lemma {:induction false} TallyOfFirst(order: seq<Item>, released: set<nat>, n: nat)
    requires Distinct(order) && n <= |Free(order, released)|
    ensures Tally(order, InSet(Indices(Free(order, released)[..n]))) == n
  {
    if order != [] {
      var rest := order[1..];
      var chosen := Free(order, released)[..n];
      assert Distinct(rest);
      forall x | x in chosen ensures x in order {
        FreeMembers(order, released, x);
      }
      if order[0].Kept(released).None? && n > 0 {
        var later := Free(rest, released)[..n - 1];
        assert chosen == [order[0]] + later;
        assert order[0] in chosen && order[0].index in Indices(chosen);
        forall x | x in rest ensures InSet(Indices(chosen))(x) == InSet(Indices(later))(x) {
          assert forall y :: y in chosen <==> y == order[0] || y in later;
        }
        SameTally(rest, InSet(Indices(chosen)), InSet(Indices(later)));
        TallyOfFirst(rest, released, n - 1);
      } else {
        var later := Free(rest, released)[..n];
        assert chosen == later;
        forall x | x in later ensures x.index != order[0].index {
          FreeMembers(rest, released, x);
        }
        assert order[0].index !in Indices(chosen);
        TallyOfFirst(rest, released, n);
      }
    }
  }

  /** The counts sum to the rounded total exactly. */
  lemma CountsSumToTotal(items: seq<Item>, total: nat)
    requires AllValid(items) && Distinct(items) && Shareable(items, total)
    ensures var r := Released(items, total);
            CountSum(items, r, Stepped(items, r, total)) == total
  {
    var r := Released(items, total);
    var extra := total - BaseSum(items, r);
    ExtraWithinBand(items, total);
    EnoughFree(items, total);
    SortKeepsIndicesApart(items, StepFirst());
    TallyOfFirst(StepOrder(items), r, extra);
    TallySort(items, StepFirst(), InSet(Stepped(items, r, total)));
    CountSumSplit(items, r, Stepped(items, r, total));
  }

  // ----- Which holdings are refused --------------------------------------------------------------

  lemma {:induction false} CountsAt(items: seq<Item>, released: set<nat>, stepped: set<nat>,
                                    carrier: Option<nat>, inLieu: nat, i: nat)
    requires i < |items|
    ensures CountsOf(items, released, stepped, carrier, inLieu)[i]
            == ParcelCount(items[i].Count(released, stepped), if carrier == Some(items[i].index) then inLieu else 0)
  {
    if i > 0 { CountsAt(items[1..], released, stepped, carrier, inLieu, i - 1); }
  }

  ghost predicate NoneEmpty(counts: seq<ParcelCount>) {
    forall i :: 0 <= i < |counts| ==> counts[i] != ParcelCount(0, 0)
  }

  lemma {:induction false} FirstEmptyIsNone(items: seq<Item>, counts: seq<ParcelCount>)
    requires |items| == |counts|
    ensures FirstEmpty(items, counts).None? <==> NoneEmpty(counts)
  {
    if items != [] {
      FirstEmptyIsNone(items[1..], counts[1..]);
      assert forall i :: 0 < i < |counts| ==> counts[i] == counts[1..][i - 1];
    }
  }

  /** The carrier is the first parcel in the order at its share rounded down. */
  lemma {:induction false} CarrierIs(order: seq<Item>, released: set<nat>, stepped: set<nat>, k: nat)
    requires k < |order| && order[k].Count(released, stepped) == order[k].floor
    requires forall i :: 0 <= i < k ==> order[i].Count(released, stepped) != order[i].floor
    ensures Carrier(order, released, stepped) == Some(order[k].index)
  {
    if k > 0 { CarrierIs(order[1..], released, stepped, k - 1); }
  }

  /** Nothing is kept when everything is released. */
  lemma {:induction false} FreeIsOrder(order: seq<Item>, released: set<nat>)
    requires AllReleased(order, released)
    ensures Free(order, released) == order
  {
    if order != [] {
      assert order[0] in order;
      FreeIsOrder(order[1..], released);
    }
  }

  /** Where the total gives every parcel a step, none is left without units. */
  lemma NoneEmptied(items: seq<Item>, total: nat, x: Item)
    requires AllValid(items) && Distinct(items) && Shareable(items, total) && x in items
    requires Floors(items) + Tally(items, IsEmptied()) <= total
    ensures var r := Released(items, total);
            x.Count(r, Stepped(items, r, total)) > 0
  {
    var r := Released(items, total);
    var free := Free(StepOrder(items), r);
    if x.Kept(r).None? && x.Emptied() {
      ReleasedFitsIff(items, total);
      Band(items, r);
      SortMembers(items, StepFirst(), x);
      FreeMembers(StepOrder(items), r, x);
      var k :| 0 <= k < |free| && free[k] == x;
      FreeOrder(items, r, k);
      SteppedAre(items, total, x);
    }
  }

  /** Where it does not, everything is released, the first parcels in the order get the steps
      there are, and the next ones are left at nothing. */
  lemma TheRestEmptied(items: seq<Item>, total: nat, k: nat)
    requires AllValid(items) && Distinct(items) && Shareable(items, total) && k < |items|
    requires Floors(items) + Tally(items, IsEmptied()) > total
    ensures |StepOrder(items)| == |items|
    ensures var r := Released(items, total);
            var x := StepOrder(items)[k];
            && x in items
            && (k < total - Floors(items) ==> x.Count(r, Stepped(items, r, total)) == x.floor + 1)
            && (k >= total - Floors(items) ==> x.Count(r, Stepped(items, r, total)) == x.floor)
            && (x.floor == 0 <==> k < Tally(items, IsEmptied()))
  {
    var r := Released(items, total);
    var order := StepOrder(items);
    SortLength(items);
    ReleasedFitsIff(items, total);
    ReleasedFits(items, total);
    BandWhenAllReleased(items, r);
    forall y | y in order ensures y.Kept(r).None? { SortMembers(items, StepFirst(), y); }
    FreeIsOrder(order, r);
    FreeOrder(items, r, k);
    SameTally(items, FreeEmptied(r), IsEmptied());
    SteppedAre(items, total, order[k]);
    SortKeepsIndicesApart(items, StepFirst());
    assert forall i :: 0 <= i < |order| && order[i] == order[k] ==> i == k;
  }

  lemma {:induction false} InsertLength(x: Item, s: seq<Item>, le: (Item, Item) -> bool)
    ensures |Insert(x, s, le)| == |s| + 1
  {
    if s != [] && !le(x, s[0]) { InsertLength(x, s[1..], le); }
  }

  lemma {:induction false} SortLength(s: seq<Item>)
    ensures |StepOrder(s)| == |s|
  {
    if s != [] {
      SortLength(s[1..]);
      InsertLength(s[0], StepOrder(s[1..]), StepFirst());
    }
  }

  lemma {:induction false} TallyBound(s: seq<Item>, p: Item -> bool)
    ensures Tally(s, p) <= |s|
  {
    if s != [] { TallyBound(s[1..], p); }
  }

  ghost predicate ShortBy(items: seq<Item>, total: nat) {
    && AllValid(items) && Distinct(items) && Shareable(items, total)
    && total - Floors(items) < Tally(items, IsEmptied()) <= |items|
  }

  /** The first parcel past the steps there are carries the fraction. */
  lemma CarrierPastTheSteps(items: seq<Item>, total: nat)
    requires ShortBy(items, total)
    ensures |StepOrder(items)| == |items|
    ensures var r := Released(items, total);
            Carrier(StepOrder(items), r, Stepped(items, r, total))
            == Some(StepOrder(items)[total - Floors(items)].index)
  {
    var r := Released(items, total);
    forall k: nat | k < |items| { TheRestEmptied(items, total, k); }
    SortLength(items);
    CarrierIs(StepOrder(items), r, Stepped(items, r, total), total - Floors(items));
  }

  /** The count of the parcel at place `k` of the step order, when the steps run out. */
  lemma CountWhenShort(items: seq<Item>, total: nat, inLieu: nat, i: nat, k: nat)
    requires ShortBy(items, total) && i < |items| && k < |items|
    requires |StepOrder(items)| == |items| && StepOrder(items)[k] == items[i]
    ensures var spare := total - Floors(items);
            Counts(items, total, inLieu)[i] == ParcelCount(0, 0)
            <==> spare <= k < Tally(items, IsEmptied()) && !(inLieu > 0 && k == spare)
  {
    var r := Released(items, total);
    var stepped := Stepped(items, r, total);
    var order := StepOrder(items);
    TheRestEmptied(items, total, k);
    CarrierPastTheSteps(items, total);
    SortKeepsIndicesApart(items, StepFirst());
    assert order[total - Floors(items)].index == items[i].index <==> k == total - Floors(items);
    CountsAt(items, r, stepped, if inLieu > 0 then Carrier(order, r, stepped) else None, inLieu, i);
  }

  /** The refused side: only a carrier standing in for the one parcel left at nothing saves it. */
  lemma ShortOfSteps(items: seq<Item>, total: nat, inLieu: nat)
    requires ShortBy(items, total)
    ensures NoneEmpty(Counts(items, total, inLieu))
            <==> inLieu > 0 && Tally(items, IsEmptied()) == total - Floors(items) + 1
  {
    var order := StepOrder(items);
    var spare := total - Floors(items);
    var counts := Counts(items, total, inLieu);
    SortLength(items);
    if inLieu > 0 && Tally(items, IsEmptied()) == spare + 1 {
      forall i | 0 <= i < |counts| ensures counts[i] != ParcelCount(0, 0) {
        SortMembers(items, StepFirst(), items[i]);
        var k :| 0 <= k < |order| && order[k] == items[i];
        CountWhenShort(items, total, inLieu, i, k);
      }
    } else {
      var k := if inLieu > 0 then spare + 1 else spare;
      SortMembers(items, StepFirst(), order[k]);
      var i :| 0 <= i < |items| && items[i] == order[k];
      CountWhenShort(items, total, inLieu, i, k);
    }
  }

  /** Where every parcel gets a step, none is empty. */
  lemma EnoughSteps(items: seq<Item>, total: nat, inLieu: nat)
    requires AllValid(items) && Distinct(items) && Shareable(items, total)
    requires Floors(items) + Tally(items, IsEmptied()) <= total
    ensures NoneEmpty(Counts(items, total, inLieu))
  {
    var r := Released(items, total);
    var stepped := Stepped(items, r, total);
    forall i | 0 <= i < |items| ensures Counts(items, total, inLieu)[i] != ParcelCount(0, 0) {
      NoneEmptied(items, total, items[i]);
      CountsAt(items, r, stepped, if inLieu > 0 then Carrier(StepOrder(items), r, stepped) else None, inLieu, i);
    }
  }

  /** Exactly when a holding is refused, whatever counts it had before: the total leaves more
      parcels at nothing than there are steps to give them, one fewer where a cash-in-lieu
      fraction stands in for a parcel's units. */
  lemma RefusedIff(items: seq<Item>, total: nat, inLieu: nat)
    requires AllValid(items) && Distinct(items) && Shareable(items, total)
    ensures Distribution(items, total, inLieu).Ok?
            <==> Tally(items, IsEmptied()) <= total - Floors(items) + (if inLieu > 0 then 1 else 0)
    ensures Distribution(items, total, inLieu).Ok?
            ==> Distribution(items, total, inLieu).value == Counts(items, total, inLieu)
  {
    FirstEmptyIsNone(items, Counts(items, total, inLieu));
    if Tally(items, IsEmptied()) <= total - Floors(items) {
      EnoughSteps(items, total, inLieu);
    } else {
      TallyBound(items, IsEmptied());
      ShortOfSteps(items, total, inLieu);
    }
  }
}
