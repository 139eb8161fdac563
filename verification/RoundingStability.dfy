/**
 * A registry does not redistribute a holding it has already rounded: which counts a second
 * rounding may move, and that rounding again from its own answer moves none.
 */
module RoundingStability {
  import opened Common
  import opened Sorting
  import opened LargestRemainder
  import opened RoundingLaws

  // ----- Only a total that forces it moves an unchanged parcel -------------------------------------

  lemma {:induction false} SameKeptSameBand(items: seq<Item>, r: set<nat>, s: set<nat>)
    requires forall x :: x in items ==> x.Kept(r) == x.Kept(s)
    ensures LowSum(items, r) == LowSum(items, s) && HighSum(items, r) == HighSum(items, s)
  {
    if items != [] {
      assert items[0] in items;
      SameKeptSameBand(items[1..], r, s);
    }
  }

  /** The loop releases a prefix of the order, and no shorter prefix fits. */
  lemma {:induction false} ReleasesShortestPrefix(items: seq<Item>, order: seq<Item>, released: set<nat>, total: nat)
    returns (p: nat)
    ensures p <= |order|
    ensures ReleaseUntilFits(items, order, released, total) == released + Indices(order[..p])
    ensures forall q :: 0 <= q < p ==> !Fits(items, released + Indices(order[..q]), total)
    decreases |order|
  {
    if Fits(items, released, total) || order == [] {
      p := 0;
    } else {
      var rest := order[1..];
      var n := ReleasesShortestPrefix(items, rest, released + {order[0].index}, total);
      p := n + 1;
      forall q | 0 <= q <= n
        ensures released + {order[0].index} + Indices(rest[..q]) == released + Indices(order[..q + 1])
      {
        PrefixIndices(order, q);
      }
      forall q | 0 <= q < p ensures !Fits(items, released + Indices(order[..q]), total) {
        if q == 0 {
          assert released + Indices(order[..0]) == released;
        } else {
          assert !Fits(items, released + {order[0].index} + Indices(rest[..q - 1]), total);
        }
      }
    }
  }

  lemma PrefixIndices(order: seq<Item>, q: nat)
    requires order != [] && q < |order|
    ensures Indices(order[..q + 1]) == {order[0].index} + Indices(order[1..][..q])
  {
    assert order[..q + 1] == [order[0]] + order[1..][..q];
    assert forall x :: x in order[..q + 1] <==> x == order[0] || x in order[1..][..q];
  }

  function IsChanged(): Item -> bool {
    (x: Item) => x.changed
  }

  /** Releasing every parcel whose units have changed, and no other. */
  function ChangedOnly(items: seq<Item>): set<nat> {
    set x | x in items && x.changed :: x.index
  }

  /** The keepers in release order: the changed ones come first. */
  lemma ChangedComeFirst(items: seq<Item>, k: nat)
    requires k < |ReleaseOrder(items)|
    ensures Tally(ReleaseOrder(items), IsChanged()) <= |ReleaseOrder(items)|
    ensures ReleaseOrder(items)[k].changed <==> k < Tally(ReleaseOrder(items), IsChanged())
  {
    var order := ReleaseOrder(items);
    ReleaseFirstIsOrder();
    SortSorted(Keepers(items), ReleaseFirst());
    forall i, j | 0 <= i < j < |order| && IsChanged()(order[j]) ensures IsChanged()(order[i]) {
      assert ReleaseFirst()(order[i], order[j]);
    }
    TallyPrefix(order, IsChanged(), k);
  }

  lemma InReleaseOrder(items: seq<Item>, x: Item)
    ensures x in ReleaseOrder(items) <==> x in items && x.keep.Some?
  {
    SortMembers(Keepers(items), ReleaseFirst(), x);
    KeepersAre(items, x);
  }

  /** Releasing the changed prefix of the order is releasing the changed parcels. */
  lemma ChangedPrefix(items: seq<Item>, x: Item)
    requires Distinct(items) && x in items
    ensures var order := ReleaseOrder(items);
            Tally(order, IsChanged()) <= |order|
            && x.Kept(Indices(order[..Tally(order, IsChanged())])) == x.Kept(ChangedOnly(items))
  {
    var order := ReleaseOrder(items);
    TallyBound(order, IsChanged());
    var c := Tally(order, IsChanged());
    InReleaseOrder(items, x);
    if x.keep.Some? {
      var k :| 0 <= k < |order| && order[k] == x;
      ChangedComeFirst(items, k);
      if x.changed {
        assert order[..c][k] == x;
        assert x.index in Indices(order[..c]);
      }
      if x.index in Indices(order[..c]) {
        var y :| y in order[..c] && y.index == x.index;
        var j :| 0 <= j < c && order[j] == y;
        InReleaseOrder(items, y);
        SameIndexSameItem(items, x, y);
        ChangedComeFirst(items, j);
      }
      if x.index in ChangedOnly(items) {
        var y :| y in items && y.changed && y.index == x.index;
        SameIndexSameItem(items, x, y);
      }
    }
  }

  /** An unchanged parcel's stored count moves only when keeping every unchanged parcel's count
      would leave the others unable to absorb the total. */
  lemma MovesOnlyWhenForced(items: seq<Item>, total: nat, x: Item)
    requires AllValid(items) && Distinct(items) && Shareable(items, total)
    requires x in items && x.keep.Some? && !x.changed
    requires var r := Released(items, total);
             x.Count(r, Stepped(items, r, total)) != x.keep.value
    ensures !Fits(items, ChangedOnly(items), total)
  {
    var r := Released(items, total);
    var order := ReleaseOrder(items);
    if x.index in Stepped(items, r, total) {
      SteppedAre(items, total, x);
      var k :| 0 <= k < |Free(StepOrder(items), r)| && Free(StepOrder(items), r)[k] == x;
      FreeOrder(items, r, k);
    }
    assert x.index in r;
    var p := ReleasesShortestPrefix(items, order, {}, total);
    var y :| y in order[..p] && y.index == x.index;
    var k :| 0 <= k < p && order[k] == y;
    InReleaseOrder(items, y);
    SameIndexSameItem(items, x, y);
    ChangedComeFirst(items, k);
    var c := Tally(order, IsChanged());
    assert !Fits(items, {} + Indices(order[..c]), total);
    assert {} + Indices(order[..c]) == Indices(order[..c]);
    forall z | z in items ensures z.Kept(Indices(order[..c])) == z.Kept(ChangedOnly(items)) {
      ChangedPrefix(items, z);
    }
    SameKeptSameBand(items, Indices(order[..c]), ChangedOnly(items));
  }

  // ----- Rounding again from its own answer ---------------------------------------------------------

  /** A parcel with the count a distribution gave it as its stored one, its units unchanged. */
  function Restore(counts: seq<ParcelCount>): Item -> Item {
    (x: Item) => x.(keep := if x.index < |counts| && counts[x.index].onGrid > 0
                            then Some(counts[x.index].onGrid) else None,
                    changed := false)
  }

  function Apply(f: Item -> Item, items: seq<Item>): (r: seq<Item>)
    ensures |r| == |items| && forall i :: 0 <= i < |r| ==> r[i] == f(items[i])
  {
    if items == [] then [] else [f(items[0])] + Apply(f, items[1..])
  }

  /** The same parcel and the same share. */
  ghost predicate Alike(f: Item -> Item) {
    forall x: Item :: f(x).index == x.index && f(x).tradeId == x.tradeId && f(x).acquired == x.acquired
                      && f(x).floor == x.floor && f(x).rem == x.rem
  }

  lemma {:induction false} InsertApply(x: Item, s: seq<Item>, f: Item -> Item)
    requires Alike(f)
    ensures Apply(f, Insert(x, s, StepFirst())) == Insert(f(x), Apply(f, s), StepFirst())
  {
    if s != [] {
      assert Apply(f, s)[1..] == Apply(f, s[1..]);
      if !StepFirst()(x, s[0]) {
        InsertApply(x, s[1..], f);
        assert Apply(f, [s[0]] + Insert(x, s[1..], StepFirst()))
               == [f(s[0])] + Apply(f, Insert(x, s[1..], StepFirst()));
      } else {
        assert Apply(f, [x] + s) == [f(x)] + Apply(f, s);
      }
    }
  }

  lemma {:induction false} SortApply(s: seq<Item>, f: Item -> Item)
    requires Alike(f)
    ensures Apply(f, StepOrder(s)) == StepOrder(Apply(f, s))
  {
    if s != [] {
      SortApply(s[1..], f);
      InsertApply(s[0], StepOrder(s[1..]), f);
      assert Apply(f, s)[1..] == Apply(f, s[1..]);
    }
  }

  lemma {:induction false} SharesApply(s: seq<Item>, f: Item -> Item)
    requires Alike(f)
    ensures Floors(Apply(f, s)) == Floors(s) && Ceilings(Apply(f, s)) == Ceilings(s)
    ensures Tally(Apply(f, s), IsEmptied()) == Tally(s, IsEmptied())
  {
    if s != [] { SharesApply(s[1..], f); }
  }

  /** Counts that agree parcel by parcel give the same answer. */
  lemma {:induction false} CountsApply(items: seq<Item>, f: Item -> Item, r: set<nat>, s: set<nat>, r': set<nat>,
                                       s': set<nat>, carrier: Option<nat>, inLieu: nat)
    requires Alike(f) && forall x :: x in items ==> f(x).Count(r', s') == x.Count(r, s)
    ensures CountsOf(Apply(f, items), r', s', carrier, inLieu) == CountsOf(items, r, s, carrier, inLieu)
  {
    if items != [] {
      assert items[0] in items;
      CountsApply(items[1..], f, r, s, r', s', carrier, inLieu);
    }
  }

  lemma {:induction false} CarrierApply(order: seq<Item>, f: Item -> Item, r: set<nat>, s: set<nat>, r': set<nat>,
                                        s': set<nat>)
    requires Alike(f) && forall x :: x in order ==> f(x).Count(r', s') == x.Count(r, s)
    ensures Carrier(Apply(f, order), r', s') == Carrier(order, r, s)
  {
    if order != [] {
      assert order[0] in order;
      assert Apply(f, order)[1..] == Apply(f, order[1..]);
      CarrierApply(order[1..], f, r, s, r', s');
    }
  }

  lemma {:induction false} EmptyApply(items: seq<Item>, f: Item -> Item, counts: seq<ParcelCount>)
    requires Alike(f) && |items| == |counts|
    ensures FirstEmpty(Apply(f, items), counts) == FirstEmpty(items, counts)
  {
    if items != [] { EmptyApply(items[1..], f, counts[1..]); }
  }

  ghost predicate SameCounts(items: seq<Item>, f: Item -> Item, total: nat) {
    var r, r' := Released(items, total), Released(Apply(f, items), total);
    forall x :: x in items ==>
      f(x).Count(r', Stepped(Apply(f, items), r', total)) == x.Count(r, Stepped(items, r, total))
  }

  /** Once every parcel's count agrees, so does the whole distribution. */
  lemma SameDistribution(items: seq<Item>, f: Item -> Item, total: nat, inLieu: nat)
    requires Alike(f) && SameCounts(items, f, total)
    ensures Distribution(Apply(f, items), total, inLieu) == Distribution(items, total, inLieu)
  {
    var again := Apply(f, items);
    var r, r' := Released(items, total), Released(again, total);
    var s, s' := Stepped(items, r, total), Stepped(again, r', total);
    SortApply(items, f);
    forall x | x in StepOrder(items) ensures x in items { SortMembers(items, StepFirst(), x); }
    CarrierApply(StepOrder(items), f, r, s, r', s');
    CountsApply(items, f, r, s, r', s', if inLieu > 0 then Carrier(StepOrder(items), r, s) else None, inLieu);
    EmptyApply(items, f, Counts(items, total, inLieu));
  }

  /** A holding's answer, as the next rounding of it starts from. */
  function Rerounded(items: seq<Item>, total: nat, inLieu: nat): seq<Item> {
    Apply(Restore(Counts(items, total, inLieu)), items)
  }

  lemma RestoredCount(items: seq<Item>, total: nat, inLieu: nat, x: Item)
    requires Valid(items) && x in items
    ensures var r := Released(items, total);
            var count := x.Count(r, Stepped(items, r, total));
            Restore(Counts(items, total, inLieu))(x).keep == if count > 0 then Some(count) else None
  {
    var r := Released(items, total);
    var s := Stepped(items, r, total);
    CountsAt(items, r, s, if inLieu > 0 then Carrier(StepOrder(items), r, s) else None, inLieu, x.index);
    var i :| 0 <= i < |items| && items[i] == x;
    assert items[x.index] == x;
  }

  lemma ValidIsDistinct(items: seq<Item>)
    requires Valid(items)
    ensures AllValid(items) && Distinct(items)
  {
  }

  lemma ReroundedIsValid(items: seq<Item>, total: nat, inLieu: nat)
    requires Valid(items) && Shareable(items, total)
    ensures Valid(Rerounded(items, total, inLieu)) && Shareable(Rerounded(items, total, inLieu), total)
    ensures Tally(Rerounded(items, total, inLieu), IsEmptied()) == Tally(items, IsEmptied())
    ensures Floors(Rerounded(items, total, inLieu)) == Floors(items)
  {
    ValidIsDistinct(items);
    var again := Rerounded(items, total, inLieu);
    SharesApply(items, Restore(Counts(items, total, inLieu)));
    forall i | 0 <= i < |again| ensures again[i].index == i && again[i].Valid() {
      RestoredCount(items, total, inLieu, items[i]);
      CountWithinAStep(items, total, items[i]);
    }
  }

  lemma {:induction false} AllKeptSums(items: seq<Item>, f: Item -> Item, r: set<nat>, s: set<nat>)
    requires forall x :: x in items ==> f(x).keep == Some(x.Count(r, s))
    ensures LowSum(Apply(f, items), {}) == CountSum(items, r, s) == HighSum(Apply(f, items), {})
    ensures BaseSum(Apply(f, items), {}) == CountSum(items, r, s)
  {
    if items != [] {
      assert items[0] in items;
      AllKeptSums(items[1..], f, r, s);
    }
  }

  /** Where every parcel has units of its own, rounding again keeps every count at once. */
  lemma ReroundingKeepsAll(items: seq<Item>, total: nat, inLieu: nat)
    requires Valid(items) && Shareable(items, total)
    requires Floors(items) + Tally(items, IsEmptied()) <= total
    ensures SameCounts(items, Restore(Counts(items, total, inLieu)), total)
  {
    ValidIsDistinct(items);
    var f := Restore(Counts(items, total, inLieu));
    var again := Apply(f, items);
    var r := Released(items, total);
    var s := Stepped(items, r, total);
    forall x | x in items ensures f(x).keep == Some(x.Count(r, s)) {
      NoneEmptied(items, total, x);
      RestoredCount(items, total, inLieu, x);
    }
    CountsSumToTotal(items, total);
    AllKeptSums(items, f, r, s);
    assert Released(again, total) == {};
    assert FirstOf(Free(StepOrder(again), {}), 0) == [];
    assert Stepped(again, {}, total) == {};
  }

  lemma {:induction false} FreeIndices(order: seq<Item>, f: Item -> Item, n: nat)
    requires Alike(f)
    ensures Indices(FirstOf(Apply(f, order), n)) == Indices(FirstOf(order, n))
  {
    var a, b := FirstOf(Apply(f, order), n), FirstOf(order, n);
    forall i | i in Indices(a) ensures i in Indices(b) {
      var y :| y in a && y.index == i;
      var k :| 0 <= k < |a| && a[k] == y;
      assert y == f(b[k]);
    }
    forall i | i in Indices(b) ensures i in Indices(a) {
      var y :| y in b && y.index == i;
      var k :| 0 <= k < |b| && b[k] == y;
      assert a[k] == f(y);
    }
  }

  lemma OrderReleased(items: seq<Item>, r: set<nat>)
    requires AllReleased(items, r)
    ensures Free(StepOrder(items), r) == StepOrder(items)
  {
    forall x | x in StepOrder(items) ensures x.Kept(r).None? { SortMembers(items, StepFirst(), x); }
    FreeIsOrder(StepOrder(items), r);
  }

  /** Where the steps run out everything is released and the first of the order take them. */
  lemma StepsRunOut(items: seq<Item>, total: nat)
    requires Valid(items) && Shareable(items, total)
    requires Floors(items) + Tally(items, IsEmptied()) > total
    ensures var r := Released(items, total);
            AllReleased(items, r)
            && Stepped(items, r, total) == Indices(FirstOf(StepOrder(items), total - Floors(items)))
  {
    ValidIsDistinct(items);
    var r := Released(items, total);
    ReleasedFitsIff(items, total);
    ReleasedFits(items, total);
    BandWhenAllReleased(items, r);
    OrderReleased(items, r);
  }

  lemma {:induction false} FloorsAreCounts(items: seq<Item>, f: Item -> Item, r: set<nat>, r': set<nat>, s: set<nat>)
    requires Alike(f) && AllReleased(items, r) && AllReleased(Apply(f, items), r')
    ensures forall x :: x in items ==> f(x).Count(r', s) == x.Count(r, s)
  {
    forall x | x in items ensures f(x).Count(r', s) == x.Count(r, s) {
      var i :| 0 <= i < |items| && items[i] == x;
      assert Apply(f, items)[i] == f(x);
    }
  }

  lemma StartOverAlike(items: seq<Item>, f: Item -> Item, total: nat)
    requires Alike(f) && Valid(items) && Valid(Apply(f, items)) && Shareable(items, total)
    requires Floors(items) + Tally(items, IsEmptied()) > total
    ensures SameCounts(items, f, total)
  {
    hide Released, Stepped, Valid, Floors, Ceilings, Tally, Apply, StepOrder, AllReleased, Indices, FirstOf, Alike;
    var again := Apply(f, items);
    var r, r' := Released(items, total), Released(again, total);
    SharesApply(items, f);
    StepsRunOut(items, total);
    StepsRunOut(again, total);
    SortApply(items, f);
    FreeIndices(StepOrder(items), f, total - Floors(items));
    assert Stepped(again, r', total) == Stepped(items, r, total);
    FloorsAreCounts(items, f, r, r', Stepped(items, r, total));
  }

  /** Where the steps run out, both roundings start from the shares alone. */
  lemma ReroundingStartsOver(items: seq<Item>, total: nat, inLieu: nat)
    requires Valid(items) && Shareable(items, total)
    requires Floors(items) + Tally(items, IsEmptied()) > total
    ensures SameCounts(items, Restore(Counts(items, total, inLieu)), total)
  {
    ReroundedIsValid(items, total, inLieu);
    StartOverAlike(items, Restore(Counts(items, total, inLieu)), total);
  }

  /** Rounding a holding again from the counts it was given, nothing having changed, gives the
      same answer, refusals and the cash-in-lieu fraction included. */
  lemma RoundingAgainMovesNothing(items: seq<Item>, total: nat, inLieu: nat)
    requires Valid(items) && Shareable(items, total)
    ensures Distribution(Rerounded(items, total, inLieu), total, inLieu) == Distribution(items, total, inLieu)
  {
    if Floors(items) + Tally(items, IsEmptied()) <= total {
      ReroundingKeepsAll(items, total, inLieu);
    } else {
      ReroundingStartsOver(items, total, inLieu);
    }
    SameDistribution(items, Restore(Counts(items, total, inLieu)), total, inLieu);
  }
}
