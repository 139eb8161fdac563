/**
 * Who comes first in a rounded holding: which parcels the extra steps go to, and whose stored
 * counts are given up.
 */
module RoundingOrder {
  import opened Sorting
  import opened LargestRemainder
  import opened RoundingLaws
  import opened RoundingStability

  /** The claim to an extra step: a parcel that rounding down would empty first, then the larger
      remainder, then the earlier acquisition, then the lower trade id. */
  predicate StrongerClaim(x: Item, y: Item) {
    if x.Emptied() != y.Emptied() then x.Emptied()
    else if x.rem != y.rem then x.rem > y.rem
    else if x.acquired != y.acquired then x.acquired < y.acquired
    else x.tradeId < y.tradeId
  }

  /** The duty to give up a stored count: changed units first, then the later acquisition, then
      the higher trade id. */
  predicate StrongerDuty(x: Item, y: Item) {
    if x.changed != y.changed then x.changed
    else if x.acquired != y.acquired then x.acquired > y.acquired
    else x.tradeId > y.tradeId
  }

  lemma FreeAt(items: seq<Item>, released: set<nat>, x: Item) returns (k: nat)
    requires x in items && x.Kept(released).None?
    ensures k < |Free(StepOrder(items), released)| && Free(StepOrder(items), released)[k] == x
  {
    SortMembers(items, StepFirst(), x);
    FreeMembers(StepOrder(items), released, x);
    k :| 0 <= k < |Free(StepOrder(items), released)| && Free(StepOrder(items), released)[k] == x;
  }

  lemma FreeInOrder(items: seq<Item>, released: set<nat>)
    ensures SortedBy(Free(StepOrder(items), released), StepFirst())
  {
    StepFirstIsOrder();
    SortSorted(items, StepFirst());
    FreeSorted(StepOrder(items), released);
  }

  /** Of two parcels that keep no count, the one with the stronger claim gets its extra step
      before the other gets one. */
  lemma StepsGoToTheStrongerClaim(items: seq<Item>, total: nat, x: Item, y: Item)
    requires AllValid(items) && Distinct(items) && Shareable(items, total) && x in items && y in items
    requires x.Kept(Released(items, total)).None? && StrongerClaim(x, y)
    requires y.index in Stepped(items, Released(items, total), total)
    ensures x.index in Stepped(items, Released(items, total), total)
  {
    hide Released, Stepped, StepOrder, Free, AllValid, Shareable, Distinct;
    var r := Released(items, total);
    var free := Free(StepOrder(items), r);
    SteppedAre(items, total, y);
    SteppedAre(items, total, x);
    var k :| 0 <= k < total - BaseSum(items, r) && k < |free| && free[k] == y;
    var j := FreeAt(items, r, x);
    FreeInOrder(items, r);
    assert !StepFirst()(y, x);
    assert j < k && free[j] == x;
  }

  /** Of two stored counts, the one with the stronger duty is given up before the other is. */
  lemma CountsGoByTheStrongerDuty(items: seq<Item>, total: nat, x: Item, y: Item)
    requires Distinct(items) && x in items && y in items && x.keep.Some? && y.keep.Some? && StrongerDuty(x, y)
    requires y.index in Released(items, total)
    ensures x.index in Released(items, total)
  {
    hide ReleaseOrder, Fits, Distinct;
    var order := ReleaseOrder(items);
    var p := ReleasesShortestPrefix(items, order, {}, total);
    InReleaseOrder(items, x);
    InReleaseOrder(items, y);
    var i :| 0 <= i < |order| && order[i] == x;
    var z :| z in order[..p] && z.index == y.index;
    var k :| 0 <= k < p && order[k] == z;
    InReleaseOrder(items, z);
    SameIndexSameItem(items, y, z);
    ReleaseInOrder(items);
    assert !ReleaseFirst()(y, x);
    assert i < k && order[..p][i] == x;
  }

  lemma ReleaseInOrder(items: seq<Item>)
    ensures SortedBy(ReleaseOrder(items), ReleaseFirst())
  {
    ReleaseFirstIsOrder();
    SortSorted(Keepers(items), ReleaseFirst());
  }
}
