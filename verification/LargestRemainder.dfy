/**
 * A holding's rounded total shared out across its parcels by largest remainder, keeping the counts
 * an earlier rounding put on the register wherever the total allows.
 */
module LargestRemainder {
  import opened Common
  import opened Sorting

  // Every count is in steps of the holding's unit grid.

  /** One parcel as the distribution sees it: its exact share as a whole number of steps and
      a remainder, the count an earlier rounding stored for it when that is still a valid one,
      and whether its units have changed since. */
  datatype Item = Item(index: nat, tradeId: int, acquired: int, floor: nat, rem: nat,
                       keep: Option<nat>, changed: bool)
  {
    function Ceiling(): nat {
      if rem == 0 then floor else floor + 1
    }

    /** Rounding its share down would leave the parcel without units. */
    predicate Emptied() {
      floor == 0
    }

    predicate Valid() {
      && (floor > 0 || rem > 0)
      && (keep.Some? ==> 0 < keep.value && floor <= keep.value <= Ceiling())
    }

    /** The count this parcel keeps once `released` have been released. */
    function Kept(released: set<nat>): Option<nat> {
      if index in released then None else keep
    }

    /** The least and the most steps it can be given. */
    function Low(released: set<nat>): nat {
      match Kept(released)
      case Some(count) => count
      case None => if Emptied() then 1 else floor
    }

    function High(released: set<nat>): nat {
      match Kept(released)
      case Some(count) => count
      case None => Ceiling()
    }

    /** What it is given before any extra step. */
    function Base(released: set<nat>): nat {
      match Kept(released)
      case Some(count) => count
      case None => floor
    }

    function Count(released: set<nat>, stepped: set<nat>): nat {
      Base(released) + if index in stepped then 1 else 0
    }
  }

  ghost predicate Valid(items: seq<Item>) {
    forall i :: 0 <= i < |items| ==> items[i].index == i && items[i].Valid()
  }

  // ----- Sums over the items ------------------------------------------------------------------

  function Floors(items: seq<Item>): nat {
    if items == [] then 0 else items[0].floor + Floors(items[1..])
  }

  function Ceilings(items: seq<Item>): nat {
    if items == [] then 0 else items[0].Ceiling() + Ceilings(items[1..])
  }

  function LowSum(items: seq<Item>, released: set<nat>): nat {
    if items == [] then 0 else items[0].Low(released) + LowSum(items[1..], released)
  }

  function HighSum(items: seq<Item>, released: set<nat>): nat {
    if items == [] then 0 else items[0].High(released) + HighSum(items[1..], released)
  }

  function BaseSum(items: seq<Item>, released: set<nat>): nat {
    if items == [] then 0 else items[0].Base(released) + BaseSum(items[1..], released)
  }

  function CountSum(items: seq<Item>, released: set<nat>, stepped: set<nat>): nat {
    if items == [] then 0 else items[0].Count(released, stepped) + CountSum(items[1..], released, stepped)
  }

  /** The parcels that are not keeping a count can absorb exactly what the kept ones leave. */
  predicate Fits(items: seq<Item>, released: set<nat>, total: nat) {
    LowSum(items, released) <= total <= HighSum(items, released)
  }

  // ----- Releasing kept counts ----------------------------------------------------------------

  /** Changed parcels first, then the latest acquisition, then the higher trade id. */
  function ReleaseFirst(): (Item, Item) -> bool {
    (a: Item, b: Item) =>
      (a.changed && !b.changed)
      || (a.changed == b.changed
          && (a.acquired > b.acquired || (a.acquired == b.acquired && a.tradeId >= b.tradeId)))
  }

  function Keepers(items: seq<Item>): seq<Item> {
    if items == [] then []
    else if items[0].keep.Some? then [items[0]] + Keepers(items[1..]) else Keepers(items[1..])
  }

  function ReleaseOrder(items: seq<Item>): seq<Item> {
    Sort(Keepers(items), ReleaseFirst())
  }

  /** Release one at a time until the rest fits, or nothing is left to release. */
  function ReleaseUntilFits(items: seq<Item>, order: seq<Item>, released: set<nat>, total: nat): set<nat> {
    if Fits(items, released, total) || order == [] then released
    else ReleaseUntilFits(items, order[1..], released + {order[0].index}, total)
  }

  function Released(items: seq<Item>, total: nat): set<nat> {
    ReleaseUntilFits(items, ReleaseOrder(items), {}, total)
  }

  // ----- Extra steps ----------------------------------------------------------------------------

  /** A parcel the round-down would empty, then the largest remainder, then the earlier
      acquisition, then the lower trade id. */
  function StepFirst(): (Item, Item) -> bool {
    (a: Item, b: Item) =>
      (a.Emptied() && !b.Emptied())
      || (a.Emptied() == b.Emptied()
          && (a.rem > b.rem
              || (a.rem == b.rem
                  && (a.acquired < b.acquired || (a.acquired == b.acquired && a.tradeId <= b.tradeId)))))
  }

  function StepOrder(items: seq<Item>): seq<Item> {
    Sort(items, StepFirst())
  }

  function Free(order: seq<Item>, released: set<nat>): seq<Item> {
    if order == [] then []
    else if order[0].Kept(released).None? then [order[0]] + Free(order[1..], released)
    else Free(order[1..], released)
  }

  function Indices(items: seq<Item>): set<nat> {
    set x | x in items :: x.index
  }

  function FirstOf(items: seq<Item>, n: nat): seq<Item> {
    if n <= |items| then items[..n] else items
  }

  /** The parcels that get an extra step: the first so many of the free ones. */
  function Stepped(items: seq<Item>, released: set<nat>, total: nat): set<nat> {
    var base := BaseSum(items, released);
    Indices(FirstOf(Free(StepOrder(items), released), if total >= base then total - base else 0))
  }

  /** The first parcel in the step order whose count is its share rounded down carries the
      cash-in-lieu fraction. */
  function Carrier(order: seq<Item>, released: set<nat>, stepped: set<nat>): Option<nat> {
    if order == [] then None
    else if order[0].Count(released, stepped) == order[0].floor then Some(order[0].index)
    else Carrier(order[1..], released, stepped)
  }

  // ----- The distribution -------------------------------------------------------------------------

  /** A parcel's stored count: steps, and the cash-in-lieu fraction it carries on top (in the
      places beyond the grid such a fraction is cut to). */
  datatype ParcelCount = ParcelCount(onGrid: nat, inLieu: nat)

  datatype Result<T> = Ok(value: T) | ParcelEmptied(tradeId: int)

  function CountsOf(items: seq<Item>, released: set<nat>, stepped: set<nat>, carrier: Option<nat>,
                    inLieu: nat): (counts: seq<ParcelCount>)
    ensures |counts| == |items|
  {
    if items == [] then []
    else [ParcelCount(items[0].Count(released, stepped), if carrier == Some(items[0].index) then inLieu else 0)]
         + CountsOf(items[1..], released, stepped, carrier, inLieu)
  }

  function FirstEmpty(items: seq<Item>, counts: seq<ParcelCount>): Option<int>
    requires |items| == |counts|
  {
    if items == [] then None
    else if counts[0] == ParcelCount(0, 0) then Some(items[0].tradeId)
    else FirstEmpty(items[1..], counts[1..])
  }

  /** The counts of a distribution before the check for an emptied parcel. */
  function Counts(items: seq<Item>, total: nat, inLieu: nat): (counts: seq<ParcelCount>)
    ensures |counts| == |items|
  {
    var r := Released(items, total);
    var stepped := Stepped(items, r, total);
    CountsOf(items, r, stepped, if inLieu > 0 then Carrier(StepOrder(items), r, stepped) else None, inLieu)
  }

  /** The distribution of `total` steps, with a cash-in-lieu fraction to carry. */
  function Distribution(items: seq<Item>, total: nat, inLieu: nat): Result<seq<ParcelCount>> {
    match FirstEmpty(items, Counts(items, total, inLieu))
    case Some(id) => ParcelEmptied(id)
    case None => Ok(Counts(items, total, inLieu))
  }
}
