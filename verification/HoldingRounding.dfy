/**
 * Rounding a whole holding onto its unit grid: the registered total, the deliveries that leave it,
 * and the parcels' shares of what is left.
 */
module HoldingRounding {
  import opened Common
  import opened LargestRemainder
  import opened RoundingLaws
  import opened RoundingStability
  import opened Sorting

  // Quantities are exact: a parcel's units are a numerator over the holding's common denominator,
  // and the grid and both denominators are folded into `new` and `old`, so that
  // `units * new / old` counts grid steps.

  datatype Rule = Down | Up | Nearest | CashInLieu

  /** A settlement obligation is converted by the action's own rule, except that a fraction
      paid in cash belongs to the registered holder. */
  function ForObligation(rule: Rule): Rule {
    if rule.CashInLieu? then Down else rule
  }

  datatype Prior = Prior(before: real, onGrid: real)

  datatype ParcelBefore = ParcelBefore(tradeId: int, acquired: int, units: real, num: nat, prior: Option<Prior>)

  type Parcel = p: ParcelBefore | p.num > 0 witness ParcelBefore(0, 0, 1.0, 1, None)

  /** Places beyond the grid a cash-in-lieu fraction is carried to. */
  const FINE: nat := 1_000_000_000_000

  // ----- The exact floor from any first guess ----------------------------------------------------

  lemma MulMonotone(a: int, b: int, d: nat)
    requires a <= b
    ensures a * d <= b * d
  {
  }

  lemma QuotientIs(n: nat, d: nat, q: nat)
    requires d > 0 && q * d <= n < (q + 1) * d
    ensures n / d == q && n % d == n - q * d
  {
    var e := n / d;
    assert e * d <= n < (e + 1) * d;
    if e < q { MulMonotone(e + 1, q, d); }
    if q < e { MulMonotone(q + 1, e, d); }
  }

  /** The floor of `num / den` and its exact remainder, corrected by multiplication from
      whatever quotient the division offered first. */
  method FloorOnGrid(num: nat, den: nat, guess: int) returns (floor: nat, rem: nat)
    requires den > 0
    ensures floor == num / den && rem == num % den
  {
    var f := guess;
    while f * den > num
      decreases f * den
    {
      assert (f - 1) * den == f * den - den;
      f := f - 1;
    }
    while (f + 1) * den <= num
      invariant f * den <= num
      decreases num - f * den
    {
      f := f + 1;
    }
    assert f >= 0 by { if f + 1 <= 0 { MulMonotone(f + 1, 0, den); } }
    QuotientIs(num, den, f);
    floor, rem := f, num - f * den;
  }

  // ----- Rounding a count by a rule ---------------------------------------------------------------

  /** `n / d` rounded to a whole number of steps. */
  function RoundTo(n: nat, d: nat, rule: Rule): nat
    requires d > 0
  {
    var floor, rem := n / d, n % d;
    match rule
    case Down => floor
    case CashInLieu => floor
    case Up => if rem > 0 then floor + 1 else floor
    case Nearest => if 2 * rem >= d then floor + 1 else floor
  }

  /** What each rule rounds to: the step at or below, at or above, or the nearest one with a
      half going up. */
  predicate RoundsTo(r: nat, n: nat, d: nat, rule: Rule) {
    && (rule.Down? || rule.CashInLieu? ==> r * d <= n < r * d + d)
    && (rule.Up? ==> n <= r * d < n + d)
    && (rule.Nearest? ==> 2 * n - d < 2 * (r * d) <= 2 * n + d)
  }

  lemma RoundToMeans(n: nat, d: nat, rule: Rule)
    requires d > 0
    ensures RoundsTo(RoundTo(n, d, rule), n, d, rule)
  {
    var q := n / d;
    assert n == q * d + n % d;
    assert (q + 1) * d == q * d + d;
  }

  lemma RoundToBetween(n: nat, d: nat, rule: Rule)
    requires d > 0
    ensures n / d <= RoundTo(n, d, rule) <= n / d + (if n % d > 0 then 1 else 0)
  {
  }

  method RoundedTotal(units: nat, new_: nat, old_: nat, rule: Rule, guess: int) returns (total: nat)
    requires old_ > 0
    ensures total == RoundTo(units * new_, old_, rule)
  {
    var floor, rem := FloorOnGrid(units * new_, old_, guess);
    match rule {
      case Down => total := floor;
      case CashInLieu => total := floor;
      case Up => total := if rem > 0 then floor + 1 else floor;
      case Nearest => total := if 2 * rem >= old_ then floor + 1 else floor;
    }
  }

  /** The fraction a rounded-down total leaves, cut `FINE` places beyond the grid. */
  function InLieuFraction(n: nat, total: nat, d: nat, rule: Rule): nat
    requires d > 0
  {
    if rule.CashInLieu? && n > total * d then (n - total * d) * FINE / d else 0
  }

  /** The fraction is what the total leaves, to `FINE` places and cut, and nothing where it leaves
      nothing or under any other rule. */
  lemma InLieuIsTheRest(n: nat, total: nat, d: nat, rule: Rule)
    requires d > 0
    ensures var f := InLieuFraction(n, total, d, rule);
            && (rule.CashInLieu? && n > total * d ==> f * d <= (n - total * d) * FINE < f * d + d)
            && (!rule.CashInLieu? || n <= total * d ==> f == 0)
  {
    if rule.CashInLieu? && n > total * d { DivMod((n - total * d) * FINE, d); }
  }

  lemma QuotientBelow(a: nat, d: nat, f: nat)
    requires a < d && f > 0
    ensures a * f / d < f
  {
    DivMod(a * f, d);
    assert a * f < d * f;
    if a * f / d >= f { MulMonotone(f, a * f / d, d); }
  }

  lemma QuotientAtLeast(a: nat, d: nat, f: nat)
    requires a >= d > 0
    ensures a * f / d >= f
  {
    MulMonotone(d, a, f);
    FloorAtLeast(f, a * f, d);
  }

  /** What is paid in lieu is a fraction of one step exactly when the total is at least the exact
      count rounded down: always for a total rounded by the rule, but a statement's own figure may
      be short by whole steps, and they are then carried in lieu too. */
  lemma FractionOfAStepIff(n: nat, total: nat, d: nat)
    requires d > 0
    ensures InLieuFraction(n, total, d, CashInLieu) < FINE <==> n < total * d + d
    ensures n < RoundTo(n, d, CashInLieu) * d + d
  {
    RoundToMeans(n, d, CashInLieu);
    if n > total * d {
      if n - total * d < d { QuotientBelow(n - total * d, d, FINE); } else { QuotientAtLeast(n - total * d, d, FINE); }
    }
  }

  // ----- Shares -------------------------------------------------------------------------------------

  function Units(parcels: seq<Parcel>): nat {
    if parcels == [] then 0 else parcels[0].num + Units(parcels[1..])
  }

  /** Each parcel's exact count, as a numerator over the divisor. */
  function Numerators(parcels: seq<Parcel>, multiplier: nat): (ns: seq<nat>)
    ensures |ns| == |parcels| && forall i :: 0 <= i < |ns| ==> ns[i] == parcels[i].num * multiplier
  {
    if parcels == [] then [] else [parcels[0].num * multiplier] + Numerators(parcels[1..], multiplier)
  }

  function Sum(ns: seq<nat>): nat {
    if ns == [] then 0 else ns[0] + Sum(ns[1..])
  }

  lemma {:induction false} NumeratorsSum(parcels: seq<Parcel>, multiplier: nat)
    ensures Sum(Numerators(parcels, multiplier)) == Units(parcels) * multiplier
  {
    if parcels != [] {
      NumeratorsSum(parcels[1..], multiplier);
      Distribute(parcels[0].num, Units(parcels[1..]), multiplier);
    }
  }

  lemma {:induction false} NumeratorsPositive(parcels: seq<Parcel>, multiplier: nat)
    requires multiplier > 0
    ensures forall i :: 0 <= i < |parcels| ==> Numerators(parcels, multiplier)[i] > 0
  {
    if parcels != [] {
      NumeratorsPositive(parcels[1..], multiplier);
      MulMonotone(1, parcels[0].num, multiplier);
    }
  }

  lemma Distribute(a: nat, b: nat, d: nat)
    ensures (a + b) * d == a * d + b * d
  {
  }

  lemma DivMod(n: nat, d: nat)
    requires d > 0
    ensures n == n / d * d + n % d
  {
  }

  /** A stored count that is still a valid one for this share. */
  function Keepable(p: Parcel, floor: nat, rem: nat): Option<nat> {
    if p.prior.None? then None
    else
      var count := p.prior.value.onGrid.Floor;
      if count > 0 && p.prior.value.onGrid == count as real
         && floor <= count <= (if rem == 0 then floor else floor + 1)
      then Some(count) else None
  }

  function ItemOf(p: Parcel, i: nat, n: nat, divisor: nat): Item
    requires divisor > 0
  {
    Item(i, p.tradeId, p.acquired, n / divisor, n % divisor, Keepable(p, n / divisor, n % divisor),
         p.prior.Some? && p.prior.value.before != p.units)
  }

  function ItemsOf(parcels: seq<Parcel>, from: nat, ns: seq<nat>, divisor: nat): (items: seq<Item>)
    requires divisor > 0 && |ns| == |parcels|
    ensures |items| == |parcels|
    ensures forall i :: 0 <= i < |items| ==> items[i] == ItemOf(parcels[i], from + i, ns[i], divisor)
  {
    if parcels == [] then []
    else [ItemOf(parcels[0], from, ns[0], divisor)] + ItemsOf(parcels[1..], from + 1, ns[1..], divisor)
  }

  function Rems(items: seq<Item>): nat {
    if items == [] then 0 else items[0].rem + Rems(items[1..])
  }

  /** The shares add up to the whole, floors and remainders together. */
  lemma {:induction false} SharesAddUp(parcels: seq<Parcel>, from: nat, ns: seq<nat>, divisor: nat)
    requires divisor > 0 && |ns| == |parcels|
    ensures var items := ItemsOf(parcels, from, ns, divisor);
            Floors(items) * divisor + Rems(items) == Sum(ns)
  {
    if parcels != [] {
      var rest := ItemsOf(parcels[1..], from + 1, ns[1..], divisor);
      SharesAddUp(parcels[1..], from + 1, ns[1..], divisor);
      DivMod(ns[0], divisor);
      Distribute(ns[0] / divisor, Floors(rest), divisor);
    }
  }

  lemma {:induction false} RemsBound(parcels: seq<Parcel>, from: nat, ns: seq<nat>, divisor: nat)
    requires divisor > 0 && |ns| == |parcels|
    ensures var items := ItemsOf(parcels, from, ns, divisor);
            Floors(items) <= Ceilings(items)
            && Rems(items) <= (Ceilings(items) - Floors(items)) * divisor
  {
    if parcels != [] {
      var rest := ItemsOf(parcels[1..], from + 1, ns[1..], divisor);
      RemsBound(parcels[1..], from + 1, ns[1..], divisor);
      Distribute(Ceilings(rest) - Floors(rest), 1, divisor);
    }
  }

  lemma PositiveShare(n: nat, d: nat)
    requires d > 0 && n > 0
    ensures n / d > 0 || n % d > 0
  {
    DivMod(n, d);
  }

  lemma ItemsValid(parcels: seq<Parcel>, ns: seq<nat>, divisor: nat)
    requires divisor > 0 && |ns| == |parcels| && forall i :: 0 <= i < |ns| ==> ns[i] > 0
    ensures Valid(ItemsOf(parcels, 0, ns, divisor))
  {
    forall i | 0 <= i < |parcels| ensures ItemOf(parcels[i], i, ns[i], divisor).Valid() {
      PositiveShare(ns[i], divisor);
    }
  }

  lemma FloorAtLeast(f: nat, n: nat, d: nat)
    requires d > 0 && f * d <= n
    ensures f <= n / d
  {
    var q := n / d;
    assert n < q * d + d;
    if q + 1 <= f { MulMonotone(q + 1, f, d); }
  }

  lemma CeilingAtMost(c: nat, n: nat, d: nat)
    requires d > 0 && n <= c * d
    ensures n / d + (if n % d > 0 then 1 else 0) <= c
  {
    var q := n / d;
    assert n == q * d + n % d;
    if c <= q { MulMonotone(c, q, d); }
    if c + 1 <= q { MulMonotone(c + 1, q, d); }
  }

  lemma BracketOf(f: nat, c: nat, rems: nat, n: nat, d: nat)
    requires f <= c && f * d + rems == n && rems <= (c - f) * d
    ensures f * d <= n <= c * d
  {
    assert (c - f) * d + f * d == c * d;
  }

  /** The exact total lies between the shares all rounded down and all rounded up. */
  lemma SharesBracket(parcels: seq<Parcel>, ns: seq<nat>, divisor: nat)
    requires divisor > 0 && |ns| == |parcels|
    ensures var items := ItemsOf(parcels, 0, ns, divisor);
            Floors(items) * divisor <= Sum(ns) <= Ceilings(items) * divisor
  {
    var items := ItemsOf(parcels, 0, ns, divisor);
    SharesAddUp(parcels, 0, ns, divisor);
    RemsBound(parcels, 0, ns, divisor);
    BracketOf(Floors(items), Ceilings(items), Rems(items), Sum(ns), divisor);
  }

  lemma BetweenBrackets(f: nat, c: nat, n: nat, d: nat, total: nat)
    requires d > 0 && f * d <= n <= c * d
    requires n / d <= total <= n / d + (if n % d > 0 then 1 else 0)
    ensures f <= total <= c
  {
    FloorAtLeast(f, n, d);
    CeilingAtMost(c, n, d);
  }

  /** So does any total it rounds to. */
  lemma RoundedIsShareable(parcels: seq<Parcel>, ns: seq<nat>, divisor: nat, total: nat)
    requires divisor > 0 && |ns| == |parcels|
    requires Sum(ns) / divisor <= total <= Sum(ns) / divisor + (if Sum(ns) % divisor > 0 then 1 else 0)
    ensures Shareable(ItemsOf(parcels, 0, ns, divisor), total)
  {
    var items := ItemsOf(parcels, 0, ns, divisor);
    SharesBracket(parcels, ns, divisor);
    BetweenBrackets(Floors(items), Ceilings(items), Sum(ns), divisor, total);
  }

  // ----- Cash in lieu ---------------------------------------------------------------------------

  function InLieuSum(counts: seq<ParcelCount>): nat {
    if counts == [] then 0 else counts[0].inLieu + InLieuSum(counts[1..])
  }

  function OnGridSum(counts: seq<ParcelCount>): nat {
    if counts == [] then 0 else counts[0].onGrid + OnGridSum(counts[1..])
  }

  lemma {:induction false} OnGridIsCounts(items: seq<Item>, r: set<nat>, s: set<nat>, carrier: Option<nat>, inLieu: nat)
    ensures OnGridSum(CountsOf(items, r, s, carrier, inLieu)) == CountSum(items, r, s)
  {
    if items != [] { OnGridIsCounts(items[1..], r, s, carrier, inLieu); }
  }

  lemma IndicesCons(items: seq<Item>)
    requires items != []
    ensures Indices(items) == {items[0].index} + Indices(items[1..])
  {
    forall i ensures i in Indices(items) <==> i == items[0].index || i in Indices(items[1..]) {
      assert forall x :: x in items <==> x == items[0] || x in items[1..];
    }
  }

  lemma HeadApart(items: seq<Item>)
    requires items != [] && Distinct(items)
    ensures items[0].index !in Indices(items[1..])
  {
    forall x | x in items[1..] ensures x.index != items[0].index {
      var k :| 0 <= k < |items[1..]| && items[1..][k] == x;
      assert items[k + 1] == x;
    }
  }

  lemma {:induction false} InLieuIsCarried(items: seq<Item>, r: set<nat>, s: set<nat>, carrier: Option<nat>,
                                           inLieu: nat)
    requires Distinct(items)
    ensures InLieuSum(CountsOf(items, r, s, carrier, inLieu))
            == if carrier.Some? && carrier.value in Indices(items) then inLieu else 0
  {
    if items != [] {
      InLieuIsCarried(items[1..], r, s, carrier, inLieu);
      IndicesCons(items);
      HeadApart(items);
    }
  }

  lemma {:induction false} CarrierInOrder(order: seq<Item>, r: set<nat>, s: set<nat>)
    ensures Carrier(order, r, s).None? ==> forall x :: x in order ==> x.Count(r, s) != x.floor
    ensures Carrier(order, r, s).Some? ==> Carrier(order, r, s).value in Indices(order)
  {
    if order != [] && order[0].Count(r, s) != order[0].floor {
      CarrierInOrder(order[1..], r, s);
      IndicesCons(order);
    } else if order != [] {
      IndicesCons(order);
    }
  }

  /** Were every parcel above its floor, the counts would exceed the exact shares. */
  lemma {:induction false} AllAboveExceed(parcels: seq<Parcel>, from: nat, ns: seq<nat>, divisor: nat, r: set<nat>,
                                          s: set<nat>)
    requires divisor > 0 && |ns| == |parcels| > 0
    requires forall x :: x in ItemsOf(parcels, from, ns, divisor) ==> x.Count(r, s) > x.floor
    ensures CountSum(ItemsOf(parcels, from, ns, divisor), r, s) * divisor > Sum(ns)
  {
    var items := ItemsOf(parcels, from, ns, divisor);
    var rest := ItemsOf(parcels[1..], from + 1, ns[1..], divisor);
    assert items[1..] == rest && items[0] in items;
    var a, b := items[0].Count(r, s), CountSum(rest, r, s);
    AboveFloor(a, ns[0], divisor);
    Distribute(a, b, divisor);
    if parcels[1..] != [] { AllAboveExceed(parcels[1..], from + 1, ns[1..], divisor, r, s); }
  }

  lemma AboveFloor(a: nat, p: nat, d: nat)
    requires d > 0 && a > p / d
    ensures a * d > p
  {
    MulMonotone(p / d + 1, a, d);
    DivMod(p, d);
    Distribute(p / d, 1, d);
  }

  /** So a fraction to carry always finds a parcel, when the total is no more than the shares. */
  lemma FractionIsCarried(parcels: seq<Parcel>, ns: seq<nat>, divisor: nat, total: nat, inLieu: nat)
    requires divisor > 0 && |ns| == |parcels| > 0 && Valid(ItemsOf(parcels, 0, ns, divisor))
    requires Shareable(ItemsOf(parcels, 0, ns, divisor), total)
    requires total * divisor <= Sum(ns)
    ensures InLieuSum(Counts(ItemsOf(parcels, 0, ns, divisor), total, inLieu)) == inLieu
  {
    var items := ItemsOf(parcels, 0, ns, divisor);
    var r := Released(items, total);
    var s := Stepped(items, r, total);
    ValidIsDistinct(items);
    InLieuIsCarried(items, r, s, if inLieu > 0 then Carrier(StepOrder(items), r, s) else None, inLieu);
    if inLieu > 0 { CarrierExists(parcels, ns, divisor, total); }
  }

  lemma CarrierExists(parcels: seq<Parcel>, ns: seq<nat>, divisor: nat, total: nat)
    requires divisor > 0 && |ns| == |parcels| > 0 && Valid(ItemsOf(parcels, 0, ns, divisor))
    requires Shareable(ItemsOf(parcels, 0, ns, divisor), total)
    requires total * divisor <= Sum(ns)
    ensures var items := ItemsOf(parcels, 0, ns, divisor);
            var r := Released(items, total);
            var carrier := Carrier(StepOrder(items), r, Stepped(items, r, total));
            carrier.Some? && carrier.value in Indices(items)
  {
    var items := ItemsOf(parcels, 0, ns, divisor);
    var r := Released(items, total);
    var s := Stepped(items, r, total);
    var order := StepOrder(items);
    ValidIsDistinct(items);
    CarrierInOrder(order, r, s);
    OrderIndices(items);
    if Carrier(order, r, s).None? {
      forall x | x in items ensures x.Count(r, s) > x.floor {
        InStepOrder(items, x);
        CountWithinAStep(items, total, x);
      }
      CountsSumToTotal(items, total);
      AllAboveExceed(parcels, 0, ns, divisor, r, s);
    }
  }

  lemma InStepOrder(items: seq<Item>, x: Item)
    ensures x in StepOrder(items) <==> x in items
  {
    SortMembers(items, StepFirst(), x);
  }

  lemma OrderIndices(items: seq<Item>)
    ensures Indices(StepOrder(items)) == Indices(items)
  {
    forall x { InStepOrder(items, x); }
  }
}
