/**
 * The two entry points of the registry rounding and the loop they share.
 */
module RegistryRounding {
  import opened Common
  import opened Sorting
  import opened LargestRemainder
  import opened RoundingLaws
  import opened RoundingStability
  import opened HoldingRounding
  import opened ParcelRounding

  datatype RoundingError = Emptied(tradeId: int) | ReceivedNotPositive | ReceivedOffGrid

  datatype Outcome = Counted(counts: seq<ParcelCount>) | Refused(error: RoundingError)

  function OutcomeOf(r: Result<seq<ParcelCount>>): Outcome {
    match r
    case Ok(counts) => Counted(counts)
    case ParcelEmptied(id) => Refused(Emptied(id))
  }

  // ----- The loop ------------------------------------------------------------------------------

  /** Release kept counts until the free parcels can absorb the rest. */
  method ReleaseLoop(items: seq<Item>, total: nat) returns (released: set<nat>)
    ensures released == Released(items, total)
  {
    var order := Sort(Keepers(items), ReleaseFirst());
    released := {};
    var j := 0;
    while !Fits(items, released, total) && j < |order|
      invariant 0 <= j <= |order|
      invariant ReleaseUntilFits(items, order[j..], released, total) == Released(items, total)
    {
      assert order[j..][0] == order[j] && order[j..][1..] == order[j + 1..];
      released := released + {order[j].index};
      j := j + 1;
    }
  }

  /** The base counts, and one extra step each for the first so many free parcels. */
  method StepLoop(items: seq<Item>, order: seq<Item>, released: set<nat>, total: nat)
    returns (counts: seq<nat>, ghost stepped: set<nat>)
    requires Valid(items) && order == StepOrder(items)
    requires BaseSum(items, released) <= total <= BaseSum(items, released) + |Free(order, released)|
    ensures stepped == Stepped(items, released, total)
    ensures |counts| == |items| && forall i :: 0 <= i < |items| ==> counts[i] == items[i].Count(released, stepped)
  {
    counts := [];
    var i, base := 0, 0;
    while i < |items|
      invariant 0 <= i <= |items| && |counts| == i
      invariant forall k :: 0 <= k < i ==> counts[k] == items[k].Base(released)
      invariant base + BaseSum(items[i..], released) == BaseSum(items, released)
    {
      assert items[i..][0] == items[i] && items[i..][1..] == items[i + 1..];
      counts := counts + [items[i].Base(released)];
      base := base + items[i].Base(released);
      i := i + 1;
    }
    var free := Free(order, released);
    var extra := total - base;
    ValidIsDistinct(items);
    SortKeepsIndicesApart(items, StepFirst());
    FreeDistinct(order, released);
    var j := 0;
    assert Indices(free[..0]) == {};
    while j < extra
      invariant 0 <= j <= extra && |counts| == |items|
      invariant forall k :: 0 <= k < |items| ==> counts[k] == items[k].Count(released, Indices(free[..j]))
    {
      FreeMembers(order, released, free[j]);
      SortMembers(items, StepFirst(), free[j]);
      var at := free[j].index;
      GrowIndices(free, j);
      counts := counts[at := counts[at] + 1];
      j := j + 1;
    }
    stepped := Indices(free[..extra]);
  }

  lemma {:induction false} FreeDistinct(order: seq<Item>, released: set<nat>)
    requires Distinct(order)
    ensures Distinct(Free(order, released))
  {
    if order != [] {
      FreeDistinct(order[1..], released);
      var rest := Free(order[1..], released);
      forall k | 0 <= k < |rest| ensures rest[k].index != order[0].index {
        FreeMembers(order[1..], released, rest[k]);
      }
    }
  }

  /** One more of a list with distinct indices adds one index not there before. */
  lemma GrowIndices(s: seq<Item>, j: nat)
    requires Distinct(s) && j < |s|
    ensures Indices(s[..j + 1]) == Indices(s[..j]) + {s[j].index}
    ensures s[j].index !in Indices(s[..j])
  {
    assert s[..j + 1] == s[..j] + [s[j]];
    forall i ensures i in Indices(s[..j + 1]) <==> i in Indices(s[..j]) + {s[j].index} {
      assert forall x :: x in s[..j + 1] <==> x in s[..j] || x == s[j];
    }
  }

  method FindCarrier(order: seq<Item>, items: seq<Item>, counts: seq<nat>,
                     ghost released: set<nat>, ghost stepped: set<nat>) returns (carrier: Option<nat>)
    requires |counts| == |items| && Valid(items) && forall x :: x in order ==> x in items
    requires forall i :: 0 <= i < |items| ==> counts[i] == items[i].Count(released, stepped)
    ensures carrier == Carrier(order, released, stepped)
  {
    var j := 0;
    while j < |order|
      invariant 0 <= j <= |order|
      invariant Carrier(order[j..], released, stepped) == Carrier(order, released, stepped)
    {
      assert order[j..][0] == order[j] && order[j..][1..] == order[j + 1..];
      assert order[j] in items;
      if counts[order[j].index] == order[j].floor { return Some(order[j].index); }
      j := j + 1;
    }
    carrier := None;
  }

  method Assemble(items: seq<Item>, steps: seq<nat>, ghost released: set<nat>, ghost stepped: set<nat>,
                  carrier: Option<nat>, inLieu: nat) returns (r: Result<seq<ParcelCount>>)
    requires |steps| == |items|
    requires forall i :: 0 <= i < |items| ==> steps[i] == items[i].Count(released, stepped)
    ensures var counts := CountsOf(items, released, stepped, carrier, inLieu);
            r == match FirstEmpty(items, counts) case Some(id) => ParcelEmptied(id) case None => Ok(counts)
  {
    var counts: seq<ParcelCount> := [];
    ghost var all := CountsOf(items, released, stepped, carrier, inLieu);
    var i := 0;
    while i < |items|
      invariant 0 <= i <= |items| && counts == all[..i]
    {
      CountsAt(items, released, stepped, carrier, inLieu, i);
      counts := counts + [ParcelCount(steps[i], if carrier == Some(items[i].index) then inLieu else 0)];
      i := i + 1;
    }
    assert counts == all;
    var j := 0;
    while j < |items|
      invariant 0 <= j <= |items|
      invariant FirstEmpty(items[j..], all[j..]) == FirstEmpty(items, all)
    {
      assert items[j..][1..] == items[j + 1..] && all[j..][1..] == all[j + 1..];
      if counts[j] == ParcelCount(0, 0) { return ParcelEmptied(items[j].tradeId); }
      j := j + 1;
    }
    r := Ok(counts);
  }

  /** The distribution, step by step. */
  method DistributeTotal(items: seq<Item>, total: nat, inLieu: nat) returns (r: Result<seq<ParcelCount>>)
    requires Valid(items) && Shareable(items, total)
    ensures r == Distribution(items, total, inLieu)
  {
    ValidIsDistinct(items);
    var released := ReleaseLoop(items, total);
    var order := Sort(items, StepFirst());
    ExtraWithinBand(items, total);
    EnoughFree(items, total);
    var steps;
    ghost var stepped;
    steps, stepped := StepLoop(items, order, released, total);
    var carrier: Option<nat> := None;
    if inLieu > 0 {
      forall x | x in order ensures x in items { SortMembers(items, StepFirst(), x); }
      carrier := FindCarrier(order, items, steps, released, stepped);
    }
    r := Assemble(items, steps, released, stepped, carrier, inLieu);
  }

  // ----- What a rounded holding satisfies ---------------------------------------------------------

  /** The counts sum to the total exactly, carry the whole cash-in-lieu fraction, lie each
      strictly within a step of the parcel's exact share, and leave no parcel without units. */
  ghost predicate Rounded(ns: seq<nat>, divisor: nat, total: nat, inLieu: nat, counts: seq<ParcelCount>) {
    && |counts| == |ns| && OnGridSum(counts) == total && InLieuSum(counts) == inLieu
    && (forall i :: 0 <= i < |ns| ==> ns[i] - divisor < counts[i].onGrid * divisor < ns[i] + divisor)
    && NoneEmpty(counts)
  }

  lemma WithinAStep(n: nat, d: nat, count: nat)
    requires d > 0 && n / d <= count <= n / d + (if n % d > 0 then 1 else 0)
    ensures n - d < count * d < n + d
  {
    DivMod(n, d);
    Distribute(n / d, 1, d);
  }

  lemma DistributionRounds(parcels: seq<Parcel>, ns: seq<nat>, divisor: nat, total: nat, inLieu: nat)
    requires divisor > 0 && |ns| == |parcels| > 0 && Valid(ItemsOf(parcels, 0, ns, divisor))
    requires Shareable(ItemsOf(parcels, 0, ns, divisor), total)
    requires inLieu > 0 ==> total * divisor <= Sum(ns)
    ensures var r := Distribution(ItemsOf(parcels, 0, ns, divisor), total, inLieu);
            r.Ok? ==> Rounded(ns, divisor, total, inLieu, r.value)
  {
    var items := ItemsOf(parcels, 0, ns, divisor);
    var counts := Counts(items, total, inLieu);
    var r := Released(items, total);
    var s := Stepped(items, r, total);
    var carrier := if inLieu > 0 then Carrier(StepOrder(items), r, s) else None;
    ValidIsDistinct(items);
    OnGridIsCounts(items, r, s, carrier, inLieu);
    CountsSumToTotal(items, total);
    if inLieu > 0 { FractionIsCarried(parcels, ns, divisor, total, inLieu); }
    else { InLieuIsCarried(items, r, s, carrier, inLieu); }
    forall i | 0 <= i < |ns| ensures ns[i] - divisor < counts[i].onGrid * divisor < ns[i] + divisor {
      CountsAt(items, r, s, carrier, inLieu, i);
      CountWithinAStep(items, total, items[i]);
      WithinAStep(ns[i], divisor, counts[i].onGrid);
    }
    FirstEmptyIsNone(items, counts);
  }

  /** Exactly when the parcels cannot each be given units. */
  ghost predicate TooFewSteps(parcels: seq<Parcel>, ns: seq<nat>, divisor: nat, total: nat, inLieu: nat)
    requires divisor > 0 && |ns| == |parcels|
  {
    var items := ItemsOf(parcels, 0, ns, divisor);
    Tally(items, IsEmptied()) > total - Floors(items) + (if inLieu > 0 then 1 else 0)
  }

  /** The distribution by the parcels' shares, as the caller sees it. */
  function SharedOut(parcels: seq<Parcel>, ns: seq<nat>, divisor: nat, total: nat, inLieu: nat): Outcome
    requires divisor > 0 && |ns| == |parcels|
  {
    OutcomeOf(Distribution(ItemsOf(parcels, 0, ns, divisor), total, inLieu))
  }

  /** Whose counts move, who gets a step and who carries the fraction, or who is named. */
  ghost predicate Fair(parcels: seq<Parcel>, ns: seq<nat>, divisor: nat, total: nat, inLieu: nat, o: Outcome)
    requires divisor > 0 && |ns| == |parcels|
  {
    match o
    case Counted(counts) => Settled(parcels, ns, divisor, total, inLieu, counts)
    case Refused(Emptied(id)) => NamesTheEmptied(parcels, ns, divisor, id)
    case Refused(_) => false
  }

  lemma DistributionIsFair(parcels: seq<Parcel>, ns: seq<nat>, divisor: nat, total: nat, inLieu: nat)
    requires Sharing(parcels, ns, divisor, total)
    ensures Fair(parcels, ns, divisor, total, inLieu, SharedOut(parcels, ns, divisor, total, inLieu))
  {
    hide Settled, NamesTheEmptied;
    var items := ItemsOf(parcels, 0, ns, divisor);
    SharingIsValid(parcels, ns, divisor, total);
    RefusedIff(items, total, inLieu);
    if Distribution(items, total, inLieu).Ok? {
      CountsSettle(parcels, ns, divisor, total, inLieu);
    } else {
      RefusedNamesOne(parcels, ns, divisor, total, inLieu);
    }
  }

  method ShareOut(parcels: seq<Parcel>, ns: seq<nat>, divisor: nat, total: nat, inLieu: nat) returns (o: Outcome)
    requires divisor > 0 && |ns| == |parcels| > 0 && forall i :: 0 <= i < |ns| ==> ns[i] > 0
    requires Shareable(ItemsOf(parcels, 0, ns, divisor), total)
    requires inLieu > 0 ==> total * divisor <= Sum(ns)
    ensures o == SharedOut(parcels, ns, divisor, total, inLieu)
    ensures o.Counted? <==> !TooFewSteps(parcels, ns, divisor, total, inLieu)
    ensures o.Counted? ==> Rounded(ns, divisor, total, inLieu, o.counts)
    ensures DistinctTrades(parcels) ==> Fair(parcels, ns, divisor, total, inLieu, o)
  {
    var items := [];
    var i := 0;
    while i < |parcels|
      invariant 0 <= i <= |parcels| && |items| == i
      invariant forall k :: 0 <= k < i ==> items[k] == ItemOf(parcels[k], k, ns[k], divisor)
    {
      var guess: int := *;
      var floor, rem := FloorOnGrid(ns[i], divisor, guess);
      var p := parcels[i];
      items := items + [Item(i, p.tradeId, p.acquired, floor, rem, Keepable(p, floor, rem),
                             p.prior.Some? && p.prior.value.before != p.units)];
      i := i + 1;
    }
    assert items == ItemsOf(parcels, 0, ns, divisor);
    ItemsValid(parcels, ns, divisor);
    ValidIsDistinct(items);
    var r := DistributeTotal(items, total, inLieu);
    RefusedIff(items, total, inLieu);
    DistributionRounds(parcels, ns, divisor, total, inLieu);
    if DistinctTrades(parcels) { DistributionIsFair(parcels, ns, divisor, total, inLieu); }
    o := match r case Ok(counts) => Counted(counts) case ParcelEmptied(id) => Refused(Emptied(id));
  }

  method Scale(parcels: seq<Parcel>, multiplier: nat) returns (ns: seq<nat>)
    requires multiplier > 0
    ensures ns == Numerators(parcels, multiplier) && forall i :: 0 <= i < |ns| ==> ns[i] > 0
  {
    hide Numerators;
    ns := [];
    var i := 0;
    while i < |parcels|
      invariant 0 <= i <= |parcels| && |ns| == i
      invariant forall k :: 0 <= k < i ==> ns[k] == Numerators(parcels, multiplier)[k]
    {
      ns := ns + [parcels[i].num * multiplier];
      i := i + 1;
    }
    NumeratorsPositive(parcels, multiplier);
  }

  // ----- The two entry points -----------------------------------------------------------------------

  /** A statement's own figure for the units received, in grid steps. */
  function ReceivedError(received: Option<real>): Option<RoundingError> {
    match received
    case None => None
    case Some(x) =>
      if x <= 0.0 then Some(ReceivedNotPositive)
      else if x != x.Floor as real then Some(ReceivedOffGrid)
      else None
  }

  /** The registered total: the statement's figure, or the exact count rounded by the rule. */
  function RegisteredTotal(units: nat, new_: nat, old_: nat, rule: Rule, received: Option<real>): nat
    requires old_ > 0 && ReceivedError(received).None?
  {
    match received
    case None => RoundTo(units * new_, old_, rule)
    case Some(x) => x.Floor
  }

  /** A statement's figure is the total; without one the exact count is rounded as the rule says. */
  lemma TotalMeans(units: nat, new_: nat, old_: nat, rule: Rule, received: Option<real>)
    requires old_ > 0 && ReceivedError(received).None?
    ensures var total := RegisteredTotal(units, new_, old_, rule, received);
            && (received.Some? ==> total as real == received.value)
            && (received.None? ==> RoundsTo(total, units * new_, old_, rule))
  {
    RoundToMeans(units * new_, old_, rule);
  }

  lemma UnitsPositive(parcels: seq<Parcel>)
    requires parcels != []
    ensures Units(parcels) > 0
  {
  }

  lemma ExactQuotient(a: nat, b: nat)
    requires b > 0
    ensures (b * a) / b == a && (b * a) % b == 0
  {
    QuotientIs(b * a, b, a);
  }

  /** A total shared out pro rata is exactly the sum of the shares. */
  lemma ProRata(parcels: seq<Parcel>, total: nat)
    requires parcels != []
    ensures Units(parcels) > 0 && Sum(Numerators(parcels, total)) == total * Units(parcels)
    ensures Shareable(ItemsOf(parcels, 0, Numerators(parcels, total), Units(parcels)), total)
  {
    UnitsPositive(parcels);
    NumeratorsSum(parcels, total);
    ExactQuotient(total, Units(parcels));
    RoundedIsShareable(parcels, Numerators(parcels, total), Units(parcels), total);
  }

  /** The holding's own count rounded by the rule is shareable by the parcels' exact counts. */
  lemma ByTheRule(parcels: seq<Parcel>, new_: nat, old_: nat, rule: Rule)
    requires old_ > 0
    ensures Sum(Numerators(parcels, new_)) == Units(parcels) * new_
    ensures Shareable(ItemsOf(parcels, 0, Numerators(parcels, new_), old_), RoundTo(Units(parcels) * new_, old_, rule))
  {
    NumeratorsSum(parcels, new_);
    RoundToBetween(Units(parcels) * new_, old_, rule);
    RoundedIsShareable(parcels, Numerators(parcels, new_), old_, RoundTo(Units(parcels) * new_, old_, rule));
  }

  /** What a holding's parcels are measured against: their exact counts `units * new / old`, or
      their pro-rata part of the statement's figure. */
  function ShareNumerators(parcels: seq<Parcel>, new_: nat, received: Option<real>): (ns: seq<nat>)
    requires ReceivedError(received).None?
    ensures |ns| == |parcels|
  {
    match received
    case None => Numerators(parcels, new_)
    case Some(x) => Numerators(parcels, x.Floor)
  }

  function ShareDivisor(parcels: seq<Parcel>, old_: nat, received: Option<real>): nat {
    match received
    case None => old_
    case Some(_) => Units(parcels)
  }

  /** Shares a total out over the parcels pro rata. */
  method ShareProRata(parcels: seq<Parcel>, total: nat, inLieu: nat) returns (o: Outcome)
    requires parcels != [] && total > 0
    ensures Units(parcels) > 0
    ensures var ns := Numerators(parcels, total);
            && o == SharedOut(parcels, ns, Units(parcels), total, inLieu)
            && (DistinctTrades(parcels) ==> Fair(parcels, ns, Units(parcels), total, inLieu, o))
            && (o.Counted? <==> !TooFewSteps(parcels, ns, Units(parcels), total, inLieu))
            && (o.Counted? ==> Rounded(ns, Units(parcels), total, inLieu, o.counts) && OnGridSum(o.counts) == total)
  {
    var ns := Scale(parcels, total);
    ProRata(parcels, total);
    o := ShareOut(parcels, ns, Units(parcels), total, inLieu);
  }

  /** Rounds a whole holding. */
  method RoundHolding(parcels: seq<Parcel>, new_: nat, old_: nat, rule: Rule,
                      received: Option<real>) returns (o: Outcome)
    requires new_ > 0 && old_ > 0
    ensures parcels == [] ==> o == Counted([])
    ensures parcels != [] && ReceivedError(received).Some? ==> o == Refused(ReceivedError(received).value)
    ensures parcels != [] && ReceivedError(received).None? ==>
              var total := RegisteredTotal(Units(parcels), new_, old_, rule, received);
              var inLieu := InLieuFraction(Units(parcels) * new_, total, old_, rule);
              var ns, divisor := ShareNumerators(parcels, new_, received), ShareDivisor(parcels, old_, received);
              && divisor > 0
              && o == SharedOut(parcels, ns, divisor, total, inLieu)
              && (DistinctTrades(parcels) ==> Fair(parcels, ns, divisor, total, inLieu, o))
              && (o.Counted? <==> !TooFewSteps(parcels, ns, divisor, total, inLieu))
              && (o.Counted? ==> Rounded(ns, divisor, total, inLieu, o.counts))
  {
    if parcels == [] { return Counted([]); }
    UnitsPositive(parcels);
    var held := Units(parcels);
    if received.Some? {
      if received.value <= 0.0 { return Refused(ReceivedNotPositive); }
      if received.value != received.value.Floor as real { return Refused(ReceivedOffGrid); }
      var total := received.value.Floor;
      var inLieu := InLieuFraction(held * new_, total, old_, rule);
      o := ShareProRata(parcels, total, inLieu);
    } else {
      var guess: int := *;
      var total := RoundedTotal(held, new_, old_, rule, guess);
      var inLieu := InLieuFraction(held * new_, total, old_, rule);
      var ns := Scale(parcels, new_);
      ByTheRule(parcels, new_, old_, rule);
      o := ShareOut(parcels, ns, old_, total, inLieu);
    }
  }

  /** One parcel of three units of which a statement received one: `RoundHolding` accepts the holding
      and the "fraction" its parcel carries is two whole steps. */
  lemma WholeStepsInLieu(p: Parcel)
    requires p.num == 3
    ensures var total := RegisteredTotal(Units([p]), 1, 1, CashInLieu, Some(1.0));
            var inLieu := InLieuFraction(Units([p]) * 1, total, 1, CashInLieu);
            SharedOut([p], ShareNumerators([p], 1, Some(1.0)), ShareDivisor([p], 1, Some(1.0)), total, inLieu)
            == Counted([ParcelCount(1, 2 * FINE)])
  {
    assert [p][1..] == [];
    assert Units([p]) == 3 && (3 - 1 * 1) * FINE / 1 == 2 * FINE;
    var items := ItemsOf([p], 0, Numerators([p], 1), 3);
    assert items == [ItemOf(p, 0, 3, 3)];
    OneAlone(items[0], 2 * FINE);
  }

  /** A parcel alone with one step to share takes it, and carries what is paid in lieu. */
  lemma OneAlone(x: Item, inLieu: nat)
    requires x.index == 0 && x.floor == 1 && x.rem == 0 && x.Valid() && inLieu > 0
    ensures Distribution([x], 1, inLieu) == Ok([ParcelCount(1, inLieu)])
  {
    var items := [x];
    assert items[1..] == [];
    assert x.Low({}) == x.High({}) == x.Base({}) == 1;
    assert LowSum(items, {}) == HighSum(items, {}) == BaseSum(items, {}) == 1;
    assert Fits(items, {}, 1) && Released(items, 1) == {};
    SortLength(items);
    SortMembers(items, StepFirst(), StepOrder(items)[0]);
    assert StepOrder(items) == [x];
    assert FirstOf(Free([x], {}), 0) == [] && Stepped(items, {}, 1) == {};
    var counts := Counts(items, 1, inLieu);
    assert counts == [ParcelCount(1, inLieu)];
    assert FirstEmpty(items[1..], counts[1..]).None?;
  }

  function Delivered(delivered: seq<nat>, new_: nat, old_: nat, rule: Rule): nat
    requires old_ > 0
  {
    if delivered == [] then 0
    else RoundTo(delivered[0] * new_, old_, ForObligation(rule)) + Delivered(delivered[1..], new_, old_, rule)
  }

  /** What leaves for each obligation is its own exact count rounded as the rule says. */
  lemma {:induction false} DeliveredMeans(delivered: seq<nat>, new_: nat, old_: nat, rule: Rule)
    returns (leaving: seq<nat>)
    requires old_ > 0
    ensures |leaving| == |delivered| && Sum(leaving) == Delivered(delivered, new_, old_, rule)
    ensures forall i :: 0 <= i < |leaving| ==> RoundsTo(leaving[i], delivered[i] * new_, old_, rule)
  {
    if delivered == [] {
      leaving := [];
    } else {
      var rest := DeliveredMeans(delivered[1..], new_, old_, rule);
      var first := RoundTo(delivered[0] * new_, old_, ForObligation(rule));
      RoundToMeans(delivered[0] * new_, old_, ForObligation(rule));
      leaving := [first] + rest;
      assert leaving[1..] == rest;
    }
  }

  /** The register's total less each obligation's own rounded count, which may leave nothing. */
  method LessDelivered(registered: nat, delivered: seq<nat>, new_: nat, old_: nat, rule: Rule) returns (total: int)
    requires old_ > 0
    ensures total == registered - Delivered(delivered, new_, old_, rule)
  {
    total := registered;
    var i := 0;
    while i < |delivered|
      invariant 0 <= i <= |delivered|
      invariant total - Delivered(delivered[i..], new_, old_, rule)
                == registered - Delivered(delivered, new_, old_, rule)
    {
      assert delivered[i..][0] == delivered[i] && delivered[i..][1..] == delivered[i + 1..];
      var offered: int := *;
      var leaves := RoundedTotal(delivered[i], new_, old_, ForObligation(rule), offered);
      total := total - leaves;
      i := i + 1;
    }
  }

  /** Rounds a holding whose register at the record date still held units sold by then: the
      register's total, less each obligation converted on its own, is what the parcels share. */
  method RoundRegisteredHolding(parcels: seq<Parcel>, delivered: seq<nat>, new_: nat, old_: nat,
                                rule: Rule, received: Option<real>) returns (o: Outcome)
    requires new_ > 0 && old_ > 0
    ensures parcels == [] ==> o == Counted([])
    ensures parcels != [] && ReceivedError(received).Some? ==> o == Refused(ReceivedError(received).value)
    ensures parcels != [] && ReceivedError(received).None? ==>
              var register := Units(parcels) + Sum(delivered);
              var registered := RegisteredTotal(register, new_, old_, rule, received);
              var leaving := Delivered(delivered, new_, old_, rule);
              var inLieu := InLieuFraction(register * new_, registered, old_, rule);
              && (registered <= leaving ==> o == Refused(Emptied(parcels[0].tradeId)))
              && (registered > leaving ==>
                    var ns := Numerators(parcels, registered - leaving);
                    && Units(parcels) > 0
                    && o == SharedOut(parcels, ns, Units(parcels), registered - leaving, inLieu)
                    && (DistinctTrades(parcels) ==> Fair(parcels, ns, Units(parcels), registered - leaving, inLieu, o))
                    && (o.Counted? <==> !TooFewSteps(parcels, ns, Units(parcels), registered - leaving, inLieu))
                    && (o.Counted? ==> Rounded(ns, Units(parcels), registered - leaving, inLieu, o.counts)
                                       && OnGridSum(o.counts) + leaving == registered))
  {
    hide SharedOut, Rounded, TooFewSteps, Fair, InLieuFraction, RoundTo, Delivered, Numerators, OnGridSum;
    if parcels == [] { return Counted([]); }
    UnitsPositive(parcels);
    if received.Some? && received.value <= 0.0 { return Refused(ReceivedNotPositive); }
    if received.Some? && received.value != received.value.Floor as real { return Refused(ReceivedOffGrid); }
    var held := Units(parcels);
    var register := held + Sum(delivered);
    var guess: int := *;
    var rounded := RoundedTotal(register, new_, old_, rule, guess);
    var registered := if received.Some? then received.value.Floor else rounded;
    var total := LessDelivered(registered, delivered, new_, old_, rule);
    if total <= 0 { return Refused(Emptied(parcels[0].tradeId)); }
    var inLieu := InLieuFraction(register * new_, registered, old_, rule);
    o := ShareProRata(parcels, total, inLieu);
  }
}
