/**
 * Picks by class: every loss unit, then the best split of the rest between the two classes of
 * gains, and that no allocation of the lots beats them.
 */
module ClassPicks {
  import opened Lots
  import opened Netting
  import opened Sorting
  import opened SplitSearch

  // ----- The three classes ----------------------------------------------------------------

  datatype Class = Loss | Other | Discounted

  function ClassOf(p: Lot): Class {
    if p.gain <= 0.0 then Loss
    else if p.eligible then Discounted
    else Other
  }

  function OfClass(lots: seq<Lot>, c: Class): seq<Lot> {
    if lots == [] then []
    else if ClassOf(lots[0]) == c then [lots[0]] + OfClass(lots[1..], c)
    else OfClass(lots[1..], c)
  }

  /** A class's units and gain under an allocation, straight off the lots as they come. */
  function UnitsIn(lots: seq<Lot>, c: Class, t: Allocation): int {
    if lots == [] then 0
    else (if ClassOf(lots[0]) == c then t(lots[0].tradeId) else 0) + UnitsIn(lots[1..], c, t)
  }

  function GainIn(lots: seq<Lot>, c: Class, t: Allocation): real {
    if lots == [] then 0.0
    else (if ClassOf(lots[0]) == c then Times(lots[0].gain, t(lots[0].tradeId)) else 0.0) + GainIn(lots[1..], c, t)
  }

  /** The sale's assessable contribution under an allocation, netted as the report nets a
      year: losses (positive) against non-discountable gains, then discount-eligible ones. */
  function NetOf(lots: seq<Lot>, t: Allocation): real {
    Assessable(GainIn(lots, Other, t), GainIn(lots, Discounted, t), -GainIn(lots, Loss, t))
  }

  /** The same before the clamp at nil: a negative figure is half the loss left over. */
  function PositionOf(lots: seq<Lot>, t: Allocation): real {
    Position(GainIn(lots, Other, t), GainIn(lots, Discounted, t), -GainIn(lots, Loss, t))
  }

  /** One allocation's position and assessable gain are no greater than another's. */
  predicate NoWorse(lots: seq<Lot>, t: Allocation, u: Allocation) {
    PositionOf(lots, t) <= PositionOf(lots, u) && NetOf(lots, t) <= NetOf(lots, u)
  }

  /** The optimiser's answer: no allocation of the same number of units has a smaller
      assessable gain, nor leaves more loss over when there is no gain to assess. */
  ghost predicate Optimal(lots: seq<Lot>, units: nat, t: Allocation) {
    && Feasible(lots, t, units)
    && forall u: Allocation :: Feasible(lots, u, units) ==> NoWorse(lots, t, u)
  }

  lemma {:induction false} ClassesPartition(lots: seq<Lot>, t: Allocation)
    ensures UnitsOf(lots, t) == UnitsIn(lots, Loss, t) + UnitsIn(lots, Other, t) + UnitsIn(lots, Discounted, t)
    ensures Total(lots) == Total(OfClass(lots, Loss)) + Total(OfClass(lots, Other)) + Total(OfClass(lots, Discounted))
  {
    if lots != [] { ClassesPartition(lots[1..], t); }
  }

  lemma {:induction false} ClassSigns(lots: seq<Lot>, t: Allocation)
    requires Within(lots, t)
    ensures GainIn(lots, Other, t) >= 0.0 && GainIn(lots, Discounted, t) >= 0.0 && GainIn(lots, Loss, t) <= 0.0
  {
    if lots != [] {
      assert lots[0] in lots;
      if lots[0].gain <= 0.0 { TimesMonotone(lots[0].gain, 0.0, t(lots[0].tradeId)); }
      else { TimesMonotone(0.0, lots[0].gain, t(lots[0].tradeId)); }
      ClassSigns(lots[1..], t);
    }
  }

  /** An allocation's net is its position, clamped at nil. */
  lemma NetIsPosition(lots: seq<Lot>, t: Allocation)
    requires Within(lots, t)
    ensures NetOf(lots, t) == Max(0.0, PositionOf(lots, t))
  {
    hide GainIn, Within, Assessable, Max;
    ClassSigns(lots, t);
    AssessableClosedForm(GainIn(lots, Other, t), GainIn(lots, Discounted, t), -GainIn(lots, Loss, t));
  }

  lemma NetFollowsPosition(lots: seq<Lot>, t: Allocation, u: Allocation)
    requires Within(lots, t) && Within(lots, u) && PositionOf(lots, t) <= PositionOf(lots, u)
    ensures NoWorse(lots, t, u)
  {
    hide PositionOf, NetOf, Within;
    NetIsPosition(lots, t);
    NetIsPosition(lots, u);
  }

  // ----- What ranking a class gives ---------------------------------------------------------

  ghost predicate SumsAgree(lots: seq<Lot>, c: Class, ranked: seq<Lot>, t: Allocation) {
    UnitsOf(ranked, t) == UnitsIn(lots, c, t) && GainOf(ranked, t) == GainIn(lots, c, t)
  }

  /** `ranked` is the lots of class `c`, cheapest per unit first. */
  ghost predicate Ranks(ranked: seq<Lot>, lots: seq<Lot>, c: Class) {
    && Ascending(ranked) && DistinctIds(ranked)
    && Total(ranked) == Total(OfClass(lots, c))
    && (forall p :: p in ranked <==> p in lots && ClassOf(p) == c)
    && (forall t: Allocation :: SumsAgree(lots, c, ranked, t))
  }

  function Ranked(lots: seq<Lot>, c: Class): seq<Lot> {
    Sort(OfClass(lots, c), Cheapest())
  }

  lemma {:induction false} ClassMembers(lots: seq<Lot>, c: Class, p: Lot)
    ensures p in OfClass(lots, c) <==> p in lots && ClassOf(p) == c
  {
    if lots != [] { ClassMembers(lots[1..], c, p); }
  }

  lemma {:induction false} ClassSums(lots: seq<Lot>, c: Class, t: Allocation)
    ensures UnitsOf(OfClass(lots, c), t) == UnitsIn(lots, c, t)
    ensures GainOf(OfClass(lots, c), t) == GainIn(lots, c, t)
  {
    if lots != [] { ClassSums(lots[1..], c, t); }
  }

  lemma {:induction false} ClassDistinct(lots: seq<Lot>, c: Class)
    requires DistinctIds(lots)
    ensures DistinctIds(OfClass(lots, c))
  {
    if lots != [] {
      ClassDistinct(lots[1..], c);
      forall p | p in OfClass(lots[1..], c) ensures p.tradeId != lots[0].tradeId {
        ClassMembers(lots[1..], c, p);
      }
      ConsDistinct(lots[0], OfClass(lots[1..], c));
    }
  }

  lemma RankedRanks(lots: seq<Lot>, c: Class)
    requires DistinctIds(lots)
    ensures Ranks(Ranked(lots, c), lots, c)
  {
    var chosen := OfClass(lots, c);
    CheapestIsOrder();
    SortSorted(chosen, Cheapest());
    ClassDistinct(lots, c);
    SortKeepsIdsApart(chosen);
    SortSums(chosen, id => 0);
    forall p ensures p in Ranked(lots, c) <==> p in lots && ClassOf(p) == c {
      SortMembers(chosen, Cheapest(), p);
      ClassMembers(lots, c, p);
    }
    forall t: Allocation ensures SumsAgree(lots, c, Ranked(lots, c), t) {
      SortSums(chosen, t);
      ClassSums(lots, c, t);
    }
  }

  /** A lot that ranks before another of its class is sold out before that one is touched. */
  lemma {:induction false} GreedyFills(ranked: seq<Lot>, k: nat, i: nat, j: nat)
    requires DistinctIds(ranked) && i < j < |ranked|
    requires TakenFrom(Greedy(ranked, k), ranked[j].tradeId) > 0
    ensures TakenFrom(Greedy(ranked, k), ranked[i].tradeId) == ranked[i].quantity
  {
    hide Greedy, TakenFrom;
    var rest := k - MinNat(ranked[0].quantity, k);
    assert ranked[j].tradeId != ranked[0].tradeId && ranked[1..][j - 1] == ranked[j];
    OthersGive(ranked, k, ranked[j].tradeId);
    if i == 0 {
      FirstGives(ranked, k);
      if rest == 0 { NothingOfNone(ranked[1..], ranked[j].tradeId); }
    } else {
      assert ranked[1..][i - 1] == ranked[i];
      OthersGive(ranked, k, ranked[i].tradeId);
      GreedyFills(ranked[1..], rest, i - 1, j - 1);
    }
  }

  lemma NothingOfNone(ranked: seq<Lot>, id: int)
    ensures TakenFrom(Greedy(ranked, 0), id) == 0
  {
  }

  lemma RanksInOrder(lots: seq<Lot>, c: Class, p: Lot, q: Lot) returns (i: nat, j: nat)
    requires DistinctIds(lots) && p in lots && q in lots && ClassOf(p) == ClassOf(q) == c
    requires Cheapest()(p, q) && p.tradeId != q.tradeId
    ensures i < j < |Ranked(lots, c)| && Ranked(lots, c)[i] == p && Ranked(lots, c)[j] == q
  {
    RankedRanks(lots, c);
    i :| 0 <= i < |Ranked(lots, c)| && Ranked(lots, c)[i] == p;
    j :| 0 <= j < |Ranked(lots, c)| && Ranked(lots, c)[j] == q;
    CheapestIsOrder();
    SortSorted(OfClass(lots, c), Cheapest());
    PlacesInOrder(Ranked(lots, c), i, j);
  }

  lemma PlacesInOrder(ranked: seq<Lot>, i: nat, j: nat)
    requires SortedBy(ranked, Cheapest()) && i < |ranked| && j < |ranked|
    requires Cheapest()(ranked[i], ranked[j]) && ranked[i].tradeId != ranked[j].tradeId
    ensures i < j
  {
    var p, q := ranked[i], ranked[j];
    assert j < i ==> Cheapest()(q, p);
  }

  /** The three ranked classes of one list of lots. */
  datatype Ranking = Ranking(losses: seq<Lot>, other: seq<Lot>, discounted: seq<Lot>) {
    function Of(c: Class): seq<Lot> {
      match c case Loss => losses case Other => other case Discounted => discounted
    }

    ghost predicate For(lots: seq<Lot>) {
      && DistinctIds(lots) && (forall p :: p in lots ==> p.quantity > 0)
      && Ranks(losses, lots, Loss) && Ranks(other, lots, Other) && Ranks(discounted, lots, Discounted)
    }

    /** The first `n` units of each class, one class after another. */
    function Picks(n: Share): seq<Pick> {
      Greedy(losses, n.losses) + (Greedy(other, n.other) + Greedy(discounted, n.discounted))
    }

    /** The position of those units. */
    function PrefixPosition(n: Share): real {
      Position(PrefixGain(other, n.other), PrefixGain(discounted, n.discounted), -PrefixGain(losses, n.losses))
    }
  }

  function RankingOf(lots: seq<Lot>): Ranking {
    Ranking(Ranked(lots, Loss), Ranked(lots, Other), Ranked(lots, Discounted))
  }

  /** How many units each class gives. */
  datatype Share = Share(losses: nat, other: nat, discounted: nat) {
    function Of(c: Class): nat {
      match c case Loss => losses case Other => other case Discounted => discounted
    }

    predicate HeldBy(r: Ranking) {
      losses <= Total(r.losses) && other <= Total(r.other) && discounted <= Total(r.discounted)
    }
  }

  // ----- What the picks allocate -----------------------------------------------------------

  /** A class's greedy picks take nothing from a lot of another class. */
  lemma OtherClassTakesNothing(lots: seq<Lot>, ranked: seq<Lot>, p: Lot, c: Class, k: nat)
    requires DistinctIds(lots) && Ranks(ranked, lots, c) && p in lots && ClassOf(p) != c
    ensures TakenFrom(Greedy(ranked, k), p.tradeId) == 0
  {
    GreedyAllocates(ranked, k);
    forall r | r in ranked ensures r.tradeId != p.tradeId {
      if r.tradeId == p.tradeId { SameIdSameLot(lots, r, p); }
    }
  }

  /** What the picks take from a lot is what its own class's picks take from it. */
  lemma PicksFromOwnClass(lots: seq<Lot>, r: Ranking, n: Share, p: Lot)
    requires r.For(lots) && p in lots
    ensures TakenFrom(r.Picks(n), p.tradeId) == TakenFrom(Greedy(r.Of(ClassOf(p)), n.Of(ClassOf(p))), p.tradeId)
  {
    var gl, go, gd := Greedy(r.losses, n.losses), Greedy(r.other, n.other), Greedy(r.discounted, n.discounted);
    TakenFromConcat(gl, go + gd, p.tradeId);
    TakenFromConcat(go, gd, p.tradeId);
    if !ClassOf(p).Loss? { OtherClassTakesNothing(lots, r.losses, p, Loss, n.losses); }
    if !ClassOf(p).Other? { OtherClassTakesNothing(lots, r.other, p, Other, n.other); }
    if !ClassOf(p).Discounted? { OtherClassTakesNothing(lots, r.discounted, p, Discounted, n.discounted); }
  }

  /** Each class gets exactly its own picks. */
  lemma PicksByClass(lots: seq<Lot>, r: Ranking, n: Share, c: Class)
    requires r.For(lots) && n.HeldBy(r)
    ensures Within(r.Of(c), Taken(r.Picks(n)))
    ensures UnitsIn(lots, c, Taken(r.Picks(n))) == n.Of(c)
    ensures GainIn(lots, c, Taken(r.Picks(n))) == PrefixGain(r.Of(c), n.Of(c))
  {
    var ranked, t := r.Of(c), Taken(r.Picks(n));
    var own := Taken(Greedy(ranked, n.Of(c)));
    GreedyAllocates(ranked, n.Of(c));
    forall p | p in ranked ensures t(p.tradeId) == own(p.tradeId) {
      PicksFromOwnClass(lots, r, n, p);
    }
    SameSums(ranked, t, own);
    assert SumsAgree(lots, c, ranked, t);
  }

  /** The picks allocate exactly the units asked for, within every parcel, and their position
      is the position of the shares they were made from. */
  lemma PicksAllocate(lots: seq<Lot>, r: Ranking, n: Share)
    requires r.For(lots) && n.HeldBy(r)
    ensures Feasible(lots, Taken(r.Picks(n)), n.losses + n.other + n.discounted)
    ensures PositionOf(lots, Taken(r.Picks(n))) == r.PrefixPosition(n)
  {
    hide Position, PrefixGain, Greedy, Ranking.Picks, Ranking.For, Taken, UnitsIn, GainIn, UnitsOf;
    var t := Taken(r.Picks(n));
    PicksByClass(lots, r, n, Loss);
    PicksByClass(lots, r, n, Other);
    PicksByClass(lots, r, n, Discounted);
    ClassesPartition(lots, t);
    forall p | p in lots ensures 0 <= t(p.tradeId) <= p.quantity {
      PicksByClass(lots, r, n, ClassOf(p));
      InItsClass(lots, r, p);
    }
  }

  lemma InItsClass(lots: seq<Lot>, r: Ranking, p: Lot)
    requires r.For(lots) && p in lots
    ensures p in r.Of(ClassOf(p))
  {
    hide Total, DistinctIds, SumsAgree, Ascending;
  }

  // ----- Optimality ---------------------------------------------------------------------------

  lemma PositionMonotone(other: real, discounted: real, loss: real, other': real, discounted': real, loss': real)
    requires other <= other' && discounted <= discounted' && loss' <= loss
    ensures Position(other, discounted, loss) <= Position(other', discounted', loss')
  {
  }

  lemma CheaperPrefix(ranked: seq<Lot>, a: nat, b: nat)
    requires Gains(ranked) && a <= b <= Total(ranked)
    ensures PrefixGain(ranked, a) <= PrefixGain(ranked, b)
  {
    PrefixSlope(ranked, a, b, 0.0);
  }

  lemma {:induction false} LossPrefixFalls(losses: seq<Lot>, a: nat, b: nat)
    requires a <= b && forall p :: p in losses ==> p.gain <= 0.0
    ensures PrefixGain(losses, b) <= PrefixGain(losses, a)
  {
    if losses != [] {
      var g, q := losses[0].gain, losses[0].quantity;
      LossPrefixFalls(losses[1..], a - MinNat(q, a), b - MinNat(q, b));
      TimesSum(g, MinNat(q, a), MinNat(q, b) - MinNat(q, a));
      TimesMonotone(g, 0.0, MinNat(q, b) - MinNat(q, a));
    }
  }

  /** One ranked class as an allocation of the whole list sees it. */
  ghost predicate Seen(lots: seq<Lot>, ranked: seq<Lot>, c: Class, u: Allocation) {
    && Ascending(ranked) && Within(ranked, u) && SumsAgree(lots, c, ranked, u)
    && (if c.Loss? then forall p :: p in ranked ==> p.gain <= 0.0 else Gains(ranked))
  }

  lemma ClassSeen(lots: seq<Lot>, ranked: seq<Lot>, c: Class, u: Allocation)
    requires Ranks(ranked, lots, c) && Within(lots, u) && forall p :: p in lots ==> p.quantity > 0
    ensures Seen(lots, ranked, c, u)
  {
  }

  /** The first `k` units of a class of gains cost no more than what an allocation takes of it,
      when it takes at least `k`. */
  lemma GainsPrefixBelow(lots: seq<Lot>, ranked: seq<Lot>, c: Class, t: Allocation, k: nat)
    requires Seen(lots, ranked, c, t) && !c.Loss? && k <= UnitsIn(lots, c, t)
    ensures k <= Total(ranked) && PrefixGain(ranked, k) <= GainIn(lots, c, t)
  {
    PrefixIsLeast(ranked, t);
    CheaperPrefix(ranked, k, UnitsIn(lots, c, t));
  }

  /** The first `m` loss units lose at least what an allocation of at most `m` of them loses. */
  lemma LossPrefixBelow(lots: seq<Lot>, ranked: seq<Lot>, t: Allocation, m: nat)
    requires Seen(lots, ranked, Loss, t) && UnitsIn(lots, Loss, t) <= m
    ensures PrefixGain(ranked, m) <= GainIn(lots, Loss, t)
  {
    PrefixIsLeast(ranked, t);
    LossPrefixFalls(ranked, UnitsIn(lots, Loss, t), m);
  }

  lemma UnitsBounds(lots: seq<Lot>, ranked: seq<Lot>, c: Class, t: Allocation)
    requires Seen(lots, ranked, c, t)
    ensures 0 <= UnitsIn(lots, c, t) <= Total(ranked)
  {
    PrefixIsLeast(ranked, t);
  }

  /** Whatever an allocation takes, taking every loss unit first and some split of the rest
      does no worse. */
  lemma SomeSplitIsNoWorse(lots: seq<Lot>, r: Ranking, t: Allocation, units: nat, m: nat) returns (k: nat)
    requires Seen(lots, r.losses, Loss, t) && Seen(lots, r.other, Other, t) && Seen(lots, r.discounted, Discounted, t)
    requires UnitsIn(lots, Loss, t) + UnitsIn(lots, Other, t) + UnitsIn(lots, Discounted, t) == units
    requires m == MinNat(units, Total(r.losses))
    ensures Holds(r.other, r.discounted, units - m, k) && k <= UnitsIn(lots, Other, t)
    ensures r.PrefixPosition(Share(m, k, units - m - k)) <= PositionOf(lots, t)
  {
    hide PrefixGain, Position, GainIn, UnitsIn, Total, Seen;
    UnitsBounds(lots, r.losses, Loss, t);
    UnitsBounds(lots, r.other, Other, t);
    UnitsBounds(lots, r.discounted, Discounted, t);
    k := MinNat(UnitsIn(lots, Other, t), units - m);
    GainsPrefixBelow(lots, r.other, Other, t, k);
    GainsPrefixBelow(lots, r.discounted, Discounted, t, units - m - k);
    LossPrefixBelow(lots, r.losses, t, m);
    PositionMonotone(PrefixGain(r.other, k), PrefixGain(r.discounted, units - m - k), -PrefixGain(r.losses, m),
                     GainIn(lots, Other, t), GainIn(lots, Discounted, t), -GainIn(lots, Loss, t));
  }

  /** The picks as the search makes them: every loss unit, then a best split of the rest. */
  ghost predicate BestPicks(r: Ranking, units: nat, picks: seq<Pick>, k: nat) {
    var m := MinNat(units, Total(r.losses));
    && BestSplit(r.other, r.discounted, -PrefixGain(r.losses, m), units - m, k)
    && picks == r.Picks(Share(m, k, units - m - k))
  }

  /** And of the best splits the one with the fewest non-discountable units. */
  ghost predicate FewestPicks(r: Ranking, units: nat, k: nat) {
    var m := MinNat(units, Total(r.losses));
    FewestOther(r.other, r.discounted, -PrefixGain(r.losses, m), units - m, k)
  }

  /** The search's cost and the position rank splits alike. */
  lemma BestSplitRanksFirst(r: Ranking, m: nat, left: nat, k: nat, x: nat)
    requires BestSplit(r.other, r.discounted, -PrefixGain(r.losses, m), left, k)
    requires Holds(r.other, r.discounted, left, x)
    ensures r.PrefixPosition(Share(m, k, left - k)) <= r.PrefixPosition(Share(m, x, left - x))
  {
    var loss := -PrefixGain(r.losses, m);
    assert Cost(r.other, r.discounted, loss, left, k) <= Cost(r.other, r.discounted, loss, left, x);
  }

  /** A best split after the losses does no worse than any allocation of the same units. */
  lemma BestSplitBeats(lots: seq<Lot>, r: Ranking, u: Allocation, units: nat, picks: seq<Pick>, k: nat)
    requires Seen(lots, r.losses, Loss, u) && Seen(lots, r.other, Other, u) && Seen(lots, r.discounted, Discounted, u)
    requires UnitsOf(lots, u) == units && BestPicks(r, units, picks, k)
    ensures var m := MinNat(units, Total(r.losses));
            r.PrefixPosition(Share(m, k, units - m - k)) <= PositionOf(lots, u)
  {
    hide Seen, BestSplit, Holds, Position, PositionOf, Ranking.PrefixPosition, PrefixGain, Total, UnitsIn, UnitsOf;
    var m := MinNat(units, Total(r.losses));
    ClassesPartition(lots, u);
    var x := SomeSplitIsNoWorse(lots, r, u, units, m);
    BestSplitRanksFirst(r, m, units - m, k, x);
  }

  lemma BestPicksBeat(lots: seq<Lot>, r: Ranking, u: Allocation, units: nat, picks: seq<Pick>, k: nat)
    requires r.For(lots) && BestPicks(r, units, picks, k) && Feasible(lots, u, units)
    ensures PositionOf(lots, Taken(picks)) <= PositionOf(lots, u)
  {
    hide Ranking.For, Ranking.PrefixPosition, PositionOf, Seen, UnitsIn, Greedy;
    var m := MinNat(units, Total(r.losses));
    var n := Share(m, k, units - m - k);
    AllSeen(lots, r, u);
    assert r.PrefixPosition(n) <= PositionOf(lots, u) by { BestSplitBeats(lots, r, u, units, picks, k); }
    assert PositionOf(lots, Taken(picks)) == r.PrefixPosition(n) by { PicksAllocate(lots, r, n); }
  }

  lemma AllSeen(lots: seq<Lot>, r: Ranking, u: Allocation)
    requires r.For(lots) && Within(lots, u)
    ensures Seen(lots, r.losses, Loss, u) && Seen(lots, r.other, Other, u) && Seen(lots, r.discounted, Discounted, u)
  {
    ClassSeen(lots, r.losses, Loss, u);
    ClassSeen(lots, r.other, Other, u);
    ClassSeen(lots, r.discounted, Discounted, u);
  }

  lemma BestPicksAllocate(lots: seq<Lot>, r: Ranking, units: nat, picks: seq<Pick>, k: nat)
    requires r.For(lots) && BestPicks(r, units, picks, k)
    ensures Feasible(lots, Taken(picks), units)
  {
    hide Ranking.For, Cost, Feasible;
    var m := MinNat(units, Total(r.losses));
    PicksAllocate(lots, r, Share(m, k, units - m - k));
  }

  /** The share of each class the picks are made from. */
  lemma BestPicksShare(lots: seq<Lot>, r: Ranking, units: nat, picks: seq<Pick>, k: nat) returns (n: Share)
    requires r.For(lots) && BestPicks(r, units, picks, k)
    ensures picks == r.Picks(n) && UnitsIn(lots, Other, Taken(picks)) == k
  {
    hide Ranking.For, Cost, Total;
    var m := MinNat(units, Total(r.losses));
    n := Share(m, k, units - m - k);
    BestSplitHolds(r.other, r.discounted, -PrefixGain(r.losses, m), units - m, k);
    PicksByClass(lots, r, n, Other);
  }

  /** No feasible allocation beats the losses first and then a best split of the rest. */
  lemma BestPicksAreOptimal(lots: seq<Lot>, r: Ranking, units: nat, picks: seq<Pick>, k: nat)
    requires r.For(lots) && BestPicks(r, units, picks, k)
    ensures Optimal(lots, units, Taken(picks))
  {
    assert Feasible(lots, Taken(picks), units) by { BestPicksAllocate(lots, r, units, picks, k); }
    hide Ranking.For, BestPicks, PositionOf, NetOf, NoWorse, UnitsOf;
    forall u: Allocation | Feasible(lots, u, units) ensures NoWorse(lots, Taken(picks), u) {
      BestPicksBeat(lots, r, u, units, picks, k);
      NetFollowsPosition(lots, Taken(picks), u);
    }
  }

  /** Asking a class for more than it holds takes what it holds. */
  lemma {:induction false} AskingForMore(ranked: seq<Lot>, units: nat)
    requires forall p :: p in ranked ==> p.quantity > 0
    ensures var m := MinNat(units, Total(ranked));
            Greedy(ranked, units) == Greedy(ranked, m) && PrefixGain(ranked, units) == PrefixGain(ranked, m)
  {
    if ranked != [] {
      AskingForMore(ranked[1..], units - MinNat(ranked[0].quantity, units));
    }
  }

  method RankClasses(lots: seq<Lot>) returns (r: Ranking)
    requires DistinctIds(lots) && forall p :: p in lots ==> p.quantity > 0
    ensures r == RankingOf(lots) && r.For(lots)
    ensures Total(r.losses) + Total(r.other) + Total(r.discounted) == Total(lots)
  {
    r := Ranking(Ranked(lots, Loss), Ranked(lots, Other), Ranked(lots, Discounted));
    RankedRanks(lots, Loss);
    RankedRanks(lots, Other);
    RankedRanks(lots, Discounted);
    ClassesPartition(lots, id => 0);
  }

  /** The split of the units the losses leave. */
  method SplitTheRest(r: Ranking, loss: real, left: nat) returns (k: nat)
    requires Gains(r.other) && Gains(r.discounted) && left <= Total(r.other) + Total(r.discounted)
    ensures BestSplit(r.other, r.discounted, loss, left, k) && FewestOther(r.other, r.discounted, loss, left, k)
  {
    var lo := if left > Total(r.discounted) then left - Total(r.discounted) else 0;
    var hi := MinNat(left, Total(r.other));
    var points := Breakpoints(r.other, r.discounted, loss, left, lo, hi);
    assert points[0] == lo;
    k := CheapestSplit(points, lo, hi, r.other, r.discounted, loss, left);
    BreakpointsSuffice(r.other, r.discounted, loss, left, lo, hi, points, k);
  }

  /** Every loss unit there is, up to `units`. */
  method TakeLosses(losses: seq<Lot>, units: nat) returns (picks: seq<Pick>, gain: real, left: nat)
    requires forall p :: p in losses ==> p.quantity > 0
    ensures var m := MinNat(units, Total(losses));
            left == units - m && picks == Greedy(losses, m) && gain == PrefixGain(losses, m)
  {
    picks, gain, left := TakeInOrder(losses, units);
    AskingForMore(losses, units);
  }

  /** The cheapest split of the units the losses leave. */
  method TakeTheRest(r: Ranking, loss: real, left: nat) returns (picks: seq<Pick>, ghost k: nat)
    requires Gains(r.other) && Gains(r.discounted) && left <= Total(r.other) + Total(r.discounted)
    ensures BestSplit(r.other, r.discounted, loss, left, k) && FewestOther(r.other, r.discounted, loss, left, k)
    ensures picks == Greedy(r.other, k) + Greedy(r.discounted, left - k)
  {
    var split := SplitTheRest(r, loss, left);
    var fromOther, _, _ := TakeInOrder(r.other, split);
    var fromDiscounted, _, _ := TakeInOrder(r.discounted, left - split);
    picks, k := fromOther + fromDiscounted, split;
  }

  lemma NoneLeftToSplit(other: seq<Lot>, discounted: seq<Lot>, loss: real)
    ensures BestSplit(other, discounted, loss, 0, 0) && FewestOther(other, discounted, loss, 0, 0)
  {
    hide Cost, Total;
  }

  lemma NoneTaken(ranked: seq<Lot>)
    ensures Greedy(ranked, 0) == []
  {
  }

  /** With nothing left after the losses there is nothing to split. */
  lemma LossesAreAll(r: Ranking, units: nat)
    requires units <= Total(r.losses)
    ensures BestPicks(r, units, Greedy(r.losses, units), 0) && FewestPicks(r, units, 0)
  {
    hide Greedy, PrefixGain, BestSplit, FewestOther, Total;
    NoneLeftToSplit(r.other, r.discounted, -PrefixGain(r.losses, units));
    NoneTaken(r.other);
    NoneTaken(r.discounted);
    var none: seq<Pick> := [];
    assert none + none == none;
    assert Greedy(r.losses, units) + [] == Greedy(r.losses, units);
  }

  method PickFrom(r: Ranking, units: nat) returns (picks: seq<Pick>, ghost k: nat)
    requires Gains(r.other) && Gains(r.discounted) && forall p :: p in r.losses ==> p.quantity > 0
    requires units <= Total(r.losses) + Total(r.other) + Total(r.discounted)
    ensures BestPicks(r, units, picks, k) && FewestPicks(r, units, k)
  {
    hide Greedy, PrefixGain, BestSplit, FewestOther, Total, Gains;
    var gain, left;
    picks, gain, left := TakeLosses(r.losses, units);
    if left == 0 {
      LossesAreAll(r, units);
      k := 0;
      return;
    }
    var rest;
    rest, k := TakeTheRest(r, -gain, left);
    picks := picks + rest;
  }

  // ----- Which lots the picks are from --------------------------------------------------------

  /** The picks take units of lots, of each lot once. */
  ghost predicate FromEachOnce(lots: seq<Lot>, picks: seq<Pick>) {
    && (forall k :: k in picks ==> k.units > 0 && exists p :: p in lots && p.tradeId == k.tradeId)
    && (forall i, j :: 0 <= i < j < |picks| ==> picks[i].tradeId != picks[j].tradeId)
  }

  lemma {:induction false} GreedyFromEachOnce(ranked: seq<Lot>, k: nat)
    requires DistinctIds(ranked) && forall p :: p in ranked ==> p.quantity > 0
    ensures FromEachOnce(ranked, Greedy(ranked, k))
  {
    if ranked != [] && k > 0 {
      var rest := k - MinNat(ranked[0].quantity, k);
      var later := Greedy(ranked[1..], rest);
      assert ranked[0] in ranked && forall p :: p in ranked[1..] ==> p in ranked;
      GreedyFromEachOnce(ranked[1..], rest);
      OneMoreLot(ranked, MinNat(ranked[0].quantity, k), later);
    }
  }

  lemma OneMoreLot(ranked: seq<Lot>, units: nat, later: seq<Pick>)
    requires ranked != [] && DistinctIds(ranked) && units > 0 && FromEachOnce(ranked[1..], later)
    ensures FromEachOnce(ranked, [Pick(ranked[0].tradeId, units)] + later)
  {
    var first, all := Pick(ranked[0].tradeId, units), [Pick(ranked[0].tradeId, units)] + later;
    forall j | 0 <= j < |later| ensures later[j].tradeId != ranked[0].tradeId {
      assert later[j] in later;
      var p :| p in ranked[1..] && p.tradeId == later[j].tradeId;
      var i :| 0 <= i < |ranked| - 1 && ranked[1..][i] == p;
      assert ranked[i + 1] == p;
    }
    forall x | x in all ensures x.units > 0 && exists p :: p in ranked && p.tradeId == x.tradeId {
      if x == first {
        assert ranked[0] in ranked;
      } else {
        var p :| p in ranked[1..] && p.tradeId == x.tradeId;
        assert p in ranked;
      }
    }
  }

  /** Picks of classes that share no lot, one after another. */
  lemma ApartFromEachOnce(lots: seq<Lot>, a: seq<Lot>, b: seq<Lot>, x: seq<Pick>, y: seq<Pick>)
    requires FromEachOnce(a, x) && FromEachOnce(b, y)
    requires forall p, q :: p in a && q in b ==> p.tradeId != q.tradeId
    requires forall p :: p in a || p in b ==> p in lots
    ensures FromEachOnce(lots, x + y)
  {
    var all := x + y;
    forall i, j | 0 <= i < j < |all| ensures all[i].tradeId != all[j].tradeId {
      if i < |x| && |x| <= j {
        assert x[i] in x && y[j - |x|] in y;
      }
    }
  }

  lemma ClassesShareNone(lots: seq<Lot>, r: Ranking, c: Class, d: Class)
    requires r.For(lots) && c != d
    ensures forall p, q :: p in r.Of(c) && q in r.Of(d) ==> p.tradeId != q.tradeId
  {
    hide Total, Ascending, SumsAgree;
    forall p, q | p in r.Of(c) && q in r.Of(d) ensures p.tradeId != q.tradeId {
      if p.tradeId == q.tradeId { SameIdSameLot(lots, p, q); }
    }
  }

  lemma ClassHolds(lots: seq<Lot>, r: Ranking, c: Class)
    requires r.For(lots)
    ensures DistinctIds(r.Of(c)) && (forall p :: p in r.Of(c) ==> p in lots && p.quantity > 0)
  {
    hide Total, Ascending, SumsAgree;
  }

  lemma PicksFromEachOnce(lots: seq<Lot>, r: Ranking, n: Share)
    requires r.For(lots)
    ensures FromEachOnce(lots, r.Picks(n))
  {
    ClassHolds(lots, r, Loss);
    ClassHolds(lots, r, Other);
    ClassHolds(lots, r, Discounted);
    ClassesShareNone(lots, r, Loss, Other);
    ClassesShareNone(lots, r, Loss, Discounted);
    ClassesShareNone(lots, r, Other, Discounted);
    hide Ranking.For, FromEachOnce, Greedy, DistinctIds;
    GreedyFromEachOnce(r.losses, n.losses);
    GreedyFromEachOnce(r.other, n.other);
    GreedyFromEachOnce(r.discounted, n.discounted);
    ApartFromEachOnce(r.other + r.discounted, r.other, r.discounted,
                      Greedy(r.other, n.other), Greedy(r.discounted, n.discounted));
    ApartFromEachOnce(lots, r.losses, r.other + r.discounted,
                      Greedy(r.losses, n.losses), Greedy(r.other, n.other) + Greedy(r.discounted, n.discounted));
  }

  /** Of one class, a lot that ranks first is sold out before the other is touched. */
  lemma SoldOutFirst(lots: seq<Lot>, n: Share, p: Lot, q: Lot)
    requires RankingOf(lots).For(lots) && p in lots && q in lots && ClassOf(p) == ClassOf(q)
    requires Cheapest()(p, q) && p.tradeId != q.tradeId
    requires TakenFrom(RankingOf(lots).Picks(n), q.tradeId) > 0
    ensures TakenFrom(RankingOf(lots).Picks(n), p.tradeId) == p.quantity
  {
    var c := ClassOf(p);
    var i, j := RanksInOrder(lots, c, p, q);
    PicksFromOwnClass(lots, RankingOf(lots), n, p);
    PicksFromOwnClass(lots, RankingOf(lots), n, q);
    ClassHolds(lots, RankingOf(lots), c);
    GreedyFills(Ranked(lots, c), n.Of(c), i, j);
  }

  /** An allocation no worse than the picks takes at least as many non-discountable units. */
  lemma TakesNoFewer(lots: seq<Lot>, r: Ranking, u: Allocation, units: nat, picks: seq<Pick>, k: nat)
    requires r.For(lots) && BestPicks(r, units, picks, k) && FewestPicks(r, units, k) && Feasible(lots, u, units)
    requires PositionOf(lots, u) <= PositionOf(lots, Taken(picks))
    ensures k <= UnitsIn(lots, Other, u)
  {
    hide Ranking.For, Ranking.Picks, Ranking.PrefixPosition, PositionOf, Seen, UnitsIn, UnitsOf, BestSplit, Total,
         PrefixGain, Cost, Position;
    var m := MinNat(units, Total(r.losses));
    BestSplitHolds(r.other, r.discounted, -PrefixGain(r.losses, m), units - m, k);
    var n := Share(m, k, units - m - k);
    AllSeen(lots, r, u);
    ClassesPartition(lots, u);
    var x := SomeSplitIsNoWorse(lots, r, u, units, m);
    PicksAllocate(lots, r, n);
    SplitsAsCost(r, m, units - m, k);
    SplitsAsCost(r, m, units - m, x);
  }

  lemma SplitsAsCost(r: Ranking, m: nat, left: nat, k: nat)
    requires k <= left
    ensures r.PrefixPosition(Share(m, k, left - k))
            == (Cost(r.other, r.discounted, -PrefixGain(r.losses, m), left, k) + PrefixGain(r.losses, m)) / 2.0
  {
    hide PrefixGain, Max;
  }
}
