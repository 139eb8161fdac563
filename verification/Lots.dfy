/**
 * Lots of one holding ranked by the gain each unit makes, and what taking some units of
 * them adds up to.
 */
module Lots {
  import opened Calendar
  import opened Sorting

  /** A parcel with the gain each of its units makes at the sale price, and whether that
      gain is discount-eligible on the sale date. `quantity` counts the smallest unit any
      quantity in the sale is stated in, so that every count is whole. */
  datatype Lot = Lot(tradeId: int, acquired: Date, quantity: nat, gain: real, eligible: bool)

  /** Units of one parcel the sale takes. */
  datatype Pick = Pick(tradeId: int, units: nat)

  // ----- Units and gains of an allocation -------------------------------------------------

  /** An allocation: how many units of each parcel, by trade id. */
  type Allocation = int -> int

  function Total(lots: seq<Lot>): nat {
    if lots == [] then 0 else lots[0].quantity + Total(lots[1..])
  }

  /** The gain of `n` units at `g` each. */
  function Times(g: real, n: int): real {
    g * n as real
  }

  lemma TimesSum(g: real, m: int, n: int)
    ensures Times(g, m) + Times(g, n) == Times(g, m + n)
  {
  }

  lemma TimesMonotone(g: real, h: real, n: int)
    requires g <= h && n >= 0
    ensures Times(g, n) <= Times(h, n)
  {
  }

  function UnitsOf(lots: seq<Lot>, t: Allocation): int {
    if lots == [] then 0 else t(lots[0].tradeId) + UnitsOf(lots[1..], t)
  }

  function GainOf(lots: seq<Lot>, t: Allocation): real {
    if lots == [] then 0.0
    else Times(lots[0].gain, t(lots[0].tradeId)) + GainOf(lots[1..], t)
  }

  ghost predicate Within(lots: seq<Lot>, t: Allocation) {
    forall p :: p in lots ==> 0 <= t(p.tradeId) <= p.quantity
  }

  ghost predicate Feasible(lots: seq<Lot>, t: Allocation, units: int) {
    Within(lots, t) && UnitsOf(lots, t) == units
  }

  predicate DistinctIds(lots: seq<Lot>) {
    forall i, j :: 0 <= i < j < |lots| ==> lots[i].tradeId != lots[j].tradeId
  }

  function Cheapest(): (Lot, Lot) -> bool {
    (a: Lot, b: Lot) =>
      a.gain < b.gain
      || (a.gain == b.gain
          && (a.acquired.Before(b.acquired) || (a.acquired == b.acquired && a.tradeId <= b.tradeId)))
  }

  lemma CheapestIsOrder()
    ensures TotalOrder(Cheapest())
  {
  }

  ghost predicate Ascending(ranked: seq<Lot>) {
    forall i, j :: 0 <= i < j < |ranked| ==> ranked[i].gain <= ranked[j].gain
  }

  // ----- Taking a class in order ------------------------------------------------------------

  function MinNat(a: nat, b: nat): nat {
    if a <= b then a else b
  }

  /** The picks of the first `k` units of a class. */
  function Greedy(ranked: seq<Lot>, k: nat): seq<Pick> {
    if ranked == [] || k == 0 then []
    else
      var take := MinNat(ranked[0].quantity, k);
      [Pick(ranked[0].tradeId, take)] + Greedy(ranked[1..], k - take)
  }

  /** The gain of the first `k` units of a class. */
  function PrefixGain(ranked: seq<Lot>, k: nat): real {
    if ranked == [] then 0.0
    else
      var take := MinNat(ranked[0].quantity, k);
      Times(ranked[0].gain, take) + PrefixGain(ranked[1..], k - take)
  }

  function TakenFrom(picks: seq<Pick>, id: int): nat {
    if picks == [] then 0
    else (if picks[0].tradeId == id then picks[0].units else 0) + TakenFrom(picks[1..], id)
  }

  function Taken(picks: seq<Pick>): Allocation {
    id => TakenFrom(picks, id)
  }

  /** The loop that consumes a class in order. */
  method TakeInOrder(ranked: seq<Lot>, k: nat)
    returns (picks: seq<Pick>, gain: real, left: nat)
    ensures picks == Greedy(ranked, k)
    ensures gain == PrefixGain(ranked, k)
    ensures left == k - MinNat(k, Total(ranked))
  {
    picks, gain, left := [], 0.0, k;
    var i := 0;
    while i < |ranked| && left > 0
      invariant 0 <= i <= |ranked|
      invariant picks + Greedy(ranked[i..], left) == Greedy(ranked, k)
      invariant gain + PrefixGain(ranked[i..], left) == PrefixGain(ranked, k)
      invariant left - MinNat(left, Total(ranked[i..])) == k - MinNat(k, Total(ranked))
    {
      var take := MinNat(ranked[i].quantity, left);
      assert ranked[i..][0] == ranked[i] && ranked[i..][1..] == ranked[i + 1..];
      picks := picks + [Pick(ranked[i].tradeId, take)];
      gain := gain + Times(ranked[i].gain, take);
      left := left - take;
      i := i + 1;
    }
    NothingLeft(ranked[i..]);
    assert picks + [] == picks;
  }

  lemma {:induction false} NothingLeft(ranked: seq<Lot>)
    ensures PrefixGain(ranked, 0) == 0.0
  {
    if ranked != [] { NothingLeft(ranked[1..]); }
  }

  // ----- The greedy prefix is the cheapest way to take k units of a class --------------------

  lemma {:induction false} AtLeastPerUnit(ranked: seq<Lot>, t: Allocation, g: real)
    requires Within(ranked, t) && forall p :: p in ranked ==> p.gain >= g
    ensures UnitsOf(ranked, t) >= 0 && GainOf(ranked, t) >= Times(g, UnitsOf(ranked, t))
  {
    if ranked != [] {
      AtLeastPerUnit(ranked[1..], t, g);
      TimesMonotone(g, ranked[0].gain, t(ranked[0].tradeId));
      TimesSum(g, t(ranked[0].tradeId), UnitsOf(ranked[1..], t));
    }
  }

  lemma PrefixAt(ranked: seq<Lot>, k: nat)
    requires ranked != []
    ensures var take := MinNat(ranked[0].quantity, k);
            PrefixGain(ranked, k) == Times(ranked[0].gain, take) + PrefixGain(ranked[1..], k - take)
  {
  }

  /** `y - x` units at `h`, no less than `g`, and the other units at `g`. */
  lemma SlopeStep(g: real, h: real, x: int, y: int, rest: int)
    requires g <= h && x <= y
    ensures Times(h, y) - Times(h, x) + Times(g, rest) >= Times(g, y - x + rest)
  {
    TimesSum(h, x, y - x);
    TimesMonotone(g, h, y - x);
    TimesSum(g, y - x, rest);
  }

  lemma {:induction false} PrefixSlope(ranked: seq<Lot>, a: nat, b: nat, g: real)
    requires a <= b <= Total(ranked) && forall p :: p in ranked ==> p.gain >= g
    ensures PrefixGain(ranked, b) - PrefixGain(ranked, a) >= Times(g, b - a)
  {
    if ranked == [] {
      assert Times(g, 0) == 0.0;
    } else {
      hide Times, PrefixGain;
      var x, y := MinNat(ranked[0].quantity, a), MinNat(ranked[0].quantity, b);
      assert ranked[0] in ranked && forall p :: p in ranked[1..] ==> p in ranked;
      PrefixAt(ranked, a);
      PrefixAt(ranked, b);
      PrefixSlope(ranked[1..], a - x, b - y, g);
      SlopeStep(g, ranked[0].gain, x, y, b - y - (a - x));
    }
  }

  /** Moving `q - n` units off the later lots onto the first, which is no dearer. */
  lemma PrefixTakesFirstLot(rest: seq<Lot>, h: real, q: nat, n: nat, k: nat)
    requires n <= q < k && k - n <= Total(rest) && forall p :: p in rest ==> p.gain >= h
    ensures Times(h, q) + PrefixGain(rest, k - q) <= Times(h, n) + PrefixGain(rest, k - n)
  {
    PrefixSlope(rest, k - q, k - n, h);
    TimesSum(h, n, q - n);
  }

  /** An allocation no larger than the first lot is no cheaper than taking it all from there. */
  lemma FirstLotCovers(ranked: seq<Lot>, t: Allocation)
    requires ranked != [] && Within(ranked, t) && forall p :: p in ranked[1..] ==> p.gain >= ranked[0].gain
    requires 0 <= UnitsOf(ranked, t) <= ranked[0].quantity
    ensures PrefixGain(ranked, UnitsOf(ranked, t)) <= GainOf(ranked, t)
  {
    var h, rest := ranked[0].gain, ranked[1..];
    NothingLeft(rest);
    AtLeastPerUnit(rest, t, h);
    TimesSum(h, t(ranked[0].tradeId), UnitsOf(rest, t));
  }

  lemma {:induction false} PrefixIsLeast(ranked: seq<Lot>, t: Allocation)
    requires Ascending(ranked) && Within(ranked, t)
    ensures 0 <= UnitsOf(ranked, t) <= Total(ranked)
    ensures PrefixGain(ranked, UnitsOf(ranked, t)) <= GainOf(ranked, t)
  {
    if ranked != [] {
      assert ranked[0] in ranked;
      FirstIsLeast(ranked);
      PrefixIsLeast(ranked[1..], t);
      if UnitsOf(ranked, t) <= ranked[0].quantity {
        FirstLotCovers(ranked, t);
      } else {
        LaterLotsToo(ranked, t);
      }
    }
  }

  lemma FirstIsLeast(ranked: seq<Lot>)
    requires Ascending(ranked) && ranked != []
    ensures Ascending(ranked[1..]) && forall p :: p in ranked[1..] ==> p.gain >= ranked[0].gain
  {
    hide Times;
  }

  /** One larger than the first lot is no cheaper than all of that lot and the later ones' prefix. */
  lemma LaterLotsToo(ranked: seq<Lot>, t: Allocation)
    requires ranked != [] && Within(ranked, t) && forall p :: p in ranked[1..] ==> p.gain >= ranked[0].gain
    requires ranked[0].quantity < UnitsOf(ranked, t)
    requires 0 <= UnitsOf(ranked[1..], t) <= Total(ranked[1..])
    requires PrefixGain(ranked[1..], UnitsOf(ranked[1..], t)) <= GainOf(ranked[1..], t)
    ensures PrefixGain(ranked, UnitsOf(ranked, t)) <= GainOf(ranked, t)
  {
    hide Times;
    var units := UnitsOf(ranked, t);
    assert ranked[0] in ranked;
    PrefixAt(ranked, units);
    PrefixTakesFirstLot(ranked[1..], ranked[0].gain, ranked[0].quantity, t(ranked[0].tradeId), units);
  }

  // ----- Ranking changes neither the units nor the gain ---------------------------------------

  lemma {:induction false} InsertSums(x: Lot, s: seq<Lot>, t: Allocation)
    ensures UnitsOf(Insert(x, s, Cheapest()), t) == t(x.tradeId) + UnitsOf(s, t)
    ensures GainOf(Insert(x, s, Cheapest()), t) == Times(x.gain, t(x.tradeId)) + GainOf(s, t)
    ensures Total(Insert(x, s, Cheapest())) == x.quantity + Total(s)
  {
    var r := Insert(x, s, Cheapest());
    if s != [] && !Cheapest()(x, s[0]) {
      InsertSums(x, s[1..], t);
      assert r[1..] == Insert(x, s[1..], Cheapest());
    } else {
      assert r[1..] == s;
    }
  }

  lemma {:induction false} SortSums(s: seq<Lot>, t: Allocation)
    ensures UnitsOf(Sort(s, Cheapest()), t) == UnitsOf(s, t)
    ensures GainOf(Sort(s, Cheapest()), t) == GainOf(s, t)
    ensures Total(Sort(s, Cheapest())) == Total(s)
  {
    if s != [] {
      SortSums(s[1..], t);
      InsertSums(s[0], Sort(s[1..], Cheapest()), t);
    }
  }

  // ----- What the picks allocate -----------------------------------------------------------

  lemma {:induction false} SameSums(lots: seq<Lot>, t: Allocation, u: Allocation)
    requires forall p :: p in lots ==> t(p.tradeId) == u(p.tradeId)
    ensures UnitsOf(lots, t) == UnitsOf(lots, u) && GainOf(lots, t) == GainOf(lots, u)
  {
    if lots != [] {
      assert lots[0] in lots;
      SameSums(lots[1..], t, u);
    }
  }

  lemma {:induction false} TakenFromConcat(a: seq<Pick>, b: seq<Pick>, id: int)
    ensures TakenFrom(a + b, id) == TakenFrom(a, id) + TakenFrom(b, id)
  {
    if a == [] { assert a + b == b; } else {
      assert (a + b)[1..] == a[1..] + b;
      TakenFromConcat(a[1..], b, id);
    }
  }

  /** The picks of a class take nothing from a lot that is not in it. */
  lemma {:induction false} NoneFromOthers(ranked: seq<Lot>, k: nat, id: int)
    requires forall p :: p in ranked ==> p.tradeId != id
    ensures TakenFrom(Greedy(ranked, k), id) == 0
  {
    if ranked != [] && k > 0 {
      var take := MinNat(ranked[0].quantity, k);
      assert ranked[0] in ranked;
      NoneFromOthers(ranked[1..], k - take, id);
      assert Greedy(ranked, k)[1..] == Greedy(ranked[1..], k - take);
    }
  }

  /** The first lot gives what it can. */
  lemma FirstGives(ranked: seq<Lot>, k: nat)
    requires ranked != [] && DistinctIds(ranked)
    ensures TakenFrom(Greedy(ranked, k), ranked[0].tradeId) == MinNat(ranked[0].quantity, k)
  {
    var take := MinNat(ranked[0].quantity, k);
    if k > 0 {
      forall p | p in ranked[1..] ensures p.tradeId != ranked[0].tradeId {
        var i :| 0 <= i < |ranked| - 1 && ranked[1..][i] == p;
        assert ranked[i + 1] == p;
      }
      NoneFromOthers(ranked[1..], k - take, ranked[0].tradeId);
      assert Greedy(ranked, k)[1..] == Greedy(ranked[1..], k - take);
    }
  }

  /** Every other lot gives what the rest's own picks take. */
  lemma OthersGive(ranked: seq<Lot>, k: nat, id: int)
    requires ranked != [] && id != ranked[0].tradeId
    ensures var take := MinNat(ranked[0].quantity, k);
            TakenFrom(Greedy(ranked, k), id) == TakenFrom(Greedy(ranked[1..], k - take), id)
  {
    if k > 0 {
      assert Greedy(ranked, k)[1..] == Greedy(ranked[1..], k - MinNat(ranked[0].quantity, k));
    }
  }

  /** The rest of a class is taken from as its own picks take. */
  lemma RestAlike(ranked: seq<Lot>, k: nat)
    requires ranked != [] && DistinctIds(ranked)
    ensures var all, tail := Taken(Greedy(ranked, k)), Taken(Greedy(ranked[1..], k - MinNat(ranked[0].quantity, k)));
            && DistinctIds(ranked[1..]) && forall p :: p in ranked[1..] ==> all(p.tradeId) == tail(p.tradeId)
  {
    hide Greedy, TakenFrom;
    forall p | p in ranked[1..]
      ensures Taken(Greedy(ranked, k))(p.tradeId)
              == Taken(Greedy(ranked[1..], k - MinNat(ranked[0].quantity, k)))(p.tradeId)
    {
      var i :| 0 <= i < |ranked| - 1 && ranked[1..][i] == p;
      assert ranked[i + 1] == p;
      OthersGive(ranked, k, p.tradeId);
    }
  }

  lemma {:induction false} GreedyWithin(ranked: seq<Lot>, k: nat)
    requires DistinctIds(ranked)
    ensures Within(ranked, Taken(Greedy(ranked, k)))
  {
    if ranked != [] {
      hide Greedy, TakenFrom, DistinctIds;
      RestAlike(ranked, k);
      GreedyWithin(ranked[1..], k - MinNat(ranked[0].quantity, k));
      FirstGives(ranked, k);
      assert ranked == [ranked[0]] + ranked[1..];
    }
  }

  lemma {:induction false} GreedySums(ranked: seq<Lot>, k: nat)
    requires DistinctIds(ranked)
    ensures UnitsOf(ranked, Taken(Greedy(ranked, k))) == MinNat(k, Total(ranked))
    ensures GainOf(ranked, Taken(Greedy(ranked, k))) == PrefixGain(ranked, k)
  {
    if ranked != [] {
      hide Greedy, TakenFrom, DistinctIds, Times;
      var tail := Taken(Greedy(ranked[1..], k - MinNat(ranked[0].quantity, k)));
      RestAlike(ranked, k);
      GreedySums(ranked[1..], k - MinNat(ranked[0].quantity, k));
      FirstGives(ranked, k);
      SameSums(ranked[1..], Taken(Greedy(ranked, k)), tail);
    }
  }

  /** The greedy picks take their `k` units, from the class's own lots only, none beyond its
      quantity, and make the prefix gain. */
  lemma GreedyAllocates(ranked: seq<Lot>, k: nat)
    requires DistinctIds(ranked)
    ensures Within(ranked, Taken(Greedy(ranked, k)))
    ensures UnitsOf(ranked, Taken(Greedy(ranked, k))) == MinNat(k, Total(ranked))
    ensures GainOf(ranked, Taken(Greedy(ranked, k))) == PrefixGain(ranked, k)
    ensures forall id :: (forall p :: p in ranked ==> p.tradeId != id) ==> TakenFrom(Greedy(ranked, k), id) == 0
  {
    hide Greedy, TakenFrom, DistinctIds, Within, UnitsOf, GainOf, PrefixGain, Total;
    GreedyWithin(ranked, k);
    GreedySums(ranked, k);
    forall id | forall p :: p in ranked ==> p.tradeId != id ensures TakenFrom(Greedy(ranked, k), id) == 0 {
      NoneFromOthers(ranked, k, id);
    }
  }

  lemma SameIdSameLot(lots: seq<Lot>, p: Lot, r: Lot)
    requires DistinctIds(lots) && p in lots && r in lots && p.tradeId == r.tradeId
    ensures p == r
  {
    var i :| 0 <= i < |lots| && lots[i] == p;
    var j :| 0 <= j < |lots| && lots[j] == r;
    assert !(i < j) && !(j < i);
  }

  /** One more lot with an id of its own. */
  lemma ConsDistinct(x: Lot, s: seq<Lot>)
    requires DistinctIds(s) && forall p :: p in s ==> p.tradeId != x.tradeId
    ensures DistinctIds([x] + s)
  {
  }

  lemma SortKeepsIdsApart(s: seq<Lot>)
    requires DistinctIds(s)
    ensures DistinctIds(Sort(s, Cheapest()))
  {
    var id := (p: Lot) => p.tradeId;
    assert KeysApart(s, id);
    SortKeepsApart(s, Cheapest(), id);
    var r := Sort(s, Cheapest());
    assert forall i, j :: 0 <= i < j < |r| ==> id(r[i]) != id(r[j]);
  }
}
