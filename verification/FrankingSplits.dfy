/**
 * A share split changes the unit counts of the holding-period test by its ratio, and the part of
 * the credits it denies not at all.
 */
module FrankingSplits {
  import opened Common
  import opened Franking
  import opened FrankingLaws
  import opened Netting

  function ScaledStack(stack: seq<Parcel>, r: real): (s: seq<Parcel>)
    ensures |s| == |stack| && forall i :: 0 <= i < |s| ==> s[i] == stack[i].(qty := By(stack[i].qty, r))
  {
    seq(|stack|, i requires 0 <= i < |stack| => stack[i].(qty := By(stack[i].qty, r)))
  }

  function ScaledTrades(trades: seq<Trade>, r: real): (s: seq<Trade>)
    ensures |s| == |trades| && forall i :: 0 <= i < |s| ==> s[i] == trades[i].(qty := By(trades[i].qty, r))
  {
    seq(|trades|, i requires 0 <= i < |trades| => trades[i].(qty := By(trades[i].qty, r)))
  }

  function ScaledWalk(w: Walk, r: real): Walk {
    Walk(ScaledStack(w.stack, r), w.snapshotted, By(w.entitled, r), By(w.disqualified, r))
  }

  function ScaledTest(t: Test, r: real): Test {
    Test(By(t.entitled, r), By(t.disqualified, r))
  }

  lemma ByKeepsOrder(a: real, b: real, r: real)
    requires r > 0.0
    ensures (a <= b <==> By(a, r) <= By(b, r)) && By(0.0, r) == 0.0
    ensures By(a, r) - By(b, r) == By(a - b, r) && By(a, r) + By(b, r) == By(a + b, r)
  {
    if a < b { assert (b - a) * r > 0.0; } else if b < a { assert (a - b) * r > 0.0; }
  }

  lemma ScaledMin(a: real, b: real, r: real)
    requires r > 0.0
    ensures Min(By(a, r), By(b, r)) == By(Min(a, b), r)
  {
    hide By;
    ByKeepsOrder(a, b, r);
  }

  lemma ScaledFront(stack: seq<Parcel>, r: real)
    requires stack != []
    ensures Front(ScaledStack(stack, r)) == ScaledStack(Front(stack), r)
    ensures Last(ScaledStack(stack, r)) == Last(stack).(qty := By(Last(stack).qty, r))
  {
  }

  lemma ScaledPush(stack: seq<Parcel>, p: Parcel, r: real)
    ensures ScaledStack(stack + [p], r) == ScaledStack(stack, r) + [p.(qty := By(p.qty, r))]
  {
  }

  lemma {:induction false} ScaledUnits(stack: seq<Parcel>, r: real)
    requires r > 0.0
    ensures Units(ScaledStack(stack, r)) == By(Units(stack), r)
  {
    hide By;
    if stack == [] { ByKeepsOrder(0.0, 0.0, r); } else {
      ScaledUnits(Front(stack), r);
      ScaledFront(stack, r);
      ByKeepsOrder(Units(Front(stack)), Last(stack).qty, r);
    }
  }

  lemma ScaledEntitled(stack: seq<Parcel>, r: real)
    ensures Entitled(ScaledStack(stack, r)) == ScaledStack(Entitled(stack), r)
  {
    hide By, Entitled;
    forall i | 0 <= i < |stack| ensures Entitled(ScaledStack(stack, r))[i] == ScaledStack(Entitled(stack), r)[i] {
      EntitledAt(stack, i);
      EntitledAt(ScaledStack(stack, r), i);
    }
  }

  lemma {:induction false} ScaledSell(stack: seq<Parcel>, qty: real, day: int, rule: Rule, r: real)
    requires r > 0.0
    ensures Sell(ScaledStack(stack, r), By(qty, r), day, rule)
            == Sold(ScaledStack(Sell(stack, qty, day, rule).left, r), By(Sell(stack, qty, day, rule).lost, r))
  {
    hide By, ScaledStack, Min;
    ByKeepsOrder(qty, 0.0, r);
    if qty > 0.0 && stack != [] {
      var front, top := Front(stack), Last(stack);
      var take := Min(qty, top.qty);
      ScaledFront(stack, r);
      ScaledMin(qty, top.qty, r);
      ByKeepsOrder(top.qty, take, r);
      ByKeepsOrder(take, top.qty, r);
      ByKeepsOrder(qty, take, r);
      ScaledSell(front, qty - take, day, rule, r);
      ByKeepsOrder(if TooSoon(top, day, rule) then take else 0.0, Sell(front, qty - take, day, rule).lost, r);
      ScaledPush(front, top.(qty := top.qty - take), r);
    }
  }

  lemma ScaledSnapshot(w: Walk, r: real)
    requires r > 0.0
    ensures Snapshot(ScaledWalk(w, r)) == ScaledWalk(Snapshot(w), r)
  {
    hide By, ScaledStack;
    ScaledUnits(w.stack, r);
    ScaledEntitled(w.stack, r);
    ByKeepsOrder(w.entitled, Units(w.stack), r);
  }

  lemma ScaledStep(w: Walk, t: Trade, rule: Rule, r: real)
    requires r > 0.0
    ensures Step(ScaledWalk(w, r), t.(qty := By(t.qty, r)), rule) == ScaledWalk(Step(w, t, rule), r)
  {
    hide By, ScaledStack, Sell, Snapshot;
    ScaledSnapshot(w, r);
    var v := if !w.snapshotted && t.day >= rule.exDay then Snapshot(w) else w;
    ScaledSell(v.stack, t.qty, t.day, rule, r);
    ByKeepsOrder(v.disqualified, Sell(v.stack, t.qty, t.day, rule).lost, r);
    ScaledPush(v.stack, Parcel(t.day, t.qty, false), r);
  }

  lemma ScaledTradesFront(trades: seq<Trade>, r: real)
    requires trades != []
    ensures Front(ScaledTrades(trades, r)) == ScaledTrades(Front(trades), r)
    ensures Last(ScaledTrades(trades, r)) == Last(trades).(qty := By(Last(trades).qty, r))
  {
  }

  lemma {:induction false} ScaledWalkOf(trades: seq<Trade>, rule: Rule, r: real)
    requires r > 0.0
    ensures WalkOf(ScaledTrades(trades, r), rule) == ScaledWalk(WalkOf(trades, rule), r)
  {
    hide Step, By;
    if trades == [] { ByKeepsOrder(0.0, 0.0, r); } else {
      ScaledWalkOf(Front(trades), rule, r);
      ScaledStep(WalkOf(Front(trades), rule), Last(trades), rule, r);
      ScaledTradesFront(trades, r);
    }
  }

  /** Trades in a basis of `r` times the units test to `r` times the units. */
  lemma ScaledOutcome(trades: seq<Trade>, rule: Rule, r: real)
    requires r > 0.0
    ensures Outcome(ScaledTrades(trades, r), rule) == ScaledTest(Outcome(trades, rule), r)
  {
    hide By, WalkOf;
    ScaledWalkOf(trades, rule, r);
    ScaledUnits(WalkOf(trades, rule).stack, r);
  }

  // ----- The same history with one more split ------------------------------------------------------

  /** A trade as recorded once `s` has happened: on or after its day, in the units it makes. */
  function Restated(t: Trade, s: Split): Trade
    requires s.before > 0.0
  {
    if t.day >= s.day then t.(qty := t.qty * (s.after / s.before)) else t
  }

  function RestatedTrades(trades: seq<Trade>, s: Split): (r: seq<Trade>)
    requires s.before > 0.0
    ensures |r| == |trades| && forall i :: 0 <= i < |r| ==> r[i] == Restated(trades[i], s)
  {
    seq(|trades|, i requires 0 <= i < |trades| => Restated(trades[i], s))
  }

  function RestatedSale(sale: Option<(int, real)>, s: Split): Option<(int, real)>
    requires s.before > 0.0
  {
    if sale.None? then None else Some((sale.value.0, Restated(Trade(true, sale.value.0, sale.value.1), s).qty))
  }

  /** The listing's history with a split entered as its `i`th. */
  function WithSplit(l: Listing, s: Split, i: nat): Listing
    requires s.before > 0.0 && i <= |l.splits|
  {
    Listing(l.preference, RestatedTrades(l.trades, s), l.splits[..i] + [s] + l.splits[i..])
  }

  lemma RestatedThrough(trades: seq<Trade>, s: Split, day: int)
    requires s.before > 0.0
    ensures Through(RestatedTrades(trades, s), day) == Through(trades, day)
  {
    ThroughMeans(trades, day);
    ThroughIs(RestatedTrades(trades, s), day, Through(trades, day));
  }

  lemma RestatedConsidered(trades: seq<Trade>, sale: Option<(int, real)>, s: Split, windowEnd: int)
    requires s.before > 0.0
    ensures Considered(RestatedTrades(trades, s), RestatedSale(sale, s), windowEnd)
            == RestatedTrades(Considered(trades, sale, windowEnd), s)
  {
    hide Through;
    RestatedThrough(trades, s, windowEnd);
    var inWindow := trades[..Through(trades, windowEnd)];
    assert RestatedTrades(trades, s)[..|inWindow|] == RestatedTrades(inWindow, s);
    if sale.Some? && sale.value.0 <= windowEnd { RestatedThrough(inWindow, s, sale.value.0); }
  }

  lemma SwapFactors(a: real, b: real, c: real)
    ensures a * (b * c) == a * b * c == b * (a * c)
  {
  }

  lemma {:induction false} RatioInserted(splits: seq<Split>, s: Split, i: nat, day: int, upTo: int)
    requires s.before > 0.0 && i <= |splits| && forall x :: x in splits ==> x.before > 0.0
    ensures Ratio(splits[..i] + [s] + splits[i..], day, upTo) == Factor(s, day, upTo) * Ratio(splits, day, upTo)
  {
    hide Factor;
    var all := splits[..i] + [s] + splits[i..];
    if i == 0 {
      assert all[1..] == splits;
    } else {
      assert all[1..] == splits[1..][..i - 1] + [s] + splits[1..][i - 1..];
      RatioInserted(splits[1..], s, i - 1, day, upTo);
      SwapFactors(Factor(s, day, upTo), Factor(splits[0], day, upTo), Ratio(splits[1..], day, upTo));
    }
  }

  /** What a trade of any day in the window gains by a split: its ratio, or nothing when the split
      comes after the window. */
  lemma RestatedFactor(t: Trade, s: Split, upTo: int)
    requires s.before > 0.0 && t.day <= upTo
    ensures Restated(t, s).qty * Factor(s, t.day, upTo) == By(t.qty, if s.day <= upTo then s.after / s.before else 1.0)
  {
  }

  /** In the basis at the window's end, a trade of the restated history is the plain history's in
      the units the split makes. */
  lemma RestatedRebased(t: Trade, splits: seq<Split>, s: Split, i: nat, upTo: int)
    requires s.before > 0.0 && i <= |splits| && (forall x :: x in splits ==> x.before > 0.0) && t.day <= upTo
    ensures RebasedTrade(Restated(t, s), splits[..i] + [s] + splits[i..], upTo).qty
            == By(RebasedTrade(t, splits, upTo).qty, if s.day <= upTo then s.after / s.before else 1.0)
  {
    hide Ratio, Factor, Restated;
    var ratio := if s.day <= upTo then s.after / s.before else 1.0;
    RatioInserted(splits, s, i, t.day, upTo);
    RestatedFactor(t, s, upTo);
    RestatedKeepsDay(t, s);
    SwapFactors(Restated(t, s).qty, Factor(s, t.day, upTo), Ratio(splits, t.day, upTo));
    SwapFactors(t.qty, ratio, Ratio(splits, t.day, upTo));
    SwapFactors(t.qty, Ratio(splits, t.day, upTo), ratio);
  }

  lemma RestatedKeepsDay(t: Trade, s: Split)
    requires s.before > 0.0
    ensures Restated(t, s).day == t.day && Restated(t, s).sell == t.sell
  {
  }

  lemma ConsideredInWindow(trades: seq<Trade>, sale: Option<(int, real)>, windowEnd: int)
    ensures forall i :: 0 <= i < |Considered(trades, sale, windowEnd)|
                        ==> Considered(trades, sale, windowEnd)[i].day <= windowEnd
  {
    ThroughMeans(trades, windowEnd);
  }

  lemma RestatedHistory(trades: seq<Trade>, splits: seq<Split>, s: Split, i: nat, upTo: int)
    requires s.before > 0.0 && i <= |splits| && forall x :: x in splits ==> x.before > 0.0
    requires forall k :: 0 <= k < |trades| ==> trades[k].day <= upTo
    ensures Rebased(RestatedTrades(trades, s), splits[..i] + [s] + splits[i..], upTo)
            == ScaledTrades(Rebased(trades, splits, upTo), if s.day <= upTo then s.after / s.before else 1.0)
  {
    hide Ratio, By, Restated;
    var all, ratio := splits[..i] + [s] + splits[i..], if s.day <= upTo then s.after / s.before else 1.0;
    forall k | 0 <= k < |trades|
      ensures Rebased(RestatedTrades(trades, s), all, upTo)[k] == ScaledTrades(Rebased(trades, splits, upTo), ratio)[k]
    {
      RestatedRebased(trades[k], splits, s, i, upTo);
      RestatedKeepsDay(trades[k], s);
    }
  }

  lemma WithSplitSound(l: Listing, s: Split, i: nat)
    requires Sound(l) && s.after > 0.0 && s.before > 0.0 && i <= |l.splits|
    ensures Sound(WithSplit(l, s, i))
  {
    assert s.after / s.before > 0.0;
    forall k | 0 <= k < |l.trades| ensures Restated(l.trades[k], s).qty >= 0.0 {
      assert l.trades[k] in l.trades;
      ByKeepsOrder(0.0, l.trades[k].qty, s.after / s.before);
    }
  }

  /** A split anywhere in the history, with every later trade recorded in its units, changes the
      test's counts by its ratio, or not at all when it falls after the window. */
  lemma SplitChangesOnlyTheUnits(l: Listing, exDay: int, sale: Option<(int, real)>, s: Split, i: nat)
    requires Sound(l) && s.after > 0.0 && s.before > 0.0 && i <= |l.splits|
    ensures Sound(WithSplit(l, s, i))
    ensures Tested(WithSplit(l, s, i), exDay, RestatedSale(sale, s))
            == ScaledTest(Tested(l, exDay, sale),
                          if s.day <= exDay + RequiredDays(Some(l)) then s.after / s.before else 1.0)
  {
    hide Considered, Rebased, Outcome, Ratio;
    var rule := Rule(exDay, RequiredDays(Some(l)));
    var considered := Considered(l.trades, sale, rule.WindowEnd());
    WithSplitSound(l, s, i);
    RestatedConsidered(l.trades, sale, s, rule.WindowEnd());
    ConsideredInWindow(l.trades, sale, rule.WindowEnd());
    RestatedHistory(considered, l.splits, s, i, rule.WindowEnd());
    assert s.after / s.before > 0.0;
    ScaledOutcome(Rebased(considered, l.splits, rule.WindowEnd()), rule,
                  if s.day <= rule.WindowEnd() then s.after / s.before else 1.0);
  }

  lemma RatioCancels(c: real, d: real, e: real, r: real)
    requires r > 0.0 && e != 0.0
    ensures e * r != 0.0 && c * (d * r) / (e * r) == c * d / e
  {
    assert c * (d * r) == c * d * r;
  }

  /** The credits denied are the same whatever the units. */
  lemma SplitDeniesTheSame(t: Test, r: real, credits: real)
    requires r > 0.0
    ensures ScaledTest(t, r).Denied(credits) == t.Denied(credits)
  {
    if t.entitled != 0.0 { RatioCancels(credits, t.disqualified, t.entitled, r); }
    if t.disqualified != 0.0 { RatioCancels(0.0, 0.0, t.disqualified, r); }
  }
}
