/**
 * What the holding-period walk promises: it counts what was held and denies no more than that.
 */
module FrankingLaws {
  import opened Common
  import opened Franking
  import opened Netting

  ghost predicate NoShorts(trades: seq<Trade>) {
    forall t :: t in trades ==> t.qty >= 0.0
  }

  ghost predicate NoDebts(stack: seq<Parcel>) {
    forall p :: p in stack ==> p.qty >= 0.0
  }

  lemma FrontAndLast<T>(s: seq<T>, x: T)
    ensures Front(s + [x]) == s && Last(s + [x]) == x
  {
  }

  function EntitledUnits(stack: seq<Parcel>): real {
    if stack == [] then 0.0 else EntitledUnits(Front(stack)) + if Last(stack).entitled then Last(stack).qty else 0.0
  }

  lemma {:induction false} UnitsBounds(stack: seq<Parcel>)
    requires NoDebts(stack)
    ensures 0.0 <= EntitledUnits(stack) <= Units(stack)
  {
    if stack != [] { UnitsBounds(Front(stack)); }
  }

  /** What a sale takes off a stack: what it can, losing no more entitled units than it takes. */
  ghost predicate Takes(stack: seq<Parcel>, qty: real, s: Sold) {
    && NoDebts(s.left)
    && Units(s.left) == Max(Units(stack) - Max(qty, 0.0), 0.0)
    && 0.0 <= s.lost <= Max(qty, 0.0) && s.lost + EntitledUnits(s.left) <= EntitledUnits(stack)
  }

  lemma NothingSold(stack: seq<Parcel>, qty: real, day: int, rule: Rule)
    requires NoDebts(stack) && (qty <= 0.0 || stack == [])
    ensures Takes(stack, qty, Sell(stack, qty, day, rule))
  {
    UnitsBounds(stack);
  }

  lemma PartOfTheTop(stack: seq<Parcel>, qty: real, day: int, rule: Rule)
    requires NoDebts(stack) && qty > 0.0 && stack != [] && Last(stack).qty > qty
    ensures Takes(stack, qty, Sell(stack, qty, day, rule))
  {
    var top := Last(stack);
    UnitsBounds(Front(stack));
    FrontAndLast(Front(stack), top.(qty := top.qty - qty));
  }

  lemma AllOfTheTop(stack: seq<Parcel>, qty: real, day: int, rule: Rule)
    requires NoDebts(stack) && qty > 0.0 && stack != [] && Last(stack).qty <= qty
    requires Takes(Front(stack), qty - Last(stack).qty, Sell(Front(stack), qty - Last(stack).qty, day, rule))
    ensures Takes(stack, qty, Sell(stack, qty, day, rule))
  {
    assert Last(stack) in stack;
    UnitsBounds(Front(stack));
    hide NoDebts;
  }

  /** A sale takes what it can and loses no more entitled units than it takes. */
  lemma {:induction false} SellTakes(stack: seq<Parcel>, qty: real, day: int, rule: Rule)
    requires NoDebts(stack)
    ensures Takes(stack, qty, Sell(stack, qty, day, rule))
  {
    if qty <= 0.0 || stack == [] {
      NothingSold(stack, qty, day, rule);
    } else if Last(stack).qty > qty {
      PartOfTheTop(stack, qty, day, rule);
    } else {
      hide Takes, Sell;
      SellTakes(Front(stack), qty - Last(stack).qty, day, rule);
      AllOfTheTop(stack, qty, day, rule);
    }
  }

  lemma {:induction false} EntitledKeeps(stack: seq<Parcel>)
    ensures Units(Entitled(stack)) == Units(stack) == EntitledUnits(Entitled(stack))
    ensures NoDebts(stack) ==> NoDebts(Entitled(stack))
  {
    if stack != [] {
      EntitledKeeps(Front(stack));
      FrontAndLast(Entitled(Front(stack)), Last(stack).(entitled := true));
    }
  }

  lemma {:induction false} EntitledAt(stack: seq<Parcel>, i: nat)
    requires i < |stack|
    ensures Entitled(stack)[i] == stack[i].(entitled := true)
  {
    if i < |stack| - 1 { EntitledAt(Front(stack), i); }
  }

  /** The units held after some trades: a sale of more than is held leaves nothing. */
  function Held(trades: seq<Trade>): real {
    if trades == [] then 0.0
    else if Last(trades).sell then Max(Held(Front(trades)) - Last(trades).qty, 0.0)
    else Held(Front(trades)) + Last(trades).qty
  }

  /** Units sold on or after a day. */
  function SoldFrom(trades: seq<Trade>, day: int): real {
    if trades == [] then 0.0
    else SoldFrom(Front(trades), day) + if Last(trades).sell && Last(trades).day >= day then Last(trades).qty else 0.0
  }

  /** What every step of the walk keeps. */
  ghost predicate Kept(w: Walk, held: real, sold: real) {
    && NoDebts(w.stack) && Units(w.stack) == held && 0.0 <= w.disqualified <= sold
    && (if w.snapshotted then w.disqualified + EntitledUnits(w.stack) <= w.entitled
        else w.disqualified == w.entitled == EntitledUnits(w.stack) == 0.0)
  }

  lemma SnapshotKeeps(w: Walk, held: real, sold: real)
    requires Kept(w, held, sold) && !w.snapshotted
    ensures Kept(Snapshot(w), held, sold)
  {
    EntitledKeeps(w.stack);
  }

  lemma NothingEntitledNothingLost(w: Walk, qty: real, day: int, rule: Rule)
    requires NoDebts(w.stack) && EntitledUnits(w.stack) == 0.0
    ensures Sell(w.stack, qty, day, rule).lost == 0.0 && EntitledUnits(Sell(w.stack, qty, day, rule).left) == 0.0
  {
    SellTakes(w.stack, qty, day, rule);
    UnitsBounds(Sell(w.stack, qty, day, rule).left);
  }

  lemma TradeKeeps(w: Walk, t: Trade, rule: Rule, held: real, sold: real)
    requires Kept(w, held, sold) && t.qty >= 0.0 && (w.snapshotted <==> t.day >= rule.exDay)
    ensures Kept(Step(w, t, rule), if t.sell then Max(held - t.qty, 0.0) else held + t.qty,
                 sold + if t.sell && t.day >= rule.exDay then t.qty else 0.0)
  {
    if t.sell {
      SellTakes(w.stack, t.qty, t.day, rule);
      if !w.snapshotted { NothingEntitledNothingLost(w, t.qty, t.day, rule); }
    } else {
      FrontAndLast(w.stack, Parcel(t.day, t.qty, false));
    }
  }

  lemma SortedFront(trades: seq<Trade>)
    requires Sorted(trades) && NoShorts(trades) && trades != []
    ensures Sorted(Front(trades)) && NoShorts(Front(trades)) && Last(trades) in trades
    ensures forall t :: t in Front(trades) ==> t.day <= Last(trades).day
  {
  }

  lemma StepKeeps(w: Walk, t: Trade, rule: Rule, held: real, sold: real)
    requires Kept(w, held, sold) && t.qty >= 0.0 && (w.snapshotted ==> t.day >= rule.exDay)
    ensures Kept(Step(w, t, rule), if t.sell then Max(held - t.qty, 0.0) else held + t.qty,
                 sold + if t.sell && t.day >= rule.exDay then t.qty else 0.0)
    ensures Step(w, t, rule).snapshotted <==> t.day >= rule.exDay
  {
    hide Kept, Sell;
    if !w.snapshotted && t.day >= rule.exDay {
      SnapshotKeeps(w, held, sold);
      TradeKeeps(Snapshot(w), t, rule, held, sold);
    } else {
      TradeKeeps(w, t, rule, held, sold);
    }
  }

  lemma {:induction false} WalkKeeps(trades: seq<Trade>, rule: Rule)
    requires Sorted(trades) && NoShorts(trades)
    ensures Kept(WalkOf(trades, rule), Held(trades), SoldFrom(trades, rule.exDay))
    ensures WalkOf(trades, rule).snapshotted <==> trades != [] && Last(trades).day >= rule.exDay
  {
    hide Sorted, NoShorts, Kept, Step;
    if trades == [] {
      NothingKept();
    } else {
      var front := Front(trades);
      SortedFront(trades);
      LastIsNoShort(trades);
      WalkKeeps(front, rule);
      if front != [] { assert Last(front) in front; }
      StepKeeps(WalkOf(front, rule), Last(trades), rule, Held(front), SoldFrom(front, rule.exDay));
    }
  }

  lemma NothingKept()
    ensures Kept(Walk([], false, 0.0, 0.0), 0.0, 0.0)
  {
  }

  lemma LastIsNoShort(trades: seq<Trade>)
    requires NoShorts(trades) && trades != []
    ensures Last(trades).qty >= 0.0
  {
  }

  // ----- Entitled units ----------------------------------------------------------------------------

  lemma {:induction false} ThroughIs(trades: seq<Trade>, day: int, n: nat)
    requires n <= |trades| && (forall i :: 0 <= i < n ==> trades[i].day <= day)
    requires n < |trades| ==> trades[n].day > day
    ensures Through(trades, day) == n
  {
    if n > 0 {
      assert forall i :: 0 <= i < n - 1 ==> trades[1..][i] == trades[i + 1];
      ThroughIs(trades[1..], day, n - 1);
    }
  }

  lemma {:induction false} ThroughMeans(trades: seq<Trade>, day: int)
    ensures var n := Through(trades, day);
            (forall i :: 0 <= i < n ==> trades[i].day <= day) && (n < |trades| ==> trades[n].day > day)
  {
    if trades != [] && trades[0].day <= day {
      ThroughMeans(trades[1..], day);
      assert forall i :: 0 < i < Through(trades, day) ==> trades[i] == trades[1..][i - 1];
    }
  }

  /** The trades before a day. */
  function Before(trades: seq<Trade>, day: int): seq<Trade> {
    trades[..Through(trades, day - 1)]
  }

  lemma BeforeFront(trades: seq<Trade>, day: int)
    requires Sorted(trades) && trades != []
    ensures Before(trades, day) == if Last(trades).day < day then trades else Before(Front(trades), day)
  {
    if Last(trades).day < day {
      ThroughIs(trades, day - 1, |trades|);
    } else {
      ThroughMeans(Front(trades), day - 1);
      ThroughIs(trades, day - 1, Through(Front(trades), day - 1));
    }
  }

  /** The units entitled to a dividend are exactly those held at the end of the day before the
      shares go ex-dividend. */
  lemma {:induction false} EntitledWasHeld(trades: seq<Trade>, rule: Rule)
    requires Sorted(trades) && NoShorts(trades)
    ensures Outcome(trades, rule).entitled == Held(Before(trades, rule.exDay))
  {
    hide NoShorts, Sell;
    WalkKeeps(trades, rule);
    if trades != [] {
      SortedFront(trades);
      BeforeFront(trades, rule.exDay);
      EntitledWasHeld(Front(trades), rule);
      WalkKeeps(Front(trades), rule);
    }
  }

  /** No more units are disqualified than were entitled, nor than were sold from the ex-day on. */
  lemma DisqualifiedIsBounded(trades: seq<Trade>, rule: Rule)
    requires Sorted(trades) && NoShorts(trades)
    ensures var t := Outcome(trades, rule);
            0.0 <= t.disqualified <= t.entitled && t.disqualified <= SoldFrom(trades, rule.exDay)
  {
    WalkKeeps(trades, rule);
    UnitsBounds(WalkOf(trades, rule).stack);
  }

  lemma NotNegative(q: real, whole: real)
    requires whole > 0.0 && 0.0 <= q * whole
    ensures 0.0 <= q
  {
  }

  lemma NoMoreThanWhole(q: real, credits: real, whole: real)
    requires whole > 0.0 && 0.0 <= q * whole <= credits * whole
    ensures 0.0 <= q <= credits
  {
    assert 0.0 <= (credits - q) * whole;
    NotNegative(q, whole);
    NotNegative(credits - q, whole);
  }

  lemma Share(credits: real, part: real, whole: real)
    requires credits >= 0.0 && 0.0 <= part <= whole && whole > 0.0
    ensures 0.0 <= credits * part / whole <= credits
  {
    var q := credits * part / whole;
    assert q * whole == credits * part;
    assert credits * part <= credits * whole;
    NoMoreThanWhole(q, credits, whole);
  }

  lemma DeniedBounds(t: Test, credits: real)
    requires 0.0 <= t.disqualified <= t.entitled && credits >= 0.0
    ensures 0.0 <= t.Denied(credits) <= credits
  {
    if t.entitled > 0.0 { Share(credits, t.disqualified, t.entitled); }
  }

  /** What is denied is never more than the credits. */
  lemma DeniedIsAPart(trades: seq<Trade>, rule: Rule, credits: real)
    requires Sorted(trades) && NoShorts(trades) && credits >= 0.0
    ensures 0.0 <= Outcome(trades, rule).Denied(credits) <= credits
  {
    hide Outcome, Sorted, NoShorts, SoldFrom, Test.Denied;
    DisqualifiedIsBounded(trades, rule);
    DeniedBounds(Outcome(trades, rule), credits);
  }

  /** `x`, `r` times over. */
  function By(x: real, r: real): real {
    x * r
  }

  /** The part of the credits denied is the part of the entitled units disqualified. */
  lemma DeniedIsTheShare(t: Test, credits: real)
    ensures t.entitled != 0.0 ==> By(t.Denied(credits), t.entitled) == By(credits, t.disqualified)
    ensures t.entitled == 0.0 ==> t.Denied(credits) == 0.0
  {
  }

  lemma OneBuy(buy: Trade, rule: Rule)
    requires !buy.sell && buy.day < rule.exDay
    ensures WalkOf([buy], rule) == Walk([Parcel(buy.day, buy.qty, false)], false, 0.0, 0.0)
    ensures Units([Parcel(buy.day, buy.qty, false)]) == buy.qty
  {
    assert WalkOf([], rule) == Walk([], false, 0.0, 0.0) && Front([buy]) == [];
    assert Units([]) == 0.0 && Front([Parcel(buy.day, buy.qty, false)]) == [];
  }

  lemma OneBuyOneSale(buy: Trade, sale: Trade, rule: Rule)
    requires !buy.sell && sale.sell && buy.day < rule.exDay <= sale.day && buy.qty > 0.0 && sale.qty >= 0.0
    ensures Outcome([buy, sale], rule)
            == Test(buy.qty, if sale.day - buy.day - 1 < rule.required then Min(buy.qty, sale.qty) else 0.0)
  {
    hide Units;
    OneBuy(buy, rule);
    assert Front([buy, sale]) == [buy];
    var held, marked := [Parcel(buy.day, buy.qty, false)], [Parcel(buy.day, buy.qty, true)];
    assert Entitled([]) == [] && Front(held) == [] == Front(marked) && Entitled(held) == marked;
    assert Sell([], sale.qty - buy.qty, sale.day, rule).lost == 0.0;
  }

  /** Units bought before the ex-day and put up for sale from it on: the sold ones are disqualified
      when fewer than 45 whole days, or 90 for a preference share, lie between the two days, unless
      more days than that have gone by since the ex-day. */
  lemma DaysAtRisk(preference: bool, exDay: int, buy: Trade, sale: (int, real))
    requires !buy.sell && buy.day < exDay <= sale.0 && buy.qty > 0.0 && sale.1 >= 0.0
    ensures var required := if preference then 90 else 45;
            Tested(Listing(preference, [buy], []), exDay, Some(sale))
            == Test(buy.qty, if sale.0 - buy.day <= required && sale.0 - exDay <= required
                             then Min(buy.qty, sale.1) else 0.0)
  {
    hide WalkOf;
    var rule := Rule(exDay, RequiredDays(Some(Listing(preference, [buy], []))));
    assert Through([buy][1..], rule.WindowEnd()) == Through([buy][1..], sale.0) == 0;
    assert [buy][..1] == [buy] && [buy][1..] == [];
    if sale.0 <= rule.WindowEnd() {
      var t := Trade(true, sale.0, sale.1);
      assert Considered([buy], Some(sale), rule.WindowEnd()) == [buy, t];
      assert Rebased([buy, t], [], rule.WindowEnd()) == [buy, t];
      OneBuyOneSale(buy, t, rule);
    } else {
      assert Considered([buy], Some(sale), rule.WindowEnd()) == [buy];
      assert Rebased([buy], [], rule.WindowEnd()) == [buy];
      OneBuy(buy, rule);
    }
  }

  /** Units bought less units sold. */
  function Net(trades: seq<Trade>): real {
    if trades == [] then 0.0 else Net(Front(trades)) + if Last(trades).sell then -Last(trades).qty else Last(trades).qty
  }

  /** A history that never sells what is not there holds what it bought less what it sold. */
  lemma {:induction false} HeldIsNet(trades: seq<Trade>)
    requires forall n :: 0 <= n <= |trades| ==> Net(trades[..n]) >= 0.0
    ensures Held(trades) == Net(trades)
  {
    if trades != [] {
      assert forall n :: 0 <= n < |trades| ==> Front(trades)[..n] == trades[..n];
      HeldIsNet(Front(trades));
      assert trades[..|trades|] == trades;
    }
  }

  // ----- Trades after the window ---------------------------------------------------------------------

  ghost predicate AcquiredBefore(w: Walk, day: int) {
    forall p :: p in w.stack && (p.entitled || !w.snapshotted) ==> p.acquired < day
  }

  lemma {:induction false} SellLeavesOlder(stack: seq<Parcel>, qty: real, day: int, rule: Rule)
    ensures forall p :: p in Sell(stack, qty, day, rule).left ==>
              exists o :: o in stack && p.acquired == o.acquired && p.entitled == o.entitled
  {
    if qty > 0.0 && stack != [] {
      var top := Last(stack);
      var take := Min(qty, top.qty);
      if top.qty - take == 0.0 {
        SellLeavesOlder(Front(stack), qty - take, day, rule);
        assert forall o :: o in Front(stack) ==> o in stack;
      } else {
        assert top in stack;
      }
    }
  }

  lemma {:induction false} SoldLateLosesNothing(stack: seq<Parcel>, qty: real, day: int, rule: Rule)
    requires day > rule.WindowEnd() && forall p :: p in stack && p.entitled ==> p.acquired < rule.exDay
    ensures Sell(stack, qty, day, rule).lost == 0.0
  {
    if qty > 0.0 && stack != [] {
      assert Last(stack) in stack;
      SoldLateLosesNothing(Front(stack), qty - Min(qty, Last(stack).qty), day, rule);
    }
  }

  lemma SnapshotAcquiredBefore(w: Walk, day: int)
    requires AcquiredBefore(w, day) && !w.snapshotted
    ensures AcquiredBefore(Snapshot(w), day)
  {
    forall p | p in Entitled(w.stack) ensures p.acquired < day {
      var i :| 0 <= i < |w.stack| && Entitled(w.stack)[i] == p;
      EntitledAt(w.stack, i);
      assert w.stack[i] in w.stack;
    }
  }

  lemma TradeAcquiredBefore(w: Walk, t: Trade, rule: Rule)
    requires AcquiredBefore(w, rule.exDay) && (w.snapshotted || t.day < rule.exDay)
    ensures AcquiredBefore(Step(w, t, rule), rule.exDay)
  {
    if t.sell { SellLeavesOlder(w.stack, t.qty, t.day, rule); }
  }

  lemma {:induction false} EntitledAcquiredBefore(trades: seq<Trade>, rule: Rule)
    ensures AcquiredBefore(WalkOf(trades, rule), rule.exDay)
  {
    if trades != [] {
      var w, t := WalkOf(Front(trades), rule), Last(trades);
      EntitledAcquiredBefore(Front(trades), rule);
      if !w.snapshotted && t.day >= rule.exDay {
        SnapshotAcquiredBefore(w, rule.exDay);
        TradeAcquiredBefore(Snapshot(w), t, rule);
      } else {
        TradeAcquiredBefore(w, t, rule);
      }
    }
  }

  lemma LateTradeChangesNothing(w: Walk, t: Trade, rule: Rule)
    requires AcquiredBefore(w, rule.exDay) && t.day > rule.WindowEnd()
    requires !w.snapshotted ==> w.entitled == 0.0
    ensures TestOf(Step(w, t, rule)) == TestOf(w)
  {
    var v := if w.snapshotted then w else Snapshot(w);
    if !w.snapshotted { SnapshotAcquiredBefore(w, rule.exDay); }
    SoldLateLosesNothing(v.stack, t.qty, t.day, rule);
  }

  lemma {:induction false} NothingEntitledYet(trades: seq<Trade>, rule: Rule)
    ensures !WalkOf(trades, rule).snapshotted ==> WalkOf(trades, rule).entitled == 0.0
  {
    if trades != [] { NothingEntitledYet(Front(trades), rule); }
  }

  /** Trades dated after the qualification window cannot affect the test. */
  lemma {:induction false} LaterTradesCannotMatter(trades: seq<Trade>, rule: Rule)
    requires Sorted(trades)
    ensures Outcome(trades, rule) == Outcome(trades[..Through(trades, rule.WindowEnd())], rule)
  {
    hide Step, TestOf;
    if trades != [] {
      BeforeFront(trades, rule.WindowEnd() + 1);
      if Last(trades).day > rule.WindowEnd() {
        LaterTradesCannotMatter(Front(trades), rule);
        EntitledAcquiredBefore(Front(trades), rule);
        NothingEntitledYet(Front(trades), rule);
        LateTradeChangesNothing(WalkOf(Front(trades), rule), Last(trades), rule);
      }
    }
  }

  // ----- A sale rehearsed ----------------------------------------------------------------------------

  lemma InsertedInWindow(trades: seq<Trade>, t: Trade, n: nat, m: nat, windowEnd: int)
    requires n <= m <= |trades| && t.day <= windowEnd
    requires Through(trades, t.day) == n && Through(trades, windowEnd) == m
    ensures Inserted(trades, t)[..Through(Inserted(trades, t), windowEnd)] == Inserted(trades[..m], t)
  {
    hide Through;
    var all := Inserted(trades, t);
    ThroughMeans(trades, t.day);
    ThroughMeans(trades, windowEnd);
    ThroughIs(all, windowEnd, m + 1);
    ThroughIs(trades[..m], t.day, n);
    assert all[..m + 1] == trades[..n] + [t] + trades[n..m];
  }

  lemma InsertedAfterWindow(trades: seq<Trade>, t: Trade, m: nat, windowEnd: int)
    requires Sorted(trades) && t.day > windowEnd && Through(trades, windowEnd) == m
    ensures Inserted(trades, t)[..Through(Inserted(trades, t), windowEnd)] == trades[..m]
  {
    hide Through;
    var all := Inserted(trades, t);
    ThroughMeans(trades, t.day);
    ThroughMeans(trades, windowEnd);
    ThroughIs(all, windowEnd, m);
  }

  lemma ThroughMonotone(trades: seq<Trade>, a: int, b: int)
    requires a <= b
    ensures Through(trades, a) <= Through(trades, b)
  {
  }

  lemma ConsideredInserted(trades: seq<Trade>, day: int, units: real, windowEnd: int)
    requires Sorted(trades)
    ensures Considered(Inserted(trades, Trade(true, day, units)), None, windowEnd)
            == Considered(trades, Some((day, units)), windowEnd)
  {
    hide Through, Inserted, Sorted;
    var t, m := Trade(true, day, units), Through(trades, windowEnd);
    if day <= windowEnd {
      ThroughMonotone(trades, day, windowEnd);
      InsertedInWindow(trades, t, Through(trades, day), m, windowEnd);
    } else {
      InsertedAfterWindow(trades, t, m, windowEnd);
    }
  }

  lemma InsertedSound(l: Listing, t: Trade)
    requires Sound(l) && t.qty >= 0.0
    ensures Sound(l.(trades := Inserted(l.trades, t)))
  {
    ThroughMeans(l.trades, t.day);
  }

  /** Rehearsing a sale tests the dividend exactly as recording it would: wherever it falls, and
      after every trade of its own day. */
  lemma RehearsedSaleIsRecorded(l: Listing, exDay: int, day: int, units: real)
    requires Sound(l) && units >= 0.0
    ensures Sound(l.(trades := Inserted(l.trades, Trade(true, day, units))))
    ensures Tested(l, exDay, Some((day, units)))
            == Tested(l.(trades := Inserted(l.trades, Trade(true, day, units))), exDay, None)
  {
    InsertedSound(l, Trade(true, day, units));
    ConsideredInserted(l.trades, day, units, exDay + RequiredDays(Some(l)));
  }
}
