/**
 * The at-risk holding-period rule behind franking credits: a listing's trades walked with the
 * shares sold identified last in, first out.
 */
module Franking {
  import opened Common
  import opened Netting

  /** A trade, its day a count of days and its quantity in its own day's unit basis. */
  datatype Trade = Trade(sell: bool, day: int, qty: real)

  /** On `day`, every `before` units become `after`. */
  datatype Split = Split(day: int, after: real, before: real)

  datatype Listing = Listing(preference: bool, trades: seq<Trade>, splits: seq<Split>)

  datatype Parcel = Parcel(acquired: int, qty: real, entitled: bool)

  /** The ex-dividend day and the days at risk a share must have. */
  datatype Rule = Rule(exDay: int, required: nat) {
    function WindowEnd(): int { exDay + required }
  }

  datatype Test = Test(entitled: real, disqualified: real) {
    /** The part of some credits that cannot be claimed. */
    function Denied(credits: real): real {
      if entitled == 0.0 || disqualified == 0.0 then 0.0 else credits * disqualified / entitled
    }
  }

  function RequiredDays(l: Option<Listing>): nat {
    if l.Some? && l.value.preference then 90 else 45
  }

  // ----- The walk ---------------------------------------------------------------------------------

  datatype Walk = Walk(stack: seq<Parcel>, snapshotted: bool, entitled: real, disqualified: real)

  function Last<T>(s: seq<T>): T
    requires s != []
  {
    s[|s| - 1]
  }

  function Front<T>(s: seq<T>): seq<T>
    requires s != []
  {
    s[..|s| - 1]
  }

  function Units(stack: seq<Parcel>): real {
    if stack == [] then 0.0 else Units(Front(stack)) + Last(stack).qty
  }

  function Entitled(stack: seq<Parcel>): (r: seq<Parcel>)
    ensures |r| == |stack|
  {
    if stack == [] then [] else Entitled(Front(stack)) + [Last(stack).(entitled := true)]
  }

  /** An entitled parcel sold before it has its days at risk, the days of its acquisition and of
      its sale not counted. */
  predicate TooSoon(p: Parcel, day: int, rule: Rule) {
    p.entitled && day - p.acquired - 1 < rule.required
  }

  datatype Sold = Sold(left: seq<Parcel>, lost: real)

  /** Sells from the top of the stack until `qty` is sold or nothing is left. */
  function Sell(stack: seq<Parcel>, qty: real, day: int, rule: Rule): Sold {
    if qty <= 0.0 || stack == [] then Sold(stack, 0.0)
    else
      var top := Last(stack);
      var take := Min(qty, top.qty);
      var lost := if TooSoon(top, day, rule) then take else 0.0;
      if top.qty - take == 0.0 then
        var more := Sell(Front(stack), qty - take, day, rule);
        Sold(more.left, lost + more.lost)
      else Sold(Front(stack) + [top.(qty := top.qty - take)], lost)
  }

  /** What is held immediately before the first trade on or after the ex-day is entitled. */
  function Snapshot(w: Walk): Walk {
    w.(stack := Entitled(w.stack), snapshotted := true, entitled := w.entitled + Units(w.stack))
  }

  function Step(w: Walk, t: Trade, rule: Rule): Walk {
    var v := if !w.snapshotted && t.day >= rule.exDay then Snapshot(w) else w;
    if t.sell then
      var s := Sell(v.stack, t.qty, t.day, rule);
      v.(stack := s.left, disqualified := v.disqualified + s.lost)
    else v.(stack := v.stack + [Parcel(t.day, t.qty, false)])
  }

  function WalkOf(trades: seq<Trade>, rule: Rule): Walk {
    if trades == [] then Walk([], false, 0.0, 0.0) else Step(WalkOf(Front(trades), rule), Last(trades), rule)
  }

  function TestOf(w: Walk): Test {
    Test(if w.snapshotted then w.entitled else Units(w.stack), w.disqualified)
  }

  /** The holding-period test of trades stated in one unit basis. */
  function Outcome(trades: seq<Trade>, rule: Rule): Test {
    TestOf(WalkOf(trades, rule))
  }

  // ----- Which trades, and in which basis -----------------------------------------------------------

  ghost predicate Sorted(trades: seq<Trade>) {
    forall i, j :: 0 <= i < j < |trades| ==> trades[i].day <= trades[j].day
  }

  /** How many trades, in date order, are dated on or before `day`. */
  function Through(trades: seq<Trade>, day: int): (n: nat)
    ensures n <= |trades|
  {
    if trades == [] || trades[0].day > day then 0 else 1 + Through(trades[1..], day)
  }

  function Inserted(trades: seq<Trade>, t: Trade): seq<Trade> {
    var n := Through(trades, t.day);
    trades[..n] + [t] + trades[n..]
  }

  /** The trades up to the end of the window, and a contemplated sale dated inside it. */
  function Considered(trades: seq<Trade>, sale: Option<(int, real)>, windowEnd: int): seq<Trade> {
    var inWindow := trades[..Through(trades, windowEnd)];
    if sale.Some? && sale.value.0 <= windowEnd then Inserted(inWindow, Trade(true, sale.value.0, sale.value.1))
    else inWindow
  }

  /** What a split makes of a unit between two days: nothing when it is not between them. */
  function Factor(s: Split, day: int, upTo: int): real
    requires s.before > 0.0
  {
    if s.day <= day || s.day > upTo then 1.0 else s.after / s.before
  }

  /** The ratio of every split after `day` and no later than `upTo`. */
  function Ratio(splits: seq<Split>, day: int, upTo: int): real
    requires forall s :: s in splits ==> s.before > 0.0
  {
    if splits == [] then 1.0 else Factor(splits[0], day, upTo) * Ratio(splits[1..], day, upTo)
  }

  function RebasedTrade(t: Trade, splits: seq<Split>, upTo: int): Trade
    requires forall s :: s in splits ==> s.before > 0.0
  {
    t.(qty := t.qty * Ratio(splits, t.day, upTo))
  }

  function Rebased(trades: seq<Trade>, splits: seq<Split>, upTo: int): seq<Trade>
    requires forall s :: s in splits ==> s.before > 0.0
  {
    seq(|trades|, i requires 0 <= i < |trades| => RebasedTrade(trades[i], splits, upTo))
  }

  ghost predicate Sound(l: Listing) {
    && Sorted(l.trades) && (forall t :: t in l.trades ==> t.qty >= 0.0)
    && forall s :: s in l.splits ==> s.after > 0.0 && s.before > 0.0
  }

  /** The test of a dividend on a listing, with a sale contemplated or not. */
  function Tested(l: Listing, exDay: int, sale: Option<(int, real)>): Test
    requires Sound(l)
  {
    var rule := Rule(exDay, RequiredDays(Some(l)));
    Outcome(Rebased(Considered(l.trades, sale, rule.WindowEnd()), l.splits, rule.WindowEnd()), rule)
  }

  // ----- The loops --------------------------------------------------------------------------------------

  method PartitionPoint(trades: seq<Trade>, day: int) returns (n: nat)
    ensures n == Through(trades, day)
  {
    n := 0;
    while n < |trades| && trades[n].day <= day
      invariant n <= |trades| && n + Through(trades[n..], day) == Through(trades, day)
    {
      assert trades[n..][0] == trades[n] && trades[n..][1..] == trades[n + 1..];
      n := n + 1;
    }
  }

  method SellFromTop(stack: seq<Parcel>, qty: real, day: int, rule: Rule) returns (left: seq<Parcel>, lost: real)
    ensures Sold(left, lost) == Sell(stack, qty, day, rule)
  {
    left, lost := stack, 0.0;
    var remaining := qty;
    while remaining > 0.0
      invariant Sell(left, remaining, day, rule).left == Sell(stack, qty, day, rule).left
      invariant lost + Sell(left, remaining, day, rule).lost == Sell(stack, qty, day, rule).lost
      decreases |left|, remaining > 0.0
    {
      if left == [] { break; }
      var top := left[|left| - 1];
      var take := Min(remaining, top.qty);
      if TooSoon(top, day, rule) { lost := lost + take; }
      remaining := remaining - take;
      if top.qty - take == 0.0 {
        left := left[..|left| - 1];
      } else {
        left := left[..|left| - 1] + [top.(qty := top.qty - take)];
      }
    }
  }

  method MarkEntitled(stack: seq<Parcel>) returns (marked: seq<Parcel>, units: real)
    ensures marked == Entitled(stack) && units == Units(stack)
  {
    marked, units := [], 0.0;
    var i := 0;
    while i < |stack|
      invariant 0 <= i <= |stack| && marked == Entitled(stack[..i]) && units == Units(stack[..i])
    {
      assert Front(stack[..i + 1]) == stack[..i];
      marked, units := marked + [stack[i].(entitled := true)], units + stack[i].qty;
      i := i + 1;
    }
    assert stack[..i] == stack;
  }

  /** One trade of the walk. */
  method WalkTrade(w: Walk, t: Trade, rule: Rule) returns (r: Walk)
    ensures r == Step(w, t, rule)
  {
    r := w;
    if !w.snapshotted && t.day >= rule.exDay {
      var stack, units := MarkEntitled(w.stack);
      r := Walk(stack, true, w.entitled + units, w.disqualified);
    }
    if t.sell {
      var stack, lost := SellFromTop(r.stack, t.qty, t.day, rule);
      r := r.(stack := stack, disqualified := r.disqualified + lost);
    } else {
      r := r.(stack := r.stack + [Parcel(t.day, t.qty, false)]);
    }
  }

  /** The walk over trades restated, one after another, in the basis at the window's end. */
  method WalkTrades(trades: seq<Trade>, splits: seq<Split>, rule: Rule) returns (t: Test)
    requires forall s :: s in splits ==> s.before > 0.0
    ensures t == Outcome(Rebased(trades, splits, rule.WindowEnd()), rule)
  {
    hide Step, Ratio;
    var w := Walk([], false, 0.0, 0.0);
    ghost var rebased := Rebased(trades, splits, rule.WindowEnd());
    var i := 0;
    while i < |trades|
      invariant 0 <= i <= |trades| == |rebased|
      invariant w == WalkOf(rebased[..i], rule)
    {
      assert Front(rebased[..i + 1]) == rebased[..i];
      w := WalkTrade(w, RebasedTrade(trades[i], splits, rule.WindowEnd()), rule);
      i := i + 1;
    }
    assert rebased[..i] == rebased;
    t := Test(w.entitled, w.disqualified);
    if !w.snapshotted {
      var _, units := MarkEntitled(w.stack);
      t := Test(units, w.disqualified);
    }
  }

  method TestWithSale(listing: Option<Listing>, exDay: int, sale: Option<(int, real)>) returns (t: Test)
    requires listing.Some? ==> Sound(listing.value)
    ensures t == if listing.None? then Test(0.0, 0.0) else Tested(listing.value, exDay, sale)
  {
    if listing.None? { return Test(0.0, 0.0); }
    var l := listing.value;
    var rule := Rule(exDay, RequiredDays(listing));
    var inWindow := PartitionPoint(l.trades, rule.WindowEnd());
    var events := l.trades[..inWindow];
    if sale.Some? && sale.value.0 <= rule.WindowEnd() {
      var pos := PartitionPoint(events, sale.value.0);
      events := events[..pos] + [Trade(true, sale.value.0, sale.value.1)] + events[pos..];
    }
    t := WalkTrades(events, l.splits, rule);
  }
}
