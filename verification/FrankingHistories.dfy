/** Every history of trades is counted in whole steps of some fraction of a unit. */
module FrankingHistories {
  import opened Common
  import opened Franking
  import opened FrankingLevels
  import opened FrankingLaws

  predicate IsFraction(x: real, n: nat, d: nat) {
    d > 0 && x * d as real == n as real
  }

  ghost predicate Rational(x: real) {
    exists n, d :: IsFraction(x, n, d)
  }

  lemma Refined(x: real, n: nat, d: nat, k: nat)
    requires IsFraction(x, n, d) && k > 0
    ensures IsFraction(x, n * k, d * k)
  {
    var whole, parts := d as real, k as real;
    assert (d * k) as real == whole * parts && (n * k) as real == n as real * parts;
    assert x * (whole * parts) == x * whole * parts;
  }

  /** The counts of a history in steps of a `d`th of a unit. */
  ghost predicate CountedIn(trades: seq<Trade>, counts: seq<Count>, d: nat) {
    && |counts| == |trades|
    && forall i :: 0 <= i < |trades| ==>
         && trades[i].sell == counts[i].sell && trades[i].day == counts[i].day
         && IsFraction(trades[i].qty, counts[i].units, d)
  }

  function Finer(counts: seq<Count>, k: nat): (r: seq<Count>)
    ensures |r| == |counts| && forall i :: 0 <= i < |r| ==> r[i] == counts[i].(units := counts[i].units * k)
  {
    seq(|counts|, i requires 0 <= i < |counts| => counts[i].(units := counts[i].units * k))
  }

  lemma FinerCounts(trades: seq<Trade>, counts: seq<Count>, d: nat, k: nat)
    requires CountedIn(trades, counts, d) && k > 0
    ensures CountedIn(trades, Finer(counts, k), d * k)
  {
    forall i | 0 <= i < |trades| ensures IsFraction(trades[i].qty, Finer(counts, k)[i].units, d * k) {
      Refined(trades[i].qty, counts[i].units, d, k);
    }
  }

  lemma {:induction false} CommonStep(trades: seq<Trade>) returns (counts: seq<Count>, d: nat)
    requires forall t :: t in trades ==> Rational(t.qty)
    ensures d > 0 && CountedIn(trades, counts, d)
  {
    if trades == [] {
      counts, d := [], 1;
    } else {
      var t := trades[0];
      var rest, e := CommonStep(trades[1..]);
      assert t in trades;
      var n, k :| IsFraction(t.qty, n, k);
      counts, d := [Count(t.sell, t.day, n * e)] + Finer(rest, k), e * k;
      OneMoreCounted(trades, rest, e, n, k);
    }
  }

  lemma OneMoreCounted(trades: seq<Trade>, rest: seq<Count>, e: nat, n: nat, k: nat)
    requires trades != [] && e > 0 && CountedIn(trades[1..], rest, e) && IsFraction(trades[0].qty, n, k)
    ensures e * k > 0 && CountedIn(trades, [Count(trades[0].sell, trades[0].day, n * e)] + Finer(rest, k), e * k)
  {
    FinerCounts(trades[1..], rest, e, k);
    Refined(trades[0].qty, n, k, e);
    assert e * k == k * e;
    var d := e * k;
    hide IsFraction;
    var counts := [Count(trades[0].sell, trades[0].day, n * e)] + Finer(rest, k);
    forall i | 0 < i < |trades| ensures counts[i] == Finer(rest, k)[i - 1] && trades[i] == trades[1..][i - 1] {}
  }

  lemma StepOf(x: real, n: nat, d: nat)
    requires IsFraction(x, n, d)
    ensures By(n as real, 1.0 / d as real) == x
  {
    var part := 1.0 / d as real;
    assert d as real * part == 1.0;
    assert x * (d as real * part) == n as real * part;
  }

  /** Every history of rational quantities, whatever their decimal places, is counted in some step,
      so its test counts levels. */
  lemma HistoryCountsLevels(trades: seq<Trade>, rule: Rule) returns (counts: seq<Count>, g: real)
    requires forall t :: t in trades ==> Rational(t.qty)
    ensures g > 0.0 && trades == Graded(counts, g)
    ensures var n := Lead(counts, rule.exDay);
            Outcome(trades, rule)
            == Test(By(Height(counts[..n]) as real, g),
                    By(Levels(Height(counts[..n]), TooSoonAt(counts[..n], counts[n..], rule)) as real, g))
  {
    hide By, Outcome, TooSoonAt, Height, Levels, Lead, IsFraction;
    var d;
    counts, d := CommonStep(trades);
    g := 1.0 / d as real;
    forall i | 0 <= i < |trades| ensures trades[i] == Graded(counts, g)[i] {
      StepOf(trades[i].qty, counts[i].units, d);
    }
    WalkCountsLevels(counts, g, rule);
  }

  // ----- Splits and a contemplated sale ---------------------------------------------------------------------

  lemma ProductOf(x: real, y: real, n: nat, d: nat, m: nat, e: nat)
    requires IsFraction(x, n, d) && IsFraction(y, m, e)
    ensures IsFraction(x * y, n * m, d * e)
  {
    var a, b := d as real, e as real;
    assert (d * e) as real == a * b && (n * m) as real == n as real * m as real;
    assert x * y * (a * b) == x * a * (y * b);
  }

  lemma InverseOf(y: real, m: nat, e: nat)
    requires IsFraction(y, m, e) && y > 0.0
    ensures m > 0 && IsFraction(1.0 / y, e, m)
  {
    var i, b := 1.0 / y, e as real;
    assert y * b > 0.0;
    assert y * i == 1.0;
    assert i * (y * b) == b;
  }

  lemma RationalProduct(x: real, y: real)
    requires Rational(x) && Rational(y)
    ensures Rational(By(x, y))
  {
    hide IsFraction;
    var n, d :| IsFraction(x, n, d);
    var m, e :| IsFraction(y, m, e);
    ProductOf(x, y, n, d, m, e);
  }

  lemma RationalInverse(y: real)
    requires Rational(y) && y > 0.0
    ensures Rational(1.0 / y)
  {
    hide IsFraction;
    var m, e :| IsFraction(y, m, e);
    InverseOf(y, m, e);
  }

  lemma ByInverse(x: real, y: real)
    requires y > 0.0
    ensures By(x, 1.0 / y) == x / y
  {
    var i := 1.0 / y;
    assert y * i == 1.0;
    assert x / y == x / y * (y * i) == x / y * y * i;
  }

  ghost predicate RationalSplits(splits: seq<Split>) {
    forall s :: s in splits ==> s.before > 0.0 && Rational(s.before) && Rational(s.after)
  }

  lemma FactorIsRational(s: Split, day: int, upTo: int)
    requires s.before > 0.0 && Rational(s.before) && Rational(s.after)
    ensures Rational(Factor(s, day, upTo))
  {
    assert IsFraction(1.0, 1, 1);
    hide Rational, By;
    RationalInverse(s.before);
    RationalProduct(s.after, 1.0 / s.before);
    ByInverse(s.after, s.before);
  }

  lemma {:induction false} RatioIsRational(splits: seq<Split>, day: int, upTo: int)
    requires RationalSplits(splits)
    ensures Rational(Ratio(splits, day, upTo))
  {
    if splits == [] {
      assert IsFraction(1.0, 1, 1);
    } else {
      hide Rational, Ratio, By, Factor;
      var s, rest := splits[0], splits[1..];
      assert s in splits && forall x :: x in rest ==> x in splits;
      RatioIsRational(rest, day, upTo);
      FactorIsRational(s, day, upTo);
      RationalProduct(Factor(s, day, upTo), Ratio(rest, day, upTo));
      RatioSteps(splits, day, upTo);
    }
  }

  lemma RatioSteps(splits: seq<Split>, day: int, upTo: int)
    requires splits != [] && forall s :: s in splits ==> s.before > 0.0
    ensures Ratio(splits, day, upTo) == By(Factor(splits[0], day, upTo), Ratio(splits[1..], day, upTo))
  {
  }

  lemma RebasedIsRational(t: Trade, splits: seq<Split>, upTo: int)
    requires RationalSplits(splits) && Rational(t.qty)
    ensures Rational(RebasedTrade(t, splits, upTo).qty)
  {
    hide Ratio, IsFraction;
    RatioIsRational(splits, t.day, upTo);
    RationalProduct(t.qty, Ratio(splits, t.day, upTo));
    assert RebasedTrade(t, splits, upTo).qty == By(t.qty, Ratio(splits, t.day, upTo));
  }

  /** A history whose every quantity, the contemplated sale's and the splits' too, is rational. */
  ghost predicate RationalListing(l: Listing, sale: Option<(int, real)>) {
    && (forall t :: t in l.trades ==> Rational(t.qty)) && RationalSplits(l.splits)
    && (sale.Some? ==> Rational(sale.value.1))
  }

  lemma ConsideredIsRational(l: Listing, sale: Option<(int, real)>, windowEnd: int)
    requires RationalListing(l, sale)
    ensures forall t :: t in Considered(l.trades, sale, windowEnd) ==> Rational(t.qty)
  {
    hide Rational, Through;
    var inWindow := l.trades[..Through(l.trades, windowEnd)];
    assert forall t :: t in inWindow ==> t in l.trades;
    if sale.Some? {
      var n := Through(inWindow, sale.value.0);
      assert inWindow == inWindow[..n] + inWindow[n..];
    }
  }

  /** The test of a dividend as it is put, splits and a contemplated sale included, counts levels:
      in some step of the basis at the end of its window. */
  lemma TestCountsLevels(l: Listing, exDay: int, sale: Option<(int, real)>) returns (counts: seq<Count>, g: real)
    requires Sound(l) && RationalListing(l, sale)
    ensures var rule := Rule(exDay, RequiredDays(Some(l)));
            && g > 0.0
            && Rebased(Considered(l.trades, sale, rule.WindowEnd()), l.splits, rule.WindowEnd()) == Graded(counts, g)
            && var n := Lead(counts, exDay);
               Tested(l, exDay, sale)
               == Test(By(Height(counts[..n]) as real, g),
                       By(Levels(Height(counts[..n]), TooSoonAt(counts[..n], counts[n..], rule)) as real, g))
  {
    hide By, Outcome, TooSoonAt, Height, Levels, Lead, Rational, Considered, RebasedTrade;
    var rule := Rule(exDay, RequiredDays(Some(l)));
    var end := rule.WindowEnd();
    var considered := Considered(l.trades, sale, end);
    var trades := Rebased(considered, l.splits, end);
    ConsideredIsRational(l, sale, end);
    forall i | 0 <= i < |trades| ensures Rational(trades[i].qty) {
      RebasedIsRational(considered[i], l.splits, end);
    }
    counts, g := HistoryCountsLevels(trades, rule);
  }
}
