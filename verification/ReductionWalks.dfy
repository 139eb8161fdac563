/**
 * Applying reductions to a cost base one at a time, floored at nil after each: the balance they
 * leave, and the capital gains they run past nil by.
 */
module ReductionWalks {
  import opened Common
  import opened Netting

  /** The balance reductions leave, floored at nil after each one. */
  function Walk(balance: real, amounts: seq<real>): real
    decreases amounts
  {
    if amounts == [] then balance else Walk(Max(balance - amounts[0], 0.0), amounts[1..])
  }

  /** What each reduction ran past nil by: the capital gains of CGT events E10 and G1. */
  function Excesses(balance: real, amounts: seq<real>): seq<real>
    decreases amounts
  {
    if amounts == [] then []
    else [Max(amounts[0] - balance, 0.0)] + Excesses(Max(balance - amounts[0], 0.0), amounts[1..])
  }

  function Sum(xs: seq<real>): real {
    if xs == [] then 0.0 else xs[0] + Sum(xs[1..])
  }

  /** Nothing reduced is lost and nothing is taxed twice: what was there, less every reduction in
      full, plus the gains they ran past nil by, is the balance left. */
  lemma {:induction false} WalkConserves(balance: real, amounts: seq<real>)
    requires balance >= 0.0
    ensures Walk(balance, amounts) == balance - Sum(amounts) + Sum(Excesses(balance, amounts))
    ensures Walk(balance, amounts) >= 0.0 && Sum(Excesses(balance, amounts)) >= 0.0
    decreases amounts
  {
    if amounts != [] {
      WalkConserves(Max(balance - amounts[0], 0.0), amounts[1..]);
      var rest := Excesses(Max(balance - amounts[0], 0.0), amounts[1..]);
      assert Excesses(balance, amounts)[1..] == rest;
    }
  }

  /** The furthest the reductions so far ever overran the starting balance. */
  function Overrun(balance: real, amounts: seq<real>): real
    decreases amounts
  {
    if amounts == [] then Max(-balance, 0.0)
    else Max(Max(-balance, 0.0), Overrun(balance - amounts[0], amounts[1..]))
  }

  /** Lowering the balance raises the overrun by as much, once there is one. */
  lemma {:induction false} OverrunShifts(balance: real, amounts: seq<real>, d: real)
    requires d >= 0.0
    ensures Overrun(balance, amounts) >= 0.0 && Overrun(balance, amounts) >= -balance
    ensures Overrun(balance - d, amounts) <= Overrun(balance, amounts) + d
    ensures Overrun(balance, amounts) > 0.0 || balance <= 0.0
            ==> Overrun(balance - d, amounts) == Overrun(balance, amounts) + d
    decreases amounts
  {
    if amounts != [] {
      assert balance - d - amounts[0] == balance - amounts[0] - d;
      OverrunShifts(balance - amounts[0], amounts[1..], d);
      OverrunShifts(balance - amounts[0] - d, amounts[1..], 0.0);
    }
  }

  /** The gains of a walk come to the furthest its reductions ever overran the cost base: each
      dollar past nil is a gain once, an upward adjustment in between included. */
  lemma {:induction false} ExcessIsOverrun(balance: real, amounts: seq<real>)
    requires balance >= 0.0
    ensures Sum(Excesses(balance, amounts)) == Overrun(balance, amounts)
    decreases amounts
  {
    if amounts != [] {
      var next := Max(balance - amounts[0], 0.0);
      ExcessIsOverrun(next, amounts[1..]);
      assert Excesses(balance, amounts)[1..] == Excesses(next, amounts[1..]);
      OverrunShifts(balance - amounts[0], amounts[1..], 0.0);
      if balance < amounts[0] { OverrunShifts(0.0, amounts[1..], amounts[0] - balance); }
    }
  }

  /** Netting the reductions first and flooring once gives the walk's balance exactly when no
      gain arose or nothing is left: otherwise an upward adjustment restored a base an earlier
      reduction had exhausted, and netting loses it. */
  lemma NettingAgreesIff(balance: real, amounts: seq<real>)
    requires balance >= 0.0
    ensures Walk(balance, amounts) == Max(balance - Sum(amounts), 0.0)
            <==> Overrun(balance, amounts) == 0.0 || Walk(balance, amounts) == 0.0
  {
    WalkConserves(balance, amounts);
    ExcessIsOverrun(balance, amounts);
  }

  /** The printed worksheet's loop: a running balance, and a flag on each row that ran past nil. */
  method ReductionWalk(start: real, amounts: seq<real>) returns (balance: real, capped: seq<bool>)
    requires start >= 0.0
    ensures balance == Walk(start, amounts)
    ensures |capped| == |amounts| == |Excesses(start, amounts)|
    ensures forall i :: 0 <= i < |capped| ==> (capped[i] <==> Excesses(start, amounts)[i] > 0.0)
  {
    balance, capped := start, [];
    ExcessesLength(start, amounts);
    var i := 0;
    while i < |amounts|
      invariant 0 <= i <= |amounts| && |capped| == i && balance >= 0.0
      invariant Walk(balance, amounts[i..]) == Walk(start, amounts)
      invariant |Excesses(start, amounts)| == |amounts|
      invariant Excesses(start, amounts)[i..] == Excesses(balance, amounts[i..])
      invariant forall k :: 0 <= k < i ==> (capped[k] <==> Excesses(start, amounts)[k] > 0.0)
    {
      assert amounts[i..][0] == amounts[i] && amounts[i..][1..] == amounts[i + 1..];
      ghost var all := Excesses(start, amounts);
      assert all[i..][0] == all[i] && all[i..][1..] == all[i + 1..];
      var before := balance;
      balance := Max(balance - amounts[i], 0.0);
      capped := capped + [amounts[i] > before];
      i := i + 1;
    }
  }

  lemma {:induction false} ExcessesLength(balance: real, amounts: seq<real>)
    ensures |Excesses(balance, amounts)| == |amounts|
    decreases amounts
  {
    if amounts != [] { ExcessesLength(Max(balance - amounts[0], 0.0), amounts[1..]); }
  }

  // ----- Gains in the reporting currency ------------------------------------------------------------

  /** A reduction in its own currency and the rate of the date it arose at. Where the units were
      gone by then but entitled to the payment, `ended` is that payment in whole. */
  datatype Reduction = Reduction(amount: real, rate: real, ended: Option<real>)

  function Amounts(reductions: seq<Reduction>): seq<real> {
    if reductions == [] then [] else [reductions[0].amount] + Amounts(reductions[1..])
  }

  /** An amount at a rate. */
  function At(x: real, rate: real): real {
    x * rate
  }

  /** What a reduction runs past nil by, translated: the reduction at its own date's rate less the
      cost base it exhausts at the parcel's, and never a loss. */
  function GainOf(r: Reduction, exhausted: real, baseRate: real): real {
    Max(At(r.amount, r.rate) - (if exhausted == 0.0 then 0.0 else At(exhausted, baseRate)), 0.0)
  }

  /** The gain of a right to receive a payment that the units' disposal ended, CGT event C2: the
      whole payment. */
  function RightGain(r: Reduction): seq<real> {
    if r.ended.Some? then [At(r.ended.value, r.rate)] else []
  }

  /** The gains one event brings. */
  function GainsAt(r: Reduction, balance: real, baseRate: real): seq<real> {
    RightGain(r) + if r.amount <= balance then [] else [GainOf(r, balance, baseRate)]
  }

  function Gains(balance: real, reductions: seq<Reduction>, baseRate: real): seq<real>
    decreases reductions
  {
    if reductions == [] then []
    else
      GainsAt(reductions[0], balance, baseRate)
      + Gains(Max(balance - reductions[0].amount, 0.0), reductions[1..], baseRate)
  }

  function Ended(reductions: seq<Reduction>): real {
    if reductions == [] then 0.0
    else (if reductions[0].ended.Some? then reductions[0].ended.value else 0.0) + Ended(reductions[1..])
  }

  /** Where no rate ever moves, the translated gains are the overrun and the rights ended,
      translated. */
  lemma GainsAtOneRate(balance: real, reductions: seq<Reduction>, rate: real)
    requires balance >= 0.0 && rate > 0.0 && forall r :: r in reductions ==> r.rate == rate
    ensures Sum(Gains(balance, reductions, rate))
            == At(Overrun(balance, Amounts(reductions)) + Ended(reductions), rate)
  {
    GainsAreExcesses(balance, reductions, rate);
    ExcessIsOverrun(balance, Amounts(reductions));
  }

  lemma {:induction false} GainsAreExcesses(balance: real, reductions: seq<Reduction>, rate: real)
    requires balance >= 0.0 && rate > 0.0 && forall r :: r in reductions ==> r.rate == rate
    ensures Sum(Gains(balance, reductions, rate))
            == At(Sum(Excesses(balance, Amounts(reductions))) + Ended(reductions), rate)
    decreases reductions
  {
    AddTimes(0.0, 0.0, rate);
    if reductions == [] {
    } else {
      hide GainOf, At, Sum, Gains, Excesses, Amounts, RightGain;
      var r, rest := reductions[0], reductions[1..];
      var next := Max(balance - r.amount, 0.0);
      assert r in reductions;
      GainsAreExcesses(next, rest, rate);
      FirstExcess(balance, reductions);
      FirstGain(balance, reductions, rate);
      var excess, ended := Max(r.amount - balance, 0.0), if r.ended.Some? then r.ended.value else 0.0;
      AddTimes(ended, excess, rate);
      AddTimes(ended + excess, Sum(Excesses(next, Amounts(rest))) + Ended(rest), rate);
    }
  }

  lemma FirstExcess(balance: real, reductions: seq<Reduction>)
    requires reductions != []
    ensures var r, rest := reductions[0], reductions[1..];
            Sum(Excesses(balance, Amounts(reductions)))
            == Max(r.amount - balance, 0.0) + Sum(Excesses(Max(balance - r.amount, 0.0), Amounts(rest)))
  {
    var amounts := Amounts(reductions);
    assert amounts[1..] == Amounts(reductions[1..]);
    assert Excesses(balance, amounts)[1..] == Excesses(Max(balance - amounts[0], 0.0), amounts[1..]);
  }

  lemma FirstGain(balance: real, reductions: seq<Reduction>, rate: real)
    requires reductions != [] && reductions[0].rate == rate && rate > 0.0
    ensures var r, rest := reductions[0], reductions[1..];
            Sum(Gains(balance, reductions, rate))
            == At(if r.ended.Some? then r.ended.value else 0.0, rate) + At(Max(r.amount - balance, 0.0), rate)
               + Sum(Gains(Max(balance - r.amount, 0.0), rest, rate))
  {
    hide GainOf, At;
    AddTimes(0.0, 0.0, rate);
    var r := reductions[0];
    var over := if r.amount <= balance then [] else [GainOf(r, balance, rate)];
    if r.amount > balance { OneGain(r, balance, rate); }
    SumSplit(RightGain(r), over);
    SumSplit(GainsAt(r, balance, rate), Gains(Max(balance - r.amount, 0.0), reductions[1..], rate));
  }

  lemma {:induction false} SumSplit(a: seq<real>, b: seq<real>)
    ensures Sum(a + b) == Sum(a) + Sum(b)
  {
    if a == [] { assert a + b == b; } else {
      assert (a + b)[1..] == a[1..] + b;
      SumSplit(a[1..], b);
    }
  }

  lemma AddTimes(a: real, b: real, rate: real)
    ensures At(a + b, rate) == At(a, rate) + At(b, rate) && At(0.0, rate) == 0.0
  {
  }

  lemma OneGain(r: Reduction, balance: real, rate: real)
    requires r.amount > balance && r.rate == rate > 0.0
    ensures GainOf(r, balance, rate) == At(r.amount - balance, rate)
  {
    assert (r.amount - balance) * rate > 0.0;
  }

  /** Payments in whole, each at its own date's rate. */
  function Translated(reductions: seq<Reduction>): real {
    if reductions == [] then 0.0 else At(reductions[0].amount, reductions[0].rate) + Translated(reductions[1..])
  }

  ghost predicate OnlyReduce(reductions: seq<Reduction>) {
    forall r :: r in reductions ==> r.amount >= 0.0 && r.rate > 0.0 && r.ended.None?
  }

  /** Reductions that only reduce bring no gain while the cost base lasts. */
  lemma {:induction false} NoGainWhileItLasts(balance: real, reductions: seq<Reduction>, baseRate: real)
    requires OnlyReduce(reductions) && Sum(Amounts(reductions)) <= balance
    ensures Gains(balance, reductions, baseRate) == []
    decreases reductions
  {
    if reductions != [] {
      AmountsAdd(reductions[1..]);
      assert reductions[0] in reductions;
      NoGainWhileItLasts(balance - reductions[0].amount, reductions[1..], baseRate);
    }
  }

  lemma {:induction false} AmountsAdd(reductions: seq<Reduction>)
    requires OnlyReduce(reductions)
    ensures Sum(Amounts(reductions)) >= 0.0
  {
    if reductions != [] {
      assert reductions[0] in reductions;
      AmountsAdd(reductions[1..]);
    }
  }

  /** Of a reduction that only reduces: a gain when it runs past nil, and the gains after it. */
  lemma ThenTheRest(balance: real, reductions: seq<Reduction>, baseRate: real)
    requires OnlyReduce(reductions) && reductions != []
    ensures var r, rest := reductions[0], reductions[1..];
            && r.amount >= 0.0 && OnlyReduce(rest)
            && Sum(Gains(balance, reductions, baseRate))
               == (if r.amount <= balance then 0.0 else GainOf(r, balance, baseRate))
                  + Sum(Gains(Max(balance - r.amount, 0.0), rest, baseRate))
  {
    hide GainOf;
    var r := reductions[0];
    assert r in reductions;
    SumSplit(GainsAt(r, balance, baseRate), Gains(Max(balance - r.amount, 0.0), reductions[1..], baseRate));
  }

  lemma FirstOf(reductions: seq<Reduction>, k: nat)
    requires 0 < k < |reductions|
    ensures Sum(Amounts(reductions[..k])) == reductions[0].amount + Sum(Amounts(reductions[1..][..k - 1]))
    ensures reductions[1..][k - 1] == reductions[k] && reductions[1..][k..] == reductions[k + 1..]
  {
    assert reductions[..k][1..] == reductions[1..][..k - 1];
  }

  /** Where the rates differ, the reduction that exhausts the cost base is a gain of itself at its
      own rate less what was left at the parcel's, and never a loss; every later one is a gain in
      whole at its own rate. */
  lemma {:induction false} GainsPastNil(balance: real, reductions: seq<Reduction>, baseRate: real, k: nat)
    requires balance >= 0.0 && OnlyReduce(reductions) && k < |reductions|
    requires Sum(Amounts(reductions[..k])) <= balance < Sum(Amounts(reductions[..k])) + reductions[k].amount
    ensures var left := balance - Sum(Amounts(reductions[..k]));
            Sum(Gains(balance, reductions, baseRate))
            == Max(At(reductions[k].amount, reductions[k].rate) - At(left, baseRate), 0.0)
               + Translated(reductions[k + 1..])
    decreases k
  {
    hide At, Gains, Translated, Sum, OnlyReduce;
    ThenTheRest(balance, reductions, baseRate);
    var r, rest := reductions[0], reductions[1..];
    AddTimes(0.0, 0.0, baseRate);
    if k == 0 {
      NoneYet(reductions);
      GainsOnNothing(rest, baseRate);
    } else {
      FirstOf(reductions, k);
      RestReduces(rest, k - 1);
      GainsPastNil(balance - r.amount, rest, baseRate, k - 1);
    }
  }

  lemma NoneYet(reductions: seq<Reduction>)
    ensures Sum(Amounts(reductions[..0])) == 0.0
  {
  }

  lemma RestReduces(reductions: seq<Reduction>, k: nat)
    requires OnlyReduce(reductions) && k <= |reductions|
    ensures Sum(Amounts(reductions[..k])) >= 0.0
  {
    AmountsAdd(reductions[..k]);
  }

  lemma {:induction false} GainsOnNothing(reductions: seq<Reduction>, baseRate: real)
    requires OnlyReduce(reductions)
    ensures Sum(Gains(0.0, reductions, baseRate)) == Translated(reductions)
  {
    if reductions != [] {
      var r, rest := reductions[0], reductions[1..];
      assert r in reductions;
      AddTimes(0.0, 0.0, r.rate);
      assert r.amount > 0.0 ==> At(r.amount, r.rate) > 0.0;
      GainsOnNothing(rest, baseRate);
      SumSplit(GainsAt(r, 0.0, baseRate), Gains(0.0, rest, baseRate));
    }
  }

  /** The net-capital-gain report's loop over the same reductions: it floors by cases and emits
      the gains themselves. */
  method ExcessWalk(start: real, reductions: seq<Reduction>, baseRate: real)
    returns (remaining: real, gains: seq<real>)
    requires start >= 0.0
    ensures remaining == Walk(start, Amounts(reductions))
    ensures gains == Gains(start, reductions, baseRate)
  {
    hide GainOf, At, Walk, Amounts, Gains;
    remaining, gains := start, [];
    var i := 0;
    while i < |reductions|
      invariant 0 <= i <= |reductions| && remaining >= 0.0
      invariant Walk(remaining, Amounts(reductions[i..])) == Walk(start, Amounts(reductions))
      invariant gains + Gains(remaining, reductions[i..], baseRate) == Gains(start, reductions, baseRate)
    {
      var r := reductions[i];
      ghost var came, before := gains, remaining;
      OneEvent(remaining, reductions, i, baseRate);
      if r.ended.Some? { gains := gains + [At(r.ended.value, r.rate)]; }
      if r.amount <= remaining {
        remaining := remaining - r.amount;
      } else {
        gains := gains + [GainOf(r, remaining, baseRate)];
        remaining := 0.0;
      }
      assert gains == came + GainsAt(r, before, baseRate);
      i := i + 1;
    }
    NoEvents(remaining, reductions, baseRate);
    assert gains + [] == gains;
  }

  lemma OneEvent(balance: real, reductions: seq<Reduction>, i: nat, baseRate: real)
    requires i < |reductions|
    ensures var next := Max(balance - reductions[i].amount, 0.0);
            && Walk(balance, Amounts(reductions[i..])) == Walk(next, Amounts(reductions[i + 1..]))
            && Gains(balance, reductions[i..], baseRate)
               == GainsAt(reductions[i], balance, baseRate) + Gains(next, reductions[i + 1..], baseRate)
  {
    hide GainsAt;
    assert reductions[i..][0] == reductions[i] && reductions[i..][1..] == reductions[i + 1..];
    assert Amounts(reductions[i..])[1..] == Amounts(reductions[i + 1..]);
  }

  lemma NoEvents(balance: real, reductions: seq<Reduction>, baseRate: real)
    ensures Walk(balance, Amounts(reductions[|reductions|..])) == balance
    ensures Gains(balance, reductions[|reductions|..], baseRate) == []
  {
  }
}
