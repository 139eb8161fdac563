/**
 * What last in, first out means without a stack: a unit stands at a height of the holding, is
 * acquired when the holding rises past it and sold when it next falls to it.
 */
module FrankingLevels {
  import opened Common
  import opened Franking
  import opened FrankingLaws
  import opened FrankingSplits

  /** A trade whose quantity is counted in whole steps of some unit. */
  datatype Count = Count(sell: bool, day: int, units: nat)

  /** The trades those counts stand for, a step being `g` units. */
  function Graded(counts: seq<Count>, g: real): (ts: seq<Trade>)
    ensures |ts| == |counts|
    ensures forall i :: 0 <= i < |ts| ==> ts[i] == Trade(counts[i].sell, counts[i].day, By(counts[i].units as real, g))
  {
    seq(|counts|, i requires 0 <= i < |counts| => Trade(counts[i].sell, counts[i].day, By(counts[i].units as real, g)))
  }

  // ----- Heights ------------------------------------------------------------------------------------

  /** The height after one more trade. */
  function After(h: nat, c: Count): nat {
    if !c.sell then h + c.units else if c.units <= h then h - c.units else 0
  }

  function Height(counts: seq<Count>): nat {
    if counts == [] then 0 else After(Height(Front(counts)), Last(counts))
  }

  /** The day the holding last rose past a level it stands above. */
  function AcquiredAt(counts: seq<Count>, level: nat): int
    requires level < Height(counts)
  {
    if Height(Front(counts)) <= level then Last(counts).day else AcquiredAt(Front(counts), level)
  }

  /** The day a holding of height `h` first falls to a level. */
  function FirstFall(h: nat, counts: seq<Count>, level: nat): Option<int>
    decreases |counts|
  {
    if counts == [] then None
    else if After(h, counts[0]) <= level then Some(counts[0].day)
    else FirstFall(After(h, counts[0]), counts[1..], level)
  }

  /** A level held when the shares went ex-dividend that falls before its days at risk are up. */
  predicate FallsTooSoon(held: seq<Count>, later: seq<Count>, rule: Rule, level: nat) {
    level < Height(held)
    && var fall := FirstFall(Height(held), later, level);
       fall.Some? && fall.value - AcquiredAt(held, level) - 1 < rule.required
  }

  /** How many levels below `n` satisfy `p`. */
  function Levels(n: nat, p: nat -> bool): nat {
    if n == 0 then 0 else Levels(n - 1, p) + if p(n - 1) then 1 else 0
  }

  /** How many trades come before the first one on or after a day. */
  function Lead(counts: seq<Count>, day: int): (n: nat)
    ensures n <= |counts|
  {
    if counts == [] || counts[0].day >= day then 0 else 1 + Lead(counts[1..], day)
  }

  // ----- A stack unit by unit ---------------------------------------------------------------------------

  datatype Unit = Unit(acquired: int, entitled: bool)

  function Repeat(u: Unit, n: nat): (r: seq<Unit>)
    ensures |r| == n && forall i :: 0 <= i < n ==> r[i] == u
  {
    if n == 0 then [] else Repeat(u, n - 1) + [u]
  }

  ghost predicate Whole(stack: seq<Parcel>) {
    forall p :: p in stack ==> p.qty >= 0.0 && p.qty == p.qty.Floor as real
  }

  function Flat(stack: seq<Parcel>): seq<Unit>
    requires Whole(stack)
  {
    if stack == [] then []
    else Flat(Front(stack)) + Repeat(Unit(Last(stack).acquired, Last(stack).entitled), Last(stack).qty.Floor)
  }

  predicate Soon(u: Unit, day: int, rule: Rule) {
    u.entitled && day - u.acquired - 1 < rule.required
  }

  function CountSoon(units: seq<Unit>, day: int, rule: Rule): nat {
    if units == [] then 0 else CountSoon(Front(units), day, rule) + if Soon(Last(units), day, rule) then 1 else 0
  }

  lemma {:induction false} CountConcat(a: seq<Unit>, b: seq<Unit>, day: int, rule: Rule)
    ensures CountSoon(a + b, day, rule) == CountSoon(a, day, rule) + CountSoon(b, day, rule)
  {
    if b == [] { assert a + b == a; } else {
      assert Front(a + b) == a + Front(b);
      CountConcat(a, Front(b), day, rule);
    }
  }

  lemma {:induction false} CountRepeat(u: Unit, n: nat, day: int, rule: Rule)
    ensures CountSoon(Repeat(u, n), day, rule) == if Soon(u, day, rule) then n else 0
  {
    if n > 0 {
      FrontAndLast(Repeat(u, n - 1), u);
      CountRepeat(u, n - 1, day, rule);
    }
  }

  lemma WholePush(stack: seq<Parcel>, p: Parcel)
    requires Whole(stack) && p.qty >= 0.0 && p.qty == p.qty.Floor as real
    ensures Whole(stack + [p]) && Flat(stack + [p]) == Flat(stack) + Repeat(Unit(p.acquired, p.entitled), p.qty.Floor)
  {
    FrontAndLast(stack, p);
  }

  /** What `n` units off the top of some units leaves. */
  function Cut(units: seq<Unit>, n: nat): nat {
    if n <= |units| then |units| - n else 0
  }

  lemma CutWithinTop(rest: seq<Unit>, u: Unit, k: nat, n: nat, day: int, rule: Rule)
    requires n < k
    ensures var all := rest + Repeat(u, k);
            && all[..Cut(all, n)] == rest + Repeat(u, k - n)
            && CountSoon(all[Cut(all, n)..], day, rule) == if Soon(u, day, rule) then n else 0
  {
    hide CountSoon, Soon;
    var all := rest + Repeat(u, k);
    assert all[Cut(all, n)..] == Repeat(u, n);
    CountRepeat(u, n, day, rule);
  }

  lemma CutPastTop(rest: seq<Unit>, u: Unit, k: nat, n: nat, day: int, rule: Rule)
    requires n >= k
    ensures var all := rest + Repeat(u, k);
            && all[..Cut(all, n)] == rest[..Cut(rest, n - k)]
            && CountSoon(all[Cut(all, n)..], day, rule)
               == CountSoon(rest[Cut(rest, n - k)..], day, rule) + if Soon(u, day, rule) then k else 0
  {
    hide CountSoon, Soon;
    var all := rest + Repeat(u, k);
    assert all[Cut(all, n)..] == rest[Cut(rest, n - k)..] + Repeat(u, k);
    CountConcat(rest[Cut(rest, n - k)..], Repeat(u, k), day, rule);
    CountRepeat(u, k, day, rule);
  }

  /** What a sale of whole units does to the flat stack. */
  ghost predicate SoldAsCut(stack: seq<Parcel>, n: nat, day: int, rule: Rule)
    requires Whole(stack)
  {
    var s, units := Sell(stack, n as real, day, rule), Flat(stack);
    && Whole(s.left) && Flat(s.left) == units[..Cut(units, n)]
    && s.lost == CountSoon(units[Cut(units, n)..], day, rule) as real
  }

  lemma SellWithinTop(stack: seq<Parcel>, n: nat, day: int, rule: Rule)
    requires Whole(stack) && stack != [] && Last(stack) in stack && 0 < n < Last(stack).qty.Floor
    ensures SoldAsCut(stack, n, day, rule)
  {
    var front, top := Front(stack), Last(stack);
    CutWithinTop(Flat(front), Unit(top.acquired, top.entitled), top.qty.Floor, n, day, rule);
    WholePush(front, top.(qty := (top.qty.Floor - n) as real));
  }

  lemma SellPastTop(stack: seq<Parcel>, n: nat, day: int, rule: Rule)
    requires Whole(stack) && stack != [] && Last(stack) in stack && 0 < n && Last(stack).qty.Floor <= n
    requires SoldAsCut(Front(stack), n - Last(stack).qty.Floor, day, rule)
    ensures SoldAsCut(stack, n, day, rule)
  {
    hide CountSoon, Repeat;
    var front, top := Front(stack), Last(stack);
    CutPastTop(Flat(front), Unit(top.acquired, top.entitled), top.qty.Floor, n, day, rule);
  }

  /** Selling whole units from the top takes them off the flat stack one by one. */
  lemma {:induction false} SellIsCut(stack: seq<Parcel>, n: nat, day: int, rule: Rule)
    requires Whole(stack)
    ensures SoldAsCut(stack, n, day, rule)
  {
    if stack == [] || n == 0 {
      var units := Flat(stack);
      assert units[..Cut(units, n)] == units && units[Cut(units, n)..] == [];
    } else {
      hide SoldAsCut;
      assert Last(stack) in stack;
      if n < Last(stack).qty.Floor {
        SellWithinTop(stack, n, day, rule);
      } else {
        SellIsCut(Front(stack), n - Last(stack).qty.Floor, day, rule);
        SellPastTop(stack, n, day, rule);
      }
    }
  }

  lemma EntitledIsFlat(stack: seq<Parcel>)
    requires Whole(stack)
    ensures Whole(Entitled(stack))
    ensures |Flat(Entitled(stack))| == |Flat(stack)| && Units(stack) == |Flat(stack)| as real
    ensures forall i :: 0 <= i < |Flat(stack)| ==> Flat(Entitled(stack))[i] == Flat(stack)[i].(entitled := true)
  {
    if stack != [] {
      var front, top := Front(stack), Last(stack);
      assert top in stack;
      EntitledIsFlat(front);
      WholePush(Entitled(front), top.(entitled := true));
    }
  }

  /** The trades themselves, a step being one unit. */
  function Plain(counts: seq<Count>): (ts: seq<Trade>)
    ensures |ts| == |counts|
    ensures forall i :: 0 <= i < |ts| ==> ts[i] == Trade(counts[i].sell, counts[i].day, counts[i].units as real)
  {
    seq(|counts|, i requires 0 <= i < |counts| => Trade(counts[i].sell, counts[i].day, counts[i].units as real))
  }

  lemma PlainFront(counts: seq<Count>)
    requires counts != []
    ensures Front(Plain(counts)) == Plain(Front(counts))
    ensures Last(Plain(counts)) == Trade(Last(counts).sell, Last(counts).day, Last(counts).units as real)
  {
  }

  // ----- Before the ex-day ------------------------------------------------------------------------------

  /** The walk of trades before the ex-day: one unit to a level, each as old as its level. */
  ghost predicate Standing(w: Walk, counts: seq<Count>) {
    && Whole(w.stack) && !w.snapshotted && w.entitled == w.disqualified == 0.0
    && |Flat(w.stack)| == Height(counts)
    && forall i :: 0 <= i < Height(counts) ==> Flat(w.stack)[i] == Unit(AcquiredAt(counts, i), false)
  }

  lemma {:induction false} NothingSoon(units: seq<Unit>, day: int, rule: Rule)
    requires forall u :: u in units ==> !u.entitled
    ensures CountSoon(units, day, rule) == 0
  {
    if units != [] { NothingSoon(Front(units), day, rule); }
  }

  lemma StandingStep(w: Walk, counts: seq<Count>, rule: Rule)
    requires counts != [] && Standing(w, Front(counts)) && Last(counts).day < rule.exDay
    ensures Standing(Step(w, Last(Plain(counts)), rule), counts)
  {
    hide Sell, Flat, Units, AcquiredAt, Height, Whole, Standing;
    if Last(counts).sell { StandingSale(w, counts, rule); } else { StandingBuy(w, counts, rule); }
  }

  lemma StandingSale(w: Walk, counts: seq<Count>, rule: Rule)
    requires counts != [] && Standing(w, Front(counts)) && Last(counts).day < rule.exDay && Last(counts).sell
    ensures Standing(Step(w, Last(Plain(counts)), rule), counts)
  {
    hide Sell, Flat, Units, Whole;
    var c, units := Last(counts), Flat(w.stack);
    SellIsCut(w.stack, c.units, c.day, rule);
    NothingSoon(units[Cut(units, c.units)..], c.day, rule);
  }

  lemma StandingBuy(w: Walk, counts: seq<Count>, rule: Rule)
    requires counts != [] && Standing(w, Front(counts)) && Last(counts).day < rule.exDay && !Last(counts).sell
    ensures Standing(Step(w, Last(Plain(counts)), rule), counts)
  {
    hide Sell, Flat, Units, Whole;
    WholePush(w.stack, Parcel(Last(counts).day, Last(counts).units as real, false));
  }

  lemma {:induction false} StandingBefore(counts: seq<Count>, rule: Rule)
    requires forall c :: c in counts ==> c.day < rule.exDay
    ensures Standing(WalkOf(Plain(counts), rule), counts)
  {
    hide Step;
    if counts != [] {
      StandingBefore(Front(counts), rule);
      PlainFront(counts);
      StandingStep(WalkOf(Plain(Front(counts)), rule), counts, rule);
    }
  }

  // ----- From the ex-day on ---------------------------------------------------------------------------------

  function HeightFrom(h: nat, counts: seq<Count>): nat {
    if counts == [] then h else After(HeightFrom(h, Front(counts)), Last(counts))
  }

  /** One more trade at the end. */
  lemma {:induction false} FallAtEnd(h: nat, counts: seq<Count>, c: Count, level: nat)
    requires h > level
    ensures FirstFall(h, counts + [c], level)
            == if FirstFall(h, counts, level).Some? then FirstFall(h, counts, level)
               else if After(HeightFrom(h, counts), c) <= level then Some(c.day) else None
    ensures FirstFall(h, counts, level).None? ==> HeightFrom(h, counts) > level
    decreases |counts|
  {
    if counts == [] {
      assert (counts + [c])[1..] == [];
    } else {
      var next := After(h, counts[0]);
      assert (counts + [c])[1..] == counts[1..] + [c];
      HeightFromNext(h, counts);
      if next > level { FallAtEnd(next, counts[1..], c, level); }
    }
  }

  lemma {:induction false} HeightFromNext(h: nat, counts: seq<Count>)
    requires counts != []
    ensures HeightFrom(h, counts) == HeightFrom(After(h, counts[0]), counts[1..])
    decreases |counts|
  {
    if |counts| > 1 {
      assert Front(counts)[1..] == Front(counts[1..]) && Last(counts) == Last(counts[1..]);
      HeightFromNext(h, Front(counts));
    } else {
      assert Front(counts) == [];
    }
  }

  lemma {:induction false} LevelsSame(n: nat, p: nat -> bool, q: nat -> bool)
    requires forall i: nat :: i < n ==> p(i) == q(i)
    ensures Levels(n, p) == Levels(n, q)
  {
    if n > 0 { LevelsSame(n - 1, p, q); }
  }

  lemma {:induction false} LevelsSplit(n: nat, p: nat -> bool, q: nat -> bool, both: nat -> bool)
    requires forall i: nat :: i < n ==> both(i) == (p(i) || q(i)) && !(p(i) && q(i))
    ensures Levels(n, both) == Levels(n, p) + Levels(n, q)
  {
    if n > 0 { LevelsSplit(n - 1, p, q, both); }
  }

  /** The units cut off that are too soon, counted by level. */
  lemma {:induction false} CountByLevel(units: seq<Unit>, lo: nat, n: nat, day: int, rule: Rule)
    requires lo <= |units| && forall i :: n <= i < |units| ==> !units[i].entitled
    ensures CountSoon(units[lo..], day, rule) == Levels(n, (i: nat) => lo <= i < |units| && Soon(units[i], day, rule))
    decreases |units| + n
  {
    var p := (i: nat) => lo <= i < |units| && Soon(units[i], day, rule);
    if lo == |units| {
      NoLevels(n, p);
    } else if n == |units| {
      var front := Front(units);
      CountByLevel(front, lo, n - 1, day, rule);
      assert Front(units[lo..]) == front[lo..] && Last(units[lo..]) == Last(units);
      LevelsSame(n - 1, p, (i: nat) => lo <= i < |front| && Soon(front[i], day, rule));
    } else if n > |units| {
      CountByLevel(units, lo, n - 1, day, rule);
    } else {
      var front := Front(units);
      CountByLevel(front, lo, n, day, rule);
      assert Front(units[lo..]) == front[lo..] && Last(units[lo..]) == Last(units);
      LevelsSame(n, p, (i: nat) => lo <= i < |front| && Soon(front[i], day, rule));
    }
  }

  lemma {:induction false} NoLevels(n: nat, p: nat -> bool)
    requires forall i: nat :: i < n ==> !p(i)
    ensures Levels(n, p) == 0
  {
    if n > 0 { NoLevels(n - 1, p); }
  }

  /** The levels that fall too soon, as a predicate on levels. */
  ghost function TooSoonAt(held: seq<Count>, later: seq<Count>, rule: Rule): nat -> bool {
    (i: nat) => FallsTooSoon(held, later, rule, i)
  }

  /** The unit at a level is entitled exactly when the level was held at the ex-day and has not
      fallen since, and is then as old as it was. */
  ghost predicate LevelsStand(units: seq<Unit>, held: seq<Count>, later: seq<Count>) {
    && |units| == HeightFrom(Height(held), later)
    && (forall i :: 0 <= i < |units| ==>
          (units[i].entitled <==> i < Height(held) && FirstFall(Height(held), later, i).None?))
    && (forall i :: 0 <= i < |units| && i < Height(held) && units[i].entitled
                    ==> units[i].acquired == AcquiredAt(held, i))
  }

  ghost predicate Walking(w: Walk, held: seq<Count>, later: seq<Count>, rule: Rule) {
    && Whole(w.stack) && w.snapshotted && w.entitled == Height(held) as real
    && LevelsStand(Flat(w.stack), held, later)
    && w.disqualified == Levels(Height(held), TooSoonAt(held, later, rule)) as real
  }

  lemma WalkingStarts(w: Walk, held: seq<Count>, rule: Rule)
    requires Standing(w, held)
    ensures Walking(Snapshot(w), held, [], rule)
  {
    EntitledIsFlat(w.stack);
    NoLevels(Height(held), TooSoonAt(held, [], rule));
  }

  lemma BuyStands(units: seq<Unit>, held: seq<Count>, later: seq<Count>, c: Count)
    requires LevelsStand(units, held, later) && !c.sell
    ensures LevelsStand(units + Repeat(Unit(c.day, false), c.units), held, later + [c])
    ensures forall i: nat :: i < Height(held)
                             ==> FirstFall(Height(held), later + [c], i) == FirstFall(Height(held), later, i)
  {
    FrontAndLast(later, c);
    forall i: nat | i < Height(held)
      ensures FirstFall(Height(held), later + [c], i) == FirstFall(Height(held), later, i)
                                             && (FirstFall(Height(held), later, i).None? ==> i < |units|) {
      FallAtEnd(Height(held), later, c, i);
    }
  }

  lemma SaleStands(units: seq<Unit>, held: seq<Count>, later: seq<Count>, c: Count)
    requires LevelsStand(units, held, later) && c.sell
    ensures LevelsStand(units[..Cut(units, c.units)], held, later + [c])
  {
    FrontAndLast(later, c);
    forall i: nat | i < Height(held) && i < Cut(units, c.units)
      ensures FirstFall(Height(held), later + [c], i).None? <==> FirstFall(Height(held), later, i).None? {
      FallAtEnd(Height(held), later, c, i);
    }
  }

  /** A sale makes the levels it brings down too soon, and those only. */
  lemma SaleFalls(units: seq<Unit>, held: seq<Count>, later: seq<Count>, c: Count, rule: Rule, i: nat)
    requires LevelsStand(units, held, later) && c.sell && i < Height(held)
    ensures var new_ := Cut(units, c.units) <= i < |units| && Soon(units[i], c.day, rule);
            && FallsTooSoon(held, later + [c], rule, i) == (FallsTooSoon(held, later, rule, i) || new_)
            && !(FallsTooSoon(held, later, rule, i) && new_)
  {
    FallAtEnd(Height(held), later, c, i);
  }

  lemma SaleLevels(units: seq<Unit>, held: seq<Count>, later: seq<Count>, c: Count, rule: Rule)
    requires LevelsStand(units, held, later) && c.sell
    ensures Levels(Height(held), TooSoonAt(held, later + [c], rule))
            == Levels(Height(held), TooSoonAt(held, later, rule)) + CountSoon(units[Cut(units, c.units)..], c.day, rule)
  {
    var lo := Cut(units, c.units);
    var fell := (i: nat) => lo <= i < |units| && Soon(units[i], c.day, rule);
    CountByLevel(units, lo, Height(held), c.day, rule);
    forall i: nat | i < Height(held)
      ensures TooSoonAt(held, later + [c], rule)(i) == (TooSoonAt(held, later, rule)(i) || fell(i))
              && !(TooSoonAt(held, later, rule)(i) && fell(i)) {
      SaleFalls(units, held, later, c, rule, i);
    }
    LevelsSplit(Height(held), TooSoonAt(held, later, rule), fell, TooSoonAt(held, later + [c], rule));
  }

  lemma WalkingStep(w: Walk, held: seq<Count>, later: seq<Count>, c: Count, rule: Rule)
    requires Walking(w, held, later, rule)
    ensures Walking(Step(w, Trade(c.sell, c.day, c.units as real), rule), held, later + [c], rule)
  {
    hide LevelsStand, TooSoonAt, Sell;
    var units := Flat(w.stack);
    if c.sell {
      SellIsCut(w.stack, c.units, c.day, rule);
      SaleStands(units, held, later, c);
      SaleLevels(units, held, later, c, rule);
    } else {
      WholePush(w.stack, Parcel(c.day, c.units as real, false));
      BuyStands(units, held, later, c);
      BuyLevels(held, later, c, rule);
    }
  }

  lemma BuyLevels(held: seq<Count>, later: seq<Count>, c: Count, rule: Rule)
    requires forall i: nat :: i < Height(held)
                              ==> FirstFall(Height(held), later + [c], i) == FirstFall(Height(held), later, i)
    ensures Levels(Height(held), TooSoonAt(held, later + [c], rule))
            == Levels(Height(held), TooSoonAt(held, later, rule))
  {
    LevelsSame(Height(held), TooSoonAt(held, later + [c], rule), TooSoonAt(held, later, rule));
  }

  lemma WalkOfOneMore(counts: seq<Count>, c: Count, rule: Rule)
    ensures WalkOf(Plain(counts + [c]), rule)
            == Step(WalkOf(Plain(counts), rule), Trade(c.sell, c.day, c.units as real), rule)
  {
    hide Step;
    PlainFront(counts + [c]);
    FrontAndLast(counts, c);
  }

  /** The first trade from the ex-day on, the snapshot taken before it. */
  lemma FirstStep(w: Walk, t: Trade, rule: Rule)
    requires !w.snapshotted && t.day >= rule.exDay
    ensures Step(w, t, rule) == Step(Snapshot(w), t, rule)
  {
    hide Sell, Entitled, Units;
  }

  lemma WalkingFirst(held: seq<Count>, c: Count, rule: Rule)
    requires (forall x :: x in held ==> x.day < rule.exDay) && c.day >= rule.exDay
    ensures Walking(WalkOf(Plain(held + [c]), rule), held, [c], rule)
  {
    hide Walking, Standing, WalkOf, Step, Snapshot, Plain;
    var w := WalkOf(Plain(held), rule);
    StandingBefore(held, rule);
    StandsUnmarked(w, held);
    WalkingStarts(w, held, rule);
    WalkingStep(Snapshot(w), held, [], c, rule);
    FirstStep(w, Trade(c.sell, c.day, c.units as real), rule);
    WalkOfOneMore(held, c, rule);
    assert [] + [c] == [c];
  }

  lemma {:induction false} WalkingFrom(held: seq<Count>, later: seq<Count>, rule: Rule)
    requires later != [] && (forall c :: c in held ==> c.day < rule.exDay) && later[0].day >= rule.exDay
    ensures Walking(WalkOf(Plain(held + later), rule), held, later, rule)
    decreases |later|
  {
    hide Walking, WalkOf, Step, Plain;
    if |later| == 1 {
      assert later == [later[0]];
      WalkingFirst(held, later[0], rule);
    } else {
      var front, c := Front(later), Last(later);
      WalkingFrom(held, front, rule);
      WalkingStep(WalkOf(Plain(held + front), rule), held, front, c, rule);
      WalkOfOneMore(held + front, c, rule);
      assert later == front + [c] && held + later == held + front + [c];
    }
  }

  lemma StandsUnmarked(w: Walk, counts: seq<Count>)
    requires Standing(w, counts)
    ensures !w.snapshotted
  {
  }

  // ----- The closed form -----------------------------------------------------------------------------------

  lemma {:induction false} LeadMeans(counts: seq<Count>, day: int)
    ensures var n := Lead(counts, day);
            (forall c :: c in counts[..n] ==> c.day < day) && (n < |counts| ==> counts[n].day >= day)
  {
    if counts != [] && counts[0].day < day {
      LeadMeans(counts[1..], day);
      var n := Lead(counts, day);
      assert counts[..n] == [counts[0]] + counts[1..][..n - 1];
    }
  }

  /** The walk of whole trades counts levels. */
  lemma PlainIsLevels(counts: seq<Count>, rule: Rule)
    ensures var n := Lead(counts, rule.exDay);
            Outcome(Plain(counts), rule)
            == Test(Height(counts[..n]) as real,
                    Levels(Height(counts[..n]), TooSoonAt(counts[..n], counts[n..], rule)) as real)
  {
    hide TooSoonAt;
    var n := Lead(counts, rule.exDay);
    var held, later := counts[..n], counts[n..];
    LeadMeans(counts, rule.exDay);
    assert counts == held + later;
    if later == [] {
      StandingBefore(held, rule);
      assert held == counts;
      var w := WalkOf(Plain(counts), rule);
      EntitledIsFlat(w.stack);
      NothingFalls(held, rule);
    } else {
      WalkingFrom(held, later, rule);
    }
  }

  lemma NothingFalls(held: seq<Count>, rule: Rule)
    ensures Levels(Height(held), TooSoonAt(held, [], rule)) == 0
  {
    NoLevels(Height(held), TooSoonAt(held, [], rule));
  }

  /** The holding-period test in closed form, whatever step `g` the quantities are counted in:
      entitled are the units held before the ex-day, and disqualified those of them that stand at
      a level the holding falls to before the unit there has had its days at risk. */
  lemma WalkCountsLevels(counts: seq<Count>, g: real, rule: Rule)
    requires g > 0.0
    ensures var n := Lead(counts, rule.exDay);
            Outcome(Graded(counts, g), rule)
            == Test(By(Height(counts[..n]) as real, g),
                    By(Levels(Height(counts[..n]), TooSoonAt(counts[..n], counts[n..], rule)) as real, g))
  {
    hide By, Outcome, TooSoonAt;
    PlainIsLevels(counts, rule);
    ScaledOutcome(Plain(counts), rule, g);
    assert Graded(counts, g) == ScaledTrades(Plain(counts), g);
  }
}
