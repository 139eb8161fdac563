/**
 * The heading anchors a rendered markdown file offers: which lines are prose, and the suffix that
 * tells a repeated heading from the ones before it.
 *
 * Slugs are a parameter: what is modelled is how repetitions of a slug are told apart, and when
 * that fails.
 */
module Headings {
  import opened Common

  // ----- Prose ----------------------------------------------------------------------------------

  /** The character of a code fence, when the line is one. */
  function Marker(line: string): Option<char> {
    var t := TrimStart(line);
    if "```" <= t then Some('`') else if "~~~" <= t then Some('~') else None
  }

  /** A fence is three backticks or three tildes, behind white space at most. */
  lemma FenceIff(line: string, c: char)
    ensures Marker(line) == Some(c)
            <==> (c == '`' || c == '~') && exists lead, rest :: AllSpace(lead) && line == lead + ([c, c, c] + rest)
  {
    hide TrimStart;
    var t := TrimStart(line);
    if Marker(line) == Some(c) {
      var lead := TrimmedOff(line);
      assert t == [c, c, c] + t[3..];
      assert line == lead + ([c, c, c] + t[3..]);
    }
    if (c == '`' || c == '~') && exists lead, rest :: AllSpace(lead) && line == lead + ([c, c, c] + rest) {
      var lead, rest :| AllSpace(lead) && line == lead + ([c, c, c] + rest);
      TrimsOff(lead, [c, c, c] + rest);
    }
  }

  predicate AllSpace(t: string) {
    forall i :: 0 <= i < |t| ==> IsSpace(t[i])
  }

  lemma {:induction false} TrimmedOff(line: string) returns (lead: string)
    ensures AllSpace(lead) && line == lead + TrimStart(line)
  {
    if line == "" || !IsSpace(line[0]) {
      lead := "";
    } else {
      var more := TrimmedOff(line[1..]);
      lead := [line[0]] + more;
      assert line == [line[0]] + line[1..];
    }
  }

  lemma {:induction false} TrimsOff(lead: string, t: string)
    requires AllSpace(lead) && (t == "" || !IsSpace(t[0]))
    ensures TrimStart(lead + t) == t
  {
    if lead == "" { assert lead + t == t; } else {
      assert (lead + t)[1..] == lead[1..] + t;
      TrimsOff(lead[1..], t);
    }
  }

  /** What follows the next fence of the same character, or nothing when there is none. */
  function AfterFence(lines: seq<string>, open: char): (r: seq<string>)
    ensures |r| <= |lines|
  {
    if lines == [] then []
    else if Marker(lines[0]) == Some(open) then lines[1..]
    else AfterFence(lines[1..], open)
  }

  /** The lines outside every fenced block. */
  function Prose(lines: seq<string>): seq<string>
    decreases |lines|
  {
    if lines == [] then []
    else
      var m := Marker(lines[0]);
      if m.None? then [lines[0]] + Prose(lines[1..]) else Prose(AfterFence(lines[1..], m.value))
  }

  /** What is still to come, inside the block that is open, if any. */
  function ProseFrom(lines: seq<string>, fence: Option<char>): seq<string> {
    match fence
    case None => Prose(lines)
    case Some(open) => Prose(AfterFence(lines, open))
  }

  method MarkdownLines(lines: seq<string>) returns (prose: seq<string>)
    ensures prose == Prose(lines)
  {
    prose := [];
    var fence: Option<char> := None;
    var i := 0;
    while i < |lines|
      invariant 0 <= i <= |lines|
      invariant prose + ProseFrom(lines[i..], fence) == Prose(lines)
    {
      assert lines[i..][0] == lines[i] && lines[i..][1..] == lines[i + 1..];
      var m := Marker(lines[i]);
      if m.Some? {
        if fence == m { fence := None; } else if fence.None? { fence := m; }
      } else if fence.None? {
        prose := prose + [lines[i]];
      }
      i := i + 1;
    }
    assert prose + [] == prose;
  }

  // ----- Headings ----------------------------------------------------------------------------------

  function Hashes(line: string): (n: nat)
    ensures n <= |line|
  {
    if line == "" || line[0] != '#' then 0 else 1 + Hashes(line[1..])
  }

  /** The slug of a heading line: `slug` is what the text after the hashes is slugged to. */
  function Base(line: string, slug: string -> string): Option<string> {
    var n := Hashes(line);
    if n == 0 || n > 6 || |line| == n || line[n] != ' ' then None else Some(slug(line[n..]))
  }

  /** A heading line is one to six hashes and a space, and what follows the hashes is its text. */
  lemma HeadingReads(line: string, slug: string -> string, n: nat, rest: string)
    requires line == Repeated('#', n) + rest && (rest == "" || rest[0] != '#')
    ensures Base(line, slug) == if 1 <= n <= 6 && rest != "" && rest[0] == ' ' then Some(slug(rest)) else None
  {
    HashesAre(n, rest);
    assert line[n..] == rest;
  }

  function Repeated(c: char, n: nat): (t: string)
    ensures |t| == n
  {
    if n == 0 then "" else [c] + Repeated(c, n - 1)
  }

  lemma {:induction false} HashesAre(n: nat, rest: string)
    requires rest == "" || rest[0] != '#'
    ensures Hashes(Repeated('#', n) + rest) == n
  {
    if n == 0 { assert Repeated('#', n) + rest == rest; } else {
      assert (Repeated('#', n) + rest)[1..] == Repeated('#', n - 1) + rest;
      HashesAre(n - 1, rest);
    }
  }

  function Bases(lines: seq<string>, slug: string -> string): seq<string> {
    if lines == [] then []
    else
      var b, rest := Base(lines[0], slug), Bases(lines[1..], slug);
      if b.Some? then [b.value] + rest else rest
  }

  function Decimal(n: nat): string {
    if n < 10 then ['0' + n as char] else Decimal(n / 10) + ['0' + (n % 10) as char]
  }

  /** The anchor of a slug's `n`th repetition, counted from nought. */
  function Anchor(base: string, n: nat): string {
    if n == 0 then base else base + "-" + Decimal(n)
  }

  /** Exactly the base, base-1, … of every slug, as many as it has headings. */
  ghost function AnchorsOf(bases: seq<string>): set<string> {
    set b, n | b in bases && 0 <= n < Occurrences(bases, b) :: Anchor(b, n)
  }

  lemma {:induction false} CountEnd(bases: seq<string>, x: string, b: string)
    ensures Occurrences(bases + [x], b) == Occurrences(bases, b) + if x == b then 1 else 0
  {
    if bases != [] {
      assert (bases + [x])[1..] == bases[1..] + [x];
      CountEnd(bases[1..], x, b);
    }
  }

  lemma {:induction false} CountedIsIn(bases: seq<string>, b: string)
    ensures Occurrences(bases, b) > 0 <==> b in bases
  {
    if bases != [] { CountedIsIn(bases[1..], b); }
  }

  /** Anchor `a` is the one of a slug's `n`th repetition. */
  predicate IsAnchor(bases: seq<string>, b: string, n: nat, a: string) {
    n < Occurrences(bases, b) && Anchor(b, n) == a
  }

  lemma AnchorIn(bases: seq<string>, b: string, n: nat, a: string)
    requires IsAnchor(bases, b, n, a)
    ensures a in AnchorsOf(bases)
  {
    CountedIsIn(bases, b);
  }

  lemma AnchorFrom(bases: seq<string>, a: string) returns (b: string, n: nat)
    requires a in AnchorsOf(bases)
    ensures IsAnchor(bases, b, n, a)
  {
    b, n :| b in bases && 0 <= n < Occurrences(bases, b) && Anchor(b, n) == a;
  }

  /** One more heading adds one anchor: its slug with the number of headings it repeats. */
  lemma AnchorsEnd(bases: seq<string>, x: string)
    ensures AnchorsOf(bases + [x]) == AnchorsOf(bases) + {Anchor(x, Occurrences(bases, x))}
  {
    hide AnchorsOf, Anchor, Occurrences;
    var all, fresh_ := bases + [x], Anchor(x, Occurrences(bases, x));
    forall a | a in AnchorsOf(all) ensures a in AnchorsOf(bases) || a == fresh_ {
      var b, n := AnchorFrom(all, a);
      CountEnd(bases, x, b);
      if n < Occurrences(bases, b) { AnchorIn(bases, b, n, a); }
    }
    forall a | a in AnchorsOf(bases) ensures a in AnchorsOf(all) {
      var b, n := AnchorFrom(bases, a);
      CountEnd(bases, x, b);
      AnchorIn(all, b, n, a);
    }
    CountEnd(bases, x, x);
    AnchorIn(all, x, Occurrences(bases, x), fresh_);
  }

  lemma CountsEnd(bases: seq<string>, x: string)
    ensures forall b :: Occurrences(bases + [x], b) == Occurrences(bases, b) + if x == b then 1 else 0
  {
    forall b ensures Occurrences(bases + [x], b) == Occurrences(bases, b) + if x == b then 1 else 0 {
      CountEnd(bases, x, b);
    }
  }

  lemma NoAnchors()
    ensures AnchorsOf([]) == {} && forall b: string :: Occurrences([], b) == 0
  {
  }

  /** The loop over the prose lines, with the repetitions of every slug counted as they come. */
  method HeadingAnchors(lines: seq<string>, slug: string -> string) returns (anchors: set<string>)
    ensures anchors == AnchorsOf(Bases(Prose(lines), slug))
  {
    hide AnchorsOf, Occurrences, Prose, Base;
    var prose := MarkdownLines(lines);
    NoAnchors();
    var seen: map<string, nat> := map[];
    anchors := {};
    ghost var bases: seq<string> := [];
    var i := 0;
    while i < |prose|
      invariant 0 <= i <= |prose|
      invariant bases + Bases(prose[i..], slug) == Bases(prose, slug)
      invariant forall b :: (if b in seen then seen[b] else 0) == Occurrences(bases, b)
      invariant anchors == AnchorsOf(bases)
    {
      assert prose[i..][0] == prose[i] && prose[i..][1..] == prose[i + 1..];
      var b := Base(prose[i], slug);
      if b.Some? {
        var base := b.value;
        var n := if base in seen then seen[base] else 0;
        AnchorsEnd(bases, base);
        CountsEnd(bases, base);
        anchors := anchors + {if n == 0 then base else base + "-" + Decimal(n)};
        seen := seen[base := n + 1];
        bases := bases + [base];
      }
      i := i + 1;
    }
    assert bases + [] == bases;
  }

  // ----- Reordering -------------------------------------------------------------------------------

  lemma {:induction false} CountIsMultiset(bases: seq<string>, b: string)
    ensures Occurrences(bases, b) == multiset(bases)[b]
  {
    if bases != [] {
      assert bases == [bases[0]] + bases[1..];
      CountIsMultiset(bases[1..], b);
    }
  }

  /** The anchors do not depend on the order the headings come in. */
  lemma OrderDoesNotMatter(a: seq<string>, b: seq<string>)
    requires multiset(a) == multiset(b)
    ensures AnchorsOf(a) == AnchorsOf(b)
  {
    hide AnchorsOf;
    forall x ensures x in AnchorsOf(a) <==> x in AnchorsOf(b) {
      if x in AnchorsOf(a) {
        var c, n := AnchorFrom(a, x);
        CountIsMultiset(a, c);
        CountIsMultiset(b, c);
        AnchorIn(b, c, n, x);
      }
      if x in AnchorsOf(b) {
        var c, n := AnchorFrom(b, x);
        CountIsMultiset(a, c);
        CountIsMultiset(b, c);
        AnchorIn(a, c, n, x);
      }
    }
  }

  // ----- One anchor to a heading, or not ---------------------------------------------------------------

  lemma {:induction false} DecimalDigits(n: nat)
    ensures Decimal(n) != "" && forall c :: c in Decimal(n) ==> '0' <= c <= '9'
  {
    if n >= 10 { DecimalDigits(n / 10); }
  }

  lemma {:induction false} DecimalOnce(m: nat, n: nat)
    requires Decimal(m) == Decimal(n)
    ensures m == n
  {
    DecimalDigits(m / 10);
    DecimalDigits(n / 10);
    if m >= 10 && n >= 10 {
      var a, b := Decimal(m), Decimal(n);
      assert a[..|a| - 1] == Decimal(m / 10) && b[..|b| - 1] == Decimal(n / 10);
      assert a[|a| - 1] == b[|b| - 1];
      DecimalOnce(m / 10, n / 10);
    } else if m < 10 && n < 10 {
      assert Decimal(m)[0] == Decimal(n)[0];
    }
  }

  lemma HyphenInPlace(b: string, m: string, c: string, n: string)
    requires |b| < |c| && forall x :: x in m ==> x != '-'
    ensures b + "-" + m != c + "-" + n
  {
    var s, t := b + "-" + m, c + "-" + n;
    assert t[|c|] == '-';
    if |s| > |c| {
      assert s[|c|] == m[|c| - |b| - 1];
      assert m[|c| - |b| - 1] in m;
    }
  }

  /** A suffix of digits after a last hyphen is read off in one way only. */
  lemma SuffixOnce(b: string, m: string, c: string, n: string)
    requires b + "-" + m == c + "-" + n
    requires (forall x :: x in m ==> x != '-') && forall x :: x in n ==> x != '-'
    ensures b == c && m == n
  {
    var s, t := b + "-" + m, c + "-" + n;
    if |b| < |c| { HyphenInPlace(b, m, c, n); }
    if |c| < |b| { HyphenInPlace(c, n, b, m); }
    assert b == s[..|b|] && c == t[..|c|];
    assert m == s[|b| + 1..] && n == t[|c| + 1..];
  }

  lemma AnchorOnce(b: string, m: nat, c: string, n: nat)
    requires m > 0 && n > 0 && Anchor(b, m) == Anchor(c, n)
    ensures b == c && m == n
  {
    DecimalDigits(m);
    DecimalDigits(n);
    SuffixOnce(b, Decimal(m), c, Decimal(n));
    DecimalOnce(m, n);
  }

  /** A heading's own slug is the anchor of another slug's repetition. */
  predicate Clash(bases: seq<string>, b: string, n: nat) {
    1 <= n < Occurrences(bases, b) && Anchor(b, n) in bases
  }

  ghost predicate NoClash(bases: seq<string>) {
    forall b, n: nat :: !Clash(bases, b, n)
  }

  lemma ClashGrows(bases: seq<string>, x: string, b: string, n: nat)
    requires Clash(bases, b, n)
    ensures Clash(bases + [x], b, n)
  {
    CountEnd(bases, x, b);
  }

  lemma NewAnchorClashes(bases: seq<string>, x: string)
    requires Anchor(x, Occurrences(bases, x)) in AnchorsOf(bases)
    ensures !NoClash(bases + [x])
  {
    var k := Occurrences(bases, x);
    var c, l := AnchorFrom(bases, Anchor(x, k));
    CountEnd(bases, x, x);
    CountEnd(bases, x, c);
    CountedIsIn(bases, c);
    if l > 0 {
      if k > 0 { AnchorOnce(x, k, c, l); }
      assert Clash(bases + [x], c, l);
    } else {
      assert Clash(bases + [x], x, k);
    }
  }

  lemma OldRepetitionIsClear(bases: seq<string>, x: string, c: string, n: nat)
    requires NoClash(bases) && Anchor(x, Occurrences(bases, x)) !in AnchorsOf(bases) && 1 <= n < Occurrences(bases, c)
    ensures Anchor(c, n) !in bases + [x]
  {
    hide AnchorsOf, Anchor, Occurrences;
    assert !Clash(bases, c, n);
    if Anchor(c, n) == x {
      AnchorIn(bases, c, n, x);
      CountedIsIn(bases, x);
      OwnAnchor(x);
    }
  }

  lemma OwnAnchor(x: string)
    ensures Anchor(x, 0) == x && forall n: nat :: n > 0 ==> |Anchor(x, n)| > |x|
  {
  }

  lemma NewRepetitionIsClear(bases: seq<string>, x: string)
    requires Anchor(x, Occurrences(bases, x)) !in AnchorsOf(bases) && Occurrences(bases, x) > 0
    ensures Anchor(x, Occurrences(bases, x)) !in bases + [x]
  {
    hide AnchorsOf, Anchor, Occurrences;
    var y := Anchor(x, Occurrences(bases, x));
    OwnAnchor(x);
    OwnAnchor(y);
    CountedIsIn(bases, y);
    if y in bases { AnchorIn(bases, y, 0, y); }
  }

  lemma NewAnchorIsClear(bases: seq<string>, x: string)
    requires NoClash(bases) && Anchor(x, Occurrences(bases, x)) !in AnchorsOf(bases)
    ensures NoClash(bases + [x])
  {
    hide AnchorsOf, Anchor, Occurrences;
    forall c, n: nat ensures !Clash(bases + [x], c, n) {
      CountEnd(bases, x, c);
      if 1 <= n < Occurrences(bases, c) {
        OldRepetitionIsClear(bases, x, c, n);
      } else if c == x && n == Occurrences(bases, x) > 0 {
        NewRepetitionIsClear(bases, x);
      }
    }
  }

  /** There is one anchor to a heading exactly when no heading's own slug is the anchor of another
      slug's repetition; otherwise there are fewer. */
  lemma {:induction false} OneAnchorEachIff(bases: seq<string>)
    ensures |AnchorsOf(bases)| <= |bases|
    ensures |AnchorsOf(bases)| == |bases| <==> NoClash(bases)
  {
    if bases != [] {
      hide AnchorsOf, NoClash;
      var before, x := bases[..|bases| - 1], bases[|bases| - 1];
      assert bases == before + [x];
      OneAnchorEachIff(before);
      AnchorsEnd(before, x);
      if Anchor(x, Occurrences(before, x)) in AnchorsOf(before) {
        NewAnchorClashes(before, x);
        assert AnchorsOf(bases) == AnchorsOf(before);
      } else if NoClash(before) {
        NewAnchorIsClear(before, x);
      } else {
        StillClashes(before, x);
      }
    }
  }

  lemma StillClashes(bases: seq<string>, x: string)
    requires !NoClash(bases)
    ensures !NoClash(bases + [x])
  {
    var b, n: nat :| Clash(bases, b, n);
    ClashGrows(bases, x, b, n);
  }

  /** Three headings with two anchors. */
  lemma SharedAnchor()
    ensures Clash(["a", "a", "a-1"], "a", 1) && |AnchorsOf(["a", "a", "a-1"])| < 3
  {
    var bases := ["a", "a", "a-1"];
    assert bases[2] == Anchor("a", 1);
    assert Clash(bases, "a", 1);
    OneAnchorEachIff(bases);
  }
}
