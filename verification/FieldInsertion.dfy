/**
 * The script that inserts missing struct fields under each literal's opening line, working from
 * the bottom of the file so that earlier line numbers stay valid.
 *
 * A file is a list of lines, and a site is a line of it with the fields missing there. Inserting
 * everywhere at once, reading the original file only, is the specification.
 */
module FieldInsertion {
  import opened Common
  import opened Sorting

  /** What each missing field's line says, in the fields' alphabetical order. */
  const FIELDS: seq<string> := ["brokerage_includes_gst: false,", "statement_total: None,"]

  type Field = f: nat | f < 2

  /** A line to insert after, counted from one, and the fields missing there. */
  datatype Site = Site(line: nat, missing: seq<Field>)

  // ----- The order sites are taken in --------------------------------------------------------

  /** Lists compare by their first difference, a proper prefix coming first. */
  predicate ListAtMost(a: seq<Field>, b: seq<Field>) {
    a == [] || (b != [] && (a[0] < b[0] || (a[0] == b[0] && ListAtMost(a[1..], b[1..]))))
  }

  predicate AtMost(a: Site, b: Site) {
    a.line < b.line || (a.line == b.line && ListAtMost(a.missing, b.missing))
  }

  lemma {:induction false} ListsCompare(a: seq<Field>, b: seq<Field>)
    ensures ListAtMost(a, b) || ListAtMost(b, a)
    ensures ListAtMost(a, b) && ListAtMost(b, a) ==> a == b
  {
    if a != [] && b != [] && a[0] == b[0] {
      ListsCompare(a[1..], b[1..]);
      assert a == [a[0]] + a[1..] && b == [b[0]] + b[1..];
    }
  }

  lemma {:induction false} ListsChain(a: seq<Field>, b: seq<Field>, c: seq<Field>)
    requires ListAtMost(a, b) && ListAtMost(b, c)
    ensures ListAtMost(a, c)
  {
    if a != [] && a[0] == b[0] == c[0] { ListsChain(a[1..], b[1..], c[1..]); }
  }

  /** Largest first. */
  function LargestFirst(): (Site, Site) -> bool {
    (a: Site, b: Site) => AtMost(b, a)
  }

  lemma LargestFirstIsOrder()
    ensures TotalOrder(LargestFirst())
  {
    forall a: Site, b: Site ensures AtMost(a, b) || AtMost(b, a) { ListsCompare(a.missing, b.missing); }
    forall a: Site, b: Site, c: Site | AtMost(b, a) && AtMost(c, b) ensures AtMost(c, a) {
      if a.line == b.line == c.line { ListsChain(c.missing, b.missing, a.missing); }
    }
  }

  // ----- All the insertions at once -------------------------------------------------------------

  function Spaces(n: nat): (s: string)
    ensures |s| == n
  {
    if n == 0 then "" else Spaces(n - 1) + " "
  }

  /** How much white space a line starts with. */
  function Leading(line: string): nat {
    if line == "" || !IsSpace(line[0]) then 0 else 1 + Leading(line[1..])
  }

  /** The lines a site adds under its opening line. */
  function Block(missing: seq<Field>, opening: string): (b: seq<string>)
    ensures |b| == |missing|
  {
    if missing == [] then []
    else [Spaces(Leading(opening)) + "    " + FIELDS[missing[0]] + "\n"] + Block(missing[1..], opening)
  }

  lemma {:induction false} LeadingIs(line: string)
    ensures Leading(line) <= |line| && (forall i :: 0 <= i < Leading(line) ==> IsSpace(line[i]))
    ensures Leading(line) < |line| ==> !IsSpace(line[Leading(line)])
  {
    if line != "" && IsSpace(line[0]) {
      LeadingIs(line[1..]);
      assert forall i :: 0 < i < Leading(line) ==> line[i] == line[1..][i - 1];
    }
  }

  lemma {:induction false} SpacesAre(n: nat, i: nat)
    requires i < n
    ensures Spaces(n)[i] == ' '
  {
    if i < n - 1 { SpacesAre(n - 1, i); }
  }

  /** Each missing field has its own line, in order, indented four spaces past the opening line. */
  lemma {:induction false} AddsLines(missing: seq<Field>, opening: string, k: nat)
    requires k < |missing|
    ensures var text := ["brokerage_includes_gst: false,", "statement_total: None,"][missing[k]];
            Block(missing, opening)[k] == Spaces(Leading(opening)) + "    " + text + "\n"
  {
    if k > 0 { AddsLines(missing[1..], opening, k - 1); }
  }

  /** What the sites at one line add there, the smallest site's lines first. */
  function Under(sites: seq<Site>, line: nat, opening: string): seq<string> {
    if sites == [] then []
    else (if sites[0].line == line then Block(sites[0].missing, opening) else []) + Under(sites[1..], line, opening)
  }

  /** The file from its line `i` (counted from nought) on, every original line followed by what
      its own sites add, all read off the original file. */
  function Woven(lines: seq<string>, sites: seq<Site>, i: nat): seq<string>
    requires i <= |lines|
    decreases |lines| - i
  {
    if i == |lines| then []
    else [lines[i]] + Under(sites, i + 1, lines[i]) + Woven(lines, sites, i + 1)
  }

  ghost predicate Ascending(sites: seq<Site>) {
    forall i, j :: 0 <= i < j < |sites| ==> AtMost(sites[i], sites[j]) && sites[i] != sites[j]
  }

  ghost predicate Within(sites: seq<Site>, lines: seq<string>) {
    forall s :: s in sites ==> 1 <= s.line <= |lines|
  }

  function Added(sites: seq<Site>): nat {
    if sites == [] then 0 else |sites[0].missing| + Added(sites[1..])
  }

  // ----- One insertion below all the ones still to come ------------------------------------------

  lemma {:induction false} NoneUnder(sites: seq<Site>, line: nat, opening: string)
    requires forall s :: s in sites ==> s.line != line
    ensures Under(sites, line, opening) == []
  {
    if sites != [] { NoneUnder(sites[1..], line, opening); }
  }

  lemma {:induction false} NoSitesWoven(lines: seq<string>, i: nat)
    requires i <= |lines|
    ensures Woven(lines, [], i) == lines[i..]
    decreases |lines| - i
  {
    if i < |lines| { NoSitesWoven(lines, i + 1); }
  }

  lemma WovenAt(lines: seq<string>, sites: seq<Site>, i: nat)
    requires i < |lines|
    ensures Woven(lines, sites, i) == [lines[i]] + Under(sites, i + 1, lines[i]) + Woven(lines, sites, i + 1)
  {
  }

  lemma UnderOthers(first: Site, sites: seq<Site>, line: nat, opening: string)
    ensures Under([first] + sites, line, opening)
            == (if first.line == line then Block(first.missing, opening) else []) + Under(sites, line, opening)
  {
    assert ([first] + sites)[1..] == sites;
  }

  /** A further site at or above every other one leaves the file below its line as it was. */
  lemma {:induction false} WovenPast(lines: seq<string>, first: Site, sites: seq<Site>, i: nat)
    requires first.line <= i <= |lines|
    ensures Woven(lines, [first] + sites, i) == Woven(lines, sites, i)
    decreases |lines| - i
  {
    if i < |lines| {
      hide Woven, Under, Block;
      WovenAt(lines, sites, i);
      WovenAt(lines, [first] + sites, i);
      UnderOthers(first, sites, i + 1, lines[i]);
      assert [] + Under(sites, i + 1, lines[i]) == Under(sites, i + 1, lines[i]);
      WovenPast(lines, first, sites, i + 1);
    }
  }

  /** What inserting a site's block at its own line makes of the file from line `i` on. */
  ghost predicate Inserts(lines: seq<string>, first: Site, sites: seq<Site>, i: nat)
    requires i < first.line <= |lines|
  {
    var woven, n := Woven(lines, sites, i), first.line - i;
    && n <= |woven| && woven[..n] == lines[i..first.line]
    && Woven(lines, [first] + sites, i) == woven[..n] + Block(first.missing, lines[first.line - 1]) + woven[n..]
  }

  lemma InsertsHere(lines: seq<string>, first: Site, sites: seq<Site>)
    requires 1 <= first.line <= |lines|
    ensures Inserts(lines, first, sites, first.line - 1)
  {
    hide Under, Block, Woven;
    var i, all := first.line - 1, [first] + sites;
    var block, under, rest := Block(first.missing, lines[i]), Under(sites, i + 1, lines[i]), Woven(lines, sites, i + 1);
    WovenPast(lines, first, sites, i + 1);
    WovenAt(lines, sites, i);
    WovenAt(lines, all, i);
    UnderOthers(first, sites, i + 1, lines[i]);
    assert Woven(lines, sites, i) == [lines[i]] + (under + rest);
    assert Woven(lines, all, i) == [lines[i]] + block + (under + rest);
  }

  lemma Splice(x: string, w: seq<string>, n: nat, block: seq<string>)
    requires n <= |w|
    ensures ([x] + w)[..n + 1] == [x] + w[..n]
    ensures ([x] + w)[..n + 1] + block + ([x] + w)[n + 1..] == [x] + (w[..n] + block + w[n..])
  {
  }

  lemma NoneAbove(lines: seq<string>, first: Site, sites: seq<Site>, i: nat)
    requires i + 1 < first.line <= |lines| && forall s :: s in sites ==> first.line <= s.line
    ensures Woven(lines, sites, i) == [lines[i]] + Woven(lines, sites, i + 1)
    ensures Woven(lines, [first] + sites, i) == [lines[i]] + Woven(lines, [first] + sites, i + 1)
  {
    hide Under, Woven;
    WovenAt(lines, sites, i);
    WovenAt(lines, [first] + sites, i);
    NoneUnder(sites, i + 1, lines[i]);
    NoneUnder([first] + sites, i + 1, lines[i]);
    assert [lines[i]] + [] == [lines[i]];
  }

  lemma InsertsAbove(lines: seq<string>, first: Site, sites: seq<Site>, i: nat)
    requires i + 1 < first.line <= |lines| && (forall s :: s in sites ==> first.line <= s.line)
    requires Inserts(lines, first, sites, i + 1)
    ensures Inserts(lines, first, sites, i)
  {
    hide Woven, Block;
    NoneAbove(lines, first, sites, i);
    Splice(lines[i], Woven(lines, sites, i + 1), first.line - i - 1, Block(first.missing, lines[first.line - 1]));
    assert lines[i..first.line] == [lines[i]] + lines[i + 1..first.line];
  }

  /** The lines down to a site's own are still the original ones when no site above it has been
      taken, and the site's block goes straight after them. */
  lemma {:induction false} WovenInsert(lines: seq<string>, first: Site, sites: seq<Site>, i: nat)
    requires i < first.line <= |lines| && forall s :: s in sites ==> first.line <= s.line
    ensures Inserts(lines, first, sites, i)
    decreases first.line - i
  {
    hide Inserts;
    if i + 1 == first.line {
      InsertsHere(lines, first, sites);
    } else {
      WovenInsert(lines, first, sites, i + 1);
      InsertsAbove(lines, first, sites, i);
    }
  }

  // ----- The loop ---------------------------------------------------------------------------------

  function Reversed<T>(s: seq<T>): (r: seq<T>)
    ensures |r| == |s| && forall i :: 0 <= i < |s| ==> r[i] == s[|s| - 1 - i]
  {
    seq(|s|, i requires 0 <= i < |s| => s[|s| - 1 - i])
  }

  /** The sites smallest first. */
  function Ordered(sites: seq<Site>): seq<Site> {
    Reversed(Sort(sites, LargestFirst()))
  }

  ghost predicate SameMembers(a: seq<Site>, b: seq<Site>) {
    forall s :: s in a <==> s in b
  }

  lemma OrderedAscends(sites: seq<Site>)
    requires NoDuplicates(sites)
    ensures Ascending(Ordered(sites)) && SameMembers(Ordered(sites), sites)
  {
    var d := Sort(sites, LargestFirst());
    LargestFirstIsOrder();
    SortSorted(sites, LargestFirst());
    SortKeepsDistinct(sites, LargestFirst());
    forall s ensures s in Ordered(sites) <==> s in sites {
      SortMembers(sites, LargestFirst(), s);
      if s in d {
        var k :| 0 <= k < |d| && d[k] == s;
        assert Reversed(d)[|d| - 1 - k] == s;
      }
    }
  }

  lemma BothEmpty(a: seq<Site>, b: seq<Site>)
    requires SameMembers(a, b)
    ensures a == [] <==> b == []
  {
    if a != [] { assert a[0] in b; }
    if b != [] { assert b[0] in a; }
  }

  /** Sites are taken in one order only, whatever order they were found in. */
  lemma {:induction false} OneOrder(a: seq<Site>, b: seq<Site>)
    requires Ascending(a) && Ascending(b) && SameMembers(a, b)
    ensures a == b
  {
    BothEmpty(a, b);
    if a != [] {
      SameFirst(a, b);
      forall s ensures s in a[1..] <==> s in b[1..] {
        if s in a[1..] { assert s in a && s != a[0]; }
        if s in b[1..] { assert s in b && s != b[0]; }
      }
      OneOrder(a[1..], b[1..]);
      assert a == [a[0]] + a[1..] && b == [b[0]] + b[1..];
    }
  }

  lemma SameFirst(a: seq<Site>, b: seq<Site>)
    requires a != [] && b != [] && Ascending(a) && Ascending(b) && SameMembers(a, b)
    ensures a[0] == b[0]
  {
    assert a[0] in b && b[0] in a;
    ListsCompare(a[0].missing, b[0].missing);
  }

  /** The next site up: its opening line is the original one, and inserting there is one step of
      inserting everywhere at once. */
  lemma NextSite(file: seq<string>, descending: seq<Site>, k: nat)
    requires k < |descending| && SortedBy(descending, LargestFirst()) && Within(descending, file)
    ensures var site, lines := descending[k], Woven(file, Reversed(descending[..k]), 0);
            && 1 <= site.line <= |lines| && site.line <= |file| && lines[site.line - 1] == file[site.line - 1]
            && Woven(file, Reversed(descending[..k + 1]), 0)
               == lines[..site.line] + Block(site.missing, file[site.line - 1]) + lines[site.line..]
  {
    hide Woven, Block;
    var site, taken := descending[k], Reversed(descending[..k]);
    assert site in descending;
    forall s | s in taken ensures site.line <= s.line {
      var i :| 0 <= i < k && taken[i] == s;
      assert LargestFirst()(descending[k - 1 - i], site);
    }
    WovenInsert(file, site, taken, 0);
    assert Reversed(descending[..k + 1]) == [site] + taken;
    assert Woven(file, taken, 0)[..site.line][site.line - 1] == file[site.line - 1];
  }

  lemma SortedSites(sites: seq<Site>, file: seq<string>)
    requires Within(sites, file)
    ensures SortedBy(Sort(sites, LargestFirst()), LargestFirst()) && Within(Sort(sites, LargestFirst()), file)
  {
    LargestFirstIsOrder();
    SortSorted(sites, LargestFirst());
    forall s | s in Sort(sites, LargestFirst()) ensures s in sites { SortMembers(sites, LargestFirst(), s); }
  }

  /** Inserts every site's block, from the bottom of the file up. */
  method InsertFields(file: seq<string>, sites: seq<Site>) returns (lines: seq<string>, total: nat)
    requires Within(sites, file)
    ensures lines == Woven(file, Ordered(sites), 0)
    ensures total == |lines| - |file|
  {
    hide Woven, Block, SortedBy, Within;
    var descending := Sort(sites, LargestFirst());
    SortedSites(sites, file);
    lines, total := file, 0;
    NoSitesWoven(file, 0);
    var k := 0;
    while k < |descending|
      invariant 0 <= k <= |descending|
      invariant lines == Woven(file, Reversed(descending[..k]), 0) && total == |lines| - |file|
    {
      var site := descending[k];
      NextSite(file, descending, k);
      var block := Block(site.missing, lines[site.line - 1]);
      lines := lines[..site.line] + block + lines[site.line..];
      total := total + |block|;
      k := k + 1;
    }
    assert descending[..k] == descending;
  }

  // ----- Taking the blocks out again ---------------------------------------------------------------

  /** How many lines the sites add under a line. */
  function Width(sites: seq<Site>, line: nat): nat {
    if sites == [] then 0 else (if sites[0].line == line then |sites[0].missing| else 0) + Width(sites[1..], line)
  }

  lemma {:induction false} UnderWidth(sites: seq<Site>, line: nat, opening: string)
    ensures |Under(sites, line, opening)| == Width(sites, line)
  {
    if sites != [] { UnderWidth(sites[1..], line, opening); }
  }

  /** `count` lines of a file with each line's added lines dropped. */
  function Unwoven(woven: seq<string>, sites: seq<Site>, i: nat, count: nat): seq<string>
    decreases count
  {
    if count == 0 || woven == [] then []
    else
      var next := 1 + Width(sites, i + 1);
      [woven[0]] + Unwoven(if next <= |woven| then woven[next..] else [], sites, i + 1, count - 1)
  }

  /** Deleting the inserted lines gives the file back. */
  lemma {:induction false} DeletingRestores(lines: seq<string>, sites: seq<Site>, i: nat)
    requires i <= |lines|
    ensures Unwoven(Woven(lines, sites, i), sites, i, |lines| - i) == lines[i..]
    decreases |lines| - i
  {
    if i < |lines| {
      DeletingRestores(lines, sites, i + 1);
      UnderWidth(sites, i + 1, lines[i]);
      var next := 1 + Width(sites, i + 1);
      assert Woven(lines, sites, i)[next..] == Woven(lines, sites, i + 1);
    }
  }

  lemma {:induction false} WovenGrows(lines: seq<string>, sites: seq<Site>)
    requires Within(sites, lines)
    ensures |Woven(lines, sites, 0)| == |lines| + Added(sites)
  {
    if sites == [] { NoSitesWoven(lines, 0); } else {
      var rest := sites[1..];
      WovenGrows(lines, rest);
      assert sites == [sites[0]] + rest;
      OneMoreGrows(lines, sites[0], rest, 0);
    }
  }

  lemma {:induction false} OneMoreGrows(lines: seq<string>, first: Site, sites: seq<Site>, i: nat)
    requires i < first.line <= |lines|
    ensures |Woven(lines, [first] + sites, i)| == |Woven(lines, sites, i)| + |first.missing|
    decreases first.line - i
  {
    hide Woven, Under, Block;
    WovenAt(lines, sites, i);
    WovenAt(lines, [first] + sites, i);
    UnderOthers(first, sites, i + 1, lines[i]);
    if i + 1 == first.line { WovenPast(lines, first, sites, i + 1); }
    else { OneMoreGrows(lines, first, sites, i + 1); }
  }
}
