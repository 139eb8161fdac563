/**
 * Which section of the reference documents a route, and the index that lists every operation
 * under its section.
 *
 * The table of prefixes is a parameter: what is proved holds of any table, given that it names
 * every section and, where the one tag of a path is meant, that it files no prefix twice.
 */
module Routes {
  import opened Common

  /** A path prefix and the tag of the section that documents it. */
  datatype Filing = Filing(prefix: string, tag: string)

  // ----- The tag of a path ----------------------------------------------------------------------

  /** A prefix matches on a segment boundary; the root matches only itself. */
  predicate Matches(prefix: string, path: string) {
    path == prefix || (prefix != "/" && prefix <= path && |prefix| < |path| && path[|prefix|] == '/')
  }

  /** A prefix matches itself and, unless it is the root, everything below it. */
  lemma MatchesIff(prefix: string, path: string)
    ensures Matches(prefix, path) <==> path == prefix || (prefix != "/" && exists rest :: path == prefix + "/" + rest)
  {
    if Matches(prefix, path) && path != prefix {
      assert path == prefix + "/" + path[|prefix| + 1..];
    }
    if prefix != "/" && exists rest :: path == prefix + "/" + rest {
      var rest :| path == prefix + "/" + rest;
      assert path[..|prefix|] == prefix;
    }
  }

  /** The last of the longest matches, as the library's maximum picks it. */
  function Longest(table: seq<Filing>, path: string): Option<Filing> {
    if table == [] then None
    else
      var f, best := table[|table| - 1], Longest(table[..|table| - 1], path);
      if Matches(f.prefix, path) && (best.None? || |f.prefix| >= |best.value.prefix|) then Some(f) else best
  }

  function TagFor(table: seq<Filing>, path: string): string {
    var f := Longest(table, path);
    if f.Some? then f.value.tag else ""
  }

  /** A filing that matches a path at least as far as any other does. */
  ghost predicate MatchesFurthest(table: seq<Filing>, path: string, f: Filing) {
    && f in table && Matches(f.prefix, path)
    && forall g :: g in table && Matches(g.prefix, path) ==> |g.prefix| <= |f.prefix|
  }

  lemma {:induction false} LongestMatches(table: seq<Filing>, path: string)
    ensures match Longest(table, path)
            case Some(f) => MatchesFurthest(table, path, f)
            case None => forall g :: g in table ==> !Matches(g.prefix, path)
  {
    if table != [] {
      var before, last := table[..|table| - 1], table[|table| - 1];
      LongestMatches(before, path);
      assert forall g :: g in table <==> g in before || g == last;
    }
  }

  /** No prefix is filed twice. */
  ghost predicate Unambiguous(table: seq<Filing>) {
    forall f, g :: f in table && g in table && f.prefix == g.prefix ==> f == g
  }

  lemma EqualLengthEqualPrefix(a: string, b: string, path: string)
    requires Matches(a, path) && Matches(b, path) && |a| == |b|
    ensures a == b
  {
    assert a == path[..|a|] && b == path[..|b|];
  }

  /** The furthest match is one filing only, and gives the path its tag. */
  lemma TagIsTheFurthestMatch(table: seq<Filing>, path: string, f: Filing)
    requires Unambiguous(table) && MatchesFurthest(table, path, f)
    ensures TagFor(table, path) == f.tag
    ensures forall g :: MatchesFurthest(table, path, g) ==> g == f
  {
    LongestMatches(table, path);
    forall g | MatchesFurthest(table, path, g) ensures g == f {
      EqualLengthEqualPrefix(f.prefix, g.prefix, path);
    }
  }

  /** The order of the table does not matter. */
  lemma TagIgnoresOrder(a: seq<Filing>, b: seq<Filing>, path: string)
    requires Unambiguous(a) && forall f :: f in a <==> f in b
    ensures TagFor(a, path) == TagFor(b, path)
  {
    LongestMatches(a, path);
    LongestMatches(b, path);
    var f := Longest(a, path);
    if f.Some? {
      assert MatchesFurthest(b, path, f.value);
      TagIsTheFurthestMatch(b, path, f.value);
    }
  }

  // ----- The index --------------------------------------------------------------------------------

  datatype Operation = Operation(verb: string, path: string, id: string, summary: string)

  datatype Group = Group(tag: string, operations: seq<Operation>)

  /** The operations of one section, in the document's order. */
  function InSection(ops: seq<Operation>, table: seq<Filing>, tag: string): seq<Operation> {
    if ops == [] then []
    else
      var rest := InSection(ops[1..], table, tag);
      if TagFor(table, ops[0].path) == tag then [ops[0]] + rest else rest
  }

  /** The groups of the sections not seen yet, from the table's entry `i` on. */
  function GroupsFrom(ops: seq<Operation>, table: seq<Filing>, i: nat, seen: set<string>): seq<Group>
    requires i <= |table|
    decreases |table| - i
  {
    if i == |table| then []
    else
      var tag := table[i].tag;
      var group := InSection(ops, table, tag);
      var rest := GroupsFrom(ops, table, i + 1, seen + {tag});
      if tag in seen || group == [] then rest else [Group(tag, group)] + rest
  }

  method RouteIndex(ops: seq<Operation>, table: seq<Filing>) returns (groups: seq<Group>)
    ensures groups == GroupsFrom(ops, table, 0, {})
  {
    groups := [];
    var seen: seq<string> := [];
    var i := 0;
    assert (set t | t in seen) == {};
    while i < |table|
      invariant 0 <= i <= |table|
      invariant groups + GroupsFrom(ops, table, i, set t | t in seen) == GroupsFrom(ops, table, 0, {})
    {
      var tag := table[i].tag;
      assert (set t | t in seen + [tag]) == (set t | t in seen) + {tag};
      if tag in seen {
        assert (set t | t in seen) + {tag} == set t | t in seen;
      } else {
        seen := seen + [tag];
        var group := Filter(ops, table, tag);
        if group != [] { groups := groups + [Group(tag, group)]; }
      }
      i := i + 1;
    }
    assert groups + [] == groups;
  }

  method Filter(ops: seq<Operation>, table: seq<Filing>, tag: string) returns (group: seq<Operation>)
    ensures group == InSection(ops, table, tag)
  {
    group := [];
    var i := 0;
    while i < |ops|
      invariant 0 <= i <= |ops| && group + InSection(ops[i..], table, tag) == InSection(ops, table, tag)
    {
      assert ops[i..][0] == ops[i] && ops[i..][1..] == ops[i + 1..];
      if TagFor(table, ops[i].path) == tag { group := group + [ops[i]]; }
      i := i + 1;
    }
    assert group + [] == group;
  }

  // ----- Every operation once ------------------------------------------------------------------------

  /** How often an operation is listed, over all the groups. */
  function Listed(groups: seq<Group>, op: Operation): nat {
    if groups == [] then 0 else Occurrences(groups[0].operations, op) + Listed(groups[1..], op)
  }

  function Lines(groups: seq<Group>): nat {
    if groups == [] then 0 else |groups[0].operations| + Lines(groups[1..])
  }

  /** A path that some prefix of the table matches. */
  predicate Filed(table: seq<Filing>, path: string) {
    exists i :: 0 <= i < |table| && Matches(table[i].prefix, path)
  }

  lemma {:induction false} OccurrencesInSection(ops: seq<Operation>, table: seq<Filing>, tag: string, op: Operation)
    ensures Occurrences(InSection(ops, table, tag), op)
            == if TagFor(table, op.path) == tag then Occurrences(ops, op) else 0
  {
    if ops != [] { OccurrencesInSection(ops[1..], table, tag, op); }
  }

  lemma {:induction false} SectionHolds(ops: seq<Operation>, table: seq<Filing>, tag: string)
    ensures forall op :: op in InSection(ops, table, tag) <==> op in ops && TagFor(table, op.path) == tag
  {
    if ops != [] { SectionHolds(ops[1..], table, tag); }
  }

  /** The tags of the entries from `i` on that have not been seen. */
  predicate ToCome(table: seq<Filing>, i: nat, seen: set<string>, tag: string) {
    tag !in seen && exists k :: i <= k < |table| && table[k].tag == tag
  }

  lemma NextToCome(table: seq<Filing>, i: nat, seen: set<string>, tag: string)
    requires i < |table|
    ensures ToCome(table, i, seen, tag)
            <==> tag !in seen && (tag == table[i].tag || ToCome(table, i + 1, seen + {table[i].tag}, tag))
  {
  }

  lemma {:induction false} ListedFrom(ops: seq<Operation>, table: seq<Filing>, i: nat, seen: set<string>, op: Operation)
    requires i <= |table|
    ensures Listed(GroupsFrom(ops, table, i, seen), op)
            == if ToCome(table, i, seen, TagFor(table, op.path)) then Occurrences(ops, op) else 0
    decreases |table| - i
  {
    if i < |table| {
      hide TagFor, InSection, Occurrences;
      var tag := table[i].tag;
      var rest := GroupsFrom(ops, table, i + 1, seen + {tag});
      ListedFrom(ops, table, i + 1, seen + {tag}, op);
      OccurrencesInSection(ops, table, tag, op);
      NextToCome(table, i, seen, TagFor(table, op.path));
      hide ToCome;
      if !(tag in seen || InSection(ops, table, tag) == []) {
        assert ([Group(tag, InSection(ops, table, tag))] + rest)[1..] == rest;
      }
    }
  }

  /** Every section filed in the table has a name. */
  ghost predicate Named(table: seq<Filing>) {
    forall f :: f in table ==> f.tag != ""
  }

  lemma FiledHasTag(table: seq<Filing>, path: string)
    requires Named(table)
    ensures Filed(table, path) <==> TagFor(table, path) != ""
    ensures Filed(table, path) ==> ToCome(table, 0, {}, TagFor(table, path))
  {
    LongestMatches(table, path);
    if i :| 0 <= i < |table| && Matches(table[i].prefix, path) {
      assert table[i] in table;
      var k :| 0 <= k < |table| && table[k] == Longest(table, path).value;
      assert table[k].tag == TagFor(table, path);
    }
  }

  lemma UnfiledIsNotToCome(table: seq<Filing>, path: string)
    requires Named(table) && !Filed(table, path)
    ensures !ToCome(table, 0, {}, TagFor(table, path))
  {
    FiledHasTag(table, path);
    forall k | 0 <= k < |table| ensures table[k].tag != "" { assert table[k] in table; }
  }

  /** The index lists an operation exactly as often as the document has it when its path is filed,
      and not at all when it is not. */
  lemma FiledIsListed(ops: seq<Operation>, table: seq<Filing>, op: Operation)
    requires Named(table)
    ensures Listed(GroupsFrom(ops, table, 0, {}), op) == if Filed(table, op.path) then Occurrences(ops, op) else 0
  {
    ListedFrom(ops, table, 0, {}, op);
    FiledHasTag(table, op.path);
    if !Filed(table, op.path) { UnfiledIsNotToCome(table, op.path); }
  }

  ghost predicate WholeSections(groups: seq<Group>, ops: seq<Operation>, table: seq<Filing>, seen: set<string>) {
    && (forall g :: g in groups ==> g.operations == InSection(ops, table, g.tag) != [] && g.tag !in seen)
    && (forall k, l :: 0 <= k < l < |groups| ==> groups[k].tag != groups[l].tag)
  }

  lemma SectionInFront(g: Group, rest: seq<Group>, ops: seq<Operation>, table: seq<Filing>, seen: set<string>)
    requires WholeSections(rest, ops, table, seen + {g.tag}) && g.tag !in seen
    requires g.operations == InSection(ops, table, g.tag) != []
    ensures WholeSections([g] + rest, ops, table, seen)
  {
    forall k | 0 <= k < |rest| ensures rest[k].tag != g.tag { assert rest[k] in rest; }
  }

  /** Every group is one whole section, no section twice, and none without operations. */
  lemma {:induction false} GroupsAreSections(ops: seq<Operation>, table: seq<Filing>, i: nat, seen: set<string>)
    requires i <= |table|
    ensures WholeSections(GroupsFrom(ops, table, i, seen), ops, table, seen)
    decreases |table| - i
  {
    if i < |table| {
      var tag := table[i].tag;
      var group := InSection(ops, table, tag);
      GroupsAreSections(ops, table, i + 1, seen + {tag});
      if tag !in seen && group != [] {
        SectionInFront(Group(tag, group), GroupsFrom(ops, table, i + 1, seen + {tag}), ops, table, seen);
      }
    }
  }

  /** How many operations have a tag still to come. */
  function Awaiting(ops: seq<Operation>, table: seq<Filing>, i: nat, seen: set<string>): nat {
    if ops == [] then 0
    else (if ToCome(table, i, seen, TagFor(table, ops[0].path)) then 1 else 0) + Awaiting(ops[1..], table, i, seen)
  }

  lemma {:induction false} OneSectionFewer(ops: seq<Operation>, table: seq<Filing>, i: nat, seen: set<string>)
    requires i < |table|
    ensures var tag := table[i].tag;
            Awaiting(ops, table, i, seen)
            == Awaiting(ops, table, i + 1, seen + {tag}) + if tag in seen then 0 else |InSection(ops, table, tag)|
  {
    if ops != [] { OneSectionFewer(ops[1..], table, i, seen); }
  }

  lemma {:induction false} NoneAwaiting(ops: seq<Operation>, table: seq<Filing>, seen: set<string>)
    ensures Awaiting(ops, table, |table|, seen) == 0
  {
    if ops != [] { NoneAwaiting(ops[1..], table, seen); }
  }

  lemma {:induction false} LinesFrom(ops: seq<Operation>, table: seq<Filing>, i: nat, seen: set<string>)
    requires i <= |table|
    ensures Lines(GroupsFrom(ops, table, i, seen)) == Awaiting(ops, table, i, seen)
    decreases |table| - i
  {
    if i == |table| { NoneAwaiting(ops, table, seen); } else {
      var tag := table[i].tag;
      var group, rest := InSection(ops, table, tag), GroupsFrom(ops, table, i + 1, seen + {tag});
      LinesFrom(ops, table, i + 1, seen + {tag});
      OneSectionFewer(ops, table, i, seen);
      assert ([Group(tag, group)] + rest)[1..] == rest;
    }
  }

  lemma {:induction false} AwaitingIff(ops: seq<Operation>, table: seq<Filing>)
    requires Named(table)
    ensures Awaiting(ops, table, 0, {}) <= |ops|
    ensures Awaiting(ops, table, 0, {}) == |ops| <==> forall op :: op in ops ==> Filed(table, op.path)
  {
    hide ToCome, Filed;
    if ops != [] {
      AwaitingIff(ops[1..], table);
      FiledHasTag(table, ops[0].path);
      if !Filed(table, ops[0].path) { UnfiledIsNotToCome(table, ops[0].path); }
      assert forall op :: op in ops <==> op == ops[0] || op in ops[1..];
    }
  }

  /** The index has as many lines as its header counts operations exactly when every path is
      filed. */
  lemma AllListedIff(ops: seq<Operation>, table: seq<Filing>)
    requires Named(table)
    ensures Lines(GroupsFrom(ops, table, 0, {})) == |ops| <==> forall op :: op in ops ==> Filed(table, op.path)
  {
    LinesFrom(ops, table, 0, {});
    AwaitingIff(ops, table);
  }
}
