/**
 * One section of a markdown document: from the line holding a heading up to the next heading of
 * the same or a shallower level.
 *
 * Offsets are what the source works with, so they are what is specified: which offsets start a
 * line, which of those lines are the heading, and which close the section it starts.
 */
module Sections {
  import opened Common
  import opened Headings

  predicate LineStart(doc: string, o: int) {
    0 <= o <= |doc| && (o == 0 || doc[o - 1] == '\n')
  }

  /** The line at an offset is the whole heading. */
  predicate HeadsAt(doc: string, o: int, heading: string) {
    && LineStart(doc, o) && heading <= doc[o..]
    && (o + |heading| == |doc| || doc[o + |heading|] == '\n' || doc[o + |heading|] == '\r')
  }

  /** The line at an offset is a heading of at most that many hashes. */
  predicate Closes(doc: string, o: int, level: nat) {
    LineStart(doc, o) && 0 < Hashes(doc[o..]) <= level
  }

  /** The section is `doc[from..upTo]`: it starts at the first line that is the heading and runs to
      the first later line that closes it, or to the end. */
  ghost predicate Spans(doc: string, heading: string, from: int, upTo: int) {
    && HeadsAt(doc, from, heading) && (forall o :: 0 <= o < from ==> !HeadsAt(doc, o, heading))
    && from < upTo <= |doc| && (upTo == |doc| || Closes(doc, upTo, Hashes(heading)))
    && (forall o :: from < o < upTo ==> !Closes(doc, o, Hashes(heading)))
  }

  predicate OneLine(heading: string) {
    heading != "" && forall i :: 0 <= i < |heading| ==> heading[i] != '\n'
  }

  // ----- The two loops ----------------------------------------------------------------------------

  /** No line starts inside a match of a heading of one line. */
  lemma NoLineInside(doc: string, at: nat, heading: string, o: int)
    requires OneLine(heading) && at <= |doc| && heading <= doc[at..] && at < o < at + |heading|
    ensures !LineStart(doc, o)
  {
    assert doc[at..][o - 1 - at] == heading[o - 1 - at];
  }

  /** The first match that is a whole line. Matches are taken one after another without overlap,
      and none that matters is stepped over. */
  method FindHeading(doc: string, heading: string) returns (start: Option<nat>)
    requires OneLine(heading)
    ensures start.Some? ==> HeadsAt(doc, start.value, heading)
                            && forall o :: 0 <= o < start.value ==> !HeadsAt(doc, o, heading)
    ensures start.None? ==> forall o :: !HeadsAt(doc, o, heading)
  {
    var at := 0;
    while at + |heading| <= |doc|
      invariant forall o :: 0 <= o < at ==> !HeadsAt(doc, o, heading)
      decreases |doc| - at
    {
      if doc[at..at + |heading|] == heading {
        assert heading <= doc[at..];
        if (at == 0 || doc[at - 1] == '\n')
           && (at + |heading| == |doc| || doc[at + |heading|] == '\n' || doc[at + |heading|] == '\r') {
          return Some(at);
        }
        forall o | at < o < at + |heading| ensures !HeadsAt(doc, o, heading) { NoLineInside(doc, at, heading, o); }
        at := at + |heading|;
      } else {
        assert !(heading <= doc[at..]);
        at := at + 1;
      }
    }
    start := None;
  }

  /** The end of the line at an offset, over its line break. */
  method LineEnd(doc: string, o: nat) returns (e: nat)
    requires o < |doc|
    ensures o < e <= |doc| && (e == |doc| || LineStart(doc, e)) && forall k :: o < k < e ==> !LineStart(doc, k)
  {
    e := o + 1;
    while e < |doc| && doc[e - 1] != '\n'
      invariant o < e <= |doc| && forall k :: o < k < e ==> !LineStart(doc, k)
    {
      e := e + 1;
    }
  }

  method Section(doc: string, heading: string) returns (span: Option<(nat, nat)>)
    requires OneLine(heading)
    ensures span.Some? ==> Spans(doc, heading, span.value.0, span.value.1)
    ensures span.None? ==> forall o :: !HeadsAt(doc, o, heading)
  {
    var start := FindHeading(doc, heading);
    if start.None? { return None; }
    var from := start.value;
    assert |doc| > from;
    var level := Hashes(heading);
    var at := from;
    while at < |doc|
      invariant from <= at <= |doc| && (at == |doc| || LineStart(doc, at))
      invariant forall o :: from < o < at ==> !Closes(doc, o, level)
      decreases |doc| - at
    {
      if at > from && doc[at] == '#' && Hashes(doc[at..]) <= level { return Some((from, at)); }
      at := LineEnd(doc, at);
    }
    span := Some((from, at));
  }

  /** Only one pair of offsets is the section. */
  lemma SpansOnce(doc: string, heading: string, a: int, b: int, c: int, d: int)
    requires Spans(doc, heading, a, b) && Spans(doc, heading, c, d)
    ensures a == c && b == d
  {
  }

  // ----- A section of a section -----------------------------------------------------------------------

  /** A slice that starts a line and ends with one. */
  ghost predicate WholeLines(doc: string, from: int, upTo: int) {
    LineStart(doc, from) && from < upTo <= |doc| && (upTo == |doc| || doc[upTo - 1] == '\n')
  }

  lemma {:induction false} HashesOfLine(t: string, n: nat)
    requires n <= |t| && (n == |t| || (n > 0 && t[n - 1] == '\n'))
    ensures Hashes(t[..n]) == Hashes(t)
  {
    if n == |t| { assert t[..n] == t; }
    else if t[0] == '#' {
      assert t[..n][1..] == t[1..][..n - 1];
      HashesOfLine(t[1..], n - 1);
    }
  }

  lemma ClosesInSlice(doc: string, from: int, upTo: int, o: int, level: nat)
    requires WholeLines(doc, from, upTo) && 0 <= o < upTo - from
    ensures Closes(doc[from..upTo], o, level) <==> Closes(doc, from + o, level)
  {
    var slice := doc[from..upTo];
    assert slice[o..] == doc[from + o..][..upTo - from - o];
    HashesOfLine(doc[from + o..], upTo - from - o);
  }

  lemma NoBreakInside(doc: string, at: int, heading: string)
    requires OneLine(heading) && 0 <= at <= |doc| && heading <= doc[at..]
    ensures forall k :: at <= k < at + |heading| ==> doc[k] != '\n'
  {
    forall k | at <= k < at + |heading| ensures doc[k] != '\n' { assert doc[at..][k - at] == heading[k - at]; }
  }

  lemma HeadsInSlice(doc: string, from: int, upTo: int, o: int, heading: string)
    requires WholeLines(doc, from, upTo) && OneLine(heading) && 0 <= o < upTo - from
    ensures HeadsAt(doc[from..upTo], o, heading) <==> HeadsAt(doc, from + o, heading)
  {
    var slice := doc[from..upTo];
    assert slice[o..] == doc[from + o..upTo];
    if heading <= doc[from + o..] {
      NoBreakInside(doc, from + o, heading);
      assert heading == doc[from + o..][..|heading|];
    }
  }

  lemma SpansWholeLines(doc: string, heading: string, from: int, upTo: int)
    requires Spans(doc, heading, from, upTo)
    ensures WholeLines(doc, from, upTo)
  {
  }

  /** A deeper heading's section ends no later than the section it starts in. */
  lemma InnerEndsInside(doc: string, outer: string, inner: string, a: int, b: int, c: int, d: int)
    requires Hashes(outer) < Hashes(inner) && Spans(doc, outer, a, b) && Spans(doc, inner, c, d) && a <= c < b
    ensures d <= b
  {
    assert b < |doc| ==> Closes(doc, b, Hashes(inner));
  }

  ghost predicate AlikeInSlice(doc: string, a: int, b: int, heading: string, level: nat)
    requires 0 <= a <= b <= |doc|
  {
    forall o :: 0 <= o < b - a ==>
      && (HeadsAt(doc[a..b], o, heading) <==> HeadsAt(doc, a + o, heading))
      && (Closes(doc[a..b], o, level) <==> Closes(doc, a + o, level))
  }

  lemma SliceIsAlike(doc: string, a: int, b: int, heading: string, level: nat)
    requires WholeLines(doc, a, b) && OneLine(heading)
    ensures AlikeInSlice(doc, a, b, heading, level)
  {
    hide HeadsAt, Closes;
    forall o | 0 <= o < b - a
      ensures (HeadsAt(doc[a..b], o, heading) <==> HeadsAt(doc, a + o, heading))
              && (Closes(doc[a..b], o, level) <==> Closes(doc, a + o, level))
    {
      HeadsInSlice(doc, a, b, o, heading);
      ClosesInSlice(doc, a, b, o, level);
    }
  }

  lemma SpansInSlice(doc: string, heading: string, a: int, b: int, c: int, d: int)
    requires 0 <= a <= c < d <= b <= |doc| && Spans(doc, heading, c, d)
    requires AlikeInSlice(doc, a, b, heading, Hashes(heading))
    ensures Spans(doc[a..b], heading, c - a, d - a)
  {
    hide HeadsAt, Closes, Hashes;
    forall o | 0 <= o < c - a ensures !HeadsAt(doc[a..b], o, heading) { assert !HeadsAt(doc, a + o, heading); }
    forall o | c - a < o < d - a ensures !Closes(doc[a..b], o, Hashes(heading)) {
      assert !Closes(doc, a + o, Hashes(heading));
    }
    assert HeadsAt(doc, a + (c - a), heading) && (d < b ==> Closes(doc, a + (d - a), Hashes(heading)));
  }

  lemma SpansInRange(doc: string, heading: string, from: int, upTo: int)
    requires Spans(doc, heading, from, upTo)
    ensures 0 <= from < upTo <= |doc|
  {
  }

  lemma SliceOfSlice(doc: string, a: int, b: int, c: int, d: int)
    requires 0 <= a <= c <= d <= b <= |doc|
    ensures doc[a..b][c - a..d - a] == doc[c..d]
  {
    var slice := doc[a..b];
    forall k | 0 <= k < d - c ensures slice[c - a..d - a][k] == doc[c..d][k] {
      assert slice[c - a..d - a][k] == slice[c - a + k] == doc[c + k];
    }
  }

  /** Taken from the section it lies in, a deeper heading's section is the one the document gives. */
  lemma InnerSection(doc: string, outer: string, inner: string, a: int, b: int, c: int, d: int)
    requires OneLine(inner) && Hashes(outer) < Hashes(inner)
    requires Spans(doc, outer, a, b) && Spans(doc, inner, c, d) && a <= c < b
    ensures d <= b && Spans(doc[a..b], inner, c - a, d - a) && doc[a..b][c - a..d - a] == doc[c..d]
  {
    hide Spans, AlikeInSlice, Hashes;
    SpansInRange(doc, outer, a, b);
    SpansInRange(doc, inner, c, d);
    InnerEndsInside(doc, outer, inner, a, b, c, d);
    SpansWholeLines(doc, outer, a, b);
    SliceIsAlike(doc, a, b, inner, Hashes(inner));
    SpansInSlice(doc, inner, a, b, c, d);
    SliceOfSlice(doc, a, b, c, d);
  }

  // ----- Lines that only look like headings -------------------------------------------------------------

  function FirstBreak(text: string): (n: nat)
    ensures n <= |text|
  {
    if text == "" || text[0] == '\n' then 0 else 1 + FirstBreak(text[1..])
  }

  function Lines(text: string): seq<string>
    decreases |text|
  {
    var n := FirstBreak(text);
    if text == "" then [] else if n == |text| then [text] else [text[..n]] + Lines(text[n + 1..])
  }

  /** The fence left open after some lines, if any. */
  function OpenFence(lines: seq<string>, fence: Option<char>): Option<char> {
    if lines == [] then fence
    else
      var m := Marker(lines[0]);
      OpenFence(lines[1..], if m.None? then fence else if fence == m then None else if fence.None? then m else fence)
  }

  /** The line at an offset lies in a fenced block. */
  predicate Fenced(doc: string, o: int) {
    0 <= o <= |doc| && OpenFence(Lines(doc[..o]), None).Some?
  }

  /** The line at an offset is a heading of at most that many hashes, as headings are read
      everywhere else: outside fenced blocks, a space after one to six hashes. */
  predicate IsHeading(doc: string, o: int, level: nat) {
    LineStart(doc, o) && !Fenced(doc, o)
    && var n := Hashes(doc[o..]); 0 < n <= level && n <= 6 && o + n < |doc| && doc[o + n] == ' '
  }

  /** `doc[from..upTo]` runs from the first line that is the heading to the next heading of its
      level or above. */
  ghost predicate RunsToNextHeading(doc: string, heading: string, from: int, upTo: int) {
    && HeadsAt(doc, from, heading) && (forall o :: 0 <= o < from ==> !HeadsAt(doc, o, heading))
    && from < upTo <= |doc| && (upTo == |doc| || IsHeading(doc, upTo, Hashes(heading)))
    && (forall o :: from < o < upTo ==> !IsHeading(doc, o, Hashes(heading)))
  }

  /** A line that starts with so few hashes without being a heading: it lies in a fenced block, or
      no space follows its hashes. */
  ghost predicate LooksLikeHeading(doc: string, o: int, level: nat) {
    Closes(doc, o, level) && !IsHeading(doc, o, level)
  }

  /** The section reaches the next heading exactly when no line before that one only looks like a
      heading; otherwise it is cut short. */
  lemma ReachesNextHeadingIff(doc: string, heading: string, from: int, next: int, upTo: int)
    requires RunsToNextHeading(doc, heading, from, next) && Spans(doc, heading, from, upTo)
    ensures upTo == next <==> forall o :: from < o < next ==> !LooksLikeHeading(doc, o, Hashes(heading))
    ensures upTo <= next
  {
    hide Hashes, HeadsAt, Fenced;
    HeadingCloses(doc, next, Hashes(heading));
    if upTo < next { assert LooksLikeHeading(doc, upTo, Hashes(heading)); }
  }

  lemma HeadingCloses(doc: string, o: int, level: nat)
    ensures IsHeading(doc, o, level) ==> Closes(doc, o, level)
  {
  }

  lemma {:induction false} FirstBreakAfter(line: string, rest: string)
    requires '\n' !in line
    ensures FirstBreak(line + ['\n'] + rest) == |line|
  {
    if line != "" {
      assert (line + ['\n'] + rest)[1..] == line[1..] + ['\n'] + rest;
      FirstBreakAfter(line[1..], rest);
    }
  }

  lemma LinesCons(line: string, rest: string)
    requires '\n' !in line
    ensures Lines(line + ['\n'] + rest) == [line] + Lines(rest)
  {
    FirstBreakAfter(line, rest);
    assert (line + ['\n'] + rest)[..|line|] == line && (line + ['\n'] + rest)[|line| + 1..] == rest;
  }

  const CUT: string := "# A\n```\n# b\n```\n"

  lemma OneFenceOpens()
    ensures OpenFence(["# A", "```"], None) == Some('`')
  {
    var fence := ["```"];
    assert Marker("# A").None? && Marker("```") == Some('`');
    assert OpenFence(fence, None) == OpenFence([], Some('`'));
    assert ["# A", "```"][1..] == fence;
  }

  lemma LinesThere()
    ensures Lines(CUT[..8]) == ["# A", "```"]
  {
    hide Lines, FirstBreak;
    NoLines();
    LinesCons("# A", "```\n");
    LinesCons("```", "");
    assert CUT[..8] == "# A" + ['\n'] + "```\n" && "```\n" == "```" + ['\n'] + "";
    assert ["```"] + [] == ["```"] && ["# A"] + ["```"] == ["# A", "```"];
  }

  lemma NoLines()
    ensures Lines("") == []
  {
  }

  lemma FenceIsOpen()
    ensures Fenced(CUT, 8)
  {
    hide Lines, OpenFence;
    LinesThere();
    OneFenceOpens();
  }

  lemma HashesThere()
    ensures Hashes("# A") == 1 && Hashes(CUT[4..]) == 0 && Hashes(CUT[8..]) == 1 && Hashes(CUT[12..]) == 0
  {
    assert CUT[4..][0] == '`' && CUT[12..][0] == '`';
    assert CUT[8..][0] == '#' && CUT[8..][1..][0] == ' ';
  }

  /** A comment in a fenced block cuts its section short. */
  lemma FencedCommentCuts()
    ensures Spans(CUT, "# A", 0, 8) && RunsToNextHeading(CUT, "# A", 0, |CUT|)
  {
    hide Fenced, Hashes;
    FenceIsOpen();
    HashesThere();
    assert CUT[0..][..3] == "# A";
    assert HeadsAt(CUT, 0, "# A");
    forall o | 0 < o < |CUT| && LineStart(CUT, o) ensures o == 4 || o == 8 || o == 12 {}
  }
}
