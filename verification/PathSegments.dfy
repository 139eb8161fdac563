/** Paths cut at their slashes. */
module PathSegments {
  function Split(path: string): (segments: seq<string>)
    ensures segments != []
  {
    if path == "" then [""]
    else if path[0] == '/' then [""] + Split(path[1..])
    else
      var rest := Split(path[1..]);
      [[path[0]] + rest[0]] + rest[1..]
  }

  function Join(segments: seq<string>): string
    requires segments != []
  {
    if |segments| == 1 then segments[0] else segments[0] + "/" + Join(segments[1..])
  }

  lemma {:induction false} SplitSegment(segment: string, rest: string)
    requires forall i :: 0 <= i < |segment| ==> segment[i] != '/'
    ensures Split(segment + "/" + rest) == [segment] + Split(rest) && Split(segment) == [segment]
  {
    var t := segment + "/" + rest;
    if segment == "" {
      assert t[0] == '/' && t[1..] == rest;
    } else {
      SplitSegment(segment[1..], rest);
      assert t[1..] == segment[1..] + "/" + rest;
      assert ([segment[1..]] + Split(rest))[1..] == Split(rest);
      assert [segment[0]] + segment[1..] == segment;
    }
  }

  /** Splitting a path gives back the segments it was made of. */
  lemma {:induction false} SplitUndoesJoin(segments: seq<string>)
    requires segments != []
    requires forall k :: 0 <= k < |segments| ==> forall i :: 0 <= i < |segments[k]| ==> segments[k][i] != '/'
    ensures Split(Join(segments)) == segments
  {
    if |segments| == 1 {
      SplitSegment(segments[0], "");
    } else {
      SplitSegment(segments[0], Join(segments[1..]));
      SplitUndoesJoin(segments[1..]);
    }
  }
}
