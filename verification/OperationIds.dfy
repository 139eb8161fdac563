/**
 * The id of an operation, spelt from its verb and its path, and which operations share one.
 *
 * Nothing in the code rules a shared id out. What is proved is what an id tells: the words it is
 * spelt from, as long as each starts with a letter and has no capital of its own.
 */
module OperationIds {
  import opened PathSegments

  datatype Verb = Get | Post | Put | Delete

  predicate IsUpper(c: char) { 'A' <= c <= 'Z' }

  predicate IsLower(c: char) { 'a' <= c <= 'z' }

  predicate InWord(c: char) { IsUpper(c) || IsLower(c) || '0' <= c <= '9' }

  function Upper(c: char): char {
    if IsLower(c) then 'A' + (c - 'a') else c
  }

  // ----- Spelling ---------------------------------------------------------------------------------

  function Run(t: string): (n: nat)
    ensures n <= |t| && (t != "" && InWord(t[0]) ==> n > 0)
  {
    if t == "" || !InWord(t[0]) then 0 else 1 + Run(t[1..])
  }

  /** The words of a segment: its runs of letters and digits. */
  function Words(t: string): seq<string>
    decreases |t|
  {
    if t == "" then []
    else if !InWord(t[0]) then Words(t[1..])
    else [t[..Run(t)]] + Words(t[Run(t)..])
  }

  function Capital(word: string): string {
    if word == "" then "" else [Upper(word[0])] + word[1..]
  }

  /** Words run together, each with a capital. */
  function Glued(words: seq<string>): string {
    if words == [] then "" else Capital(words[0]) + Glued(words[1..])
  }

  function VerbWord(verb: Verb, created: bool, lists: bool): string {
    match verb
    case Get => if lists then "list" else "get"
    case Post => if created then "create" else "run"
    case Put => "upsert"
    case Delete => "delete"
  }

  predicate IsParameter(segment: string) {
    segment != "" && segment[0] == '{'
  }

  function Literals(segments: seq<string>): seq<string> {
    if segments == [] then []
    else if segments[0] == "" || IsParameter(segments[0]) then Literals(segments[1..])
    else [segments[0]] + Literals(segments[1..])
  }

  function Parameters(segments: seq<string>): seq<string> {
    if segments == [] then []
    else if IsParameter(segments[0]) then [segments[0]] + Parameters(segments[1..])
    else Parameters(segments[1..])
  }

  function AllWords(segments: seq<string>): seq<string> {
    if segments == [] then [] else Words(segments[0]) + AllWords(segments[1..])
  }

  /** The words of the parameters, a joining word before each. */
  function JoinedWords(parameters: seq<string>, first: bool): seq<string> {
    if parameters == [] then []
    else [if first then "by" else "and"] + Words(parameters[0]) + JoinedWords(parameters[1..], false)
  }

  /** The words an id is spelt from, after the verb's. */
  function Spelt(path: string): seq<string> {
    var literals := Literals(Split(path));
    (if literals == [] then ["index"] else AllWords(literals)) + JoinedWords(Parameters(Split(path)), true)
  }

  function OperationId(verb: Verb, path: string, created: bool, lists: bool): string {
    VerbWord(verb, created, lists) + Glued(Spelt(path))
  }

  lemma {:induction false} GluedBoth(a: seq<string>, b: seq<string>)
    ensures Glued(a + b) == Glued(a) + Glued(b)
  {
    if a == [] { assert a + b == b; } else {
      assert (a + b)[1..] == a[1..] + b;
      GluedBoth(a[1..], b);
    }
  }

  /** The segments with something in them, the parameters apart. */
  method Partition(segments: seq<string>) returns (parameters: seq<string>, literals: seq<string>)
    ensures parameters == Parameters(segments) && literals == Literals(segments)
  {
    parameters, literals := [], [];
    var i := 0;
    while i < |segments|
      invariant 0 <= i <= |segments|
      invariant parameters + Parameters(segments[i..]) == Parameters(segments)
      invariant literals + Literals(segments[i..]) == Literals(segments)
    {
      assert segments[i..][0] == segments[i] && segments[i..][1..] == segments[i + 1..];
      if IsParameter(segments[i]) {
        parameters := parameters + [segments[i]];
      } else if segments[i] != "" {
        literals := literals + [segments[i]];
      }
      i := i + 1;
    }
    assert parameters + [] == parameters && literals + [] == literals;
  }

  method SpellLiterals(word: string, literals: seq<string>) returns (id: string)
    ensures id == word + Glued(AllWords(literals))
  {
    hide Words, Glued, Capital;
    NothingGlued();
    id := word;
    var i := 0;
    while i < |literals|
      invariant 0 <= i <= |literals| && id + Glued(AllWords(literals[i..])) == word + Glued(AllWords(literals))
    {
      assert literals[i..][0] == literals[i] && literals[i..][1..] == literals[i + 1..];
      var piece := Words(literals[i]);
      GluedBoth(piece, AllWords(literals[i + 1..]));
      Regroup(id, Glued(piece), Glued(AllWords(literals[i + 1..])));
      id := id + Glued(piece);
      i := i + 1;
    }
    assert id + "" == id;
  }

  lemma NothingGlued()
    ensures Glued([]) == ""
  {
  }

  lemma Regroup(a: string, b: string, c: string)
    ensures a + (b + c) == (a + b) + c
  {
  }

  method SpellParameters(word: string, parameters: seq<string>) returns (id: string)
    ensures id == word + Glued(JoinedWords(parameters, true))
  {
    hide Words, Glued, Capital;
    NothingGlued();
    JoiningWords();
    id := word;
    var i := 0;
    while i < |parameters|
      invariant 0 <= i <= |parameters|
      invariant id + Glued(JoinedWords(parameters[i..], i == 0)) == word + Glued(JoinedWords(parameters, true))
    {
      assert parameters[i..][0] == parameters[i] && parameters[i..][1..] == parameters[i + 1..];
      var join, piece := if i == 0 then "By" else "And", Words(parameters[i]);
      ghost var rest := JoinedWords(parameters[i + 1..], false);
      JoinedGlued(if i == 0 then "by" else "and", piece, rest);
      Regroup(id, join + Glued(piece), Glued(rest));
      Regroup(id, join, Glued(piece));
      id := id + join;
      id := id + Glued(piece);
      i := i + 1;
    }
    assert id + "" == id;
  }

  lemma JoinedGlued(join: string, piece: seq<string>, rest: seq<string>)
    ensures Glued([join] + piece + rest) == Glued([join]) + Glued(piece) + Glued(rest)
  {
    GluedBoth([join] + piece, rest);
    GluedBoth([join], piece);
  }

  /** The id, piece by piece. */
  method Spell(verb: Verb, path: string, created: bool, lists: bool) returns (id: string)
    ensures id == OperationId(verb, path, created, lists)
  {
    hide Split, Literals, Parameters, AllWords, JoinedWords, Glued;
    var parameters, literals := Partition(Split(path));
    id := VerbWord(verb, created, lists);
    ghost var word := id;
    if literals == [] { id := id + "Index"; }
    id := SpellLiterals(id, literals);
    id := SpellParameters(id, parameters);
    SpeltPieces(path, word);
  }

  lemma SpeltPieces(path: string, word: string)
    ensures var literals, parameters := Literals(Split(path)), Parameters(Split(path));
            var id := if literals == [] then word + "Index" else word;
            id + Glued(AllWords(literals)) + Glued(JoinedWords(parameters, true)) == word + Glued(Spelt(path))
  {
    hide Split, Literals, Parameters, JoinedWords, Words;
    var literals, parameters := Literals(Split(path)), Parameters(Split(path));
    var words := if literals == [] then ["index"] else AllWords(literals);
    assert Glued(["index"]) == "Index" by { assert Capital("index") == "Index"; }
    assert AllWords([]) == [] && Glued([]) == "";
    hide Glued, AllWords;
    GluedBoth(words, JoinedWords(parameters, true));
    Regroup(word, Glued(words), Glued(JoinedWords(parameters, true)));
  }

  lemma JoiningWords()
    ensures Glued(["by"]) == "By" && Glued(["and"]) == "And"
  {
    assert Capital("by") == "By" && Capital("and") == "And";
  }

  // ----- What an id tells -----------------------------------------------------------------------------

  /** A letter first, and no capital. */
  predicate Lowly(word: string) {
    word != "" && IsLower(word[0]) && forall i :: 0 <= i < |word| ==> !IsUpper(word[i])
  }

  /** How far it is to the next capital. */
  function ToCapital(t: string): (n: nat)
    ensures n <= |t|
  {
    if t == "" || IsUpper(t[0]) then 0 else 1 + ToCapital(t[1..])
  }

  /** A text cut before every capital. */
  function Humps(t: string): seq<string>
    decreases |t|
  {
    if t == "" then []
    else
      var n := 1 + ToCapital(t[1..]);
      [t[..n]] + Humps(t[n..])
  }

  lemma {:induction false} ToCapitalPast(tail: string, rest: string)
    requires (forall i :: 0 <= i < |tail| ==> !IsUpper(tail[i])) && (rest == "" || IsUpper(rest[0]))
    ensures ToCapital(tail + rest) == |tail|
  {
    if tail == "" { assert tail + rest == rest; } else {
      assert (tail + rest)[1..] == tail[1..] + rest;
      ToCapitalPast(tail[1..], rest);
    }
  }

  /** A first letter and no capital after it. */
  predicate IsHump(t: string) {
    t != "" && forall i :: 0 < i < |t| ==> !IsUpper(t[i])
  }

  predicate StartsHigh(t: string) {
    t == "" || IsUpper(t[0])
  }

  lemma HumpsStep(t: string)
    requires t != ""
    ensures var n := 1 + ToCapital(t[1..]); Humps(t) == [t[..n]] + Humps(t[n..])
  {
  }

  /** A hump, and then the end or a capital. */
  lemma FirstHump(first: string, rest: string)
    requires IsHump(first) && StartsHigh(rest)
    ensures Humps(first + rest) == [first] + Humps(rest)
  {
    hide Humps;
    var t := first + rest;
    ToCapitalPast(first[1..], rest);
    assert t[1..] == first[1..] + rest && t[..|first|] == first && t[|first|..] == rest;
    HumpsStep(t);
  }

  function Capitals(words: seq<string>): (r: seq<string>)
    ensures |r| == |words| && forall i :: 0 <= i < |r| ==> r[i] == Capital(words[i])
  {
    seq(|words|, i requires 0 <= i < |words| => Capital(words[i]))
  }

  lemma CapitalStarts(words: seq<string>)
    requires forall w :: w in words ==> Lowly(w)
    ensures StartsHigh(Glued(words))
  {
    if words != [] { assert words[0] in words; }
  }

  lemma CapitalIsHump(word: string)
    requires Lowly(word)
    ensures IsHump(Capital(word))
  {
  }

  lemma CapitalsStep(words: seq<string>)
    requires words != []
    ensures Capitals(words) == [Capital(words[0])] + Capitals(words[1..])
    ensures Glued(words) == Capital(words[0]) + Glued(words[1..])
  {
    hide Capital;
    var r := [Capital(words[0])] + Capitals(words[1..]);
    forall i | 0 <= i < |words| ensures Capitals(words)[i] == r[i] {
      if i > 0 { assert r[i] == Capitals(words[1..])[i - 1] == Capital(words[i]); }
    }
  }

  lemma {:induction false} HumpsOfGlued(words: seq<string>)
    requires forall w :: w in words ==> Lowly(w)
    ensures Humps(Glued(words)) == Capitals(words)
  {
    if words == [] {
    } else {
      hide Humps, Capital, Lowly, IsHump, StartsHigh, Glued;
      assert words[0] in words && forall w :: w in words[1..] ==> w in words;
      CapitalIsHump(words[0]);
      HumpsOfGlued(words[1..]);
      CapitalStarts(words[1..]);
      FirstHump(Capital(words[0]), Glued(words[1..]));
      CapitalsStep(words);
    }
  }

  lemma VerbWordIsLow(verb: Verb, created: bool, lists: bool)
    ensures var word := VerbWord(verb, created, lists);
            IsHump(word)
  {
  }

  /** Cutting an id before its capitals gives the verb's word and the words it was spelt from. */
  lemma HumpsOfId(verb: Verb, path: string, created: bool, lists: bool)
    requires forall w :: w in Spelt(path) ==> Lowly(w)
    ensures Humps(OperationId(verb, path, created, lists))
            == [VerbWord(verb, created, lists)] + Capitals(Spelt(path))
  {
    hide Spelt, Humps, Glued, Lowly, Capital, IsHump, StartsHigh, VerbWord;
    VerbWordIsLow(verb, created, lists);
    HumpsOfGlued(Spelt(path));
    CapitalStarts(Spelt(path));
    FirstHump(VerbWord(verb, created, lists), Glued(Spelt(path)));
  }

  lemma CapitalTells(a: string, b: string)
    requires Lowly(a) && Lowly(b) && Capital(a) == Capital(b)
    ensures a == b
  {
    assert a == [a[0]] + a[1..] && b == [b[0]] + b[1..];
    assert Capital(a)[1..] == a[1..] && Capital(b)[1..] == b[1..];
    assert Upper(a[0]) == Capital(a)[0] == Capital(b)[0] == Upper(b[0]);
  }

  lemma CapitalsTell(a: seq<string>, b: seq<string>)
    requires (forall w :: w in a ==> Lowly(w)) && (forall w :: w in b ==> Lowly(w)) && Capitals(a) == Capitals(b)
    ensures a == b
  {
    assert |a| == |Capitals(a)| == |Capitals(b)| == |b|;
    forall i | 0 <= i < |a| ensures a[i] == b[i] {
      assert Capitals(a)[i] == Capitals(b)[i];
      CapitalTells(a[i], b[i]);
    }
  }

  /** Two operations share an id exactly when their verbs read alike and their paths have the same
      words in the same order: where one path has a slash, the other may have a hyphen. */
  lemma SameIdIff(verb: Verb, path: string, created: bool, lists: bool,
                  verb': Verb, path': string, created': bool, lists': bool)
    requires (forall w :: w in Spelt(path) ==> Lowly(w)) && (forall w :: w in Spelt(path') ==> Lowly(w))
    ensures OperationId(verb, path, created, lists) == OperationId(verb', path', created', lists')
            <==> VerbWord(verb, created, lists) == VerbWord(verb', created', lists') && Spelt(path) == Spelt(path')
  {
    hide Spelt, Humps, Glued, Lowly, VerbWord;
    if OperationId(verb, path, created, lists) == OperationId(verb', path', created', lists') {
      HumpsOfId(verb, path, created, lists);
      HumpsOfId(verb', path', created', lists');
      var a, b := [VerbWord(verb, created, lists)] + Capitals(Spelt(path)),
                  [VerbWord(verb', created', lists')] + Capitals(Spelt(path'));
      assert a == b && a[0] == b[0] && a[1..] == Capitals(Spelt(path)) && b[1..] == Capitals(Spelt(path'));
      CapitalsTell(Spelt(path), Spelt(path'));
    }
  }

  /** Where a word starts with a digit its id tells less: these two paths share theirs. */
  lemma DigitsRunOn()
    ensures OperationId(Get, "/x/1", false, false) == OperationId(Get, "/x1", false, false)
    ensures Spelt("/x/1") == ["x", "1"] && Spelt("/x1") == ["x1"]
  {
    hide Spelt, Split;
    SpeltInTwo("x", "1");
    SpeltInOne("x1");
    assert "/x/1" == "/" + "x" + "/" + "1" && "/x1" == "/" + "x1";
    assert Glued(["x", "1"]) == "X" + Glued(["1"]) && Glued(["1"]) == "1" && Glued(["x1"]) == "X1";
  }

  predicate AllInWord(t: string) {
    t != "" && forall i :: 0 <= i < |t| ==> InWord(t[i])
  }

  lemma SpeltInOne(a: string)
    requires AllInWord(a)
    ensures Spelt("/" + a) == [a]
  {
    hide Split, Words, Literals, Parameters, AllWords;
    assert "/" + a == "" + "/" + a;
    SplitSegment("", a);
    SplitSegment(a, "");
    OneWord(a);
    EmptySegment([a]);
    OneLiteral(a, []);
    assert [""] + [a] == ["", a] && [a] + [] == [a];
  }

  lemma SpeltInTwo(a: string, b: string)
    requires AllInWord(a) && AllInWord(b)
    ensures Spelt("/" + a + "/" + b) == [a, b]
  {
    hide Split, Words, Literals, Parameters, AllWords;
    assert "/" + a + "/" + b == "" + "/" + (a + "/" + b);
    SplitSegment("", a + "/" + b);
    SplitSegment(a, b);
    SplitSegment(b, "");
    OneWord(a);
    OneWord(b);
    EmptySegment([a] + [b]);
    OneLiteral(a, [b]);
    OneLiteral(b, []);
    assert [b] + [] == [b];
  }

  lemma EmptySegment(rest: seq<string>)
    ensures Literals([""] + rest) == Literals(rest) && Parameters([""] + rest) == Parameters(rest)
    ensures Literals([]) == Parameters([]) == AllWords([]) == []
  {
    assert ([""] + rest)[1..] == rest;
  }

  lemma {:induction false} RunIsAll(t: string)
    requires forall i :: 0 <= i < |t| ==> InWord(t[i])
    ensures Run(t) == |t|
  {
    if t != "" { RunIsAll(t[1..]); }
  }

  lemma OneWord(t: string)
    requires AllInWord(t)
    ensures Words(t) == [t] && !IsParameter(t)
  {
    RunIsAll(t);
    assert t[..|t|] == t && t[|t|..] == "";
  }

  /** A segment of one word in front of others. */
  lemma OneLiteral(word: string, rest: seq<string>)
    requires word != "" && Words(word) == [word] && !IsParameter(word)
    ensures Literals([word] + rest) == [word] + Literals(rest)
    ensures Parameters([word] + rest) == Parameters(rest)
    ensures AllWords([word] + rest) == [word] + AllWords(rest)
  {
    assert ([word] + rest)[1..] == rest;
  }

  // ----- What an id reads ---------------------------------------------------------------------------

  /** Letters and digits, and a letter's capital, by their codes. */
  lemma InWordMeans(c: char)
    ensures InWord(c) <==> var n := c as int; 48 <= n < 58 || 65 <= n < 91 || 97 <= n < 123
    ensures Upper(c) as int == if 97 <= c as int < 123 then c as int - 32 else c as int
  {
  }

  predicate Gap(t: string) {
    forall i :: 0 <= i < |t| ==> !InWord(t[i])
  }

  /** Words with something between them, whatever follows the last. */
  predicate Apart(words: seq<string>, gaps: seq<string>) {
    && |gaps| == |words| && (forall i :: 0 <= i < |words| ==> AllInWord(words[i]) && Gap(gaps[i]))
    && forall i :: 0 <= i < |words| - 1 ==> gaps[i] != ""
  }

  function Spread(words: seq<string>, gaps: seq<string>): string
    requires |gaps| == |words|
  {
    if words == [] then "" else words[0] + (gaps[0] + Spread(words[1..], gaps[1..]))
  }

  lemma {:induction false} GapHasNoWord(gap: string, rest: string)
    requires Gap(gap)
    ensures Words(gap + rest) == Words(rest)
  {
    if gap == "" { assert gap + rest == rest; } else {
      assert (gap + rest)[1..] == gap[1..] + rest;
      GapHasNoWord(gap[1..], rest);
    }
  }

  lemma {:induction false} RunPast(word: string, rest: string)
    requires (forall i :: 0 <= i < |word| ==> InWord(word[i])) && (rest == "" || !InWord(rest[0]))
    ensures Run(word + rest) == |word|
  {
    if word == "" { assert word + rest == rest; } else {
      assert (word + rest)[1..] == word[1..] + rest;
      RunPast(word[1..], rest);
    }
  }

  lemma FirstWord(word: string, rest: string)
    requires AllInWord(word) && (rest == "" || !InWord(rest[0]))
    ensures Words(word + rest) == [word] + Words(rest)
  {
    RunPast(word, rest);
    assert (word + rest)[..|word|] == word && (word + rest)[|word|..] == rest;
  }

  /** A text's words are what stands between what is no letter and no digit. */
  lemma {:induction false} WordsAreThose(lead: string, words: seq<string>, gaps: seq<string>)
    requires Gap(lead) && Apart(words, gaps)
    ensures Words(lead + Spread(words, gaps)) == words
    decreases |words|
  {
    GapHasNoWord(lead, Spread(words, gaps));
    if words != [] {
      hide Words, Spread, AllInWord;
      SpreadFirst(words, gaps);
      WordsAreThose(gaps[0], words[1..], gaps[1..]);
      assert [words[0]] + words[1..] == words;
    }
  }

  lemma SpreadFirst(words: seq<string>, gaps: seq<string>)
    requires Apart(words, gaps) && words != []
    ensures Gap(gaps[0]) && Apart(words[1..], gaps[1..])
    ensures Words(Spread(words, gaps)) == [words[0]] + Words(gaps[0] + Spread(words[1..], gaps[1..]))
  {
    hide Words;
    FirstWord(words[0], gaps[0] + Spread(words[1..], gaps[1..]));
  }

  lemma OneParameter(word: string, rest: seq<string>)
    requires AllInWord(word)
    ensures var segment := "{" + word + "}";
            && Words(segment) == [word] && Literals([segment] + rest) == Literals(rest)
            && Parameters([segment] + rest) == [segment] + Parameters(rest)
  {
    var segment := "{" + word + "}";
    GapHasNoWord("{", word + "}");
    assert segment == "{" + (word + "}");
    FirstWord(word, "}");
    GapHasNoWord("}", "");
    assert "}" + "" == "}" && Words("") == [];
    assert segment[0] == '{' && ([segment] + rest)[1..] == rest;
  }

  /** A resource, the one meant of it, a resource under it and the one meant of those. */
  function Nested(a: string, b: string, c: string, d: string): seq<string> {
    ["", a, "{" + b + "}", c, "{" + d + "}"]
  }

  lemma NestedParts(a: string, b: string, c: string, d: string)
    requires AllInWord(a) && AllInWord(b) && AllInWord(c) && AllInWord(d)
    ensures Literals(Nested(a, b, c, d)) == [a, c]
    ensures Parameters(Nested(a, b, c, d)) == ["{" + b + "}", "{" + d + "}"]
  {
    hide Words, Literals, Parameters, AllWords;
    var p, q := "{" + b + "}", "{" + d + "}";
    OneParameter(d, []);
    OneWord(c);
    OneLiteral(c, [q]);
    OneParameter(b, [c, q]);
    OneWord(a);
    OneLiteral(a, [p, c, q]);
    EmptySegment([a, p, c, q]);
    assert [q] + [] == [q] && [c] + [q] == [c, q] && [p] + [c, q] == [p, c, q];
    assert [a] + [p, c, q] == [a, p, c, q] && [""] + [a, p, c, q] == Nested(a, b, c, d);
  }

  lemma JoinedTwo(p: string, q: string, b: string, d: string)
    requires Words(p) == [b] && Words(q) == [d]
    ensures JoinedWords([p, q], true) == ["by", b, "and", d]
  {
    hide Words;
    assert [q][1..] == [] && JoinedWords([q], false) == ["and"] + [d] + [];
    assert [p, q][1..] == [q] && JoinedWords([p, q], true) == ["by"] + [b] + JoinedWords([q], false);
  }

  lemma AllWordsTwo(a: string, c: string)
    requires Words(a) == [a] && Words(c) == [c]
    ensures AllWords([a, c]) == [a, c]
  {
    hide Words;
    assert [c][1..] == [] && AllWords([c]) == [c] + [];
    assert [a, c][1..] == [c];
  }

  lemma SpeltNested(a: string, b: string, c: string, d: string)
    requires AllInWord(a) && AllInWord(b) && AllInWord(c) && AllInWord(d)
    ensures Spelt(Join(Nested(a, b, c, d))) == [a, c, "by", b, "and", d]
  {
    SplitUndoesJoin(Nested(a, b, c, d));
    hide Split, Join, Words, Literals, Parameters, AllWords, JoinedWords, Nested;
    OneWord(a);
    OneWord(c);
    OneParameter(b, []);
    OneParameter(d, []);
    NestedParts(a, b, c, d);
    AllWordsTwo(a, c);
    JoinedTwo("{" + b + "}", "{" + d + "}", b, d);
    assert [a, c] + ["by", b, "and", d] == [a, c, "by", b, "and", d];
  }

  /** An id says what the call does, then the path's literals, then its parameters: a read that is
      answered with a list lists, a creation creates. */
  lemma IdReads(verb: Verb, created: bool, lists: bool, a: string, b: string, c: string, d: string)
    requires AllInWord(a) && AllInWord(b) && AllInWord(c) && AllInWord(d)
    ensures var tail := Capital(a) + Capital(c) + "By" + Capital(b) + "And" + Capital(d);
            var id := OperationId(verb, Join(Nested(a, b, c, d)), created, lists);
            && (verb.Get? && lists ==> id == "list" + tail) && (verb.Get? && !lists ==> id == "get" + tail)
            && (verb.Post? && created ==> id == "create" + tail) && (verb.Post? && !created ==> id == "run" + tail)
            && (verb.Put? ==> id == "upsert" + tail) && (verb.Delete? ==> id == "delete" + tail)
  {
    hide Spelt, Capital, Nested, AllInWord;
    SpeltNested(a, b, c, d);
    JoiningWords();
    GluedSix(a, c, b, d);
  }

  lemma GluedSix(a: string, c: string, b: string, d: string)
    ensures Glued([a, c, "by", b, "and", d]) == Capital(a) + Capital(c) + "By" + Capital(b) + "And" + Capital(d)
  {
    hide Capital;
    JoiningWords();
    assert [a, c, "by", b, "and", d] == [a] + ([c] + (["by"] + ([b] + (["and"] + [d]))));
    GluedOne(a);
    GluedOne(b);
    GluedOne(c);
    GluedOne(d);
    hide Glued;
    GluedBoth([a], [c] + (["by"] + ([b] + (["and"] + [d]))));
    GluedBoth([c], ["by"] + ([b] + (["and"] + [d])));
    GluedBoth(["by"], [b] + (["and"] + [d]));
    GluedBoth([b], ["and"] + [d]);
    GluedBoth(["and"], [d]);
  }

  lemma GluedOne(w: string)
    ensures Glued([w]) == Capital(w)
  {
    assert [w][1..] == [];
  }
}
