/**
 * The one-pass scan for parse functions written on a type itself rather than through the standard
 * trait: a stack of open blocks, each an `impl` or not, and the text since the last delimiter.
 *
 * The scan takes any text. What it means is said of text rendered from a tree of blocks, where the
 * blocks around an offset are there to be walked to.
 */
module BlockScanner {
  import opened Common

  // ----- What a block's header makes it -------------------------------------------------------

  /** The words of a text, split at white space. */
  function Words(t: string): seq<string> {
    WordsFrom(t, "")
  }

  function WordsFrom(t: string, word: string): seq<string> {
    if t == "" then if word == "" then [] else [word]
    else if IsSpace(t[0]) then (if word == "" then [] else [word]) + WordsFrom(t[1..], "")
    else WordsFrom(t[1..], word + [t[0]])
  }

  predicate Contains(t: string, part: string) {
    part <= t || (t != "" && Contains(t[1..], part))
  }

  /** Some(false) is an `impl` block, Some(true) one for `FromStr`, None any other block. */
  type Kind = Option<bool>

  function KindOf(header: string): Kind {
    var words := Words(header);
    if (exists i :: 0 <= i < |words| && (words[i] == "impl" || "impl<" <= words[i])) && "fn" !in words
    then Some(Contains(header, "FromStr for")) else None
  }

  // ----- A function of interest -----------------------------------------------------------------

  predicate Ident(c: char) {
    'a' <= c <= 'z' || 'A' <= c <= 'Z' || '0' <= c <= '9' || c == '_'
  }

  function IdentRun(t: string): string {
    if t == "" || !Ident(t[0]) then "" else [t[0]] + IdentRun(t[1..])
  }

  /** The index of the first of some characters, or the length of the text. */
  function Find(t: string, any: set<char>): (n: nat)
    ensures n <= |t|
  {
    if t == "" || t[0] in any then 0 else 1 + Find(t[1..], any)
  }

  function TrimEnd(t: string): string {
    if t == "" || !IsSpace(t[|t| - 1]) then t else TrimEnd(t[..|t| - 1])
  }

  /** A parameter whose type is a string reference. */
  predicate TakesStr(parameter: string) {
    var colon := Find(parameter, {':'});
    colon < |parameter|
    && var ty := TrimEnd(TrimStart(parameter[colon + 1..]));
       "&" <= ty && |ty| >= 3 && ty[|ty| - 3..] == "str"
  }

  /** The name after `fn`, when it is `parse` or `from_str` and the first parameter takes a string. */
  function Named(rest: string): Option<string> {
    var name := IdentRun(rest);
    var open := Find(rest, {'('});
    if (name != "parse" && name != "from_str") || open == |rest| then None
    else
      var arguments := rest[open + 1..];
      if TakesStr(arguments[..Find(arguments, {',', ')'})]) then Some(name) else None
  }

  /** The name, when such a function is declared at an offset. */
  function Declares(code: string, at: nat): Option<string>
    requires at <= |code|
  {
    if !("fn " <= code[at..]) || (at > 0 && Ident(code[at - 1])) then None else Named(code[at + 3..])
  }

  // ----- What headers and declarations read as ----------------------------------------------------

  /** The text has a part at an offset. */
  predicate PartAt(t: string, part: string, i: int) {
    0 <= i && i + |part| <= |t| && t[i..i + |part|] == part
  }

  lemma PartAlong(t: string, part: string, i: int)
    requires t != ""
    ensures i > 0 ==> (PartAt(t, part, i) <==> PartAt(t[1..], part, i - 1))
    ensures PartAt(t, part, 0) <==> part <= t
  {
  }

  lemma {:induction false} ContainsIff(t: string, part: string)
    ensures Contains(t, part) <==> exists i :: PartAt(t, part, i)
  {
    if t == "" {
      if part == "" { assert PartAt(t, part, 0); }
    } else {
      hide PartAt;
      ContainsIff(t[1..], part);
      forall i ensures i > 0 ==> (PartAt(t, part, i) <==> PartAt(t[1..], part, i - 1)) { PartAlong(t, part, i); }
      PartAlong(t, part, 0);
      if i :| PartAt(t[1..], part, i) { PartsStart(t[1..], part, i); assert PartAt(t, part, i + 1); }
      if i :| PartAt(t, part, i) { PartsStart(t, part, i); }
    }
  }

  lemma PartsStart(t: string, part: string, i: int)
    requires PartAt(t, part, i)
    ensures i >= 0
  {
  }

  predicate IsWord(w: string) {
    w != "" && forall i :: 0 <= i < |w| ==> !IsSpace(w[i])
  }

  predicate Blank(t: string) {
    forall i :: 0 <= i < |t| ==> IsSpace(t[i])
  }

  /** Words with white space after each. */
  function Spaced(words: seq<string>, gaps: seq<string>): string
    requires |gaps| == |words|
  {
    if words == [] then "" else words[0] + gaps[0] + Spaced(words[1..], gaps[1..])
  }

  lemma {:induction false} BlankHasNoWord(gap: string, rest: string)
    requires Blank(gap)
    ensures WordsFrom(gap + rest, "") == WordsFrom(rest, "")
  {
    if gap == "" { assert gap + rest == rest; } else {
      assert (gap + rest)[1..] == gap[1..] + rest;
      BlankHasNoWord(gap[1..], rest);
    }
  }

  lemma {:induction false} WordThenGap(begun: string, word: string, gap: string, rest: string)
    requires (begun != "" || word != "") && (forall i :: 0 <= i < |word| ==> !IsSpace(word[i]))
    requires gap != "" && Blank(gap)
    ensures WordsFrom(word + gap + rest, begun) == [begun + word] + WordsFrom(rest, "")
    decreases |word|
  {
    var t := word + gap + rest;
    if word == "" {
      assert t == gap + rest && t[1..] == gap[1..] + rest && begun + word == begun;
      BlankHasNoWord(gap[1..], rest);
    } else {
      assert t[1..] == word[1..] + gap + rest && begun + [word[0]] + word[1..] == begun + word;
      WordThenGap(begun + [word[0]], word[1..], gap, rest);
    }
  }

  /** Cutting at white space gives the words back. */
  lemma {:induction false} WordsAreThose(words: seq<string>, gaps: seq<string>)
    requires |gaps| == |words| && (forall i :: 0 <= i < |words| ==> IsWord(words[i]))
    requires forall i :: 0 <= i < |gaps| ==> gaps[i] != "" && Blank(gaps[i])
    ensures Words(Spaced(words, gaps)) == words
  {
    if words != [] {
      WordsAreThose(words[1..], gaps[1..]);
      WordThenGap("", words[0], gaps[0], Spaced(words[1..], gaps[1..]));
      assert "" + words[0] == words[0];
    }
  }

  /** The words are those of an `impl` block's header. */
  predicate OfImpl(words: seq<string>) {
    (exists w :: w in words && (w == "impl" || (|w| >= 5 && w[..5] == "impl<"))) && "fn" !in words
  }

  /** A header is an `impl`'s when one of its words is `impl`, or `impl<` with more, and none is
      `fn`; and it is for `FromStr` when it says so. */
  lemma KindMeans(words: seq<string>, gaps: seq<string>)
    requires |gaps| == |words| && (forall i :: 0 <= i < |words| ==> IsWord(words[i]))
    requires forall i :: 0 <= i < |gaps| ==> gaps[i] != "" && Blank(gaps[i])
    ensures var header := Spaced(words, gaps);
            && (KindOf(header).Some? <==> OfImpl(words))
            && (KindOf(header).Some? ==> (KindOf(header).value <==> exists i :: PartAt(header, "FromStr for", i)))
  {
    hide Contains, Words, Spaced, PartAt, IsWord, Blank;
    WordsAreThose(words, gaps);
    ContainsIff(Spaced(words, gaps), "FromStr for");
    ImplWords(words);
  }

  lemma ImplWords(words: seq<string>)
    ensures (exists i :: 0 <= i < |words| && (words[i] == "impl" || "impl<" <= words[i])) && "fn" !in words
            <==> OfImpl(words)
  {
    if w :| w in words && (w == "impl" || (|w| >= 5 && w[..5] == "impl<")) {
      var i :| 0 <= i < |words| && words[i] == w;
      assert words[i] == "impl" || "impl<" <= words[i];
    }
    if i :| 0 <= i < |words| && (words[i] == "impl" || "impl<" <= words[i]) {
      var w := words[i];
      assert w in words && (w == "impl" || (|w| >= 5 && w[..5] == "impl<"));
    }
  }

  lemma {:induction false} FindMeans(t: string, any: set<char>)
    ensures forall i :: 0 <= i < Find(t, any) ==> t[i] !in any
    ensures Find(t, any) < |t| ==> t[Find(t, any)] in any
  {
    if t != "" && t[0] !in any {
      FindMeans(t[1..], any);
      assert forall i :: 0 < i < Find(t, any) ==> t[i] == t[1..][i - 1];
    }
  }

  lemma FindIs(t: string, any: set<char>, n: nat)
    requires n <= |t| && (forall i :: 0 <= i < n ==> t[i] !in any) && (n < |t| ==> t[n] in any)
    ensures Find(t, any) == n
  {
    FindMeans(t, any);
  }

  lemma {:induction false} IdentRunIs(name: string, rest: string)
    requires (forall i :: 0 <= i < |name| ==> Ident(name[i])) && (rest == "" || !Ident(rest[0]))
    ensures IdentRun(name + rest) == name
  {
    if name == "" { assert name + rest == rest; } else {
      assert (name + rest)[1..] == name[1..] + rest;
      IdentRunIs(name[1..], rest);
      assert [name[0]] + name[1..] == name;
    }
  }

  /** What counts as a character of a name: the letters, the digits and the underscore, by their
      codes. */
  lemma IdentMeans(c: char)
    ensures Ident(c) <==> var n := c as int; 48 <= n < 58 || 65 <= n < 91 || 97 <= n < 123 || n == 95
  {
  }

  /** The pieces of a declaration: what stands between the name and the bracket, the first
      parameter's name, the white space around its type, and what follows. */
  datatype Pieces = Pieces(after: string, binding: string, lead: string, core: string, trail: string, rest: string) {
    function First(): string {
      binding + ":" + (lead + core + trail)
    }

    predicate Fit() {
      && '(' !in after && (after == "" || !Ident(after[0]))
      && ':' !in binding && ',' !in First() && ')' !in First() && (rest == "" || rest[0] == ',' || rest[0] == ')')
      && Blank(lead) && Blank(trail) && |core| >= 3 && core[0] == '&' && core[|core| - 3..] == "str"
    }
  }

  ghost predicate NamedAs(rest: string, name: string, p: Pieces) {
    (name == "parse" || name == "from_str") && p.Fit() && rest == name + (p.after + ("(" + (p.First() + p.rest)))
  }

  /** A function `parse` or `from_str`, whose first parameter is a reference to a type that ends in
      `str`, is declared at an offset. */
  ghost predicate DeclaredAs(code: string, at: nat, name: string, p: Pieces)
    requires at <= |code|
  {
    (at == 0 || !Ident(code[at - 1])) && exists rest :: code[at..] == "fn " + rest && NamedAs(rest, name, p)
  }

  lemma {:induction false} TrimStartIs(lead: string, t: string)
    requires Blank(lead) && (t == "" || !IsSpace(t[0]))
    ensures TrimStart(lead + t) == t
  {
    if lead == "" { assert lead + t == t; } else {
      assert (lead + t)[1..] == lead[1..] + t;
      TrimStartIs(lead[1..], t);
    }
  }

  lemma {:induction false} TrimEndIs(t: string, trail: string)
    requires Blank(trail) && (t == "" || !IsSpace(t[|t| - 1]))
    ensures TrimEnd(t + trail) == t
    decreases |trail|
  {
    if trail == "" { assert t + trail == t; } else {
      var n := |trail| - 1;
      assert (t + trail)[..|t + trail| - 1] == t + trail[..n];
      TrimEndIs(t, trail[..n]);
    }
  }

  lemma {:induction false} TrimStartSplits(t: string) returns (lead: string)
    ensures t == lead + TrimStart(t) && Blank(lead)
  {
    if t == "" || !IsSpace(t[0]) {
      lead := "";
    } else {
      var more := TrimStartSplits(t[1..]);
      lead := [t[0]] + more;
      assert t == [t[0]] + t[1..];
    }
  }

  lemma {:induction false} TrimEndSplits(t: string) returns (trail: string)
    ensures t == TrimEnd(t) + trail && Blank(trail)
  {
    if t == "" || !IsSpace(t[|t| - 1]) {
      trail := "";
    } else {
      var more := TrimEndSplits(t[..|t| - 1]);
      trail := more + [t[|t| - 1]];
      assert t == t[..|t| - 1] + [t[|t| - 1]];
    }
  }

  lemma {:induction false} IdentRunSplits(t: string)
    ensures IdentRun(t) <= t && (forall i :: 0 <= i < |IdentRun(t)| ==> Ident(t[i]))
    ensures |IdentRun(t)| < |t| ==> !Ident(t[|IdentRun(t)|])
  {
    if t != "" && Ident(t[0]) {
      IdentRunSplits(t[1..]);
      assert forall i :: 0 < i < |IdentRun(t)| ==> t[i] == t[1..][i - 1];
    }
  }

  /** A text cut at the first of some characters. */
  lemma CutAt(front: string, rest: string, any: set<char>)
    requires (forall c :: c in front ==> c !in any) && (rest == "" || rest[0] in any)
    ensures Find(front + rest, any) == |front|
  {
    var t := front + rest;
    forall i | 0 <= i < |front| ensures t[i] !in any { assert t[i] == front[i] && front[i] in front; }
    FindIs(t, any, |front|);
  }

  lemma CutIs(t: string, any: set<char>)
    ensures forall c :: c in t[..Find(t, any)] ==> c !in any
    ensures t == t[..Find(t, any)] + t[Find(t, any)..]
  {
    FindMeans(t, any);
  }

  /** The first parameter of such a declaration takes a string. */
  lemma PiecesTakeStr(p: Pieces)
    requires p.Fit()
    ensures TakesStr(p.First())
  {
    hide Find, TrimStart, TrimEnd, Pieces.First;
    CutAt(p.binding, ":" + (p.lead + p.core + p.trail), {':'});
    FirstSplits(p);
    var ty := p.First()[|p.binding| + 1..];
    assert ty == p.lead + (p.core + p.trail);
    TrimStartIs(p.lead, p.core + p.trail);
    TrimEndIs(p.core, p.trail);
    assert !IsSpace('&') && !IsSpace('r') && "&"[0] == '&' && "str"[2] == 'r';
  }

  lemma FirstSplits(p: Pieces)
    ensures p.First() == p.binding + (":" + (p.lead + p.core + p.trail))
  {
  }

  lemma TakesStrHasPieces(first: string) returns (p: Pieces)
    requires TakesStr(first)
    ensures p.First() == first && ':' !in p.binding && Blank(p.lead) && Blank(p.trail)
    ensures |p.core| >= 3 && p.core[0] == '&' && p.core[|p.core| - 3..] == "str"
  {
    var colon := Find(first, {':'});
    CutIs(first, {':'});
    FindMeans(first, {':'});
    var ty := first[colon + 1..];
    var core := TrimEnd(TrimStart(ty));
    assert |core| >= 3 && core[0] == '&' && core[|core| - 3..] == "str" by { assert "&"[0] == '&'; }
    hide *;
    var lead := TrimStartSplits(ty);
    var trail := TrimEndSplits(TrimStart(ty));
    p := Pieces("", first[..colon], lead, core, trail, "");
    FirstIs(p, first, colon, ty);
  }

  lemma FirstIs(p: Pieces, first: string, colon: nat, ty: string)
    requires colon < |first| && first[colon] == ':' && ty == first[colon + 1..]
    requires p.binding == first[..colon] && ty == p.lead + (p.core + p.trail)
    ensures p.First() == first
  {
    assert p.lead + p.core + p.trail == ty;
    assert first == first[..colon] + ":" + ty;
  }

  lemma Grouped(a: string, b: string, c: string)
    ensures a + (b + c) == (a + b) + c
  {
  }

  lemma CutPast(front: string, c: char, back: string, any: set<char>)
    requires (forall d :: d in front ==> d !in any) && c in any
    ensures var t := front + ([c] + back); Find(t, any) == |front| < |t| && t[|front| + 1..] == back
  {
    CutAt(front, [c] + back, any);
  }

  lemma NoBracket(name: string, after: string)
    requires (forall i :: 0 <= i < |name| ==> Ident(name[i])) && '(' !in after
    ensures forall d :: d in name + after ==> d !in {'('}
  {
  }

  lemma NamesAreIdents(name: string)
    requires name == "parse" || name == "from_str"
    ensures forall i :: 0 <= i < |name| ==> Ident(name[i])
  {
  }

  lemma BracketAfter(rest: string, name: string, p: Pieces)
    requires NamedAs(rest, name, p)
    ensures IdentRun(rest) == name
    ensures var open := Find(rest, {'('}); open < |rest| && rest[open + 1..] == p.First() + p.rest
  {
    hide IdentRun, Find, Pieces.First, Blank;
    var arguments := p.First() + p.rest;
    NamesAreIdents(name);
    AfterFirst(p);
    hide Ident;
    IdentRunIs(name, p.after + ("(" + arguments));
    Grouped(name, p.after, "(" + arguments);
    NoBracket(name, p.after);
    CutPast(name + p.after, '(', arguments, {'('});
  }

  lemma AfterFirst(p: Pieces)
    requires p.Fit()
    ensures '(' !in p.after
    ensures var t := p.after + ("(" + (p.First() + p.rest)); t == "" || !Ident(t[0])
  {
    hide Pieces.First;
  }

  lemma NamedIsSeen(rest: string, name: string, p: Pieces)
    requires NamedAs(rest, name, p)
    ensures Named(rest) == Some(name)
  {
    hide TakesStr, IdentRun, Find, Pieces.First, Blank;
    BracketAfter(rest, name, p);
    CutAt(p.First(), p.rest, {',', ')'});
    assert (p.First() + p.rest)[..|p.First()|] == p.First();
    PiecesTakeStr(p);
  }

  /** Every such declaration is seen. */
  lemma DeclaredIsSeen(code: string, at: nat, name: string, p: Pieces)
    requires at <= |code| && DeclaredAs(code, at, name, p)
    ensures Declares(code, at) == Some(name)
  {
    hide NamedAs, Named;
    var rest :| code[at..] == "fn " + rest && NamedAs(rest, name, p);
    NamedIsSeen(rest, name, p);
    assert code[at..][..3] == "fn " && code[at..][3..] == rest;
  }

  lemma NamedHasPieces(rest: string) returns (p: Pieces)
    requires Named(rest).Some?
    ensures NamedAs(rest, Named(rest).value, p)
  {
    hide TakesStr, IdentRun, Find, Pieces.First, Blank;
    FindMeans(rest, {'('});
    var after, arguments := AfterName(rest);
    var n := Find(arguments, {',', ')'});
    CutIs(arguments, {',', ')'});
    FindMeans(arguments, {',', ')'});
    var q := TakesStrHasPieces(arguments[..n]);
    p := q.(after := after, rest := arguments[n..]);
    SameFirst(p, q);
  }

  /** And nothing else is. */
  lemma SeenIsDeclared(code: string, at: nat) returns (p: Pieces)
    requires at <= |code| && Declares(code, at).Some?
    ensures DeclaredAs(code, at, Declares(code, at).value, p)
  {
    hide NamedAs, Named;
    p := NamedHasPieces(code[at + 3..]);
    assert code[at..] == "fn " + code[at + 3..];
  }

  lemma SameFirst(p: Pieces, q: Pieces)
    requires p.binding == q.binding && p.lead == q.lead && p.core == q.core && p.trail == q.trail
    ensures p.First() == q.First()
  {
  }

  lemma Between(t: string, i: nat, j: nat)
    requires i <= j < |t|
    ensures t == t[..i] + (t[i..j] + ([t[j]] + t[j + 1..]))
    ensures forall c :: c in t[i..j] ==> c in t[..j]
  {
    assert forall k :: i <= k < j ==> t[i..j][k - i] == t[..j][k];
  }

  lemma AfterName(rest: string) returns (after: string, arguments: string)
    requires Find(rest, {'('}) < |rest|
    ensures arguments == rest[Find(rest, {'('}) + 1..] && rest == IdentRun(rest) + (after + ("(" + arguments))
    ensures '(' !in after && (after == "" || !Ident(after[0]))
  {
    var name, open := IdentRun(rest), Find(rest, {'('});
    IdentRunSplits(rest);
    CutIs(rest, {'('});
    FindMeans(rest, {'('});
    hide Find, IdentRun;
    assert |name| <= open by { assert !Ident('('); }
    Between(rest, |name|, open);
    after, arguments := rest[|name|..open], rest[open + 1..];
  }

  // ----- The scan -----------------------------------------------------------------------------------

  /** The open blocks, outermost first, and the text since the last delimiter. */
  datatype State = State(blocks: seq<Kind>, pending: string)

  function Closed(blocks: seq<Kind>): seq<Kind> {
    if blocks == [] then [] else blocks[..|blocks| - 1]
  }

  function Next(s: State, c: char): State {
    match c
    case '{' => State(s.blocks + [KindOf(s.pending)], "")
    case '}' => State(Closed(s.blocks), "")
    case ';' => State(s.blocks, "")
    case _ => State(s.blocks, s.pending + [c])
  }

  function Scan(s: State, code: string): State
    decreases |code|
  {
    if code == "" then s else Scan(Next(s, code[0]), code[1..])
  }

  function Start(): State {
    State([], "")
  }

  /** A declaration directly inside an `impl` block that is not for `FromStr`. */
  predicate Reported(code: string, at: nat)
    requires at <= |code|
  {
    Declares(code, at).Some?
    && var blocks := Scan(Start(), code[..at]).blocks;
       blocks != [] && blocks[|blocks| - 1] == Some(false)
  }

  function LineAt(code: string, at: nat): nat
    requires at <= |code|
  {
    if at == 0 then 1 else LineAt(code, at - 1) + if code[at - 1] == '\n' then 1 else 0
  }

  /** Every report before an offset, in order, with its line. */
  function ReportsBefore(code: string, n: nat): seq<(nat, string)>
    requires n <= |code|
  {
    if n == 0 then []
    else ReportsBefore(code, n - 1)
         + if Reported(code, n - 1) then [(LineAt(code, n - 1), Declares(code, n - 1).value)] else []
  }

  /** A line is counted for every line break before. */
  lemma {:induction false} LineIs(code: string, at: nat)
    requires at <= |code|
    ensures LineAt(code, at) == 1 + Occurrences(code[..at], '\n')
  {
    if at > 0 {
      LineIs(code, at - 1);
      OneMore(code[..at - 1], code[at - 1]);
      assert code[..at] == code[..at - 1] + [code[at - 1]];
    }
  }

  lemma {:induction false} OneMore(t: string, c: char)
    ensures Occurrences(t + [c], '\n') == Occurrences(t, '\n') + if c == '\n' then 1 else 0
  {
    if t != "" {
      assert (t + [c])[1..] == t[1..] + [c];
      OneMore(t[1..], c);
    }
  }

  /** The offsets before `n` at which a report is due, ascending. */
  ghost predicate Due(code: string, n: nat, places: seq<nat>)
    requires n <= |code|
  {
    (forall i, j :: 0 <= i < j < |places| ==> places[i] < places[j])
    && forall at: nat :: at in places <==> at < n && Reported(code, at)
  }

  /** A report at each of some offsets: its line, and the name declared there. */
  ghost predicate Tells(code: string, reports: seq<(nat, string)>, places: seq<nat>) {
    |reports| == |places| && forall i :: 0 <= i < |places| ==>
      places[i] <= |code| && Declares(code, places[i]) == Some(reports[i].1)
      && reports[i].0 == LineAt(code, places[i])
  }

  lemma DueNext(code: string, n: nat, places: seq<nat>)
    requires n < |code| && Due(code, n, places)
    ensures Due(code, n + 1, if Reported(code, n) then places + [n] else places)
  {
    hide Reported;
    forall i | 0 <= i < |places| ensures places[i] < n { assert places[i] in places; }
    if Reported(code, n) {
      forall at: nat ensures at in places + [n] <==> at < n + 1 && Reported(code, at) {
        assert at in places + [n] <==> at in places || at == n;
      }
    }
  }

  lemma TellsNext(code: string, n: nat, places: seq<nat>)
    requires n < |code| && Tells(code, ReportsBefore(code, n), places)
    ensures Tells(code, ReportsBefore(code, n + 1), if Reported(code, n) then places + [n] else places)
  {
    hide Declares, LineAt;
  }

  lemma NoneDue(code: string)
    ensures Due(code, 0, []) && Tells(code, ReportsBefore(code, 0), [])
  {
  }

  /** The reports are those of the offsets before, in order, at which one is due. */
  lemma {:induction false} ReportsAre(code: string, n: nat) returns (places: seq<nat>)
    requires n <= |code|
    ensures Due(code, n, places) && Tells(code, ReportsBefore(code, n), places)
  {
    hide *;
    if n == 0 {
      NoneDue(code);
      places := [];
    } else {
      var front := ReportsAre(code, n - 1);
      DueNext(code, n - 1, front);
      TellsNext(code, n - 1, front);
      places := if Reported(code, n - 1) then front + [n - 1] else front;
    }
  }

  lemma {:induction false} ScanSplits(s: State, a: string, b: string)
    ensures Scan(s, a + b) == Scan(Scan(s, a), b)
    decreases |a|
  {
    if a == "" { assert a + b == b; } else {
      assert (a + b)[1..] == a[1..] + b;
      ScanSplits(Next(s, a[0]), a[1..], b);
    }
  }

  lemma ScanNext(s: State, code: string, i: nat)
    requires i < |code|
    ensures Scan(s, code[..i + 1]) == Next(Scan(s, code[..i]), code[i])
  {
    ScanSplits(s, code[..i], [code[i]]);
    assert code[..i + 1] == code[..i] + [code[i]];
    assert [code[i]][1..] == "";
  }

  lemma ScanNothing()
    ensures Scan(Start(), "") == Start()
  {
  }

  method InherentParseMethods(code: string) returns (found: seq<(nat, string)>)
    ensures found == ReportsBefore(code, |code|)
  {
    hide Declares, KindOf, Closed, Scan;
    found := [];
    var blocks: seq<Kind> := [];
    ScanNothing();
    var headerStart, line, at := 0, 1, 0;
    while at < |code|
      invariant 0 <= headerStart <= at <= |code|
      invariant Scan(Start(), code[..at]) == State(blocks, code[headerStart..at])
      invariant line == LineAt(code, at)
      invariant found == ReportsBefore(code, at)
    {
      ScanNext(Start(), code, at);
      var c := code[at];
      var name := Declares(code, at);
      if name.Some? && blocks != [] && blocks[|blocks| - 1] == Some(false) {
        found := found + [(line, name.value)];
      }
      if c == '{' {
        blocks, headerStart := blocks + [KindOf(code[headerStart..at])], at + 1;
      } else if c == '}' {
        blocks, headerStart := Closed(blocks), at + 1;
      } else if c == ';' {
        headerStart := at + 1;
      }
      if c == '\n' { line := line + 1; }
      at := at + 1;
    }
  }

  // ----- Source text as a tree of blocks -----------------------------------------------------------

  /** A statement, or a block with its header, what is in it, and the text before its brace. */
  datatype Item = Statement(text: string) | Block(header: string, body: seq<Item>, tail: string)

  predicate Plain(t: string) {
    forall i :: 0 <= i < |t| ==> t[i] != '{' && t[i] != '}' && t[i] != ';'
  }

  predicate Nested(item: Item) {
    match item
    case Statement(text) => Plain(text)
    case Block(header, body, tail) => Plain(header) && Plain(tail) && forall i :: 0 <= i < |body| ==> Nested(body[i])
  }

  function Render(item: Item): string
    decreases item
  {
    match item
    case Statement(text) => text + ";"
    case Block(header, body, tail) => header + "{" + (RenderAll(body) + tail + "}")
  }

  function RenderAll(items: seq<Item>): string
    decreases items
  {
    if items == [] then "" else Render(items[0]) + RenderAll(items[1..])
  }

  /** The headers of the blocks an offset of the rendered text lies in, outermost first. */
  function Around(item: Item, p: nat): seq<string>
    decreases item
  {
    match item
    case Statement(_) => []
    case Block(header, body, _) => if p <= |header| then [] else [header] + AroundIn(body, p - |header| - 1)
  }

  function AroundIn(items: seq<Item>, p: nat): seq<string>
    decreases items
  {
    if items == [] then []
    else if p < |Render(items[0])| then Around(items[0], p)
    else AroundIn(items[1..], p - |Render(items[0])|)
  }

  function Kinds(headers: seq<string>): seq<Kind> {
    if headers == [] then [] else [KindOf(headers[0])] + Kinds(headers[1..])
  }

  lemma {:induction false} ScanPlain(s: State, t: string)
    requires Plain(t)
    ensures Scan(s, t) == State(s.blocks, s.pending + t)
    decreases |t|
  {
    if t != "" {
      ScanPlain(Next(s, t[0]), t[1..]);
      assert s.pending + t == s.pending + [t[0]] + t[1..];
    }
  }

  lemma ScanOne(s: State, c: char)
    ensures Scan(s, [c]) == Next(s, c)
  {
    assert [c][1..] == "";
  }

  lemma ScanHeader(blocks: seq<Kind>, header: string)
    requires Plain(header)
    ensures Scan(State(blocks, ""), header + "{") == State(blocks + [KindOf(header)], "")
  {
    ScanPlain(State(blocks, ""), header);
    ScanSplits(State(blocks, ""), header, "{");
    ScanOne(State(blocks, header), '{');
    assert "" + header == header;
  }

  lemma ScanTail(blocks: seq<Kind>, k: Kind, tail: string)
    requires Plain(tail)
    ensures Scan(State(blocks + [k], ""), tail + "}") == State(blocks, "")
  {
    ScanPlain(State(blocks + [k], ""), tail);
    ScanSplits(State(blocks + [k], ""), tail, "}");
    ScanOne(State(blocks + [k], "" + tail), '}');
  }

  /** A whole item leaves the open blocks as they were, and nothing pending. */
  lemma {:induction false} ScanItem(blocks: seq<Kind>, item: Item)
    requires Nested(item)
    ensures Scan(State(blocks, ""), Render(item)) == State(blocks, "")
    decreases item
  {
    match item
    case Statement(text) =>
      ScanPlain(State(blocks, ""), text);
      ScanSplits(State(blocks, ""), text, ";");
      ScanOne(State(blocks, "" + text), ';');
    case Block(header, body, tail) =>
      var inside := blocks + [KindOf(header)];
      ScanHeader(blocks, header);
      ScanSplits(State(blocks, ""), header + "{", RenderAll(body) + tail + "}");
      ScanAll(inside, body);
      assert RenderAll(body) + tail + "}" == RenderAll(body) + (tail + "}");
      ScanSplits(State(inside, ""), RenderAll(body), tail + "}");
      ScanTail(blocks, KindOf(header), tail);
  }

  lemma {:induction false} ScanAll(blocks: seq<Kind>, items: seq<Item>)
    requires forall i :: 0 <= i < |items| ==> Nested(items[i])
    ensures Scan(State(blocks, ""), RenderAll(items)) == State(blocks, "")
    decreases items
  {
    if items != [] {
      ScanItem(blocks, items[0]);
      ScanAll(blocks, items[1..]);
      ScanSplits(State(blocks, ""), Render(items[0]), RenderAll(items[1..]));
    }
  }

  lemma KindsInFront(blocks: seq<Kind>, header: string, more: seq<string>)
    ensures blocks + Kinds([header] + more) == blocks + [KindOf(header)] + Kinds(more)
  {
    assert ([header] + more)[1..] == more;
  }

  lemma {:induction false} StackAround(blocks: seq<Kind>, item: Item, p: nat)
    requires Nested(item) && p < |Render(item)|
    ensures Scan(State(blocks, ""), Render(item)[..p]).blocks == blocks + Kinds(Around(item, p))
    decreases item
  {
    match item
    case Statement(text) =>
      assert Render(item)[..p] == text[..p];
      ScanPlain(State(blocks, ""), text[..p]);
    case Block(header, body, tail) =>
      if p <= |header| {
        assert Render(item)[..p] == header[..p];
        ScanPlain(State(blocks, ""), header[..p]);
      } else {
        var inside, q := RenderAll(body) + tail, p - |header| - 1;
        assert Render(item)[..p] == (header + "{") + inside[..q];
        ScanHeader(blocks, header);
        ScanSplits(State(blocks, ""), header + "{", inside[..q]);
        StackAroundIn(blocks + [KindOf(header)], body, tail, q);
        KindsInFront(blocks, header, AroundIn(body, q));
      }
  }

  lemma {:induction false} StackAroundIn(blocks: seq<Kind>, items: seq<Item>, tail: string, p: nat)
    requires (forall i :: 0 <= i < |items| ==> Nested(items[i])) && Plain(tail) && p <= |RenderAll(items) + tail|
    ensures Scan(State(blocks, ""), (RenderAll(items) + tail)[..p]).blocks == blocks + Kinds(AroundIn(items, p))
    decreases items
  {
    if items == [] {
      assert (RenderAll(items) + tail)[..p] == tail[..p];
      ScanPlain(State(blocks, ""), tail[..p]);
    } else {
      var first, rest := Render(items[0]), RenderAll(items[1..]) + tail;
      assert RenderAll(items) + tail == first + rest;
      if p < |first| {
        StackAround(blocks, items[0], p);
        assert (first + rest)[..p] == first[..p];
      } else {
        assert (first + rest)[..p] == first + rest[..p - |first|];
        ScanItem(blocks, items[0]);
        ScanSplits(State(blocks, ""), first, rest[..p - |first|]);
        StackAroundIn(blocks, items[1..], tail, p - |first|);
      }
    }
  }

  lemma {:induction false} KindsAt(headers: seq<string>)
    ensures |Kinds(headers)| == |headers|
    ensures headers != [] ==> Kinds(headers)[|headers| - 1] == KindOf(headers[|headers| - 1])
  {
    if |headers| > 1 {
      KindsAt(headers[1..]);
      assert headers[|headers| - 1] == headers[1..][|headers| - 2];
    }
  }

  /** In text rendered from a tree of blocks the stack mirrors the blocks around every offset, so
      what is reported is exactly the declarations whose innermost block is an `impl` other than
      one for `FromStr`. */
  lemma ReportedByInnermostBlock(items: seq<Item>, tail: string, at: nat)
    requires (forall i :: 0 <= i < |items| ==> Nested(items[i])) && Plain(tail) && at <= |RenderAll(items) + tail|
    ensures var code, around := RenderAll(items) + tail, AroundIn(items, at);
            && Scan(Start(), code[..at]).blocks == Kinds(around)
            && (Reported(code, at) <==>
                  Declares(code, at).Some? && around != [] && KindOf(around[|around| - 1]) == Some(false))
  {
    StackAroundIn([], items, tail, at);
    KindsAt(AroundIn(items, at));
    assert [] + Kinds(AroundIn(items, at)) == Kinds(AroundIn(items, at));
  }
}
