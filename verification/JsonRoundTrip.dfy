/**
 * What is printed reads back.
 *
 * The proof follows the printer: a unit of a string, a string, a numeral, a value, the items of a
 * list and the members of an object, each read off the front of whatever text comes after it. What
 * comes after a value must not run on into it, which only a numeral could.
 */
module JsonRoundTrip {
  import opened Common
  import opened JsonText

  predicate DistinctKeys(members: seq<Member>) {
    forall i, j :: 0 <= i < j < |members| ==> members[i].key != members[j].key
  }

  /** A value `JSON.stringify` can be given: numerals are numerals, and no object has a property
      twice. */
  predicate Sound(v: Value) {
    match v
    case Num(n) => Numeral(n)
    case Arr(items) => forall i :: 0 <= i < |items| ==> Sound(items[i])
    case Obj(members) => DistinctKeys(members) && forall i :: 0 <= i < |members| ==> Sound(members[i].value)
    case _ => true
  }

  lemma HexReadsBack(n: nat)
    requires n < 16
    ensures HexValue(HexDigit(n)) == Some(n)
  {
  }

  lemma HexDigitsOf(u: Unit)
    ensures ((u / 0x1000 * 0x10 + u / 0x100 % 0x10) * 0x10 + u / 0x10 % 0x10) * 0x10 + u % 0x10 == u
  {
  }

  lemma UnicodeEscapeReads(u: Unit, t: Text)
    ensures ReadUnit(UnicodeEscape(u) + t) == Some(Read(u, t))
  {
    HexDigitsOf(u);
    HexReadsBack(u / 0x1000);
    HexReadsBack(u / 0x100 % 0x10);
    HexReadsBack(u / 0x10 % 0x10);
    HexReadsBack(u % 0x10);
    assert (UnicodeEscape(u) + t)[6..] == t;
  }

  lemma QuoteUnitReads(u: Unit, t: Text)
    ensures ReadUnit(QuoteUnit(u) + t) == Some(Read(u, t)) && QuoteUnit(u)[0] != QUOTE
  {
    if ShortEscape(u).Some? {
      assert (QuoteUnit(u) + t)[2..] == t;
    } else if u < 0x20 || Leading(u) || Trailing(u) {
      UnicodeEscapeReads(u, t);
    }
  }

  /** One more unit in front of a content that reads. */
  lemma UnitInFront(a: Text, u: Unit, t: Text, s: Text, rest: Text)
    requires a != [] && a[0] != QUOTE && ReadUnit(a + t) == Some(Read(u, t)) && ReadUnits(t) == Some(Read(s, rest))
    ensures ReadUnits(a + t) == Some(Read([u] + s, rest))
  {
  }

  lemma PlainUnitReads(u: Unit, t: Text)
    requires Leading(u) || Trailing(u)
    ensures ReadUnit([u] + t) == Some(Read(u, t)) && u != QUOTE
  {
  }

  lemma PairInFront(pair: Text, t: Text, s: Text, rest: Text)
    requires |pair| == 2 && Leading(pair[0]) && Trailing(pair[1]) && ReadUnits(t) == Some(Read(s, rest))
    ensures ReadUnits(pair + t) == Some(Read(pair + s, rest))
  {
    hide ReadUnit, ReadUnits;
    var a, b := [pair[0]], [pair[1]];
    PlainUnitReads(pair[1], t);
    UnitInFront(b, pair[1], t, s, rest);
    PlainUnitReads(pair[0], b + t);
    UnitInFront(a, pair[0], b + t, b + s, rest);
    assert pair + t == a + (b + t) && pair + s == [pair[0]] + (b + s);
  }

  lemma {:induction false} QuotedReads(s: Text, rest: Text)
    ensures ReadUnits(QuoteUnits(s) + ([QUOTE] + rest)) == Some(Read(s, rest))
  {
    hide ReadUnit, QuoteUnit, ReadUnits;
    var close := [QUOTE] + rest;
    if s == [] {
      NoUnits(rest);
      assert [] + close == close;
    } else if Leading(s[0]) && |s| > 1 && Trailing(s[1]) {
      QuotedReads(s[2..], rest);
      PairInFront(s[..2], QuoteUnits(s[2..]) + close, s[2..], rest);
      assert s[..2] + s[2..] == s;
      assert QuoteUnits(s) + close == s[..2] + (QuoteUnits(s[2..]) + close);
    } else {
      QuotedReads(s[1..], rest);
      QuoteUnitReads(s[0], QuoteUnits(s[1..]) + close);
      UnitInFront(QuoteUnit(s[0]), s[0], QuoteUnits(s[1..]) + close, s[1..], rest);
      assert [s[0]] + s[1..] == s;
      assert QuoteUnits(s) + close == QuoteUnit(s[0]) + (QuoteUnits(s[1..]) + close);
    }
  }

  lemma NoUnits(rest: Text)
    ensures ReadUnits([QUOTE] + rest) == Some(Read([], rest))
  {
    assert ([QUOTE] + rest)[1..] == rest;
  }

  lemma StringReads(s: Text, rest: Text)
    ensures var t := Quoted(s) + rest; t != [] && t[0] == QUOTE && ReadUnits(t[1..]) == Some(Read(s, rest))
  {
    hide QuoteUnits, ReadUnits;
    QuotedReads(s, rest);
    var content := QuoteUnits(s) + ([QUOTE] + rest);
    assert Quoted(s) + rest == [QUOTE] + content;
    assert ([QUOTE] + content)[1..] == content;
  }

  lemma StringValueReads(s: Text, rest: Text)
    ensures ReadValue(Quoted(s) + rest) == Some(Read(Str(s), rest))
  {
    hide Quoted, ReadUnits;
    StringReads(s, rest);
  }

  lemma FractionUnits(t: Text)
    requires Fraction(t)
    ensures forall u :: u in t ==> InNumeral(u)
  {
    if t != [] && !Exponent(t) {
      var i :| 0 < i <= |t| && Digits(t[1..i]) && Exponent(t[i..]);
      assert t == [t[0]] + t[1..i] + t[i..];
    }
  }

  lemma UnsignedUnits(t: Text)
    requires Unsigned(t)
    ensures t != [] && Digit(t[0]) && forall u :: u in t ==> InNumeral(u)
  {
    var i :| 0 < i <= |t| && Whole(t[..i]) && Fraction(t[i..]);
    FractionUnits(t[i..]);
    assert t == t[..i] + t[i..] && t[0] == t[..i][0];
  }

  lemma NumeralUnits(t: Text)
    requires Numeral(t)
    ensures t != [] && (Digit(t[0]) || t[0] == 0x2D) && forall u :: u in t ==> InNumeral(u)
  {
    if Unsigned(t) { UnsignedUnits(t); } else { UnsignedUnits(t[1..]); }
  }

  lemma {:induction false} NumeralRunIs(n: Text, rest: Text)
    requires (forall u :: u in n ==> InNumeral(u)) && (rest != [] ==> !InNumeral(rest[0]))
    ensures NumeralRun(n + rest) == |n|
  {
    if n == [] { assert n + rest == rest; } else {
      assert (n + rest)[1..] == n[1..] + rest;
      NumeralRunIs(n[1..], rest);
    }
  }

  /** What may follow a value: the end of the text, a comma or a closing bracket. */
  predicate Ends(rest: Text) {
    rest == [] || rest[0] == COMMA || rest[0] == CLOSE_LIST || rest[0] == CLOSE_OBJECT
  }

  lemma NumeralReads(n: Text, rest: Text)
    requires Numeral(n) && Ends(rest)
    ensures ReadValue(n + rest) == Some(Read(Num(n), rest))
  {
    NumeralUnits(n);
    NumeralRunIs(n, rest);
    assert (n + rest)[..|n|] == n && (n + rest)[|n|..] == rest;
  }

  lemma WordReads(rest: Text)
    ensures ReadValue(NULL + rest) == Some(Read(Null, rest))
    ensures ReadValue(TRUE + rest) == Some(Read(Bool(true), rest))
    ensures ReadValue(FALSE + rest) == Some(Read(Bool(false), rest))
  {
    assert (NULL + rest)[4..] == rest && (TRUE + rest)[4..] == rest && (FALSE + rest)[5..] == rest;
  }

  lemma FirstUnit(v: Value)
    requires Sound(v)
    ensures Print(v) != [] && Print(v)[0] != CLOSE_LIST && Print(v)[0] != CLOSE_OBJECT
  {
    if v.Num? { NumeralUnits(v.numeral); }
  }

  lemma ListReads(items: seq<Value>, body: Text, rest: Text)
    requires body != [] && body[0] != CLOSE_LIST && ReadItems(body) == Some(Read(items, rest))
    ensures ReadValue([OPEN_LIST] + body) == Some(Read(Arr(items), rest))
  {
    hide ReadItems;
    assert ([OPEN_LIST] + body)[1..] == body;
  }

  lemma ObjectReads(members: seq<Member>, body: Text, rest: Text)
    requires body != [] && body[0] != CLOSE_OBJECT && ReadMembers(body) == Some(Read(members, rest))
    ensures ReadValue([OPEN_OBJECT] + body) == Some(Read(Obj(members), rest))
  {
    hide ReadMembers;
    assert ([OPEN_OBJECT] + body)[1..] == body;
  }

  lemma EmptyReads(rest: Text)
    ensures ReadValue([OPEN_LIST, CLOSE_LIST] + rest) == Some(Read(Arr([]), rest))
    ensures ReadValue([OPEN_OBJECT, CLOSE_OBJECT] + rest) == Some(Read(Obj([]), rest))
  {
    hide ReadItems, ReadMembers;
    assert ([OPEN_LIST, CLOSE_LIST] + rest)[2..] == rest;
    assert ([OPEN_OBJECT, CLOSE_OBJECT] + rest)[2..] == rest;
  }

  lemma LastItem(v: Value, t: Text, rest: Text)
    requires ReadValue(t) == Some(Read(v, [CLOSE_LIST] + rest))
    ensures ReadItems(t) == Some(Read([v], rest))
  {
    hide ReadValue;
  }

  lemma ItemInFront(v: Value, t: Text, more: Text, items: seq<Value>, rest: Text)
    requires ReadValue(t) == Some(Read(v, [COMMA] + more)) && ReadItems(more) == Some(Read(items, rest))
    ensures ReadItems(t) == Some(Read([v] + items, rest))
  {
    hide ReadValue;
    assert ([COMMA] + more)[1..] == more;
  }

  lemma LastMember(m: Member, t: Text, rest: Text)
    requires ReadMember(t) == Some(Read(m, [CLOSE_OBJECT] + rest))
    ensures ReadMembers(t) == Some(Read([m], rest))
  {
    hide ReadMember;
  }

  lemma MemberInFront(m: Member, t: Text, more: Text, members: seq<Member>, rest: Text)
    requires ReadMember(t) == Some(Read(m, [COMMA] + more)) && ReadMembers(more) == Some(Read(members, rest))
    ensures ReadMembers(t) == Some(Read([m] + members, rest))
  {
    hide ReadMember;
    assert ([COMMA] + more)[1..] == more;
  }

  lemma KeyThenValue(key: Text, t: Text, body: Text, v: Value, rest: Text)
    requires t != [] && t[0] == QUOTE && ReadUnits(t[1..]) == Some(Read(key, [COLON] + body))
    requires ReadValue(body) == Some(Read(v, rest))
    ensures ReadMember(t) == Some(Read(Member(key, v), rest))
  {
    hide ReadUnits, ReadValue;
    assert ([COLON] + body)[1..] == body;
  }

  lemma {:induction false} PrintReads(v: Value, rest: Text)
    requires Sound(v) && Ends(rest)
    ensures ReadValue(Print(v) + rest) == Some(Read(v, rest))
    decreases v
  {
    hide ReadValue, ReadItems, ReadMembers, PrintItems, PrintMembers, Quoted;
    match v
    case Null => WordReads(rest);
    case Bool(_) => WordReads(rest);
    case Num(n) => NumeralReads(n, rest);
    case Str(s) => StringValueReads(s, rest);
    case Arr(items) =>
      if items == [] { EmptyReads(rest); } else {
        ItemsRead(items, rest);
        FirstUnits(items);
        ListReads(items, PrintItems(items) + rest, rest);
        assert Print(v) + rest == [OPEN_LIST] + (PrintItems(items) + rest);
      }
    case Obj(members) =>
      if members == [] { EmptyReads(rest); } else {
        MembersRead(members, rest);
        FirstKey(members);
        ObjectReads(members, PrintMembers(members) + rest, rest);
        assert Print(v) + rest == [OPEN_OBJECT] + (PrintMembers(members) + rest);
      }
  }

  lemma FirstUnits(items: seq<Value>)
    requires items != [] && Sound(items[0])
    ensures PrintItems(items) != [] && PrintItems(items)[0] != CLOSE_LIST
  {
    FirstUnit(items[0]);
    assert PrintItems(items)[0] == Print(items[0])[0];
  }

  lemma FirstKey(members: seq<Member>)
    requires members != []
    ensures PrintMembers(members) != [] && PrintMembers(members)[0] == QUOTE
  {
  }

  lemma {:induction false} ItemsRead(items: seq<Value>, rest: Text)
    requires items != [] && forall i :: 0 <= i < |items| ==> Sound(items[i])
    ensures ReadItems(PrintItems(items) + rest) == Some(Read(items, rest))
    decreases items
  {
    hide ReadValue, ReadItems, Print, Sound;
    if |items| == 1 {
      PrintReads(items[0], [CLOSE_LIST] + rest);
      LastItem(items[0], Print(items[0]) + ([CLOSE_LIST] + rest), rest);
      assert PrintItems(items) + rest == Print(items[0]) + ([CLOSE_LIST] + rest);
      assert items == [items[0]];
    } else {
      var more := PrintItems(items[1..]) + rest;
      ItemsRead(items[1..], rest);
      PrintReads(items[0], [COMMA] + more);
      ItemInFront(items[0], Print(items[0]) + ([COMMA] + more), more, items[1..], rest);
      assert PrintItems(items) + rest == Print(items[0]) + ([COMMA] + more);
      assert items == [items[0]] + items[1..];
    }
  }

  lemma {:induction false} MemberReads(m: Member, rest: Text)
    requires Sound(m.value) && Ends(rest)
    ensures ReadMember(PrintMember(m) + rest) == Some(Read(m, rest))
    decreases m
  {
    hide ReadMember, ReadValue, ReadUnits, Print, Quoted;
    var t := PrintMember(m) + rest;
    var body := Print(m.value) + rest;
    assert t == Quoted(m.key) + ([COLON] + body);
    StringReads(m.key, [COLON] + body);
    PrintReads(m.value, rest);
    KeyThenValue(m.key, t, body, m.value, rest);
  }

  lemma {:induction false} MembersRead(members: seq<Member>, rest: Text)
    requires members != [] && forall i :: 0 <= i < |members| ==> Sound(members[i].value)
    ensures ReadMembers(PrintMembers(members) + rest) == Some(Read(members, rest))
    decreases members
  {
    hide ReadMember, ReadMembers, PrintMember, Sound;
    var m := members[0];
    if |members| == 1 {
      MemberReads(m, [CLOSE_OBJECT] + rest);
      LastMember(m, PrintMember(m) + ([CLOSE_OBJECT] + rest), rest);
      assert PrintMembers(members) + rest == PrintMember(m) + ([CLOSE_OBJECT] + rest);
      assert members == [m];
    } else {
      var more := PrintMembers(members[1..]) + rest;
      MembersRead(members[1..], rest);
      MemberReads(m, [COMMA] + more);
      MemberInFront(m, PrintMember(m) + ([COMMA] + more), more, members[1..], rest);
      assert PrintMembers(members) + rest == PrintMember(m) + ([COMMA] + more);
      assert members == [m] + members[1..];
    }
  }

  /** JSON.parse undoes JSON.stringify. */
  lemma ParseUndoesPrint(v: Value)
    requires Sound(v)
    ensures Parse(Print(v)) == Some(v)
  {
    PrintReads(v, []);
    assert Print(v) + [] == Print(v);
  }
}
