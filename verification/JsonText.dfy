/**
 * JSON text over UTF-16 code units: what JSON.stringify prints (section 25.5.2 of ECMA-262) and
 * what a reader of RFC 8259's compact form makes of it.
 *
 * The reader is written from the grammar, not from the printer: it takes every escape of section 7
 * of RFC 8259, hexadecimal digits of either case, and numerals by section 6.
 */
module JsonText {
  import opened Common

  type Unit = u: nat | u < 0x1_0000
  type Text = seq<Unit>

  const QUOTE: Unit := 0x22
  const COMMA: Unit := 0x2C
  const COLON: Unit := 0x3A
  const OPEN_LIST: Unit := 0x5B
  const ESCAPE: Unit := 0x5C
  const CLOSE_LIST: Unit := 0x5D
  const OPEN_OBJECT: Unit := 0x7B
  const CLOSE_OBJECT: Unit := 0x7D
  const LETTER_U: Unit := 0x75
  const NULL: Text := [0x6E, 0x75, 0x6C, 0x6C]
  const TRUE: Text := [0x74, 0x72, 0x75, 0x65]
  const FALSE: Text := [0x66, 0x61, 0x6C, 0x73, 0x65]

  /** A JSON value. A number is held as its numeral, an object as its own properties in order. */
  datatype Value =
    | Null
    | Bool(truth: bool)
    | Num(numeral: Text)
    | Str(text: Text)
    | Arr(items: seq<Value>)
    | Obj(members: seq<Member>)

  datatype Member = Member(key: Text, value: Value)

  // ----- Numerals (section 6 of RFC 8259) ---------------------------------------------------

  predicate Digit(u: Unit) { 0x30 <= u <= 0x39 }

  /** Digits, signs, the point and the exponent letters. */
  predicate InNumeral(u: Unit) {
    Digit(u) || u == 0x2B || u == 0x2D || u == 0x2E || u == 0x45 || u == 0x65
  }

  predicate Digits(t: Text) { t != [] && forall u :: u in t ==> Digit(u) }

  predicate Whole(t: Text) { Digits(t) && (|t| > 1 ==> t[0] != 0x30) }

  predicate Exponent(t: Text) {
    t == [] || ((t[0] == 0x45 || t[0] == 0x65)
                && (Digits(t[1..]) || (|t| > 1 && (t[1] == 0x2B || t[1] == 0x2D) && Digits(t[2..]))))
  }

  predicate Fraction(t: Text) {
    t == [] || (t[0] == 0x2E && exists i :: 0 < i <= |t| && Digits(t[1..i]) && Exponent(t[i..]))
            || Exponent(t)
  }

  predicate Unsigned(t: Text) {
    exists i :: 0 < i <= |t| && Whole(t[..i]) && Fraction(t[i..])
  }

  predicate Numeral(t: Text) {
    Unsigned(t) || (t != [] && t[0] == 0x2D && Unsigned(t[1..]))
  }

  // ----- Printing -----------------------------------------------------------------------------

  predicate Leading(u: Unit) { 0xD800 <= u <= 0xDBFF }

  predicate Trailing(u: Unit) { 0xDC00 <= u <= 0xDFFF }

  function HexDigit(n: nat): Unit
    requires n < 16
  {
    if n < 10 then 0x30 + n else 0x61 + n - 10
  }

  /** `\uXXXX` in lower case. */
  function UnicodeEscape(u: Unit): Text {
    [ESCAPE, LETTER_U, HexDigit(u / 0x1000), HexDigit(u / 0x100 % 0x10), HexDigit(u / 0x10 % 0x10), HexDigit(u % 0x10)]
  }

  /** The letter after the backslash of a two-character escape, if the unit has one. */
  function ShortEscape(u: Unit): Option<Unit> {
    match u
    case 0x08 => Some(0x62)
    case 0x09 => Some(0x74)
    case 0x0A => Some(0x6E)
    case 0x0C => Some(0x66)
    case 0x0D => Some(0x72)
    case 0x22 => Some(0x22)
    case 0x5C => Some(0x5C)
    case _ => None
  }

  /** One unit that is no half of a surrogate pair. */
  function QuoteUnit(u: Unit): Text {
    if ShortEscape(u).Some? then [ESCAPE, ShortEscape(u).value]
    else if u < 0x20 || Leading(u) || Trailing(u) then UnicodeEscape(u)
    else [u]
  }

  function QuoteUnits(s: Text): Text {
    if s == [] then []
    else if Leading(s[0]) && |s| > 1 && Trailing(s[1]) then s[..2] + QuoteUnits(s[2..])
    else QuoteUnit(s[0]) + QuoteUnits(s[1..])
  }

  function Quoted(s: Text): Text {
    [QUOTE] + QuoteUnits(s) + [QUOTE]
  }

  function Print(v: Value): Text
    decreases v
  {
    match v
    case Null => NULL
    case Bool(b) => if b then TRUE else FALSE
    case Num(n) => n
    case Str(s) => Quoted(s)
    case Arr(items) => if items == [] then [OPEN_LIST, CLOSE_LIST] else [OPEN_LIST] + PrintItems(items)
    case Obj(members) => if members == [] then [OPEN_OBJECT, CLOSE_OBJECT] else [OPEN_OBJECT] + PrintMembers(members)
  }

  function PrintItems(items: seq<Value>): Text
    requires items != []
    decreases items
  {
    Print(items[0]) + if |items| == 1 then [CLOSE_LIST] else [COMMA] + PrintItems(items[1..])
  }

  function PrintMember(m: Member): Text
    decreases m
  {
    Quoted(m.key) + [COLON] + Print(m.value)
  }

  function PrintMembers(members: seq<Member>): Text
    requires members != []
    decreases members
  {
    PrintMember(members[0]) + if |members| == 1 then [CLOSE_OBJECT] else [COMMA] + PrintMembers(members[1..])
  }

  /** A unit stands for itself unless it is a quotation mark, a backslash, a control character or
      half a surrogate pair without the other. */
  lemma StandsForItselfIff(u: Unit)
    ensures QuoteUnits([u]) == [u] <==> u >= 0x20 && u != 0x22 && u != 0x5C && !(0xD800 <= u < 0xE000)
    ensures |QuoteUnits([u])| in [1, 2, 6]
  {
    assert [u][1..] == [];
  }

  /** No half of a surrogate pair stands alone. */
  predicate Paired(t: Text) {
    && (forall i :: 0 <= i < |t| && 0xD800 <= t[i] < 0xDC00 ==> i + 1 < |t| && 0xDC00 <= t[i + 1] < 0xE000)
    && (forall i :: 0 <= i < |t| && 0xDC00 <= t[i] < 0xE000 ==> i > 0 && 0xD800 <= t[i - 1] < 0xDC00)
  }

  lemma PairedBoth(a: Text, b: Text)
    requires Paired(a) && Paired(b)
    ensures Paired(a + b)
  {
  }

  /** Printable characters of ASCII only. */
  predicate Printable(t: Text) {
    forall i :: 0 <= i < |t| ==> 0x20 <= t[i] < 0x7F
  }

  lemma EscapeIsPrintable(u: Unit)
    ensures Printable(UnicodeEscape(u))
  {
  }

  lemma PrintablePaired(t: Text)
    requires Printable(t)
    ensures Paired(t)
  {
  }

  lemma QuoteUnitPaired(u: Unit)
    ensures Paired(QuoteUnit(u)) && forall i :: 0 <= i < |QuoteUnit(u)| ==> QuoteUnit(u)[i] >= 0x20
  {
    hide UnicodeEscape, Paired;
    EscapeIsPrintable(u);
    if u >= 0x7F && !Leading(u) && !Trailing(u) { AlonePaired(u); } else { PrintablePaired(QuoteUnit(u)); }
  }

  lemma AlonePaired(u: Unit)
    requires !Leading(u) && !Trailing(u)
    ensures Paired([u])
  {
  }

  /** What is printed of a string is well-formed and holds no control character, whatever the string
      is. */
  lemma {:induction false} PrintsWellFormed(s: Text)
    ensures Paired(QuoteUnits(s)) && forall i :: 0 <= i < |QuoteUnits(s)| ==> QuoteUnits(s)[i] >= 0x20
    decreases |s|
  {
    hide Paired, QuoteUnit;
    if s == [] {
      assert Paired([]) by { NothingPaired(); }
    } else if Leading(s[0]) && |s| > 1 && Trailing(s[1]) {
      PrintsWellFormed(s[2..]);
      PairIsPaired(s[..2]);
      PairedBoth(s[..2], QuoteUnits(s[2..]));
    } else {
      PrintsWellFormed(s[1..]);
      QuoteUnitPaired(s[0]);
      PairedBoth(QuoteUnit(s[0]), QuoteUnits(s[1..]));
    }
  }

  lemma NothingPaired()
    ensures Paired([])
  {
  }

  lemma PairIsPaired(t: Text)
    requires |t| == 2 && Leading(t[0]) && Trailing(t[1])
    ensures Paired(t)
  {
  }

  // ----- Reading ------------------------------------------------------------------------------

  /** What a reader took off the front of a text, and what it left. */
  datatype Read<T> = Read(value: T, rest: Text)

  function HexValue(u: Unit): (r: Option<nat>)
    ensures r.Some? ==> r.value < 0x10
  {
    if Digit(u) then Some(u - 0x30)
    else if 0x41 <= u <= 0x46 then Some(u - 0x41 + 10)
    else if 0x61 <= u <= 0x66 then Some(u - 0x61 + 10)
    else None
  }

  /** A hexadecimal digit is one of these, of either case. */
  lemma HexMeans(u: Unit, n: nat)
    requires n < 16
    ensures var low: Text := [0x30, 0x31, 0x32, 0x33, 0x34, 0x35, 0x36, 0x37, 0x38, 0x39,
                              0x61, 0x62, 0x63, 0x64, 0x65, 0x66];
            HexValue(u) == Some(n) <==> u == low[n] || (n > 9 && u == low[n] - 0x20)
  {
  }

  /** Four hexadecimal digits of either case. */
  function FourHex(t: Text): Option<Unit>
    requires |t| >= 4
  {
    var a, b, c, d := HexValue(t[0]), HexValue(t[1]), HexValue(t[2]), HexValue(t[3]);
    if a.Some? && b.Some? && c.Some? && d.Some?
    then Some(((a.value * 0x10 + b.value) * 0x10 + c.value) * 0x10 + d.value)
    else None
  }

  /** What the letter after a backslash stands for. */
  function Unescape(letter: Unit): Option<Unit> {
    match letter
    case 0x22 => Some(0x22)
    case 0x5C => Some(0x5C)
    case 0x2F => Some(0x2F)
    case 0x62 => Some(0x08)
    case 0x66 => Some(0x0C)
    case 0x6E => Some(0x0A)
    case 0x72 => Some(0x0D)
    case 0x74 => Some(0x09)
    case _ => None
  }

  /** One unit of a string's content: itself, or what an escape stands for. */
  function ReadUnit(t: Text): (r: Option<Read<Unit>>)
    ensures r.Some? ==> |r.value.rest| < |t|
  {
    if t == [] || t[0] == QUOTE || t[0] < 0x20 then None
    else if t[0] != ESCAPE then Some(Read(t[0], t[1..]))
    else if |t| < 2 then None
    else if t[1] == LETTER_U then
      if |t| < 6 || FourHex(t[2..]).None? then None else Some(Read(FourHex(t[2..]).value, t[6..]))
    else if Unescape(t[1]).Some? then Some(Read(Unescape(t[1]).value, t[2..]))
    else None
  }

  /** A string's content up to and over its closing quote. */
  function ReadUnits(t: Text): (r: Option<Read<Text>>)
    ensures r.Some? ==> |r.value.rest| < |t|
    decreases |t|
  {
    if t != [] && t[0] == QUOTE then Some(Read([], t[1..]))
    else
      var one := ReadUnit(t);
      if one.None? then None
      else
        var more := ReadUnits(one.value.rest);
        if more.None? then None else Some(Read([one.value.value] + more.value.value, more.value.rest))
  }

  /** The longest run of numeral units. */
  function NumeralRun(t: Text): nat
    ensures NumeralRun(t) <= |t|
  {
    if t == [] || !InNumeral(t[0]) then 0 else 1 + NumeralRun(t[1..])
  }

  function ReadNumeral(t: Text): (r: Option<Read<Value>>)
    ensures r.Some? ==> |r.value.rest| < |t|
  {
    var n := NumeralRun(t);
    if n > 0 && Numeral(t[..n]) then Some(Read(Num(t[..n]), t[n..])) else None
  }

  function ReadWord(t: Text, word: Text, v: Value): (r: Option<Read<Value>>)
    requires word != []
    ensures r.Some? ==> |r.value.rest| < |t|
  {
    if word <= t then Some(Read(v, t[|word|..])) else None
  }

  function ReadValue(t: Text): (r: Option<Read<Value>>)
    ensures r.Some? ==> |r.value.rest| < |t|
    decreases |t|, 0
  {
    if t == [] then None
    else if t[0] == QUOTE then
      var s := ReadUnits(t[1..]);
      if s.None? then None else Some(Read(Str(s.value.value), s.value.rest))
    else if t[0] == OPEN_LIST then
      if |t| > 1 && t[1] == CLOSE_LIST then Some(Read(Arr([]), t[2..]))
      else
        var items := ReadItems(t[1..]);
        if items.None? then None else Some(Read(Arr(items.value.value), items.value.rest))
    else if t[0] == OPEN_OBJECT then
      if |t| > 1 && t[1] == CLOSE_OBJECT then Some(Read(Obj([]), t[2..]))
      else
        var members := ReadMembers(t[1..]);
        if members.None? then None else Some(Read(Obj(members.value.value), members.value.rest))
    else if t[0] == NULL[0] then ReadWord(t, NULL, Null)
    else if t[0] == TRUE[0] then ReadWord(t, TRUE, Bool(true))
    else if t[0] == FALSE[0] then ReadWord(t, FALSE, Bool(false))
    else ReadNumeral(t)
  }

  function ReadItems(t: Text): (r: Option<Read<seq<Value>>>)
    ensures r.Some? ==> |r.value.rest| < |t|
    decreases |t|, 1
  {
    var one := ReadValue(t);
    if one.None? || one.value.rest == [] then None
    else
      var rest := one.value.rest;
      if rest[0] == CLOSE_LIST then Some(Read([one.value.value], rest[1..]))
      else if rest[0] != COMMA then None
      else
        var more := ReadItems(rest[1..]);
        if more.None? then None else Some(Read([one.value.value] + more.value.value, more.value.rest))
  }

  function ReadMember(t: Text): (r: Option<Read<Member>>)
    ensures r.Some? ==> |r.value.rest| < |t|
    decreases |t|, 1
  {
    if t == [] || t[0] != QUOTE then None
    else
      var key := ReadUnits(t[1..]);
      if key.None? || key.value.rest == [] || key.value.rest[0] != COLON then None
      else
        var value := ReadValue(key.value.rest[1..]);
        if value.None? then None else Some(Read(Member(key.value.value, value.value.value), value.value.rest))
  }

  function ReadMembers(t: Text): (r: Option<Read<seq<Member>>>)
    ensures r.Some? ==> |r.value.rest| < |t|
    decreases |t|, 2
  {
    var one := ReadMember(t);
    if one.None? || one.value.rest == [] then None
    else
      var rest := one.value.rest;
      if rest[0] == CLOSE_OBJECT then Some(Read([one.value.value], rest[1..]))
      else if rest[0] != COMMA then None
      else
        var more := ReadMembers(rest[1..]);
        if more.None? then None else Some(Read([one.value.value] + more.value.value, more.value.rest))
  }

  /** A whole text as one JSON value. */
  function Parse(t: Text): Option<Value> {
    var r := ReadValue(t);
    if r.Some? && r.value.rest == [] then Some(r.value.value) else None
  }
}
