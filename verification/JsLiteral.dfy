/** The script driver's literal encoder. */
module JsLiteral {
  import opened Common
  import opened JsonText
  import opened JsonRoundTrip

  // ----- The replacement ------------------------------------------------------------------------

  predicate Unsafe(u: Unit) {
    u == 0x3C || u == 0x3E || u == 0x2028 || u == 0x2029
  }

  /** The escape a unit is replaced by, in upper-case hexadecimal. */
  function Replacement(u: Unit): Text {
    match u
    case 0x3C => [ESCAPE, LETTER_U, 0x30, 0x30, 0x33, 0x43]
    case 0x3E => [ESCAPE, LETTER_U, 0x30, 0x30, 0x33, 0x45]
    case 0x2028 => [ESCAPE, LETTER_U, 0x32, 0x30, 0x32, 0x38]
    case 0x2029 => [ESCAPE, LETTER_U, 0x32, 0x30, 0x32, 0x39]
    case _ => [u]
  }

  function Inert(t: Text): Text {
    if t == [] then [] else Replacement(t[0]) + Inert(t[1..])
  }

  const UNDEFINED: Text := [0x75, 0x6E, 0x64, 0x65, 0x66, 0x69, 0x6E, 0x65, 0x64]

  /** What is interpolated: `undefined`, which has no JSON form, or a JSON value. */
  datatype Argument = Undefined | Json(value: Value)

  function JsLiteral(a: Argument): Text {
    match a
    case Undefined => UNDEFINED
    case Json(v) => Inert(Print(v))
  }

  lemma ReplacementSafe(u: Unit)
    ensures forall r :: r in Replacement(u) ==> !Unsafe(r)
    ensures u >= 0x20 ==> forall r :: r in Replacement(u) ==> r >= 0x20
  {
  }

  lemma {:induction false} InertSafe(t: Text)
    ensures forall u :: u in Inert(t) ==> !Unsafe(u)
  {
    if t != [] { ReplacementSafe(t[0]); InertSafe(t[1..]); }
  }

  lemma {:induction false} InertConcat(a: Text, b: Text)
    ensures Inert(a + b) == Inert(a) + Inert(b)
  {
    if a == [] { assert a + b == b; } else {
      assert (a + b)[1..] == a[1..] + b;
      InertConcat(a[1..], b);
    }
  }

  lemma {:induction false} InertKeeps(t: Text)
    requires forall u :: u in t ==> !Unsafe(u)
    ensures Inert(t) == t
  {
    if t != [] {
      assert t[0] in t && !Unsafe(t[0]);
      InertKeeps(t[1..]);
    }
  }

  /** A safe front is kept, and the rest is replaced on its own. */
  lemma InertFront(t: Text, n: nat)
    requires n <= |t| && forall i :: 0 <= i < n ==> !Unsafe(t[i])
    ensures Inert(t) == t[..n] + Inert(t[n..])
  {
    assert t == t[..n] + t[n..];
    InertConcat(t[..n], t[n..]);
    InertKeeps(t[..n]);
  }

  // ----- The replacement keeps the meaning of every text that reads --------------------------------

  lemma ReplacementReads(u: Unit, t: Text)
    requires u != QUOTE && u != ESCAPE && u >= 0x20
    ensures ReadUnit(Replacement(u) + t) == Some(Read(u, t)) && Replacement(u)[0] != QUOTE
  {
    if Unsafe(u) { assert (Replacement(u) + t)[6..] == t; }
  }

  lemma HexIsSafe(t: Text)
    requires |t| >= 4 && FourHex(t).Some?
    ensures forall i :: 0 <= i < 4 ==> !Unsafe(t[i])
  {
  }

  lemma UnicodeIsSafe(t: Text)
    requires |t| >= 6 && t[0] == ESCAPE && t[1] == LETTER_U && FourHex(t[2..]).Some?
    ensures forall i :: 0 <= i < 6 ==> !Unsafe(t[i])
  {
    HexIsSafe(t[2..]);
    assert forall i :: 2 <= i < 6 ==> t[i] == t[2..][i - 2];
  }

  lemma LetterIsSafe(t: Text)
    requires |t| >= 2 && t[0] == ESCAPE && Unescape(t[1]).Some?
    ensures forall i :: 0 <= i < 2 ==> !Unsafe(t[i])
  {
  }

  /** An escape's own units are never replaced. */
  lemma InertEscape(t: Text)
    requires ReadUnit(t).Some? && t[0] == ESCAPE
    ensures var n := if t[1] == LETTER_U then 6 else 2; |t| >= n && Inert(t) == t[..n] + Inert(t[n..])
  {
    hide Inert, FourHex, Unescape, Unsafe;
    if t[1] == LETTER_U {
      UnicodeIsSafe(t);
      InertFront(t, 6);
    } else {
      LetterIsSafe(t);
      InertFront(t, 2);
    }
  }

  /** An escape reads the same whatever text comes after it. */
  lemma EscapeReads(t: Text, after: Text)
    requires ReadUnit(t).Some? && t[0] == ESCAPE
    ensures var n := if t[1] == LETTER_U then 6 else 2;
            ReadUnit(t).value.rest == t[n..] && ReadUnit(t[..n] + after) == Some(Read(ReadUnit(t).value.value, after))
  {
    if t[1] == LETTER_U {
      assert (t[..6] + after)[6..] == after;
      assert (t[..6] + after)[2..] == t[2..6] + after;
    } else {
      assert (t[..2] + after)[2..] == after;
    }
  }

  lemma InertUnit(t: Text)
    requires ReadUnit(t).Some?
    ensures var r := ReadUnit(t).value;
            && ReadUnit(Inert(t)) == Some(Read(r.value, Inert(r.rest)))
            && Inert(t) != [] && Inert(t)[0] != QUOTE
  {
    if t[0] == ESCAPE {
      InertEscape(t);
      EscapeReads(t, Inert(t[if t[1] == LETTER_U then 6 else 2..]));
    } else {
      ReplacementReads(t[0], Inert(t[1..]));
    }
  }

  lemma {:induction false} InertUnits(t: Text)
    requires ReadUnits(t).Some?
    ensures var r := ReadUnits(t).value; ReadUnits(Inert(t)) == Some(Read(r.value, Inert(r.rest)))
    decreases |t|
  {
    if t[0] == QUOTE {
      InertFront(t, 1);
    } else {
      InertUnit(t);
      InertUnits(ReadUnit(t).value.rest);
    }
  }

  lemma InertNumeralRun(t: Text)
    ensures NumeralRun(Inert(t)) == NumeralRun(t)
    ensures Inert(t)[..NumeralRun(t)] == t[..NumeralRun(t)] && Inert(t)[NumeralRun(t)..] == Inert(t[NumeralRun(t)..])
  {
    RunIsNumeral(t);
    var n := NumeralRun(t);
    InertFront(t, n);
    if n < |t| { ReplacedIsNoNumeral(t[n..]); }
    NumeralRunIs(t[..n], Inert(t[n..]));
  }

  lemma {:induction false} RunIsNumeral(t: Text)
    ensures forall i :: 0 <= i < NumeralRun(t) ==> InNumeral(t[i])
    ensures NumeralRun(t) < |t| ==> !InNumeral(t[NumeralRun(t)])
  {
    if t != [] && InNumeral(t[0]) {
      RunIsNumeral(t[1..]);
      assert forall i :: 0 < i < NumeralRun(t) ==> t[i] == t[1..][i - 1];
    }
  }

  lemma ReplacedIsNoNumeral(t: Text)
    requires t != [] && !InNumeral(t[0])
    ensures Inert(t) != [] && !InNumeral(Inert(t)[0])
  {
  }

  lemma InertNumeral(t: Text)
    requires ReadNumeral(t).Some?
    ensures var r := ReadNumeral(t).value; ReadNumeral(Inert(t)) == Some(Read(r.value, Inert(r.rest)))
  {
    hide Numeral, Inert, NumeralRun;
    InertNumeralRun(t);
  }

  lemma InertWord(t: Text, word: Text, v: Value)
    requires word != [] && word <= t && forall u :: u in word ==> !Unsafe(u)
    ensures ReadWord(Inert(t), word, v) == Some(Read(v, Inert(t[|word|..])))
  {
    InertFront(t, |word|);
  }

  /** A first unit that starts a JSON value or goes between two is kept. */
  lemma InertHead(t: Text)
    requires t != [] && !Unsafe(t[0])
    ensures Inert(t) == [t[0]] + Inert(t[1..]) && Inert(t)[1..] == Inert(t[1..])
  {
    InertFront(t, 1);
  }

  lemma StartsSafe(t: Text)
    requires ReadValue(t).Some?
    ensures t != [] && !Unsafe(t[0])
  {
    hide ReadItems, ReadMembers, ReadUnits, Numeral;
    if NumeralRun(t) > 0 { assert InNumeral(t[0]); }
  }

  lemma {:induction false} InertValue(t: Text)
    requires ReadValue(t).Some?
    ensures var r := ReadValue(t).value; ReadValue(Inert(t)) == Some(Read(r.value, Inert(r.rest)))
    decreases |t|, 0
  {
    hide ReadItems, ReadMembers, ReadUnits, ReadNumeral, Inert;
    StartsSafe(t);
    InertHead(t);
    if t[0] == QUOTE {
      InertUnits(t[1..]);
    } else if t[0] == OPEN_LIST {
      InertList(t);
    } else if t[0] == OPEN_OBJECT {
      InertObject(t);
    } else if t[0] == NULL[0] {
      InertWord(t, NULL, Null);
    } else if t[0] == TRUE[0] {
      InertWord(t, TRUE, Bool(true));
    } else if t[0] == FALSE[0] {
      InertWord(t, FALSE, Bool(false));
    } else {
      InertNumeral(t);
    }
  }

  lemma {:induction false} InertList(t: Text)
    requires ReadValue(t).Some? && t[0] == OPEN_LIST
    ensures var r := ReadValue(t).value; ReadValue(Inert(t)) == Some(Read(r.value, Inert(r.rest)))
    decreases |t[1..]|, 3
  {
    hide ReadItems, ReadMembers, ReadUnits, Inert;
    InertHead(t);
    if t[1] == CLOSE_LIST {
      InertHead(t[1..]);
      assert Inert(t) == [OPEN_LIST, CLOSE_LIST] + Inert(t[2..]);
      EmptyReads(Inert(t[2..]));
    } else {
      InertItems(t[1..]);
      ItemsStartSafe(t[1..]);
      InertHead(t[1..]);
      ListReads(ReadItems(t[1..]).value.value, Inert(t[1..]), Inert(ReadItems(t[1..]).value.rest));
    }
  }

  lemma ItemsStartSafe(t: Text)
    requires ReadItems(t).Some?
    ensures t != [] && !Unsafe(t[0])
  {
    hide ReadValue;
    StartsSafe(t);
  }

  lemma {:induction false} InertItems(t: Text)
    requires ReadItems(t).Some?
    ensures var r := ReadItems(t).value; ReadItems(Inert(t)) == Some(Read(r.value, Inert(r.rest)))
    decreases |t|, 1
  {
    hide ReadValue, ReadItems, Inert;
    ItemsShape(t);
    var one := ReadValue(t).value;
    InertValue(t);
    InertHead(one.rest);
    if one.rest[0] == CLOSE_LIST {
      LastItem(one.value, Inert(t), Inert(one.rest[1..]));
    } else {
      InertItems(one.rest[1..]);
      var more := ReadItems(one.rest[1..]).value;
      ItemInFront(one.value, Inert(t), Inert(one.rest[1..]), more.value, Inert(more.rest));
    }
  }

  lemma ItemsShape(t: Text)
    requires ReadItems(t).Some?
    ensures ReadValue(t).Some? && ReadValue(t).value.rest != [] && |ReadValue(t).value.rest| < |t|
    ensures var one := ReadValue(t).value;
            if one.rest[0] == CLOSE_LIST then ReadItems(t).value == Read([one.value], one.rest[1..])
            else one.rest[0] == COMMA && ReadItems(one.rest[1..]).Some?
                 && var more := ReadItems(one.rest[1..]).value;
                    ReadItems(t).value == Read([one.value] + more.value, more.rest)
  {
    hide ReadValue;
  }

  lemma {:induction false} InertObject(t: Text)
    requires ReadValue(t).Some? && t[0] == OPEN_OBJECT
    ensures var r := ReadValue(t).value; ReadValue(Inert(t)) == Some(Read(r.value, Inert(r.rest)))
    decreases |t[1..]|, 3
  {
    hide ReadItems, ReadMembers, ReadUnits, Inert;
    InertHead(t);
    if t[1] == CLOSE_OBJECT {
      InertHead(t[1..]);
      assert Inert(t) == [OPEN_OBJECT, CLOSE_OBJECT] + Inert(t[2..]);
      EmptyReads(Inert(t[2..]));
    } else {
      InertMembers(t[1..]);
      MembersShape(t[1..]);
      MemberShape(t[1..]);
      InertHead(t[1..]);
      ObjectReads(ReadMembers(t[1..]).value.value, Inert(t[1..]), Inert(ReadMembers(t[1..]).value.rest));
    }
  }

  lemma MemberShape(t: Text)
    requires ReadMember(t).Some?
    ensures t != [] && t[0] == QUOTE && ReadUnits(t[1..]).Some?
    ensures var key := ReadUnits(t[1..]).value;
            && key.rest != [] && key.rest[0] == COLON && |key.rest| < |t| && ReadValue(key.rest[1..]).Some?
            && var body := ReadValue(key.rest[1..]).value;
               ReadMember(t).value == Read(Member(key.value, body.value), body.rest)
  {
    hide ReadUnits, ReadValue;
  }

  lemma {:induction false} InertMember(t: Text)
    requires ReadMember(t).Some?
    ensures var r := ReadMember(t).value; ReadMember(Inert(t)) == Some(Read(r.value, Inert(r.rest)))
    decreases |t|, 1
  {
    hide ReadMember, ReadUnits, ReadValue, Inert;
    MemberShape(t);
    var key := ReadUnits(t[1..]).value;
    var body := ReadValue(key.rest[1..]).value;
    InertHead(t);
    InertUnits(t[1..]);
    InertHead(key.rest);
    InertValue(key.rest[1..]);
    KeyThenValue(key.value, Inert(t), Inert(key.rest[1..]), body.value, Inert(body.rest));
  }

  lemma MembersShape(t: Text)
    requires ReadMembers(t).Some?
    ensures ReadMember(t).Some? && ReadMember(t).value.rest != [] && |ReadMember(t).value.rest| < |t|
    ensures var one := ReadMember(t).value;
            if one.rest[0] == CLOSE_OBJECT then ReadMembers(t).value == Read([one.value], one.rest[1..])
            else one.rest[0] == COMMA && ReadMembers(one.rest[1..]).Some?
                 && var more := ReadMembers(one.rest[1..]).value;
                    ReadMembers(t).value == Read([one.value] + more.value, more.rest)
  {
    hide ReadMember;
  }

  lemma {:induction false} InertMembers(t: Text)
    requires ReadMembers(t).Some?
    ensures var r := ReadMembers(t).value; ReadMembers(Inert(t)) == Some(Read(r.value, Inert(r.rest)))
    decreases |t|, 2
  {
    hide ReadMember, ReadMembers, Inert;
    MembersShape(t);
    var one := ReadMember(t).value;
    InertMember(t);
    InertHead(one.rest);
    if one.rest[0] == CLOSE_OBJECT {
      LastMember(one.value, Inert(t), Inert(one.rest[1..]));
    } else {
      InertMembers(one.rest[1..]);
      var more := ReadMembers(one.rest[1..]).value;
      MemberInFront(one.value, Inert(t), Inert(one.rest[1..]), more.value, Inert(more.rest));
    }
  }

  /** The replacement neither splits nor misaligns an escape: a text that reads as some value
      reads as the same value once the four units are replaced. */
  lemma ReplacementKeepsMeaning(t: Text)
    requires Parse(t).Some?
    ensures Parse(Inert(t)) == Parse(t)
  {
    InertValue(t);
  }

  // ----- The literal ------------------------------------------------------------------------------

  /** The property name that an object literal reads as the object's prototype. */
  const PROTO: Text := [0x5F, 0x5F, 0x70, 0x72, 0x6F, 0x74, 0x6F, 0x5F, 0x5F]

  /** The own properties a JSON text gives when it is evaluated as a literal: a member named
      `__proto__` sets the prototype and makes no property (section B.3.1 of ECMA-262). */
  function Evaluated(v: Value): Value
    decreases v
  {
    match v
    case Arr(items) => Arr(EvaluatedItems(items))
    case Obj(members) => Obj(EvaluatedMembers(members))
    case _ => v
  }

  function EvaluatedItems(items: seq<Value>): seq<Value>
    decreases items
  {
    if items == [] then [] else [Evaluated(items[0])] + EvaluatedItems(items[1..])
  }

  function EvaluatedMembers(members: seq<Member>): seq<Member>
    decreases members
  {
    if members == [] then []
    else if members[0].key == PROTO then EvaluatedMembers(members[1..])
    else [Member(members[0].key, Evaluated(members[0].value))] + EvaluatedMembers(members[1..])
  }

  /** Evaluates a source text that is `undefined` or a JSON text. */
  function Evaluate(t: Text): Option<Argument> {
    if t == UNDEFINED then Some(Undefined)
    else if Parse(t).Some? then Some(Json(Evaluated(Parse(t).value)))
    else None
  }

  /** Some object in the value has a property named `__proto__`. */
  predicate NamesProto(v: Value) {
    match v
    case Arr(items) => exists i :: 0 <= i < |items| && NamesProto(items[i])
    case Obj(members) => exists i :: 0 <= i < |members| && (members[i].key == PROTO || NamesProto(members[i].value))
    case _ => false
  }

  lemma {:induction false} EvaluatedIff(v: Value)
    ensures Evaluated(v) == v <==> !NamesProto(v)
    decreases v
  {
    match v
    case Arr(items) => EvaluatedItemsIff(items);
    case Obj(members) => EvaluatedMembersIff(members);
    case _ =>
  }

  lemma {:induction false} EvaluatedItemsIff(items: seq<Value>)
    ensures EvaluatedItems(items) == items <==> forall i :: 0 <= i < |items| ==> !NamesProto(items[i])
    decreases items
  {
    if items != [] {
      EvaluatedIff(items[0]);
      EvaluatedItemsIff(items[1..]);
      var rest := EvaluatedItems(items[1..]);
      assert ([Evaluated(items[0])] + rest)[0] == Evaluated(items[0]) && ([Evaluated(items[0])] + rest)[1..] == rest;
      assert forall i :: 0 < i < |items| ==> items[i] == items[1..][i - 1];
    }
  }

  lemma {:induction false} EvaluatedMembersIff(members: seq<Member>)
    ensures |EvaluatedMembers(members)| <= |members|
    ensures EvaluatedMembers(members) == members
            <==> forall i :: 0 <= i < |members| ==> members[i].key != PROTO && !NamesProto(members[i].value)
    decreases members
  {
    if members != [] {
      EvaluatedIff(members[0].value);
      EvaluatedMembersIff(members[1..]);
      var rest := EvaluatedMembers(members[1..]);
      var head := Member(members[0].key, Evaluated(members[0].value));
      assert ([head] + rest)[0] == head && ([head] + rest)[1..] == rest;
      assert forall i :: 0 < i < |members| ==> members[i] == members[1..][i - 1];
    }
  }

  /** Read as JSON, the encoder's text gives the value back. */
  lemma LiteralParses(v: Value)
    requires Sound(v)
    ensures Parse(JsLiteral(Json(v))) == Some(v)
  {
    ParseUndoesPrint(v);
    ReplacementKeepsMeaning(Print(v));
  }

  lemma UndefinedIsNoJson()
    ensures Parse(UNDEFINED).None?
  {
    assert NumeralRun(UNDEFINED) == 0;
  }

  /** Read as a literal it gives the argument back exactly when no object in it has a property
      named `__proto__`. */
  lemma LiteralEvaluatesIff(a: Argument)
    requires a.Json? ==> Sound(a.value)
    ensures Evaluate(JsLiteral(a)) == Some(a) <==> (a.Json? ==> !NamesProto(a.value))
  {
    UndefinedIsNoJson();
    if a.Json? {
      LiteralParses(a.value);
      EvaluatedIff(a.value);
    }
  }

  /** What the driver encodes, a string or a list of strings, always survives. */
  lemma StringsSurvive(v: Value)
    requires v.Str? || (v.Arr? && forall i :: 0 <= i < |v.items| ==> v.items[i].Str?)
    ensures Evaluate(JsLiteral(Json(v))) == Some(Json(v))
  {
    LiteralEvaluatesIff(Json(v));
  }

  /** An object that is lost: `{"__proto__":null}` evaluates to an object with no properties. */
  lemma ProtoIsLost()
    ensures var v := Obj([Member(PROTO, Null)]);
            Sound(v) && NamesProto(v) && Evaluate(JsLiteral(Json(v))) == Some(Json(Obj([])))
  {
    var v := Obj([Member(PROTO, Null)]);
    assert v.members[0].key == PROTO;
    LiteralParses(v);
    UndefinedIsNoJson();
    assert EvaluatedMembers(v.members) == [];
  }

  lemma {:induction false} QuotedIsVisible(s: Text)
    ensures forall u :: u in QuoteUnits(s) ==> u >= 0x20
  {
    if s == [] {
    } else if Leading(s[0]) && |s| > 1 && Trailing(s[1]) {
      QuotedIsVisible(s[2..]);
    } else {
      QuotedIsVisible(s[1..]);
    }
  }

  lemma {:induction false} PrintIsVisible(v: Value)
    requires Sound(v)
    ensures forall u :: u in Print(v) ==> u >= 0x20
    decreases v
  {
    match v
    case Num(n) => NumeralUnits(n);
    case Str(s) => QuotedIsVisible(s);
    case Arr(items) => if items != [] { ItemsAreVisible(items); }
    case Obj(members) => if members != [] { MembersAreVisible(members); }
    case _ =>
  }

  lemma {:induction false} ItemsAreVisible(items: seq<Value>)
    requires items != [] && forall i :: 0 <= i < |items| ==> Sound(items[i])
    ensures forall u :: u in PrintItems(items) ==> u >= 0x20
    decreases items
  {
    PrintIsVisible(items[0]);
    if |items| > 1 { ItemsAreVisible(items[1..]); }
  }

  lemma {:induction false} MembersAreVisible(members: seq<Member>)
    requires members != [] && forall i :: 0 <= i < |members| ==> Sound(members[i].value)
    ensures forall u :: u in PrintMembers(members) ==> u >= 0x20
    decreases members
  {
    QuotedIsVisible(members[0].key);
    PrintIsVisible(members[0].value);
    assert forall u :: u in PrintMember(members[0]) ==> u >= 0x20;
    if |members| > 1 { MembersAreVisible(members[1..]); }
  }

  lemma {:induction false} InertIsVisible(t: Text)
    requires forall u :: u in t ==> u >= 0x20
    ensures forall u :: u in Inert(t) ==> u >= 0x20
  {
    if t != [] {
      assert t[0] in t && forall u :: u in t[1..] ==> u in t;
      ReplacementSafe(t[0]);
      InertIsVisible(t[1..]);
    }
  }

  /** The encoder's text holds no `<`, no `>`, and no line end of any kind. */
  lemma LiteralIsInert(a: Argument)
    requires a.Json? ==> Sound(a.value)
    ensures forall u :: u in JsLiteral(a) ==> !Unsafe(u) && u >= 0x20
  {
    if a.Json? {
      InertSafe(Print(a.value));
      PrintIsVisible(a.value);
      InertIsVisible(Print(a.value));
    }
  }
}
