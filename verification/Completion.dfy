/**
 * Completing a generated operation of the interface description: its id, its tag, its path
 * parameters, its request body and the failures it documents.
 *
 * The operation is completed in place, field by field. What each field becomes is a function of
 * the operation as it was, so a second completion can be compared with the first.
 */
module Completion {
  import opened Common
  import opened OperationIds
  import opened PathSegments
  import opened Routes
  import opened Sorting

  datatype Schema = Array | OtherSchema(text: string)

  /** An entry written out, or a reference to one elsewhere. */
  datatype RefOr<T> = Ref(target: string) | Inline(value: T)

  datatype Content = Content(schema: Option<RefOr<Schema>>, example: string)

  datatype Place = InPath | InQuery | InHeader | InCookie

  datatype Parameter = Parameter(name: string, place: Place, required: bool, text: string)

  datatype Body = Body(content: map<string, RefOr<Content>>, description: Option<string>, required: bool)

  /** Which failure a documented one is; its wording follows from that. */
  datatype Failure = Rejected | Unreadable | NoSuchRow | UpstreamDown | Internal | TooLarge | WrongType

  datatype Description = Generated(text: string) | Failed(failure: Failure)

  datatype Response = Response(description: Description, content: map<string, RefOr<Content>>)

  /** What an operation says, apart from what completing it never touches. */
  datatype Described = Described(id: Option<string>, tags: Option<seq<string>>, description: Option<string>,
                                 parameters: Option<seq<RefOr<Parameter>>>, body: Option<RefOr<Body>>,
                                 responses: map<string, RefOr<Response>>)

  const JSON := "application/json"
  const FORM := "application/x-www-form-urlencoded"

  /** How ids are spelt: what the responses say of it is whether one is a creation and whether the
      answer is a list. */
  type Naming = (Verb, string, bool, bool) -> string

  function Spelling(): Naming {
    (verb, path, created, lists) => OperationId(verb, path, created, lists)
  }

  // ----- Path parameters ------------------------------------------------------------------------

  function ParameterName(segment: string): Option<string> {
    if |segment| >= 2 && segment[0] == '{' && segment[|segment| - 1] == '}' then Some(segment[1..|segment| - 1])
    else None
  }

  function ParametersOf(segments: seq<string>): seq<Parameter> {
    if segments == [] then []
    else
      var name, rest := ParameterName(segments[0]), ParametersOf(segments[1..]);
      if name.Some? then [Parameter(name.value, InPath, true, "string")] + rest else rest
  }

  function PathParameters(path: string): seq<Parameter> {
    ParametersOf(Split(path))
  }

  // ----- Status keys --------------------------------------------------------------------------------

  /** The status a response key parses to: digits, with or without a plus sign. */
  function DigitsValue(t: string, sofar: nat): Option<nat> {
    if t == "" then Some(sofar)
    else if '0' <= t[0] <= '9' then DigitsValue(t[1..], sofar * 10 + (t[0] as int - '0' as int))
    else None
  }

  function Status(key: string): Option<nat> {
    var digits := if "+" <= key then key[1..] else key;
    var v := DigitsValue(digits, 0);
    if digits == "" || v.None? || v.value > 0xFFFF then None else v
  }

  // ----- The pieces ------------------------------------------------------------------------------------

  predicate IsArray(c: RefOr<Content>) {
    c.Inline? && c.value.schema == Some(Inline(Array))
  }

  predicate AnswersArray(responses: map<string, RefOr<Response>>) {
    "200" in responses && responses["200"].Inline?
    && JSON in responses["200"].value.content && IsArray(responses["200"].value.content[JSON])
  }

  predicate Creates(responses: map<string, RefOr<Response>>) {
    exists key :: key in responses && Status(key) == Some(201)
  }

  predicate IsPathParameter(p: RefOr<Parameter>) {
    p.Inline? && p.value.place == InPath
  }

  function Others(parameters: seq<RefOr<Parameter>>): seq<RefOr<Parameter>> {
    if parameters == [] then []
    else if IsPathParameter(parameters[0]) then Others(parameters[1..])
    else [parameters[0]] + Others(parameters[1..])
  }

  function Inlined(parameters: seq<Parameter>): seq<RefOr<Parameter>> {
    if parameters == [] then [] else [Inline(parameters[0])] + Inlined(parameters[1..])
  }

  predicate Structured(b: Body) {
    forall media :: media in b.content ==> media == JSON || media == FORM
  }

  function Cleared(content: map<string, RefOr<Content>>): map<string, RefOr<Content>> {
    map media | media in content ::
      if media != JSON && media != FORM && content[media].Inline?
      then Inline(content[media].value.(schema := None)) else content[media]
  }

  function BodyText(form: bool, structured: bool, lists: bool): string {
    if form then "The form request body."
    else if !structured then "The raw request body: not JSON, so it carries no schema here."
    else if lists then "A JSON array request body."
    else "The JSON request body."
  }

  function CompletedBody(b: Body): Body {
    var content := Cleared(b.content);
    Body(content, Some(BodyText(FORM in content, Structured(b), HasArray(content))), true)
  }

  /** Whether there is a body, and whether it is structured. */
  function BodyKind(b: Option<RefOr<Body>>): Option<bool> {
    match b
    case None => None
    case Some(Ref(_)) => Some(true)
    case Some(Inline(body)) => Some(Structured(body))
  }

  predicate EndsWith(t: string, end: string) {
    |end| <= |t| && t[|t| - |end|..] == end
  }

  function Plain(f: Failure): RefOr<Response> {
    Inline(Response(Failed(f), map[]))
  }

  /** The failures a route documents, by status. */
  function Failures(verb: Verb, path: string, body: Option<bool>): map<string, RefOr<Response>> {
    ByStatus(if body == Some(true) then Some(Rejected)
             else if body == Some(false) && verb == Post then Some(Unreadable) else None,
             '{' in path && verb != Put,
             verb == Post && (EndsWith(path, "/import") || EndsWith(path, "/fetch") || EndsWith(path, "/backfill")),
             body.Some?)
  }

  function ByStatus(unread: Option<Failure>, missing: bool, down: bool, sized: bool): map<string, RefOr<Response>> {
    (if unread.Some? then map["422" := Plain(unread.value)] else map[])
    + (if missing then map["404" := Plain(NoSuchRow)] else map[])
    + (if down then map["502" := Plain(UpstreamDown)] else map[])
    + map["500" := Plain(Internal)]
    + (if sized then map["413" := Plain(TooLarge), "415" := Plain(WrongType)] else map[])
  }

  function Completed(op: Described, verb: Verb, path: string, table: seq<Filing>, name: Naming): Described {
    var body := if op.body.Some? && op.body.value.Inline? then Some(Inline(CompletedBody(op.body.value.value)))
                else op.body;
    Described(Some(name(verb, path, Creates(op.responses), AnswersArray(op.responses))),
              Some([TagFor(table, path)]), None,
              Some(Inlined(PathParameters(path)) + Others(if op.parameters.Some? then op.parameters.value else [])),
              body, op.responses + Failures(verb, path, BodyKind(op.body)))
  }

  // ----- A second pass ------------------------------------------------------------------------------------

  lemma {:induction false} OthersOf(p: seq<RefOr<Parameter>>, q: seq<RefOr<Parameter>>)
    ensures Others(p + q) == Others(p) + Others(q)
  {
    if p == [] { assert p + q == q; } else {
      hide IsPathParameter;
      assert (p + q)[1..] == p[1..] + q;
      OthersOf(p[1..], q);
    }
  }

  lemma {:induction false} NoOthers(p: seq<Parameter>)
    requires forall i :: 0 <= i < |p| ==> p[i].place == InPath
    ensures Others(Inlined(p)) == []
  {
    if p != [] { NoOthers(p[1..]); }
  }

  lemma OthersTwice(p: seq<Parameter>, q: seq<RefOr<Parameter>>)
    requires forall i :: 0 <= i < |p| ==> p[i].place == InPath
    ensures Others(Inlined(p) + Others(q)) == Others(q)
  {
    hide Others, Inlined;
    OthersOf(Inlined(p), Others(q));
    NoOthers(p);
    OthersAgain(q);
    assert [] + Others(q) == Others(q);
  }

  lemma {:induction false} OthersAgain(q: seq<RefOr<Parameter>>)
    ensures Others(Others(q)) == Others(q)
  {
    if q != [] { OthersAgain(q[1..]); }
  }

  lemma {:induction false} AllInPath(segments: seq<string>)
    ensures forall i :: 0 <= i < |ParametersOf(segments)| ==> ParametersOf(segments)[i].place == InPath
  {
    if segments != [] { AllInPath(segments[1..]); }
  }

  lemma ThreeDigits(t: string)
    requires |t| == 3 && forall i :: 0 <= i < 3 ==> '0' <= t[i] <= '9'
    ensures Status(t) == Some((t[0] as int - 48) * 100 + (t[1] as int - 48) * 10 + (t[2] as int - 48))
  {
    var a, b, c := t[0] as int - 48, t[1] as int - 48, t[2] as int - 48;
    assert DigitsValue(t[3..], a * 100 + b * 10 + c) == Some(a * 100 + b * 10 + c);
    assert t[2..][1..] == t[3..];
    assert DigitsValue(t[2..], a * 10 + b) == Some(a * 100 + b * 10 + c);
    assert t[1..][1..] == t[2..];
    assert DigitsValue(t[1..], a) == Some(a * 100 + b * 10 + c);
  }

  lemma FailureStatuses()
    ensures Status("422") == Some(422) && Status("404") == Some(404) && Status("502") == Some(502)
    ensures Status("500") == Some(500) && Status("413") == Some(413) && Status("415") == Some(415)
  {
    hide Status;
    ThreeDigits("422");
    ThreeDigits("404");
    ThreeDigits("502");
    ThreeDigits("500");
    ThreeDigits("413");
    ThreeDigits("415");
  }

  /** The failures added never read as a creation, nor as the answer to a read. */
  lemma FailuresAreNoSuccess(verb: Verb, path: string, body: Option<bool>)
    ensures forall key :: key in Failures(verb, path, body) ==>
              key in {"422", "404", "502", "500", "413", "415"} && Status(key) != Some(201) && key != "200"
  {
    hide Status;
    FailureStatuses();
    assert "422"[0] != "200"[0] && "404"[0] != "200"[0] && "502"[0] != "200"[0];
    assert "500"[0] != "200"[0] && "413"[0] != "200"[0] && "415"[0] != "200"[0];
  }

  lemma SuccessesStand(responses: map<string, RefOr<Response>>, more: map<string, RefOr<Response>>)
    requires forall key :: key in more ==> Status(key) != Some(201) && key != "200"
    ensures AnswersArray(responses + more) == AnswersArray(responses)
    ensures forall key :: key in responses && key !in more ==> (responses + more)[key] == responses[key]
  {
    hide Status;
  }

  lemma CreatesStands(responses: map<string, RefOr<Response>>, more: map<string, RefOr<Response>>)
    requires forall key :: key in more ==> Status(key) != Some(201)
    ensures Creates(responses + more) == Creates(responses)
  {
    hide Status;
    if key :| key in responses && Status(key) == Some(201) { assert key in responses + more; }
    if key :| key in responses + more && Status(key) == Some(201) { assert key in responses; }
  }

  lemma ClearedTwice(content: map<string, RefOr<Content>>)
    ensures Cleared(Cleared(content)) == Cleared(content) && Cleared(content).Keys == content.Keys
  {
  }

  lemma BodyTwice(b: Body)
    ensures CompletedBody(CompletedBody(b)) == CompletedBody(b) && Structured(CompletedBody(b)) == Structured(b)
  {
    ClearedTwice(b.content);
    assert forall media :: media in CompletedBody(b).content <==> media in b.content;
  }

  lemma ParametersTwice(path: string, parameters: seq<RefOr<Parameter>>)
    ensures var once := Inlined(PathParameters(path)) + Others(parameters);
            Inlined(PathParameters(path)) + Others(once) == once
  {
    AllInPath(Split(path));
    OthersTwice(PathParameters(path), parameters);
  }

  /** Completing a completed operation changes nothing. */
  lemma CompletingTwice(op: Described, verb: Verb, path: string, table: seq<Filing>, name: Naming)
    ensures var once := Completed(op, verb, path, table, name); Completed(once, verb, path, table, name) == once
  {
    hide Failures, Creates, AnswersArray, CompletedBody, PathParameters, Others, Inlined, Structured, TagFor;
    var failures := Failures(verb, path, BodyKind(op.body));
    FailuresAreNoSuccess(verb, path, BodyKind(op.body));
    SuccessesStand(op.responses, failures);
    CreatesStands(op.responses, failures);
    ParametersTwice(path, if op.parameters.Some? then op.parameters.value else []);
    if op.body.Some? && op.body.value.Inline? { BodyTwice(op.body.value.value); }
    assert op.responses + failures + failures == op.responses + failures;
  }

  // ----- What completing adds --------------------------------------------------------------------------

  /** There is a body, and it is known to hold nothing but JSON or a form. */
  predicate HasFields(body: Option<RefOr<Body>>) {
    match body
    case Some(Inline(b)) => forall media :: media in b.content ==> media in [JSON, FORM]
    case Some(Ref(_)) => true
    case None => false
  }

  /** The failure documented under a status, if there is one. */
  ghost function FailureAt(verb: Verb, path: string, body: Option<RefOr<Body>>, status: string): Option<Failure> {
    match status
    case "422" =>
      if HasFields(body) then Some(Rejected) else if body.Some? && verb == Post then Some(Unreadable) else None
    case "404" => if verb != Put && exists c :: c in path && c == '{' then Some(NoSuchRow) else None
    case "502" =>
      if verb == Post && (Ends(path, "/import") || Ends(path, "/fetch") || Ends(path, "/backfill"))
      then Some(UpstreamDown) else None
    case "500" => Some(Internal)
    case "413" => if body.Some? then Some(TooLarge) else None
    case "415" => if body.Some? then Some(WrongType) else None
    case _ => None
  }

  ghost predicate Ends(t: string, end: string) {
    exists front :: t == front + end
  }

  lemma EndsIs(t: string, end: string)
    ensures EndsWith(t, end) <==> Ends(t, end)
  {
    if EndsWith(t, end) { assert t == t[..|t| - |end|] + end; }
    if front :| t == front + end { assert t[|t| - |end|..] == end; }
  }

  lemma Apart()
    ensures "422" != "404" && "422" != "502" && "422" != "500" && "422" != "413" && "422" != "415"
    ensures "404" != "502" && "404" != "500" && "404" != "413" && "404" != "415"
    ensures "502" != "500" && "502" != "413" && "502" != "415"
    ensures "500" != "413" && "500" != "415" && "413" != "415"
  {
    assert "422"[0] == "404"[0] == "413"[0] == "415"[0] == '4' && "502"[0] == "500"[0] == '5';
    assert "422"[1] == '2' && "404"[1] == '0' && "413"[1] == "415"[1] == '1';
    assert "502"[2] == '2' && "500"[2] == '0' && "413"[2] == '3' && "415"[2] == '5';
  }

  ghost predicate Documents(all: map<string, RefOr<Response>>, status: string, failure: Option<Failure>) {
    (status in all <==> failure.Some?)
    && (failure.Some? ==> all[status] == Inline(Response(Failed(failure.value), map[])))
  }

  lemma ByStatusHolds(unread: Option<Failure>, missing: bool, down: bool, sized: bool)
    ensures var all := ByStatus(unread, missing, down, sized);
            && Documents(all, "422", unread)
            && Documents(all, "404", if missing then Some(NoSuchRow) else None)
            && Documents(all, "502", if down then Some(UpstreamDown) else None)
            && Documents(all, "500", Some(Internal))
            && Documents(all, "413", if sized then Some(TooLarge) else None)
            && Documents(all, "415", if sized then Some(WrongType) else None)
  {
    Apart();
  }

  lemma NoOtherStatus(unread: Option<Failure>, missing: bool, down: bool, sized: bool, status: string)
    requires status !in ["422", "404", "502", "500", "413", "415"]
    ensures Documents(ByStatus(unread, missing, down, sized), status, None)
  {
    assert forall k :: k in ["422", "404", "502", "500", "413", "415"] ==> k != status;
  }

  lemma FailuresAre(verb: Verb, path: string, body: Option<RefOr<Body>>, status: string)
    ensures Documents(Failures(verb, path, BodyKind(body)), status, FailureAt(verb, path, body, status))
  {
    hide EndsWith, Ends, ByStatus, Documents;
    EndsIs(path, "/import");
    EndsIs(path, "/fetch");
    EndsIs(path, "/backfill");
    if body.Some? && body.value.Inline? { FieldsOf(body.value.value); }
    hide Structured;
    var kind := BodyKind(body);
    var unread := if kind == Some(true) then Some(Rejected)
                  else if kind == Some(false) && verb == Post then Some(Unreadable) else None;
    var missing := '{' in path && verb != Put;
    var down := verb == Post
                && (EndsWith(path, "/import") || EndsWith(path, "/fetch") || EndsWith(path, "/backfill"));
    if status in ["422", "404", "502", "500", "413", "415"] {
      ByStatusHolds(unread, missing, down, kind.Some?);
    } else {
      NoOtherStatus(unread, missing, down, kind.Some?, status);
    }
  }

  lemma FieldsOf(b: Body)
    ensures Structured(b) <==> forall media :: media in b.content ==> media in [JSON, FORM]
  {
  }

  /** Each response of a completed operation: the documented failure where there is one, without
      content, and otherwise what was there. */
  lemma RespondsWith(op: Described, verb: Verb, path: string, table: seq<Filing>, name: Naming, status: string)
    ensures var now := Completed(op, verb, path, table, name).responses;
            var failure := FailureAt(verb, path, op.body, status);
            && (failure.Some? ==> status in now && now[status] == Inline(Response(Failed(failure.value), map[])))
            && (failure.None? ==> (status in now <==> status in op.responses)
                                  && (status in now ==> now[status] == op.responses[status]))
  {
    hide Failures, FailureAt, BodyKind, Creates, AnswersArray, TagFor, Inlined, PathParameters, Others, CompletedBody;
    FailuresAre(verb, path, op.body, status);
  }

  /** A completed request body: it is required, only what is neither JSON nor a form loses its
      schema, and it says which of the four kinds of body it is. */
  lemma BodyReads(b: Body)
    ensures var now := CompletedBody(b); var json, form := "application/json", "application/x-www-form-urlencoded";
            var raw := exists media :: media in b.content && media != json && media != form;
            var lists := json in b.content && b.content[json].Inline?
                         && b.content[json].value.schema == Some(Inline(Array));
            && now.required && now.content.Keys == b.content.Keys
            && (forall media :: media in b.content ==>
                  now.content[media]
                  == if media == json || media == form || b.content[media].Ref? then b.content[media]
                     else Inline(Content(None, b.content[media].value.example)))
            && (form in b.content ==> now.description == Some("The form request body."))
            && (form !in b.content && raw
                ==> now.description == Some("The raw request body: not JSON, so it carries no schema here."))
            && (form !in b.content && !raw
                ==> now.description == Some(if lists then "A JSON array request body." else "The JSON request body."))
  {
    ArraysLeft(b.content);
    hide HasArray, IsArray;
  }

  lemma ArraysLeft(content: map<string, RefOr<Content>>)
    ensures FORM !in content ==> (HasArray(Cleared(content)) <==> JSON in content && IsArray(content[JSON]))
    ensures JSON in content && IsArray(content[JSON])
            <==> JSON in content && content[JSON].Inline? && content[JSON].value.schema == Some(Inline(Array))
  {
    var cleared := Cleared(content);
    if JSON in content && IsArray(content[JSON]) { assert cleared[JSON] == content[JSON]; }
  }

  /** The number a string of digits writes. */
  ghost function Value(digits: string): nat
    requires forall i :: 0 <= i < |digits| ==> '0' <= digits[i] <= '9'
  {
    if digits == "" then 0
    else Value(digits[..|digits| - 1]) * 10 + (digits[|digits| - 1] as int - '0' as int)
  }

  /** The key writes the number, with a plus sign in front or not. */
  ghost predicate Writes(key: string, n: nat) {
    exists digits: string :: (key == digits || key == "+" + digits) && WritesIn(digits, n)
  }

  ghost predicate WritesIn(digits: string, n: nat) {
    digits != "" && (forall i :: 0 <= i < |digits| ==> '0' <= digits[i] <= '9') && Value(digits) == n
  }

  lemma {:induction false} DigitsThenOne(t: string, c: char, sofar: nat)
    ensures DigitsValue(t + [c], sofar)
            == if DigitsValue(t, sofar).Some? && '0' <= c <= '9'
               then Some(DigitsValue(t, sofar).value * 10 + (c as int - '0' as int)) else None
  {
    if t == "" {
      assert (t + [c])[1..] == "";
    } else {
      assert (t + [c])[1..] == t[1..] + [c];
      if '0' <= t[0] <= '9' { DigitsThenOne(t[1..], c, sofar * 10 + (t[0] as int - '0' as int)); }
    }
  }

  lemma {:induction false} DigitsWrite(t: string)
    ensures DigitsValue(t, 0)
            == if forall i :: 0 <= i < |t| ==> '0' <= t[i] <= '9' then Some(Value(t)) else None
  {
    if t != "" {
      var front, last := t[..|t| - 1], t[|t| - 1];
      assert t == front + [last];
      DigitsThenOne(front, last, 0);
      DigitsWrite(front);
    }
  }

  /** A response key is a status when it writes a number of 16 bits. */
  lemma StatusIff(key: string, n: nat)
    ensures Status(key) == Some(n) <==> Writes(key, n) && n < 65536
  {
    hide DigitsValue, Value;
    var digits := if "+" <= key then key[1..] else key;
    DigitsWrite(digits);
    if "+" <= key { assert key == "+" + digits && key[0] == '+'; }
    if WritesIn(digits, n) { assert Writes(key, n); }
    if other: string :| (key == other || key == "+" + other) && WritesIn(other, n) { assert other == digits; }
  }

  /** The id follows from the route, from whether a creation is answered with and from whether a
      read is answered with a list; the tag follows from the path. */
  lemma NamedAfterTheRoute(op: Described, verb: Verb, path: string, table: seq<Filing>)
    ensures var now := Completed(op, verb, path, table, Spelling());
            var created := exists key :: key in op.responses && Writes(key, 201);
            var lists := && "200" in op.responses && op.responses["200"].Inline?
                         && "application/json" in op.responses["200"].value.content
                         && (match op.responses["200"].value.content["application/json"]
                             case Inline(content) => content.schema == Some(Inline(Array))
                             case Ref(_) => false);
            && now.id == Some(OperationId(verb, path, created, lists))
            && now.tags == Some([TagFor(table, path)]) && now.description.None?
  {
    hide Status, Writes, TagFor, OperationId, Failures, CompletedBody, PathParameters, Others, Inlined;
    forall key ensures Status(key) == Some(201) <==> Writes(key, 201) { StatusIff(key, 201); }
    var created := exists key :: key in op.responses && Writes(key, 201);
    if created {
      var key :| key in op.responses && Writes(key, 201);
      assert Status(key) == Some(201);
    }
    if Creates(op.responses) {
      var key :| key in op.responses && Status(key) == Some(201);
      assert Writes(key, 201);
    }
  }

  // ----- The parameters a route has ---------------------------------------------------------------------

  ghost predicate Braced(segment: string) {
    exists name: string :: segment == "{" + name + "}"
  }

  ghost function Unbraced(segment: string): string
    requires Braced(segment)
  {
    var name: string :| segment == "{" + name + "}"; name
  }

  lemma BracedNames(segment: string)
    ensures ParameterName(segment) == if Braced(segment) then Some(Unbraced(segment)) else None
  {
    if ParameterName(segment).Some? { assert segment == "{" + segment[1..|segment| - 1] + "}"; }
    if Braced(segment) { assert Unbraced(segment) == segment[1..|segment| - 1]; }
  }

  lemma {:induction false} ParametersNameTheBraced(segments: seq<string>)
    ensures var braced := Chosen(segments, Braced);
            && |ParametersOf(segments)| == |braced|
            && forall i :: 0 <= i < |braced| ==>
                 Braced(braced[i])
                 && ParametersOf(segments)[i] == Parameter(Unbraced(braced[i]), InPath, true, "string")
  {
    hide ParameterName, Braced, Unbraced;
    if segments != [] {
      BracedNames(segments[0]);
      ParametersNameTheBraced(segments[1..]);
    }
  }

  lemma {:induction false} InlinedAt(p: seq<Parameter>)
    ensures |Inlined(p)| == |p| && forall i :: 0 <= i < |p| ==> Inlined(p)[i] == Inline(p[i])
  {
    if p != [] { InlinedAt(p[1..]); }
  }

  lemma {:induction false} OthersAreChosen(q: seq<RefOr<Parameter>>)
    ensures Others(q) == Chosen(q, (p: RefOr<Parameter>) => !(p.Inline? && p.value.place == InPath))
  {
    if q != [] { OthersAreChosen(q[1..]); }
  }

  /** The path parameters of a completed operation are exactly the braced segments of its route, in
      the route's order, whatever the generated ones were; after them come the others, as they
      were. */
  lemma ParametersAreTheRoutes(op: Described, verb: Verb, segments: seq<string>, table: seq<Filing>, name: Naming)
    requires segments != []
    requires forall k :: 0 <= k < |segments| ==> forall i :: 0 <= i < |segments[k]| ==> segments[k][i] != '/'
    ensures var now := Completed(op, verb, Join(segments), table, name).parameters.value;
            var braced, was := Chosen(segments, Braced), if op.parameters.Some? then op.parameters.value else [];
            var others := Chosen(was, (p: RefOr<Parameter>) => !(p.Inline? && p.value.place == InPath));
            && |now| == |braced| + |others| && now[|braced|..] == others
            && forall i :: 0 <= i < |braced| ==>
                 Braced(braced[i]) && now[i] == Inline(Parameter(Unbraced(braced[i]), InPath, true, "string"))
  {
    hide Split, Join, Others, Inlined, ParametersOf, Chosen, Braced, Unbraced, IsPathParameter;
    SplitUndoesJoin(segments);
    ParametersNameTheBraced(segments);
    InlinedAt(ParametersOf(segments));
    OthersAreChosen(if op.parameters.Some? then op.parameters.value else []);
  }

  // ----- In place -------------------------------------------------------------------------------------------

  class Operation {
    var id: Option<string>
    var tags: Option<seq<string>>
    var description: Option<string>
    var parameters: Option<seq<RefOr<Parameter>>>
    var body: Option<RefOr<Body>>
    var responses: map<string, RefOr<Response>>

    constructor (op: Described)
      ensures View() == op
    {
      id, tags, description := op.id, op.tags, op.description;
      parameters, body, responses := op.parameters, op.body, op.responses;
    }

    function View(): Described
      reads this
    {
      Described(id, tags, description, parameters, body, responses)
    }

    method Complete(verb: Verb, path: string, table: seq<Filing>)
      modifies this
      ensures View() == Completed(old(View()), verb, path, table, Spelling())
    {
      hide Creates, AnswersArray, TagFor, Inlined, PathParameters, Others, Failures, CompletedBody, BodyKind,
           OperationId;
      var spelt := Spell(verb, path, Creates(responses), AnswersArray(responses));
      id := Some(spelt);
      tags := Some([TagFor(table, path)]);
      description := None;
      parameters := Some(Inlined(PathParameters(path)) + Others(if parameters.Some? then parameters.value else []));
      var kind := CompleteBody();
      responses := responses + Failures(verb, path, kind);
    }

    method CompleteBody() returns (kind: Option<bool>)
      modifies this`body
      ensures kind == BodyKind(old(body))
      ensures body == if old(body).Some? && old(body).value.Inline?
                      then Some(Inline(CompletedBody(old(body).value.value))) else old(body)
    {
      hide Structured, Cleared, BodyText, HasArray;
      if body.None? { return None; }
      if body.value.Ref? { return Some(true); }
      var b := body.value.value;
      var content := ClearSchemas(b.content);
      body := Some(Inline(Body(content, Some(BodyText(FORM in content, Structured(b), HasArray(content))), true)));
      kind := Some(Structured(b));
    }
  }

  predicate HasArray(content: map<string, RefOr<Content>>) {
    exists m :: m in content && IsArray(content[m])
  }

  /** The loop over a body's media types. */
  method ClearSchemas(content: map<string, RefOr<Content>>) returns (cleared: map<string, RefOr<Content>>)
    ensures cleared == Cleared(content)
  {
    cleared := content;
    var left := content.Keys;
    while left != {}
      invariant left <= content.Keys == cleared.Keys
      invariant forall m :: m in content ==> cleared[m] == if m in left then content[m] else Cleared(content)[m]
      decreases |left|
    {
      var media := Pick(left);
      if media != JSON && media != FORM && cleared[media].Inline? {
        cleared := cleared[media := Inline(cleared[media].value.(schema := None))];
      }
      left := left - {media};
    }
  }
}
