/** JSON pointers (RFC 6901), which a `$ref` into its own document is. */
module Pointers {
  import opened Common
  import opened Json
  import opened PathSegments

  /** A token with its escapes undone (section 4 of RFC 6901). */
  function Unescaped(token: string): string {
    if token == "" then ""
    else if |token| >= 2 && token[0] == '~' && token[1] == '1' then "/" + Unescaped(token[2..])
    else if |token| >= 2 && token[0] == '~' && token[1] == '0' then "~" + Unescaped(token[2..])
    else [token[0]] + Unescaped(token[1..])
  }

  function AllUnescaped(tokens: seq<string>): (r: seq<string>)
    ensures |r| == |tokens|
  {
    if tokens == [] then [] else [Unescaped(tokens[0])] + AllUnescaped(tokens[1..])
  }

  function Tokens(t: string): (r: seq<string>)
    ensures r != []
  {
    AllUnescaped(Split(t))
  }

  /** The path a reference into its own document takes; none for one to somewhere else. */
  function Path(ref: string): Option<seq<string>> {
    if ref == "#" then Some([])
    else if "#/" <= ref then Some(Tokens(ref[2..]))
    else None
  }

  function Digit(c: char): Option<nat> {
    if '0' <= c <= '9' then Some(c as nat - '0' as nat) else None
  }

  function Number(t: string): Option<nat> {
    if t == "" then Some(0)
    else
      var front, last := Number(t[..|t| - 1]), Digit(t[|t| - 1]);
      if front.Some? && last.Some? then Some(10 * front.value + last.value) else None
  }

  /** An item's place in a list: digits without a leading zero. */
  function Index(token: string): Option<nat> {
    if token == "" || (|token| > 1 && token[0] == '0') then None else Number(token)
  }

  /** What stands at the end of a path. */
  function At(v: Json, path: seq<string>): Option<Json> {
    if path == [] then Some(v)
    else
      match v
      case Obj(members) => if path[0] in members then At(members[path[0]], path[1..]) else None
      case Arr(items) =>
        var i := Index(path[0]);
        if i.Some? && i.value < |items| then At(items[i.value], path[1..]) else None
      case _ => None
  }

  /** What a reference resolves to in a document. */
  function Lookup(document: Json, ref: string): Option<Json> {
    var path := Path(ref);
    if path.Some? then At(document, path.value) else None
  }

  /** A name that is one token of a pointer as it stands. */
  predicate Plain(name: string) {
    '/' !in name && '~' !in name
  }

  lemma {:induction false} PlainUnescaped(name: string)
    requires '~' !in name
    ensures Unescaped(name) == name
  {
    if name != "" {
      assert name[0] in name && forall c :: c in name[1..] ==> c in name;
      PlainUnescaped(name[1..]);
    }
  }

  /** A plain token in front of others. */
  lemma TokenInFront(name: string, rest: string)
    requires Plain(name)
    ensures Tokens(name + "/" + rest) == [name] + Tokens(rest) && Tokens(name) == [name]
  {
    SplitSegment(name, rest);
    PlainUnescaped(name);
    assert ([name] + Split(rest))[1..] == Split(rest);
  }
}
