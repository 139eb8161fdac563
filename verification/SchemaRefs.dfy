/** The component schemas a JSON value refers to. */
module SchemaRefs {
  import opened Common
  import opened Json

  const PREFIX := "#/components/schemas/"

  // ----- References ------------------------------------------------------------------------

  /** The schema a member names, when it is a `$ref` to one. */
  function RefName(key: string, child: Json): Option<string> {
    if key == "$ref" && child.Str? && PREFIX <= child.s then Some(child.s[|PREFIX|..]) else None
  }

  /** Every schema name a value refers to, at any depth. */
  ghost function Refs(v: Json): set<string> {
    match v
    case Arr(items) => set x, n | x in items && n in Refs(x) :: n
    case Obj(m) =>
      (set k | k in m && RefName(k, m[k]).Some? :: RefName(k, m[k]).value)
      + (set k, n | k in m && n in Refs(m[k]) :: n)
    case _ => {}
  }

  ghost predicate Pushed(before: seq<string>, after: seq<string>, names: set<string>) {
    before <= after && forall n :: n in after[|before|..] <==> n in names
  }

  /** Push every schema name a value refers to. */
  method PushRefs(v: Json, pending: seq<string>) returns (out: seq<string>)
    ensures Pushed(pending, out, Refs(v))
    decreases v, 1
  {
    match v {
      case Obj(_) => out := PushMemberRefs(v, pending);
      case Arr(_) => out := PushItemRefs(v, pending);
      case _ => out := pending;
    }
  }

  method PushMemberRefs(v: Json, pending: seq<string>) returns (out: seq<string>)
    requires v.Obj?
    ensures Pushed(pending, out, Refs(v))
    decreases v, 0
  {
    var m := v.members;
    out := pending;
    var left := m.Keys;
    while left != {}
      invariant left <= m.Keys
      invariant Pushed(pending, out, Refs(Obj(Done(m, left))))
      decreases |left|
    {
      var k := Pick(left);
      var before := out;
      var named := RefName(k, m[k]);
      if named.Some? { out := out + [named.value]; }
      out := PushRefs(m[k], out);
      PushMember(m, left, k, pending, before, out);
      left := left - {k};
    }
    assert Done(m, left) == m;
  }

  method PushItemRefs(v: Json, pending: seq<string>) returns (out: seq<string>)
    requires v.Arr?
    ensures Pushed(pending, out, Refs(v))
    decreases v, 0
  {
    var items := v.items;
    out := pending;
    var i := 0;
    while i < |items|
      invariant 0 <= i <= |items|
      invariant Pushed(pending, out, Refs(Arr(items[..i])))
    {
      var before := out;
      out := PushRefs(items[i], out);
      PushItem(items, i, pending, before, out);
      i := i + 1;
    }
    assert items[..i] == items;
  }

  /** The members already pushed. */
  ghost function Done(m: map<string, Json>, left: set<string>): map<string, Json> {
    map k | k in m && k !in left :: m[k]
  }

  lemma PushItem(items: seq<Json>, i: nat, start: seq<string>, before: seq<string>, after: seq<string>)
    requires i < |items| && Pushed(start, before, Refs(Arr(items[..i]))) && Pushed(before, after, Refs(items[i]))
    ensures Pushed(start, after, Refs(Arr(items[..i + 1])))
  {
    assert items[..i + 1] == items[..i] + [items[i]];
    assert after[|start|..] == before[|start|..] + after[|before|..];
    forall n ensures n in Refs(Arr(items[..i + 1])) <==> n in Refs(Arr(items[..i])) || n in Refs(items[i]) {
      assert forall x :: x in items[..i + 1] <==> x in items[..i] || x == items[i];
    }
  }

  lemma PushMember(m: map<string, Json>, left: set<string>, k: string,
                   start: seq<string>, before: seq<string>, after: seq<string>)
    requires k in m && k in left
    requires Pushed(start, before, Refs(Obj(Done(m, left))))
    requires var named := RefName(k, m[k]);
             Pushed(if named.Some? then before + [named.value] else before, after, Refs(m[k]))
    ensures Pushed(start, after, Refs(Obj(Done(m, left - {k}))))
  {
    var named := RefName(k, m[k]);
    var mid := if named.Some? then before + [named.value] else before;
    assert after[|start|..] == before[|start|..] + after[|before|..];
    assert after[|before|..] == mid[|before|..] + after[|mid|..];
    forall n
      ensures n in Refs(Obj(Done(m, left - {k}))) <==>
        n in Refs(Obj(Done(m, left))) || named == Some(n) || n in Refs(m[k])
    {
      DoneGrows(m, left, k, n);
    }
  }

  lemma DoneGrows(m: map<string, Json>, left: set<string>, k: string, n: string)
    requires k in m && k in left
    ensures n in Refs(Obj(Done(m, left - {k}))) <==>
        n in Refs(Obj(Done(m, left))) || RefName(k, m[k]) == Some(n) || n in Refs(m[k])
  {
    var a, b := Done(m, left - {k}), Done(m, left);
    RefsOfObj(a, n);
    RefsOfObj(b, n);
    if MemberRefers(m, k, n) { assert MemberRefers(a, k, n); }
    if x :| MemberRefers(b, x, n) { assert MemberRefers(a, x, n); }
    if x :| MemberRefers(a, x, n) { assert MemberRefers(b, x, n) || MemberRefers(m, k, n); }
  }

  /** Member `k` of an object refers to `n`, by name or from inside. */
  ghost predicate MemberRefers(m: map<string, Json>, k: string, n: string) {
    k in m && (RefName(k, m[k]) == Some(n) || n in Refs(m[k]))
  }

  /** An object refers to what its members refer to. */
  lemma RefsOfObj(m: map<string, Json>, n: string)
    ensures n in Refs(Obj(m)) <==> exists k :: MemberRefers(m, k, n)
  {
    var named := set k | k in m && RefName(k, m[k]).Some? :: RefName(k, m[k]).value;
    var nested := set k, x | k in m && x in Refs(m[k]) :: x;
    assert Refs(Obj(m)) == named + nested;
    if n in named {
      var k :| k in m && RefName(k, m[k]).Some? && RefName(k, m[k]).value == n;
      assert MemberRefers(m, k, n);
    }
    if n in nested {
      var k :| k in m && n in Refs(m[k]);
      assert MemberRefers(m, k, n);
    }
    if k :| MemberRefers(m, k, n) {
      assert RefName(k, m[k]) == Some(n) ==> n in named;
      assert n in Refs(m[k]) ==> n in nested;
    }
  }

  // ----- The references themselves ------------------------------------------------------------

  /** Every `$ref` in a value, at any depth, as it is spelt. */
  ghost function RefStrings(v: Json): set<string> {
    match v
    case Arr(items) => set x, s | x in items && s in RefStrings(x) :: s
    case Obj(m) =>
      (if "$ref" in m && m["$ref"].Str? then {m["$ref"].s} else {})
      + (set k, s | k in m && s in RefStrings(m[k]) :: s)
    case _ => {}
  }

  /** Member `k` of an object is the reference `s` or holds it inside. */
  ghost predicate MemberHolds(m: map<string, Json>, k: string, s: string) {
    k in m && ((k == "$ref" && m[k] == Str(s)) || s in RefStrings(m[k]))
  }

  lemma RefStringsOfObj(m: map<string, Json>, s: string)
    ensures s in RefStrings(Obj(m)) <==> exists k :: MemberHolds(m, k, s)
  {
    var nested := set k, x | k in m && x in RefStrings(m[k]) :: x;
    if s in nested {
      var k :| k in m && s in RefStrings(m[k]);
      assert MemberHolds(m, k, s);
    }
    if "$ref" in m && m["$ref"] == Str(s) { assert MemberHolds(m, "$ref", s); }
    if k :| MemberHolds(m, k, s) {
      assert s in RefStrings(m[k]) ==> s in nested;
    }
  }

  /** The names a value refers to are those of its references into the schemas. */
  lemma {:induction false} NamesAreRefs(v: Json, n: string)
    ensures n in Refs(v) <==> PREFIX + n in RefStrings(v)
  {
    match v
    case Arr(items) =>
      forall x | x in items ensures n in Refs(x) <==> PREFIX + n in RefStrings(x) { NamesAreRefs(x, n); }
    case Obj(m) =>
      RefsOfObj(m, n);
      RefStringsOfObj(m, PREFIX + n);
      forall k | k in m ensures MemberRefers(m, k, n) <==> MemberHolds(m, k, PREFIX + n) {
        NamesAreRefs(m[k], n);
        NameIsRef(k, m[k], n);
      }
    case _ =>
  }

  lemma NameIsRef(k: string, child: Json, n: string)
    ensures RefName(k, child) == Some(n) <==> k == "$ref" && child == Str(PREFIX + n)
  {
    if RefName(k, child) == Some(n) { assert child.s == PREFIX + child.s[|PREFIX|..]; }
    assert (PREFIX + n)[|PREFIX|..] == n && PREFIX <= PREFIX + n;
  }

  /** Taking one member out. */
  lemma RefStringsWithout(m: map<string, Json>, k: string)
    requires k in m && k != "$ref"
    ensures RefStrings(Obj(m)) == RefStrings(Obj(m - {k})) + RefStrings(m[k])
  {
    hide RefStrings;
    forall s ensures s in RefStrings(Obj(m)) <==> s in RefStrings(Obj(m - {k})) || s in RefStrings(m[k]) {
      RefStringsOfObj(m, s);
      RefStringsOfObj(m - {k}, s);
      if x :| MemberHolds(m, x, s) { assert x == k || MemberHolds(m - {k}, x, s); }
      if x :| MemberHolds(m - {k}, x, s) { assert MemberHolds(m, x, s); }
      if s in RefStrings(m[k]) { assert MemberHolds(m, k, s); }
    }
  }

  lemma SubObjectHolds(a: map<string, Json>, b: map<string, Json>)
    requires forall k :: k in a ==> k in b && a[k] == b[k]
    ensures RefStrings(Obj(a)) <= RefStrings(Obj(b))
  {
    forall s | s in RefStrings(Obj(a)) ensures s in RefStrings(Obj(b)) {
      RefStringsOfObj(a, s);
      RefStringsOfObj(b, s);
      var k :| MemberHolds(a, k, s);
      assert MemberHolds(b, k, s);
    }
  }
}
