/**
 * The slice itself: the document cut down to the operations a predicate keeps.
 */
module Slicing {
  import opened Common
  import opened Json
  import opened SchemaRefs
  import opened Reachability

  type Keep = Json -> bool

  // ----- The operations kept ---------------------------------------------------------------

  function KeptVerbs(item: map<string, Json>, keep: Keep): map<string, Json> {
    map verb | verb in item && keep(item[verb]) :: item[verb]
  }

  /** Every path item must be an object. */
  predicate PathsWellFormed(document: Json) {
    var paths := Get(document, "paths");
    paths.Obj? && forall p :: p in paths.members ==> paths.members[p].Obj?
  }

  function KeptPaths(paths: map<string, Json>, keep: Keep): map<string, Json>
    requires forall p :: p in paths ==> paths[p].Obj?
  {
    map p | p in paths && KeptVerbs(paths[p].members, keep) != map[] :: Obj(KeptVerbs(paths[p].members, keep))
  }

  // ----- The tags they carry ------------------------------------------------------------------

  predicate Carries(op: Json, tag: Json) {
    Get(op, "tags").Arr? && Get(tag, "name") in Get(op, "tags").items
  }

  /** Some operation of the paths carries the tag. */
  predicate Used(paths: map<string, Json>, tag: Json) {
    exists p, verb :: p in paths && paths[p].Obj? && verb in paths[p].members && Carries(paths[p].members[verb], tag)
  }

  function UsedTags(tags: seq<Json>, paths: map<string, Json>): seq<Json> {
    if tags == [] then []
    else if Used(paths, tags[0]) then [tags[0]] + UsedTags(tags[1..], paths)
    else UsedTags(tags[1..], paths)
  }

  // ----- The whole slice -----------------------------------------------------------------------

  /** The registered schemas: none when the document has no such object. */
  function Schemas(document: Json): map<string, Json> {
    var all := Get(Get(document, "components"), "schemas");
    if all.Obj? then all.members else map[]
  }

  predicate Sliceable(document: Json) {
    && document.Obj? && PathsWellFormed(document) && Get(document, "tags").Arr?
    && ("components" in document.members ==> document.members["components"].Obj?)
  }

  ghost function CarriedSchemas(document: Json, paths: map<string, Json>): map<string, Json> {
    Restrict(Schemas(document), Closure(Schemas(document), Refs(Obj(paths))))
  }

  function Replaced(document: map<string, Json>, key: string, paths: map<string, Json>, tags: seq<Json>,
                    schemas: map<string, Json>): Json
    requires key in document
  {
    if key == "paths" then Obj(paths)
    else if key == "tags" then Arr(tags)
    else if key == "components" && document[key].Obj? then Obj(document[key].members["schemas" := Obj(schemas)])
    else document[key]
  }

  function Assembled(document: map<string, Json>, paths: map<string, Json>, tags: seq<Json>,
                     schemas: map<string, Json>): Json {
    Obj(map key | key in document :: Replaced(document, key, paths, tags, schemas))
  }

  /** The slice of a document by a predicate, or none when it keeps no operation or the document
      is not of the expected shape. */
  ghost function SliceOf(document: Json, keep: Keep): Option<Json> {
    if !Sliceable(document) then None
    else
      var paths := KeptPaths(Get(document, "paths").members, keep);
      if paths == map[] then None
      else
        var tags := UsedTags(Get(document, "tags").items, paths);
        var schemas := CarriedSchemas(document, paths);
        Some(Assembled(document.members, paths, tags, schemas))
  }

  // ----- Slicing, step by step -------------------------------------------------------------------

  method KeepPaths(paths: map<string, Json>, keep: Keep) returns (kept: map<string, Json>)
    requires forall p :: p in paths ==> paths[p].Obj?
    ensures kept == KeptPaths(paths, keep)
  {
    kept := map[];
    var left := paths.Keys;
    while left != {}
      invariant left <= paths.Keys
      invariant kept == KeptPaths(map p | p in paths && p !in left :: paths[p], keep)
      decreases |left|
    {
      var p := Pick(left);
      var verbs := KeptVerbs(paths[p].members, keep);
      if verbs != map[] { kept := kept[p := Obj(verbs)]; }
      left := left - {p};
    }
    assert (map p | p in paths && p !in left :: paths[p]) == paths;
  }

  method KeepTags(tags: seq<Json>, paths: map<string, Json>) returns (kept: seq<Json>)
    ensures kept == UsedTags(tags, paths)
  {
    kept := [];
    var i := 0;
    while i < |tags|
      invariant 0 <= i <= |tags|
      invariant kept + UsedTags(tags[i..], paths) == UsedTags(tags, paths)
    {
      assert tags[i..][0] == tags[i] && tags[i..][1..] == tags[i + 1..];
      if Used(paths, tags[i]) { kept := kept + [tags[i]]; }
      i := i + 1;
    }
    assert kept + [] == kept;
  }

  method SliceWhere(document: Json, keep: Keep) returns (r: Option<Json>)
    ensures r == SliceOf(document, keep)
  {
    if !Get(document, "paths").Obj? { return None; }
    var items := Get(document, "paths").members;
    if p :| p in items && !items[p].Obj? { return None; }
    var paths := KeepPaths(items, keep);
    if paths == map[] { return None; }
    if !Get(document, "tags").Arr? { return None; }
    var tags := KeepTags(Get(document, "tags").items, paths);
    var pending := PushRefs(Obj(paths), []);
    assert Members(pending) == Refs(Obj(paths)) by { assert pending[0..] == pending; }
    var reached := Reach(Schemas(document), pending);
    if "components" in document.members && !document.members["components"].Obj? { return None; }
    r := Some(Assembled(document.members, paths, tags, reached));
  }

  // ----- What a slice carries ---------------------------------------------------------------------

  /** The parts of a slice. */
  lemma SliceParts(document: Json, keep: Keep)
    requires SliceOf(document, keep).Some?
    ensures var slice := SliceOf(document, keep).value;
            var paths := KeptPaths(Get(document, "paths").members, keep);
            && slice.Obj? && slice.members.Keys == document.members.Keys
            && Get(slice, "paths") == Obj(paths)
            && Get(slice, "tags") == Arr(UsedTags(Get(document, "tags").items, paths))
            && Schemas(slice) == CarriedSchemas(document, paths)
            && Sliceable(slice)
  {
    var slice := SliceOf(document, keep).value;
    var paths := KeptPaths(Get(document, "paths").members, keep);
    if "components" !in document.members {
      assert Schemas(document) == map[];
      assert CarriedSchemas(document, paths) == map[];
    }
  }

  /** A slice carries exactly the registered schemas a chain of `$ref`s leads to from an
      operation it keeps, each as the document has it. */
  lemma CarriesExactlyTheReachable(document: Json, keep: Keep, n: string)
    requires SliceOf(document, keep).Some?
    ensures var slice := SliceOf(document, keep).value;
            && (n in Schemas(slice) <==>
                  n in Schemas(document) && Reachable(Schemas(document), Refs(Get(slice, "paths")), n))
            && (n in Schemas(slice) ==> Schemas(slice)[n] == Schemas(document)[n])
  {
    SliceParts(document, keep);
  }

  /** A schema that a kept operation names, or a schema carried for one names, is in the slice as it
      is in the document. */
  lemma ReferencesStillResolve(document: Json, keep: Keep, n: string)
    requires SliceOf(document, keep).Some? && n in Schemas(document)
    requires var slice := SliceOf(document, keep).value;
             n in Refs(Get(slice, "paths")) || exists r :: r in Schemas(slice) && n in Refs(Schemas(slice)[r])
    ensures var slice := SliceOf(document, keep).value;
            n in Schemas(slice) && Schemas(slice)[n] == Schemas(document)[n]
  {
    var slice := SliceOf(document, keep).value;
    var all, roots := Schemas(document), Refs(Get(slice, "paths"));
    SliceParts(document, keep);
    ClosureIsClosed(all, roots);
    if n !in roots {
      var r :| r in Schemas(slice) && n in Refs(Schemas(slice)[r]);
      assert r in Closure(all, roots);
    }
  }

  // ----- Slicing absorbs ---------------------------------------------------------------------------

  /** Every operation of the document that `inner` accepts, `outer` accepts too. */
  ghost predicate Narrows(document: Json, inner: Keep, outer: Keep)
    requires PathsWellFormed(document)
  {
    var paths := Get(document, "paths").members;
    forall p, verb :: p in paths && verb in paths[p].members && inner(paths[p].members[verb])
                      ==> outer(paths[p].members[verb])
  }

  lemma SubObjectRefs(a: map<string, Json>, b: map<string, Json>)
    requires forall k :: k in a ==> k in b && a[k] == b[k]
    ensures Refs(Obj(a)) <= Refs(Obj(b))
  {
    forall n | n in Refs(Obj(a)) ensures n in Refs(Obj(b)) {
      RefsOfObj(a, n);
      RefsOfObj(b, n);
      var k :| MemberRefers(a, k, n);
      assert MemberRefers(b, k, n);
    }
  }

  lemma VerbsTwice(item: map<string, Json>, outer: Keep, inner: Keep)
    requires forall verb :: verb in item && inner(item[verb]) ==> outer(item[verb])
    ensures KeptVerbs(KeptVerbs(item, outer), inner) == KeptVerbs(item, inner)
    ensures forall verb :: verb in KeptVerbs(item, inner) ==> verb in KeptVerbs(item, outer)
  {
  }

  lemma KeptWithin(document: Json, outer: Keep, inner: Keep, p: string)
    requires PathsWellFormed(document) && Narrows(document, inner, outer)
    requires p in KeptPaths(Get(document, "paths").members, inner)
    ensures var paths := Get(document, "paths").members;
            var wide, narrow := KeptPaths(paths, outer), KeptPaths(paths, inner);
            p in wide && forall verb :: verb in narrow[p].members ==>
                           verb in wide[p].members && wide[p].members[verb] == narrow[p].members[verb]
  {
    var paths := Get(document, "paths").members;
    VerbsTwice(paths[p].members, outer, inner);
    var verb :| verb in KeptVerbs(paths[p].members, inner);
    assert verb in KeptVerbs(paths[p].members, outer);
  }

  lemma PathsTwice(document: Json, outer: Keep, inner: Keep)
    requires PathsWellFormed(document) && Narrows(document, inner, outer)
    ensures var paths := Get(document, "paths").members;
            KeptPaths(KeptPaths(paths, outer), inner) == KeptPaths(paths, inner)
  {
    var paths := Get(document, "paths").members;
    forall p | p in paths
      ensures KeptVerbs(KeptVerbs(paths[p].members, outer), inner) == KeptVerbs(paths[p].members, inner)
      ensures p in KeptPaths(paths, inner) ==> p in KeptPaths(paths, outer)
    {
      VerbsTwice(paths[p].members, outer, inner);
      if p in KeptPaths(paths, inner) { KeptWithin(document, outer, inner, p); }
    }
  }

  lemma NarrowerRefs(document: Json, outer: Keep, inner: Keep)
    requires PathsWellFormed(document) && Narrows(document, inner, outer)
    ensures var paths := Get(document, "paths").members;
            Refs(Obj(KeptPaths(paths, inner))) <= Refs(Obj(KeptPaths(paths, outer)))
  {
    var paths := Get(document, "paths").members;
    var wide, narrow := KeptPaths(paths, outer), KeptPaths(paths, inner);
    forall n | n in Refs(Obj(narrow)) ensures n in Refs(Obj(wide)) {
      RefsOfObj(narrow, n);
      var p :| MemberRefers(narrow, p, n);
      KeptWithin(document, outer, inner, p);
      SubObjectRefs(narrow[p].members, wide[p].members);
      assert MemberRefers(wide, p, n);
      RefsOfObj(wide, n);
    }
  }

  lemma {:induction false} TagsTwice(tags: seq<Json>, wide: map<string, Json>, narrow: map<string, Json>)
    requires forall tag :: Used(narrow, tag) ==> Used(wide, tag)
    ensures UsedTags(UsedTags(tags, wide), narrow) == UsedTags(tags, narrow)
  {
    if tags != [] {
      TagsTwice(tags[1..], wide, narrow);
      if Used(wide, tags[0]) {
        assert UsedTags(tags, wide)[1..] == UsedTags(tags[1..], wide);
      }
    }
  }

  lemma NarrowerUses(document: Json, outer: Keep, inner: Keep, tag: Json)
    requires PathsWellFormed(document) && Narrows(document, inner, outer)
    requires Used(KeptPaths(Get(document, "paths").members, inner), tag)
    ensures Used(KeptPaths(Get(document, "paths").members, outer), tag)
  {
    var paths := Get(document, "paths").members;
    var wide, narrow := KeptPaths(paths, outer), KeptPaths(paths, inner);
    var p, verb :| p in narrow && narrow[p].Obj? && verb in narrow[p].members && Carries(narrow[p].members[verb], tag);
    KeptWithin(document, outer, inner, p);
    assert Carries(wide[p].members[verb], tag);
  }

  lemma {:induction false} ChainWithin(all: map<string, Json>, roots: set<string>, within: map<string, Json>,
                                       c: seq<string>)
    requires Chain(all, roots, c)
    requires forall n :: n in all && Reachable(all, roots, n) ==> n in within && within[n] == all[n]
    ensures Chain(within, roots, c)
  {
    assert Reachable(all, roots, c[|c| - 1]);
    if |c| > 1 {
      ChainWithin(all, roots, within, c[..|c| - 1]);
      assert c[..|c| - 1][|c| - 2] == c[|c| - 2];
      assert Reachable(all, roots, c[|c| - 2]);
    }
  }

  lemma {:induction false} ChainWider(all: map<string, Json>, within: map<string, Json>, roots: set<string>,
                                      wider: set<string>, c: seq<string>)
    requires Chain(within, roots, c) && roots <= wider
    requires forall n :: n in within ==> n in all && within[n] == all[n]
    ensures Chain(all, wider, c)
  {
    if |c| > 1 { ChainWider(all, within, roots, wider, c[..|c| - 1]); }
  }

  /** Closing under the `$ref`s of what was already carried gives the same schemas. */
  lemma CarriedTwice(all: map<string, Json>, wide: set<string>, narrow: set<string>)
    requires narrow <= wide
    ensures var carried := Restrict(all, Closure(all, wide));
            Restrict(carried, Closure(carried, narrow)) == Restrict(all, Closure(all, narrow))
  {
    var carried := Restrict(all, Closure(all, wide));
    forall n | n in all && Reachable(all, narrow, n) ensures n in carried && Reachable(all, wide, n) {
      var c :| Chain(all, narrow, c) && c[|c| - 1] == n;
      ChainWider(all, all, narrow, wide, c);
    }
    forall n ensures n in carried && Reachable(carried, narrow, n) <==> n in all && Reachable(all, narrow, n) {
      if n in all && Reachable(all, narrow, n) {
        var c :| Chain(all, narrow, c) && c[|c| - 1] == n;
        ChainWithin(all, narrow, carried, c);
      }
      if n in carried && Reachable(carried, narrow, n) {
        var c :| Chain(carried, narrow, c) && c[|c| - 1] == n;
        ChainWider(all, carried, narrow, narrow, c);
      }
    }
  }

  /** Replacing a member twice leaves the second replacement. */
  lemma ReplacedTwice(document: map<string, Json>, key: string,
                      paths: map<string, Json>, tags: seq<Json>, schemas: map<string, Json>,
                      paths': map<string, Json>, tags': seq<Json>, schemas': map<string, Json>)
    requires key in document
    ensures var once := map k | k in document :: Replaced(document, k, paths, tags, schemas);
            Replaced(once, key, paths', tags', schemas') == Replaced(document, key, paths', tags', schemas')
  {
    if key == "components" && document[key].Obj? {
      var m := document[key].members;
      assert m["schemas" := Obj(schemas)]["schemas" := Obj(schemas')] == m["schemas" := Obj(schemas')];
    }
  }

  lemma AssembledTwice(document: map<string, Json>,
                       paths: map<string, Json>, tags: seq<Json>, schemas: map<string, Json>,
                       paths': map<string, Json>, tags': seq<Json>, schemas': map<string, Json>)
    ensures Assembled(Assembled(document, paths, tags, schemas).members, paths', tags', schemas')
            == Assembled(document, paths', tags', schemas')
  {
    forall key | key in document
      ensures Replaced(Assembled(document, paths, tags, schemas).members, key, paths', tags', schemas')
              == Replaced(document, key, paths', tags', schemas')
    {
      ReplacedTwice(document, key, paths, tags, schemas, paths', tags', schemas');
    }
  }

  lemma OuterSlices(document: Json, outer: Keep, inner: Keep)
    requires Sliceable(document) && Narrows(document, inner, outer) && SliceOf(document, inner).Some?
    ensures SliceOf(document, outer).Some?
  {
    var p :| p in KeptPaths(Get(document, "paths").members, inner);
    KeptWithin(document, outer, inner, p);
  }

  /** The parts of the slice of a slice are the parts of the slice. */
  lemma SameParts(document: Json, outer: Keep, inner: Keep)
    requires Sliceable(document) && Narrows(document, inner, outer) && SliceOf(document, inner).Some?
    requires SliceOf(document, outer).Some?
    ensures var slice := SliceOf(document, outer).value;
            var narrow := KeptPaths(Get(document, "paths").members, inner);
            && Sliceable(slice)
            && KeptPaths(Get(slice, "paths").members, inner) == narrow
            && UsedTags(Get(slice, "tags").items, narrow) == UsedTags(Get(document, "tags").items, narrow)
            && CarriedSchemas(slice, narrow) == CarriedSchemas(document, narrow)
  {
    var paths := Get(document, "paths").members;
    var wide, narrow := KeptPaths(paths, outer), KeptPaths(paths, inner);
    SliceParts(document, outer);
    PathsTwice(document, outer, inner);
    forall tag | Used(narrow, tag) ensures Used(wide, tag) { NarrowerUses(document, outer, inner, tag); }
    TagsTwice(Get(document, "tags").items, wide, narrow);
    NarrowerRefs(document, outer, inner);
    CarriedTwice(Schemas(document), Refs(Obj(wide)), Refs(Obj(narrow)));
  }

  /** Slicing a slice by a narrower predicate is slicing the document by it: the same paths, tags
      and schemas, and the same everything else. */
  lemma SlicingAbsorbs(document: Json, outer: Keep, inner: Keep)
    requires Sliceable(document) && Narrows(document, inner, outer) && SliceOf(document, inner).Some?
    ensures SliceOf(document, outer).Some?
    ensures SliceOf(SliceOf(document, outer).value, inner) == SliceOf(document, inner)
  {
    OuterSlices(document, outer, inner);
    SameParts(document, outer, inner);
    var paths := Get(document, "paths").members;
    var wide, narrow := KeptPaths(paths, outer), KeptPaths(paths, inner);
    AssembledTwice(document.members,
                   wide, UsedTags(Get(document, "tags").items, wide), CarriedSchemas(document, wide),
                   narrow, UsedTags(Get(document, "tags").items, narrow), CarriedSchemas(document, narrow));
  }

  /** Slicing twice by one predicate is slicing once. */
  lemma SlicingIsIdempotent(document: Json, keep: Keep)
    requires SliceOf(document, keep).Some?
    ensures SliceOf(SliceOf(document, keep).value, keep) == SliceOf(document, keep)
  {
    SlicingAbsorbs(document, keep, keep);
  }

  // ----- The two slices the API serves ----------------------------------------------------------

  /** The operations carrying a tag. */
  function HasTag(tag: string): Keep {
    op => Get(op, "tags").Arr? && Str(tag) in Get(op, "tags").items
  }

  /** The operation with an `operationId`. */
  function HasId(id: string): Keep {
    op => Get(op, "operationId") == Str(id)
  }

  /** An operation's slice can be taken from its tag's slice. */
  lemma OperationSliceFromTagSlice(document: Json, tag: string, id: string)
    requires SliceOf(document, HasId(id)).Some?
    requires var paths := Get(document, "paths").members;
             forall p, verb :: p in paths && verb in paths[p].members && HasId(id)(paths[p].members[verb])
               ==> HasTag(tag)(paths[p].members[verb])
    ensures SliceOf(document, HasTag(tag)).Some?
    ensures SliceOf(SliceOf(document, HasTag(tag)).value, HasId(id)) == SliceOf(document, HasId(id))
  {
    SlicingAbsorbs(document, HasTag(tag), HasId(id));
  }
}
