/**
 * What a slice is, told without its parts' constructions: operation by operation, tag by tag,
 * schema by schema. One document at most meets the description.
 */
module SliceMeaning {
  import opened Common
  import opened Json
  import opened SchemaRefs
  import opened Reachability
  import opened Slicing

  /** The document has an operation at a path and a verb. */
  predicate HasOperation(document: Json, p: string, verb: string) {
    var paths := Get(document, "paths");
    paths.Obj? && p in paths.members && paths.members[p].Obj? && verb in paths.members[p].members
  }

  function OperationAt(document: Json, p: string, verb: string): Json
    requires HasOperation(document, p, verb)
  {
    Get(document, "paths").members[p].members[verb]
  }

  /** The document has an operation there that is accepted. */
  predicate Accepts(document: Json, keep: Keep, p: string, verb: string) {
    HasOperation(document, p, verb) && keep(OperationAt(document, p, verb))
  }

  /** Some accepted operation lists the tag's name. */
  ghost predicate TagUsed(document: Json, keep: Keep, tag: Json) {
    exists p, verb :: Accepts(document, keep, p, verb) && Lists(OperationAt(document, p, verb), Get(tag, "name"))
  }

  predicate Lists(op: Json, name: Json) {
    match Get(op, "tags")
    case Arr(names) => name in names
    case _ => false
  }

  /** `places` are the places of a list, in order, at which `chosen` holds. */
  ghost predicate PlacesOf(places: seq<nat>, list: seq<Json>, chosen: Json -> bool) {
    && (forall i, j :: 0 <= i < j < |places| ==> places[i] < places[j])
    && (forall n: nat :: n in places <==> n < |list| && chosen(list[n]))
  }

  ghost predicate Picked(picked: seq<Json>, list: seq<Json>, places: seq<nat>) {
    |picked| == |places| && forall i :: 0 <= i < |places| ==> places[i] < |list| && picked[i] == list[places[i]]
  }

  /** The names accepted operations refer to. */
  ghost predicate NamedByKept(document: Json, keep: Keep, n: string) {
    exists p, verb :: Accepts(document, keep, p, verb) && OperationNames(document, p, verb, n)
  }

  ghost predicate OperationNames(document: Json, p: string, verb: string, n: string)
    requires HasOperation(document, p, verb)
  {
    RefName(verb, OperationAt(document, p, verb)) == Some(n) || n in Refs(OperationAt(document, p, verb))
  }

  ghost predicate PathsMean(document: Json, keep: Keep, slice: Json) {
    && Get(slice, "paths").Obj?
    && (forall p :: p in Get(slice, "paths").members ==> exists verb :: HasOperation(slice, p, verb))
    && (forall p, verb :: HasOperation(slice, p, verb) <==> Accepts(document, keep, p, verb))
    && (forall p, verb :: HasOperation(slice, p, verb) ==>
          OperationAt(slice, p, verb) == OperationAt(document, p, verb))
  }

  ghost predicate TagsMean(document: Json, keep: Keep, slice: Json) {
    && Get(document, "tags").Arr? && Get(slice, "tags").Arr?
    && exists places :: PlacesOf(places, Get(document, "tags").items, tag => TagUsed(document, keep, tag))
                        && Picked(Get(slice, "tags").items, Get(document, "tags").items, places)
  }

  /** A chain of references from an accepted operation, every schema on it registered. */
  ghost predicate Leads(document: Json, keep: Keep, c: seq<string>) {
    && c != [] && (forall i :: 0 <= i < |c| ==> c[i] in Schemas(document)) && NamedByKept(document, keep, c[0])
    && forall i :: 0 < i < |c| ==> c[i] in Refs(Schemas(document)[c[i - 1]])
  }

  ghost predicate LedTo(document: Json, keep: Keep, n: string) {
    exists c :: Leads(document, keep, c) && c[|c| - 1] == n
  }

  ghost predicate SchemasMean(document: Json, keep: Keep, slice: Json) {
    && (forall n :: n in Schemas(slice) <==> LedTo(document, keep, n))
    && (forall n :: n in Schemas(slice) ==> n in Schemas(document) && Schemas(slice)[n] == Schemas(document)[n])
  }

  /** Everything else is as it was. */
  ghost predicate RestMeans(document: Json, slice: Json) {
    && document.Obj? && slice.Obj? && slice.members.Keys == document.members.Keys
    && (forall k :: k in document.members && k != "paths" && k != "tags" && k != "components"
                    ==> slice.members[k] == document.members[k])
    && ("components" in document.members ==>
          && Get(document, "components").Obj? && Get(slice, "components").Obj?
          && Get(Get(slice, "components"), "schemas").Obj?
          && forall k :: k != "schemas" ==>
               && (k in Get(slice, "components").members <==> k in Get(document, "components").members)
               && Get(Get(slice, "components"), k) == Get(Get(document, "components"), k))
  }

  /** `slice` is the document with the accepted operations, the tags they list and the schemas they
      lead to, and everything else. */
  ghost predicate IsSlice(document: Json, keep: Keep, slice: Json) {
    && PathsMean(document, keep, slice) && TagsMean(document, keep, slice)
    && SchemasMean(document, keep, slice) && RestMeans(document, slice)
  }

  // ----- The slice is one ---------------------------------------------------------------------------

  lemma KeptPathsMean(document: Json, keep: Keep, slice: Json)
    requires SliceOf(document, keep) == Some(slice)
    ensures PathsMean(document, keep, slice)
  {
    hide UsedTags, CarriedSchemas;
    var paths, kept := Get(document, "paths").members, KeptPaths(Get(document, "paths").members, keep);
    SliceParts(document, keep);
    forall p | p in kept ensures exists verb :: HasOperation(slice, p, verb) {
      assert KeptVerbs(paths[p].members, keep) != map[];
      var verb :| verb in KeptVerbs(paths[p].members, keep);
      assert HasOperation(slice, p, verb);
    }
    forall p, verb ensures HasOperation(slice, p, verb) <==> Accepts(document, keep, p, verb) {
      if Accepts(document, keep, p, verb) { assert verb in KeptVerbs(paths[p].members, keep); }
    }
  }

  lemma UsedIsTagUsed(document: Json, keep: Keep, tag: Json)
    requires Sliceable(document)
    ensures Used(KeptPaths(Get(document, "paths").members, keep), tag) <==> TagUsed(document, keep, tag)
  {
    var paths, kept := Get(document, "paths").members, KeptPaths(Get(document, "paths").members, keep);
    if Used(kept, tag) {
      var p, verb :| p in kept && kept[p].Obj? && verb in kept[p].members && Carries(kept[p].members[verb], tag);
      assert Accepts(document, keep, p, verb) && Lists(OperationAt(document, p, verb), Get(tag, "name"));
    }
    if TagUsed(document, keep, tag) {
      var p, verb :| Accepts(document, keep, p, verb) && Lists(OperationAt(document, p, verb), Get(tag, "name"));
      assert verb in KeptVerbs(paths[p].members, keep);
      assert p in kept && verb in kept[p].members && Carries(kept[p].members[verb], tag);
    }
  }

  /** The tags kept are those at some places of the list, one after another. */
  lemma {:induction false} TagsAtPlaces(tags: seq<Json>, paths: map<string, Json>, from: nat) returns (places: seq<nat>)
    requires from <= |tags|
    ensures forall i, j :: 0 <= i < j < |places| ==> places[i] < places[j]
    ensures forall n: nat :: n in places <==> from <= n < |tags| && Used(paths, tags[n])
    ensures Picked(UsedTags(tags[from..], paths), tags, places)
    decreases |tags| - from
  {
    if from == |tags| {
      places := [];
    } else {
      hide Used, UsedTags;
      var rest := TagsAtPlaces(tags, paths, from + 1);
      FirstTag(tags, paths, from);
      PickOneMore(UsedTags(tags[from + 1..], paths), tags, rest, from);
      places := if Used(paths, tags[from]) then [from] + rest else rest;
      forall j | 0 <= j < |rest| ensures from < rest[j] { assert rest[j] in rest; }
    }
  }

  lemma PickOneMore(picked: seq<Json>, list: seq<Json>, places: seq<nat>, n: nat)
    requires Picked(picked, list, places) && n < |list|
    ensures Picked([list[n]] + picked, list, [n] + places)
  {
  }

  lemma FirstTag(tags: seq<Json>, paths: map<string, Json>, from: nat)
    requires from < |tags|
    ensures UsedTags(tags[from..], paths)
            == (if Used(paths, tags[from]) then [tags[from]] else []) + UsedTags(tags[from + 1..], paths)
  {
    assert tags[from..][0] == tags[from] && tags[from..][1..] == tags[from + 1..];
  }

  lemma KeptTagsMean(document: Json, keep: Keep, slice: Json)
    requires SliceOf(document, keep) == Some(slice)
    ensures TagsMean(document, keep, slice)
  {
    hide CarriedSchemas, KeptPaths, Used, TagUsed, UsedTags;
    SliceParts(document, keep);
    var tags, kept := Get(document, "tags").items, KeptPaths(Get(document, "paths").members, keep);
    var places := TagsAtPlaces(tags, kept, 0);
    assert tags[0..] == tags;
    forall n: nat | n < |tags| ensures Used(kept, tags[n]) <==> TagUsed(document, keep, tags[n]) {
      UsedIsTagUsed(document, keep, tags[n]);
    }
    assert PlacesOf(places, tags, tag => TagUsed(document, keep, tag));
  }

  lemma NamedByKeptIs(document: Json, keep: Keep, n: string)
    requires Sliceable(document)
    ensures n in Refs(Obj(KeptPaths(Get(document, "paths").members, keep))) <==> NamedByKept(document, keep, n)
  {
    hide Refs;
    var paths, kept := Get(document, "paths").members, KeptPaths(Get(document, "paths").members, keep);
    RefsOfObj(kept, n);
    if p :| MemberRefers(kept, p, n) {
      RefsOfObj(kept[p].members, n);
      var verb :| MemberRefers(kept[p].members, verb, n);
      assert Accepts(document, keep, p, verb) && OperationNames(document, p, verb, n);
    }
    if NamedByKept(document, keep, n) {
      var p, verb :| Accepts(document, keep, p, verb) && OperationNames(document, p, verb, n);
      assert verb in KeptVerbs(paths[p].members, keep) && p in kept;
      RefsOfObj(kept[p].members, n);
      assert MemberRefers(kept[p].members, verb, n);
      assert MemberRefers(kept, p, n);
    }
  }

  /** A chain is one whether told link by link or from its end. */
  lemma {:induction false} ChainLeads(document: Json, keep: Keep, c: seq<string>)
    requires Sliceable(document)
    ensures Chain(Schemas(document), Refs(Obj(KeptPaths(Get(document, "paths").members, keep))), c)
            <==> Leads(document, keep, c)
    decreases |c|
  {
    hide Refs, KeptPaths, NamedByKept, Schemas;
    if c != [] {
      NamedByKeptIs(document, keep, c[0]);
      if |c| > 1 {
        var front := c[..|c| - 1];
        ChainLeads(document, keep, front);
        assert forall i :: 0 <= i < |front| ==> front[i] == c[i];
      }
    }
  }

  lemma CarriedSchemasMean(document: Json, keep: Keep, slice: Json)
    requires SliceOf(document, keep) == Some(slice)
    ensures SchemasMean(document, keep, slice)
  {
    hide KeptPaths, UsedTags, Refs, Reachable, LedTo, Schemas;
    SliceParts(document, keep);
    forall n ensures n in Schemas(slice) <==> LedTo(document, keep, n) { ReachableIsLedTo(document, keep, n); }
  }

  lemma ReachableIsLedTo(document: Json, keep: Keep, n: string)
    requires Sliceable(document)
    ensures n in Closure(Schemas(document), Refs(Obj(KeptPaths(Get(document, "paths").members, keep))))
            <==> LedTo(document, keep, n)
  {
    hide KeptPaths, Refs, Leads, Chain, Schemas;
    var all, roots := Schemas(document), Refs(Obj(KeptPaths(Get(document, "paths").members, keep)));
    if Reachable(all, roots, n) {
      var c := ChainTo(all, roots, n);
      ChainLeads(document, keep, c);
    }
    if LedTo(document, keep, n) {
      var c := LeadTo(document, keep, n);
      ChainLeads(document, keep, c);
      ChainEnds(all, roots, c);
    }
  }

  lemma ChainTo(all: map<string, Json>, roots: set<string>, n: string) returns (c: seq<string>)
    requires Reachable(all, roots, n)
    ensures Chain(all, roots, c) && c != [] && c[|c| - 1] == n && n in all
  {
    c :| Chain(all, roots, c) && c[|c| - 1] == n;
  }

  lemma LeadTo(document: Json, keep: Keep, n: string) returns (c: seq<string>)
    requires LedTo(document, keep, n)
    ensures Leads(document, keep, c) && c != [] && c[|c| - 1] == n
  {
    c :| Leads(document, keep, c) && c[|c| - 1] == n;
  }

  lemma ChainEnds(all: map<string, Json>, roots: set<string>, c: seq<string>)
    requires Chain(all, roots, c)
    ensures c != [] && c[|c| - 1] in all
  {
  }

  lemma RestStands(document: Json, keep: Keep, slice: Json)
    requires SliceOf(document, keep) == Some(slice)
    ensures RestMeans(document, slice)
  {
    hide KeptPaths, UsedTags, CarriedSchemas;
    assert |"paths"| == 5 && |"tags"| == 4 && |"components"| == 10;
  }

  /** The slice is one, operation by operation, tag by tag, schema by schema. */
  lemma SliceMeans(document: Json, keep: Keep)
    requires SliceOf(document, keep).Some?
    ensures IsSlice(document, keep, SliceOf(document, keep).value)
  {
    hide SliceOf, PathsMean, TagsMean, SchemasMean, RestMeans;
    var slice := SliceOf(document, keep).value;
    KeptPathsMean(document, keep, slice);
    KeptTagsMean(document, keep, slice);
    CarriedSchemasMean(document, keep, slice);
    RestStands(document, keep, slice);
  }

  /** There is a slice exactly when the document is of the expected shape and some operation is
      accepted. */
  lemma SliceIff(document: Json, keep: Keep)
    ensures SliceOf(document, keep).Some?
            <==> && document.Obj? && Get(document, "paths").Obj? && Get(document, "tags").Arr?
                 && (forall p :: p in Get(document, "paths").members ==> Get(document, "paths").members[p].Obj?)
                 && ("components" in document.members ==> document.members["components"].Obj?)
                 && exists p, verb :: Accepts(document, keep, p, verb)
  {
    hide UsedTags, CarriedSchemas;
    if Sliceable(document) {
      var paths := Get(document, "paths").members;
      var kept := KeptPaths(paths, keep);
      if p, verb :| Accepts(document, keep, p, verb) {
        assert verb in KeptVerbs(paths[p].members, keep);
        assert p in kept;
      }
      if kept != map[] {
        var p :| p in kept;
        assert KeptVerbs(paths[p].members, keep) != map[];
        var verb :| verb in KeptVerbs(paths[p].members, keep);
        assert Accepts(document, keep, p, verb);
      }
    }
  }

  // ----- There is no other -----------------------------------------------------------------------------

  lemma SamePaths(document: Json, keep: Keep, a: Json, b: Json)
    requires PathsMean(document, keep, a) && PathsMean(document, keep, b)
    ensures Get(a, "paths") == Get(b, "paths")
  {
    var x, y := Get(a, "paths").members, Get(b, "paths").members;
    forall p ensures p in x <==> p in y {
      if p in x {
        var verb :| HasOperation(a, p, verb);
        assert HasOperation(b, p, verb);
      }
      if p in y {
        var verb :| HasOperation(b, p, verb);
        assert HasOperation(a, p, verb);
      }
    }
    forall p | p in x ensures x[p] == y[p] { SameItem(document, keep, a, b, p); }
  }

  lemma SameItem(document: Json, keep: Keep, a: Json, b: Json, p: string)
    requires PathsMean(document, keep, a) && PathsMean(document, keep, b)
    requires p in Get(a, "paths").members && p in Get(b, "paths").members
    ensures Get(a, "paths").members[p] == Get(b, "paths").members[p]
  {
    var u :| HasOperation(a, p, u);
    var v :| HasOperation(b, p, v);
    var x, y := Get(a, "paths").members[p].members, Get(b, "paths").members[p].members;
    forall verb ensures (verb in x <==> verb in y) && (verb in x ==> x[verb] == y[verb]) {
      assert HasOperation(a, p, verb) <==> HasOperation(b, p, verb);
      assert HasOperation(a, p, verb) ==> OperationAt(a, p, verb) == OperationAt(b, p, verb);
    }
    assert x == y;
  }

  lemma HasMember(b: seq<nat>)
    requires b != []
    ensures exists n: nat :: n in b
  {
    assert b[0] in b;
  }

  /** Ascending lists of the same places are one. */
  lemma {:induction false} SamePlaces(a: seq<nat>, b: seq<nat>)
    requires forall i, j :: 0 <= i < j < |a| ==> a[i] < a[j]
    requires forall i, j :: 0 <= i < j < |b| ==> b[i] < b[j]
    requires forall n: nat :: n in a <==> n in b
    ensures a == b
  {
    if a == [] {
      if b != [] { HasMember(b); }
    } else {
      assert a[0] in a && b != [];
      assert b[0] in b;
      var i :| 0 <= i < |b| && b[i] == a[0];
      var j :| 0 <= j < |a| && a[j] == b[0];
      assert a[0] == b[0];
      forall n: nat ensures n in a[1..] <==> n in b[1..] {
        assert forall k :: 0 <= k < |a| - 1 ==> a[1..][k] == a[k + 1] > a[0];
        assert forall k :: 0 <= k < |b| - 1 ==> b[1..][k] == b[k + 1] > b[0];
        assert n in a <==> n == a[0] || n in a[1..];
        assert n in b <==> n == b[0] || n in b[1..];
      }
      SamePlaces(a[1..], b[1..]);
      assert a == [a[0]] + a[1..] && b == [b[0]] + b[1..];
    }
  }

  lemma SameTags(document: Json, keep: Keep, a: Json, b: Json)
    requires TagsMean(document, keep, a) && TagsMean(document, keep, b)
    ensures Get(a, "tags") == Get(b, "tags")
  {
    hide TagUsed;
    var list, chosen := Get(document, "tags").items, tag => TagUsed(document, keep, tag);
    var x :| PlacesOf(x, list, chosen) && Picked(Get(a, "tags").items, list, x);
    var y :| PlacesOf(y, list, chosen) && Picked(Get(b, "tags").items, list, y);
    SamePlaces(x, y);
    assert Get(a, "tags").items == Get(b, "tags").items;
  }

  lemma SameComponents(document: Json, keep: Keep, a: Json, b: Json)
    requires IsSlice(document, keep, a) && IsSlice(document, keep, b) && "components" in document.members
    ensures Get(a, "components") == Get(b, "components")
  {
    hide PathsMean, TagsMean, LedTo;
    var x, y := Get(a, "components").members, Get(b, "components").members;
    assert Schemas(a) == Schemas(b);
    assert Get(Get(a, "components"), "schemas") == Get(Get(b, "components"), "schemas");
    forall k ensures (k in x <==> k in y) && (k in x ==> x[k] == y[k]) {
      if k != "schemas" {
        assert k in x <==> k in Get(document, "components").members;
        assert k in y <==> k in Get(document, "components").members;
        assert Get(Get(a, "components"), k) == Get(Get(b, "components"), k);
      }
    }
    assert x == y;
  }

  /** Only one document is the slice. */
  lemma OnlySlice(document: Json, keep: Keep, a: Json, b: Json)
    requires IsSlice(document, keep, a) && IsSlice(document, keep, b)
    ensures a == b
  {
    SamePaths(document, keep, a, b);
    SameTags(document, keep, a, b);
    if "components" in document.members { SameComponents(document, keep, a, b); }
    hide PathsMean, TagsMean, SchemasMean;
    forall k | k in a.members ensures a.members[k] == b.members[k] {
      assert Get(a, k) == a.members[k] && Get(b, k) == b.members[k];
    }
    assert a.members == b.members;
  }

  // ----- The two slices the API serves --------------------------------------------------------------------

  /** An operation's slice has the operations with its id and no other. */
  lemma IdSliceHolds(document: Json, id: string, p: string, verb: string)
    requires SliceOf(document, HasId(id)).Some?
    ensures HasOperation(SliceOf(document, HasId(id)).value, p, verb)
            <==> HasOperation(document, p, verb) && Get(OperationAt(document, p, verb), "operationId") == Str(id)
  {
    SliceMeans(document, HasId(id));
  }

  /** A tag's slice has the operations that list it and no other. */
  lemma TagSliceHolds(document: Json, tag: string, p: string, verb: string)
    requires SliceOf(document, HasTag(tag)).Some?
    ensures HasOperation(SliceOf(document, HasTag(tag)).value, p, verb)
            <==> HasOperation(document, p, verb) && Lists(OperationAt(document, p, verb), Str(tag))
  {
    SliceMeans(document, HasTag(tag));
  }
}
