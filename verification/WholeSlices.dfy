/**
 * Is a slice a whole document on its own? Always, of the document the server publishes; and of any
 * other, when.
 */
module WholeSlices {
  import opened Common
  import opened Json
  import opened Pointers
  import opened SchemaRefs
  import opened Reachability
  import opened Slicing

  /** No reference in the slice, wherever it stands, dangles that resolved in the document. */
  ghost predicate WholeDocument(document: Json, slice: Json) {
    forall ref :: ref in RefStrings(slice) && Lookup(document, ref).Some? ==> Lookup(slice, ref).Some?
  }

  // ----- The references a slice holds ---------------------------------------------------------------

  function Kept(document: Json, keep: Keep): map<string, Json>
    requires Sliceable(document)
  {
    KeptPaths(Get(document, "paths").members, keep)
  }

  /** The references in the parts a slice copies: every member but the paths, the tags and the
      schemas, and the tags its operations carry. */
  ghost function Copied(document: Json, keep: Keep): set<string>
    requires Sliceable(document)
  {
    var components := Get(document, "components");
    RefStrings(Obj(document.members - {"paths", "tags", "components"}))
    + RefStrings(Arr(UsedTags(Get(document, "tags").items, Kept(document, keep))))
    + (if components.Obj? then RefStrings(Obj(components.members - {"schemas"})) else {})
  }

  /** All the references of a slice, read off the document. */
  ghost function Carried(document: Json, keep: Keep): set<string>
    requires Sliceable(document)
  {
    RefStrings(Obj(Kept(document, keep)))
    + RefStrings(Obj(CarriedSchemas(document, Kept(document, keep))))
    + Copied(document, keep)
  }

  lemma SlicedIsSliceable(document: Json, keep: Keep)
    requires SliceOf(document, keep).Some?
    ensures Sliceable(document)
  {
  }

  lemma MemberNames()
    ensures "paths" != "tags" && "paths" != "components" && "tags" != "components"
    ensures "paths" != "$ref" && "tags" != "$ref" && "components" != "$ref" && "schemas" != "$ref"
  {
    assert |"paths"| == 5 && |"tags"| == 4 && |"components"| == 10 && |"schemas"| == 7;
    assert "tags"[0] != "$ref"[0];
  }

  /** Member by member, what a slice is made of. */
  lemma SliceMembers(document: Json, keep: Keep)
    requires SliceOf(document, keep).Some?
    ensures var slice := SliceOf(document, keep).value;
            var schemas := CarriedSchemas(document, Kept(document, keep));
            && slice.Obj? && slice.members.Keys == document.members.Keys
            && Get(slice, "paths") == Obj(Kept(document, keep)) && "paths" in slice.members
            && Get(slice, "tags") == Arr(UsedTags(Get(document, "tags").items, Kept(document, keep)))
            && "tags" in slice.members
            && (forall k :: k in document.members && k != "paths" && k != "tags" && k != "components"
                            ==> slice.members[k] == document.members[k])
            && ("components" in document.members ==>
                  && Get(document, "components").Obj?
                  && Get(slice, "components") == Obj(Get(document, "components").members["schemas" := Obj(schemas)]))
  {
    hide KeptPaths, UsedTags, CarriedSchemas;
    MemberNames();
  }

  /** The references of a slice are known before it is cut. */
  lemma SliceHolds(document: Json, keep: Keep)
    requires SliceOf(document, keep).Some?
    ensures RefStrings(SliceOf(document, keep).value) == Carried(document, keep)
  {
    hide SliceOf, RefStrings, UsedTags, CarriedSchemas, Kept;
    SlicedIsSliceable(document, keep);
    SliceMembers(document, keep);
    MemberNames();
    var m := SliceOf(document, keep).value.members;
    var rest := m - {"paths"} - {"tags"};
    RefStringsWithout(m, "paths");
    RefStringsWithout(m - {"paths"}, "tags");
    if "components" in m {
      ComponentsHold(document, keep);
      RefStringsWithout(rest, "components");
      assert rest - {"components"} == document.members - {"paths", "tags", "components"};
    } else {
      NothingCarried(document, keep);
      assert rest == document.members - {"paths", "tags", "components"};
    }
  }

  lemma ComponentsHold(document: Json, keep: Keep)
    requires SliceOf(document, keep).Some? && "components" in document.members
    ensures Sliceable(document) && Get(document, "components").Obj?
    ensures RefStrings(Get(SliceOf(document, keep).value, "components"))
            == RefStrings(Obj(CarriedSchemas(document, Kept(document, keep))))
               + RefStrings(Obj(Get(document, "components").members - {"schemas"}))
  {
    hide SliceOf, RefStrings, CarriedSchemas, Kept;
    SlicedIsSliceable(document, keep);
    SliceMembers(document, keep);
    MemberNames();
    var components := Get(SliceOf(document, keep).value, "components").members;
    RefStringsWithout(components, "schemas");
    assert components - {"schemas"} == Get(document, "components").members - {"schemas"};
  }

  lemma NothingCarried(document: Json, keep: Keep)
    requires Sliceable(document) && "components" !in document.members
    ensures RefStrings(Obj(CarriedSchemas(document, Kept(document, keep)))) == {}
  {
    hide Kept;
    assert Schemas(document) == map[];
    assert CarriedSchemas(document, Kept(document, keep)) == map[];
  }

  // ----- Which places of the document a slice still has -----------------------------------------------

  /** A place in the document that slicing leaves standing: not in an operation dropped, a tag
      dropped, or a schema no kept operation reaches. */
  ghost predicate Stands(document: Json, keep: Keep, path: seq<string>)
    requires Sliceable(document)
  {
    var kept := Kept(document, keep);
    && (|path| >= 2 && path[0] == "paths" ==>
          && path[1] in kept
          && (|path| >= 3 ==> path[2] in KeptVerbs(Get(document, "paths").members[path[1]].members, keep)))
    && (|path| >= 2 && path[0] == "tags" ==> At(Arr(UsedTags(Get(document, "tags").items, kept)), path[1..]).Some?)
    && (|path| >= 3 && path[0] == "components" && path[1] == "schemas" ==>
          path[2] in Closure(Schemas(document), Refs(Obj(kept))))
  }

  lemma FirstStep(m: map<string, Json>, path: seq<string>)
    requires path != []
    ensures At(Obj(m), path) == if path[0] in m then At(m[path[0]], path[1..]) else None
  {
  }

  lemma PathsStand(document: Json, keep: Keep, path: seq<string>)
    requires Sliceable(document) && path != [] && At(Get(document, "paths"), path).Some?
    ensures At(Obj(Kept(document, keep)), path).Some?
            <==> path[0] in Kept(document, keep)
                 && (|path| >= 2 ==> path[1] in KeptVerbs(Get(document, "paths").members[path[0]].members, keep))
  {
    hide At;
    var paths, kept := Get(document, "paths").members, Kept(document, keep);
    FirstStep(paths, path);
    FirstStep(kept, path);
    if path[0] in kept {
      var item := paths[path[0]].members;
      if |path| >= 2 {
        FirstStep(item, path[1..]);
        FirstStep(KeptVerbs(item, keep), path[1..]);
      } else {
        AtEnd(kept[path[0]], path[1..]);
      }
    }
  }

  lemma AtEnd(v: Json, path: seq<string>)
    requires path == []
    ensures At(v, path) == Some(v)
  {
  }

  lemma SchemasStand(document: Json, kept: map<string, Json>, path: seq<string>)
    requires path != [] && At(Get(Get(document, "components"), "schemas"), path).Some?
    ensures At(Obj(CarriedSchemas(document, kept)), path).Some?
            <==> path[0] in Closure(Schemas(document), Refs(Obj(kept)))
  {
    hide At, Closure, Refs;
    var all := Get(Get(document, "components"), "schemas");
    FirstStep(CarriedSchemas(document, kept), path);
    if all.Obj? { FirstStep(all.members, path); }
    InAll(Schemas(document), Refs(Obj(kept)));
  }

  lemma InAll(all: map<string, Json>, roots: set<string>)
    ensures forall n :: n in Closure(all, roots) ==> n in all
  {
  }

  /** A place of the document is in the slice exactly when it stands. */
  lemma PlaceStandsIff(document: Json, keep: Keep, path: seq<string>)
    requires SliceOf(document, keep).Some? && At(document, path).Some?
    ensures Sliceable(document)
    ensures At(SliceOf(document, keep).value, path).Some? <==> Stands(document, keep, path)
  {
    hide SliceOf, Kept, KeptVerbs, UsedTags, CarriedSchemas, Closure, Schemas, Refs, At;
    SlicedIsSliceable(document, keep);
    SliceMembers(document, keep);
    MemberNames();
    var slice := SliceOf(document, keep).value;
    if path == [] {
      AtEnd(slice, path);
    } else {
      var rest := path[1..];
      FirstStep(document.members, path);
      FirstStep(slice.members, path);
      if rest == [] {
        AtEnd(slice.members[path[0]], rest);
      } else if path[0] == "paths" {
        PathsStand(document, keep, rest);
      } else if path[0] == "components" {
        ComponentsStand(document, keep, rest);
      }
    }
  }

  lemma ComponentsStand(document: Json, keep: Keep, path: seq<string>)
    requires SliceOf(document, keep).Some? && path != [] && At(Get(document, "components"), path).Some?
    requires "components" in document.members
    ensures Sliceable(document)
    ensures At(Get(SliceOf(document, keep).value, "components"), path).Some?
            <==> (|path| >= 2 && path[0] == "schemas" ==>
                    path[1] in Closure(Schemas(document), Refs(Obj(Kept(document, keep)))))
  {
    hide SliceOf, Kept, CarriedSchemas, Closure, Schemas, Refs, At;
    SlicedIsSliceable(document, keep);
    SliceMembers(document, keep);
    var was, now := Get(document, "components").members, Get(SliceOf(document, keep).value, "components").members;
    FirstStep(was, path);
    FirstStep(now, path);
    if path[0] == "schemas" {
      if |path| == 1 { AtEnd(now["schemas"], path[1..]); }
      else { SchemasStand(document, Kept(document, keep), path[1..]); }
    }
  }

  /** A slice is a whole document exactly when every reference it carries that leads anywhere in the
      document leads to a place that stands: both are read off the document before it is cut. */
  lemma WholeDocumentIff(document: Json, keep: Keep)
    requires SliceOf(document, keep).Some?
    ensures Sliceable(document)
    ensures WholeDocument(document, SliceOf(document, keep).value)
            <==> forall ref :: ref in Carried(document, keep) && Lookup(document, ref).Some?
                               ==> Stands(document, keep, Path(ref).value)
  {
    hide SliceOf, RefStrings, Carried, Stands, At, Path, Sliceable;
    SlicedIsSliceable(document, keep);
    SliceHolds(document, keep);
    forall ref | Lookup(document, ref).Some?
      ensures Lookup(SliceOf(document, keep).value, ref).Some? <==> Stands(document, keep, Path(ref).value)
    {
      PlaceStandsIff(document, keep, Path(ref).value);
    }
  }

  // ----- The published document -------------------------------------------------------------------

  /** Nothing in the value is a `$ref`. */
  predicate RefFree(v: Json) {
    match v
    case Arr(items) => forall i :: 0 <= i < |items| ==> RefFree(items[i])
    case Obj(m) => forall k :: k in m ==> k != "$ref" && RefFree(m[k])
    case _ => true
  }

  lemma {:induction false} RefFreeHoldsNothing(v: Json)
    requires RefFree(v)
    ensures RefStrings(v) == {}
  {
    match v
    case Arr(items) =>
      forall x | x in items ensures RefStrings(x) == {} {
        var i :| 0 <= i < |items| && items[i] == x;
        RefFreeHoldsNothing(items[i]);
      }
    case Obj(m) =>
      forall k | k in m ensures RefStrings(m[k]) == {} { RefFreeHoldsNothing(m[k]); }
    case _ =>
  }

  /** The reference names a registered schema, and nothing inside it. */
  predicate Names(all: map<string, Json>, ref: string) {
    PREFIX <= ref && ref[|PREFIX|..] in all && Plain(ref[|PREFIX|..])
  }

  /** The shape the server publishes: `$ref`s stand under the paths and the component schemas only,
      and each names a registered schema, none of which is called `$ref`. What it writes besides is
      titles, descriptions, server addresses, tag names, and the two security schemes and their
      requirement. */
  ghost predicate Published(document: Json) {
    && Sliceable(document)
    && (forall k :: k in document.members && k !in {"paths", "components"}
                    ==> k != "$ref" && RefFree(document.members[k]))
    && (Get(document, "components").Obj? ==>
          var components := Get(document, "components").members;
          forall k :: k in components && k != "schemas" ==> k != "$ref" && RefFree(components[k]))
    && "$ref" !in Schemas(document)
    && (forall ref :: ref in RefStrings(Get(document, "paths")) || ref in RefStrings(Obj(Schemas(document)))
                      ==> Names(Schemas(document), ref))
  }

  lemma RefFreeMembers(m: map<string, Json>)
    requires forall k :: k in m ==> k != "$ref" && RefFree(m[k])
    ensures RefStrings(Obj(m)) == {}
  {
    assert RefFree(Obj(m));
    RefFreeHoldsNothing(Obj(m));
  }

  lemma {:induction false} UsedTagsAreTags(tags: seq<Json>, paths: map<string, Json>)
    requires RefFree(Arr(tags))
    ensures RefFree(Arr(UsedTags(tags, paths)))
  {
    if tags != [] {
      var rest := UsedTags(tags[1..], paths);
      assert RefFree(Arr(tags[1..])) by { assert forall i :: 0 <= i < |tags| - 1 ==> tags[1..][i] == tags[i + 1]; }
      UsedTagsAreTags(tags[1..], paths);
      assert RefFree(tags[0]);
      if Used(paths, tags[0]) { assert forall i :: 0 < i < |rest| + 1 ==> ([tags[0]] + rest)[i] == rest[i - 1]; }
    }
  }

  lemma PublishedCopiesNoReference(document: Json, keep: Keep)
    requires Published(document)
    ensures Copied(document, keep) == {}
  {
    hide RefStrings, RefFree, Kept, UsedTags, Names;
    MemberNames();
    var tags, kept := Get(document, "tags"), Kept(document, keep);
    RefFreeMembers(document.members - {"paths", "tags", "components"});
    assert RefFree(tags);
    UsedTagsAreTags(tags.items, kept);
    RefFreeHoldsNothing(Arr(UsedTags(tags.items, kept)));
    if Get(document, "components").Obj? { RefFreeMembers(Get(document, "components").members - {"schemas"}); }
  }

  /** What the kept operations hold, the document's paths hold. */
  lemma KeptHolds(document: Json, keep: Keep)
    requires Sliceable(document)
    ensures RefStrings(Obj(Kept(document, keep))) <= RefStrings(Get(document, "paths"))
  {
    hide RefStrings;
    var paths, kept := Get(document, "paths").members, Kept(document, keep);
    forall s | s in RefStrings(Obj(kept)) ensures s in RefStrings(Obj(paths)) {
      RefStringsOfObj(kept, s);
      RefStringsOfObj(paths, s);
      var p :| MemberHolds(kept, p, s);
      SubObjectHolds(KeptVerbs(paths[p].members, keep), paths[p].members);
      assert MemberHolds(paths, p, s);
    }
  }

  /** Every reference of a published document's slice stands in a kept operation or a carried
      schema, and names a registered schema. */
  lemma PublishedCarries(document: Json, keep: Keep, ref: string)
    requires Published(document) && ref in Carried(document, keep)
    ensures Names(Schemas(document), ref)
    ensures ref in RefStrings(Obj(Kept(document, keep)))
            || ref in RefStrings(Obj(CarriedSchemas(document, Kept(document, keep))))
  {
    hide RefStrings, Kept, Names, Copied, Schemas, Closure, Refs;
    PublishedCopiesNoReference(document, keep);
    KeptHolds(document, keep);
    SubObjectHolds(CarriedSchemas(document, Kept(document, keep)), Schemas(document));
  }

  /** A schema that a carried reference names is carried. */
  lemma NamedIsCarried(document: Json, keep: Keep, n: string)
    requires SliceOf(document, keep).Some? && n in Schemas(document) && "$ref" !in Schemas(document)
    ensures Sliceable(document)
    ensures PREFIX + n in RefStrings(Obj(Kept(document, keep)))
            || PREFIX + n in RefStrings(Obj(CarriedSchemas(document, Kept(document, keep))))
            ==> n in CarriedSchemas(document, Kept(document, keep))
  {
    hide RefStrings, Refs, SliceOf, Kept, Schemas, Reachable;
    SlicedIsSliceable(document, keep);
    var all, kept := Schemas(document), Kept(document, keep);
    var carried := CarriedSchemas(document, kept);
    ClosureIsClosed(all, Refs(Obj(kept)));
    NamesAreRefs(Obj(kept), n);
    if PREFIX + n in RefStrings(Obj(carried)) {
      NamesAreRefs(Obj(carried), n);
      RefsOfObj(carried, n);
      var r :| MemberRefers(carried, r, n);
      assert r in all && r in Closure(all, Refs(Obj(kept))) && n in Refs(all[r]);
    }
  }

  lemma NameSplits(all: map<string, Json>, ref: string)
    requires Names(all, ref)
    ensures ref == PREFIX + ref[|PREFIX|..]
  {
  }

  /** Where a reference that names a registered schema leads. */
  lemma NameLeads(document: Json, n: string)
    requires n in Schemas(document) && Plain(n)
    ensures Path(PREFIX + n) == Some(["components", "schemas", n])
    ensures Lookup(document, PREFIX + n) == Some(Schemas(document)[n])
  {
    hide At, Tokens, Path, Schemas;
    NamePath(n);
    TokenInFront(n, "");
    assert ["components", "schemas"] + [n] == ["components", "schemas", n];
    PlaceOfSchema(document, n);
  }

  lemma NamePath(t: string)
    ensures Path(PREFIX + t) == Some(["components", "schemas"] + Tokens(t))
  {
    hide Tokens;
    var inner := "schemas" + "/" + t;
    var tokens := "components" + "/" + inner;
    PrefixSplits(t);
    PathOf(tokens);
    TokenInFront("components", inner);
    TokenInFront("schemas", t);
    assert ["components"] + (["schemas"] + Tokens(t)) == ["components", "schemas"] + Tokens(t);
  }

  lemma PrefixSplits(t: string)
    ensures PREFIX + t == "#/" + ("components" + "/" + ("schemas" + "/" + t))
  {
    assert PREFIX == "#/" + "components" + "/" + "schemas" + "/";
  }

  lemma PathOf(tokens: string)
    ensures Path("#/" + tokens) == Some(Tokens(tokens))
  {
    hide Tokens;
    var ref := "#/" + tokens;
    assert |ref| >= 2 && "#/" <= ref && ref[2..] == tokens;
  }

  lemma PlaceOfSchema(document: Json, n: string)
    requires n in Schemas(document)
    ensures At(document, ["components", "schemas", n]) == Some(Schemas(document)[n])
  {
    hide At;
    var path := ["components", "schemas", n];
    var components := Get(document, "components");
    assert path[1..] == ["schemas", n] && path[1..][1..] == [n] && [n][1..] == [];
    FirstStep(document.members, path);
    FirstStep(components.members, path[1..]);
    FirstStep(Schemas(document), [n]);
    AtEnd(Schemas(document)[n], []);
  }

  /** Every slice of the published document is a whole document on its own: each reference in it,
      wherever it stands, names a schema that the slice holds as the document does. */
  lemma PublishedSlicesAreWhole(document: Json, keep: Keep, ref: string)
    requires Published(document) && SliceOf(document, keep).Some?
    requires ref in RefStrings(SliceOf(document, keep).value)
    ensures Names(Schemas(SliceOf(document, keep).value), ref)
    ensures Lookup(document, ref).Some? && Lookup(SliceOf(document, keep).value, ref) == Lookup(document, ref)
  {
    hide SliceOf, RefStrings, Kept, Schemas, Lookup, Path, Carried, CarriedSchemas, Sliceable;
    var slice := SliceOf(document, keep).value;
    SliceHolds(document, keep);
    PublishedCarries(document, keep, ref);
    var n := ref[|PREFIX|..];
    NameSplits(Schemas(document), ref);
    NamedIsCarried(document, keep, n);
    SlicedSchemas(document, keep);
    CarriedAsIs(document, Kept(document, keep), n);
    NameLeads(document, n);
    NameLeads(slice, n);
  }

  lemma CarriedAsIs(document: Json, kept: map<string, Json>, n: string)
    requires n in CarriedSchemas(document, kept)
    ensures n in Schemas(document) && CarriedSchemas(document, kept)[n] == Schemas(document)[n]
  {
  }

  lemma PublishedSlicesDangleNowhere(document: Json, keep: Keep)
    requires Published(document) && SliceOf(document, keep).Some?
    ensures WholeDocument(document, SliceOf(document, keep).value)
  {
    hide Published, SliceOf, RefStrings, Lookup, Names;
    forall ref | ref in RefStrings(SliceOf(document, keep).value)
      ensures Lookup(document, ref).Some? ==> Lookup(SliceOf(document, keep).value, ref).Some?
    {
      PublishedSlicesAreWhole(document, keep, ref);
    }
  }

  /** And its slice is published in the same shape, so that it can be sliced in turn. */
  lemma SlicesArePublished(document: Json, keep: Keep)
    requires Published(document) && SliceOf(document, keep).Some?
    ensures Published(SliceOf(document, keep).value)
  {
    hide SliceOf, RefFree, RefStrings, Kept, UsedTags, CarriedSchemas, Schemas, Names;
    var slice := SliceOf(document, keep).value;
    SliceParts(document, keep);
    SliceMembers(document, keep);
    MemberNames();
    assert RefFree(Get(document, "tags"));
    UsedTagsAreTags(Get(document, "tags").items, Kept(document, keep));
    SlicedSchemas(document, keep);
    forall ref | ref in RefStrings(Get(slice, "paths")) || ref in RefStrings(Obj(Schemas(slice)))
      ensures Names(Schemas(slice), ref)
    {
      assert ref in Carried(document, keep);
      SliceHolds(document, keep);
      PublishedSlicesAreWhole(document, keep, ref);
    }
  }

  lemma SlicedSchemas(document: Json, keep: Keep)
    requires SliceOf(document, keep).Some?
    ensures Sliceable(document)
    ensures Schemas(SliceOf(document, keep).value) == CarriedSchemas(document, Kept(document, keep))
    ensures "$ref" in Schemas(SliceOf(document, keep).value) ==> "$ref" in Schemas(document)
  {
    hide SliceOf, Closure, Refs;
    SlicedIsSliceable(document, keep);
    SliceParts(document, keep);
  }
}
