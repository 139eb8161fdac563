/**
 * Documents of which a slice is not whole: one with an extension that names a schema, and one with
 * a reference to a part of a schema. The server publishes neither.
 */
module SliceSamples {
  import opened Common
  import opened Json
  import opened Pointers
  import opened SchemaRefs
  import opened Reachability
  import opened Slicing
  import opened WholeSlices

  /** An object of one member. */
  function One(key: string, v: Json): Json {
    Obj(map[key := v])
  }

  lemma OneHolds(key: string, v: Json)
    requires key != "$ref"
    ensures RefStrings(One(key, v)) == RefStrings(v)
  {
    var m := map[key := v];
    RefStringsWithout(m, key);
    assert m - {key} == map[];
  }

  const SCHEMA := One("properties", One("x", Null))

  const ALL: Keep := _ => true

  /** A document with one operation, the one schema, and an extension. */
  function Sample(operation: Json, extension: Json): Json {
    Obj(map["paths" := One("/a", One("get", operation)), "tags" := Arr([]),
            "components" := One("schemas", One("A", SCHEMA)), "x-error" := extension])
  }

  lemma SampleParts(operation: Json, extension: Json)
    ensures var document := Sample(operation, extension);
            && Get(document, "paths") == One("/a", One("get", operation))
            && Get(document, "tags") == Arr([]) && Sliceable(document)
            && Schemas(document) == map["A" := SCHEMA] && Get(document, "x-error") == extension
  {
    MemberNames();
    assert |"x-error"| == 7;
  }

  lemma SampleKept(operation: Json, extension: Json)
    ensures var document := Sample(operation, extension);
            && SliceOf(document, ALL).Some? && Sliceable(document)
            && Obj(Kept(document, ALL)) == One("/a", One("get", operation))
  {
    hide UsedTags, CarriedSchemas, Sample, KeptPaths;
    SampleParts(operation, extension);
    AllKept(map["get" := operation]);
  }

  lemma AllKept(item: map<string, Json>)
    requires "get" in item
    ensures KeptPaths(map["/a" := Obj(item)], ALL) == map["/a" := Obj(item)] != map[]
  {
    assert KeptVerbs(item, ALL) == item;
    assert "/a" in map["/a" := Obj(item)];
  }

  lemma KeptHoldsOperation(operation: Json)
    ensures RefStrings(One("/a", One("get", operation))) == RefStrings(operation)
  {
    hide RefStrings, One;
    assert "/a"[0] == '/' && "get"[0] == 'g';
    OneHolds("get", operation);
    OneHolds("/a", One("get", operation));
  }

  lemma SampleReachesNothing(operation: Json, extension: Json)
    requires PREFIX + "A" !in RefStrings(operation)
    ensures var document := Sample(operation, extension);
            Sliceable(document) && Closure(Schemas(document), Refs(Obj(Kept(document, ALL)))) == {}
  {
    hide RefStrings, Refs, SliceOf, Schemas, Sample, Closure, One;
    var document := Sample(operation, extension);
    SampleParts(operation, extension);
    SampleKept(operation, extension);
    KeptHoldsOperation(operation);
    NamesAreRefs(Obj(Kept(document, ALL)), "A");
    ClosureIsLeast(Schemas(document), Refs(Obj(Kept(document, ALL))), {});
  }

  /** A reference into the schema dangles in the slice wherever it stands, unless the operation
      names the schema itself. */
  lemma SampleDangles(operation: Json, extension: Json, ref: string)
    requires ref in RefStrings(operation) || ref in RefStrings(extension)
    requires PREFIX + "A" !in RefStrings(operation)
    requires Lookup(Sample(operation, extension), ref).Some?
    requires ["components", "schemas", "A"] <= Path(ref).value
    ensures SliceOf(Sample(operation, extension), ALL).Some?
    ensures !WholeDocument(Sample(operation, extension), SliceOf(Sample(operation, extension), ALL).value)
  {
    hide SliceOf, WholeDocument, RefStrings, Sample, Kept, Closure, Path, CarriedSchemas, One;
    var document := Sample(operation, extension);
    SampleKept(operation, extension);
    SampleReachesNothing(operation, extension);
    KeptHoldsOperation(operation);
    if ref in RefStrings(extension) { ExtensionIsCopied(operation, extension, ref); }
    var path := Path(ref).value;
    assert path[0] == "components" && path[1] == "schemas" && path[2] == "A";
    assert !Stands(document, ALL, path);
    WholeDocumentIff(document, ALL);
  }

  lemma ExtensionIsCopied(operation: Json, extension: Json, ref: string)
    requires ref in RefStrings(extension)
    ensures Sliceable(Sample(operation, extension)) && ref in Copied(Sample(operation, extension), ALL)
  {
    hide RefStrings, Kept, UsedTags;
    SampleKept(operation, extension);
    var others := Sample(operation, extension).members - {"paths", "tags", "components"};
    assert |"x-error"| == 7 && |"paths"| == 5 && |"tags"| == 4 && |"components"| == 10;
    assert MemberHolds(others, "x-error", ref);
    RefStringsOfObj(others, ref);
  }

  function RefTo(name: string): Json {
    One("$ref", Str(PREFIX + name))
  }

  /** An extension that names a schema no operation reaches: a slice copies the extension and drops
      the schema. */
  lemma ExtensionCanDangle()
    ensures var document := Sample(Null, RefTo("A"));
            SliceOf(document, ALL).Some? && !WholeDocument(document, SliceOf(document, ALL).value)
  {
    hide SliceOf, WholeDocument, Sample, Lookup, Path, Schemas;
    assert RefStrings(Null) == {};
    SampleParts(Null, RefTo("A"));
    NameLeads(Sample(Null, RefTo("A")), "A");
    SampleDangles(Null, RefTo("A"), PREFIX + "A");
  }

  /** An operation whose body is described by a part of the schema. */
  function Deep(): Json {
    One("requestBody", One("content", One("application/json", One("schema", RefTo("A/properties/x")))))
  }

  /** Its reference reads as a name that is not registered, so it is not followed. */
  lemma DeeperReferenceCanDangle()
    ensures var document := Sample(Deep(), Null);
            SliceOf(document, ALL).Some? && !WholeDocument(document, SliceOf(document, ALL).value)
  {
    hide SliceOf, WholeDocument, Sample, Schemas, Deep, At;
    var ref := PREFIX + "A/properties/x";
    SampleParts(Deep(), Null);
    DeepHolds();
    assert |PREFIX + "A"| < |ref|;
    DeepPath();
    DeepPlace(Sample(Deep(), Null));
    SampleDangles(Deep(), Null, ref);
  }

  lemma DeepHolds()
    ensures RefStrings(Deep()) == {PREFIX + "A/properties/x"}
  {
    var schema := RefTo("A/properties/x");
    assert RefStrings(schema) == {PREFIX + "A/properties/x"};
    hide RefStrings, One, RefTo;
    OneHolds("schema", schema);
    OneHolds("application/json", One("schema", schema));
    OneHolds("content", One("application/json", One("schema", schema)));
    assert "requestBody"[0] == 'r';
    OneHolds("requestBody", One("content", One("application/json", One("schema", schema))));
  }

  lemma DeepPath()
    ensures Path(PREFIX + "A/properties/x") == Some(["components", "schemas", "A", "properties", "x"])
  {
    hide Tokens, Path;
    var inner := "properties" + "/" + "x";
    NamePath("A/properties/x");
    assert "A/properties/x" == "A" + "/" + inner;
    TokenInFront("A", inner);
    TokenInFront("properties", "x");
    TokenInFront("x", "");
    assert ["components", "schemas"] + (["A"] + (["properties"] + ["x"]))
           == ["components", "schemas", "A", "properties", "x"];
  }

  lemma DeepPlace(document: Json)
    requires Schemas(document) == map["A" := SCHEMA]
    ensures At(document, ["components", "schemas", "A", "properties", "x"]) == Some(Null)
  {
    hide At;
    var path := ["components", "schemas", "A", "properties", "x"];
    assert "A" in Schemas(document);
    assert path[1..] == ["schemas", "A", "properties", "x"] && path[1..][1..] == ["A", "properties", "x"];
    assert ["A", "properties", "x"][1..] == ["properties", "x"] && ["properties", "x"][1..] == ["x"];
    assert ["x"][1..] == [];
    FirstStep(document.members, path);
    FirstStep(Get(document, "components").members, path[1..]);
    FirstStep(Schemas(document), ["A", "properties", "x"]);
    FirstStep(SCHEMA.members, ["properties", "x"]);
    FirstStep(One("x", Null).members, ["x"]);
    AtEnd(Null, []);
  }
}
