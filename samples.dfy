/**
 * Worked examples on concrete documents: the integer/number split, the
 * field schemas of a request body, rejected top-level values and objects
 * with an own "constructor" entry.
 */
module Samples {
  import opened Wrappers
  import opened JsonValues
  import opened Normalizer
  import opened SchemaBuilder
  import opened Convert

  /** {"a": 7, "b": 7.0, "c": 7.5}; JSON.parse renders 7.0 back as "7". */
  lemma IntegerNumberSplit()
    ensures Normalized(JObject([("a", JNumber("7")), ("b", JNumber("7")), ("c", JNumber("7.5"))]))
            == Some(JObject([("a", JString("integer")), ("b", JString("integer")), ("c", JString("number"))]))
  {
    var doc := JObject([("a", JNumber("7")), ("b", JNumber("7")), ("c", JNumber("7.5"))]);
    assert Keys(doc.members) == ["a", "b", "c"];
    assert GetDataType(doc) == TObject;
    IntegerNumberEntries();
  }

  /** The entries of the same document, each replaced by the tag of its number. */
  lemma IntegerNumberEntries()
    ensures PreprocessObject(JObject([("a", JNumber("7")), ("b", JNumber("7")), ("c", JNumber("7.5"))]))
            == Some(JObject([("a", JString("integer")), ("b", JString("integer")), ("c", JString("number"))]))
  {
    var doc := JObject([("a", JNumber("7")), ("b", JNumber("7")), ("c", JNumber("7.5"))]);
    NumberSplitExamples();
    var integer := Normalized(JNumber("7"));
    var number := Normalized(JNumber("7.5"));
    assert integer == Some(JString("integer"));
    assert number == Some(JString("number"));
    forall i | 0 <= i < 3 ensures Normalized(doc.members[i].1).Some? {
      assert doc.members[i].1 == (if i < 2 then JNumber("7") else JNumber("7.5"));
    }
    var r := PreprocessObject(doc).value;
    assert |r.members| == |Keys(r.members)| == |Keys(doc.members)| == 3;
    ObjectEntryReplaced(doc, 0);
    ObjectEntryReplaced(doc, 1);
    ObjectEntryReplaced(doc, 2);
    assert r.members == [("a", integer.value), ("b", integer.value), ("c", number.value)];
  }

  /** A top-level string parses but is refused, so handleConvert writes nothing. */
  lemma TopLevelStringRefused(parse: string -> Result<JsonValue, string>, stringify: JsonValue -> string)
    requires parse("\"hello\"") == Success(JString("hello"))
    ensures LoadJson("\"hello\"", parse) == Failure(UnsupportedTopLevel)
    ensures HandleConvert("\"hello\"", parse, stringify) == None
  {
  }

  /** {"constructor": 1} is tagged "unknown", so loadJson refuses it. */
  lemma ConstructorObjectRefused(parse: string -> Result<JsonValue, string>, stringify: JsonValue -> string)
    requires parse("{\"constructor\": 1}") == Success(JObject([(ConstructorKey, JNumber("1"))]))
    ensures LoadJson("{\"constructor\": 1}", parse) == Failure(UnsupportedTopLevel)
    ensures HandleConvert("{\"constructor\": 1}", parse, stringify) == None
  {
    assert Keys([(ConstructorKey, JNumber("1"))]) == [ConstructorKey];
  }

  /**
   * {"a": {"constructor": 1}} is accepted, but normalising it reaches the
   * "unknown" branch of preprocessObject and throws, so nothing is written.
   */
  lemma NestedConstructorThrows(parse: string -> Result<JsonValue, string>, stringify: JsonValue -> string)
    requires parse("{\"a\": {\"constructor\": 1}}")
             == Success(JObject([("a", JObject([(ConstructorKey, JNumber("1"))]))]))
    ensures LoadJson("{\"a\": {\"constructor\": 1}}", parse).Success?
    ensures PreprocessData(JObject([("a", JObject([(ConstructorKey, JNumber("1"))]))])) == Failure(Thrown)
    ensures HandleConvert("{\"a\": {\"constructor\": 1}}", parse, stringify) == None
  {
    ConstructorEntry([]);
    assert Keys([("a", JObject([(ConstructorKey, JNumber("1"))]))]) == ["a"];
  }

  /** [{"constructor": 1}] becomes ["unknown"], whose schema has items {type: "unknown"}. */
  lemma ConstructorFirstItem()
    ensures var doc := JArray([JObject([(ConstructorKey, JNumber("1"))])]);
            && PreprocessData(doc) == Success(JArray([JString("unknown")]))
            && ChildSchema(PreprocessData(doc).value) == ArraySchema(Typed(JString("unknown")))
  {
    ConstructorEntry([]);
    assert [JObject([(ConstructorKey, JNumber("1"))])] + [] == [JObject([(ConstructorKey, JNumber("1"))])];
  }

  /**
   * The field schemas of the sample request body, for a field at any
   * position of any object that normalises: a null field (genre) gets type
   * "null", an empty array (comments) gets items {}, an array of strings
   * (sellers, authors) gets items of type "string" and a number with a '.'
   * (price) gets type "number".
   */
  lemma FieldSchemas(obj: JsonValue, i: nat)
    requires obj.JObject? && i < |obj.members|
    ensures Normalized(obj).Some? ==>
              var (key, value) := obj.members[i];
              var field := HandleObject(Normalized(obj).value).properties[i];
              && field.0 == key
              && (value == JNull ==> field.1 == Typed(JString("null")))
              && (value == JArray([]) ==> field.1 == ArraySchema(AnySchema))
              && (value.JArray? && value.elems != [] && value.elems[0].JString? ==>
                    field.1 == ArraySchema(Typed(JString("string"))))
              && (value.JNumber? && '.' in value.rendered ==> field.1 == Typed(JString("number")))
  {
    if Normalized(obj).Some? {
      ObjectEntryReplaced(obj, i);
    }
  }
}
