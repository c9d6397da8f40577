/**
 * The schema builder of script.js: handleObject, handleArray and
 * convertToSchema. It walks a normalised shape and produces an Ajv schema:
 * {type: "object", properties, required} for an object,
 * {type: "array", items} for an array and {type: value} for a leaf.
 */
module SchemaBuilder {
  import opened Wrappers
  import opened JsonValues
  import opened Normalizer

  /**
   * A schema node. AnySchema is the empty schema {} that an empty array gets
   * as its items; Typed(v) is {type: v}, holding the leaf value as it stands.
   */
  datatype Schema =
    | ObjectSchema(properties: Entries<Schema>, required: seq<string>)
    | ArraySchema(items: Schema)
    | AnySchema
    | Typed(typ: JsonValue)

  /** At every depth, an object schema requires exactly its properties, in their order. */
  predicate RequiredMatches(s: Schema) {
    match s
    case ObjectSchema(props, req) =>
      Keys(props) == req && forall i :: 0 <= i < |props| ==> RequiredMatches(props[i].1)
    case ArraySchema(items) => RequiredMatches(items)
    case _ => true
  }

  /** Every {type: v} node of the schema names a type tag. */
  predicate TagLeaves(s: Schema) {
    match s
    case ObjectSchema(props, _) => forall i :: 0 <= i < |props| ==> TagLeaves(props[i].1)
    case ArraySchema(items) => TagLeaves(items)
    case AnySchema => true
    case Typed(t) => t.JString? && IsTagName(t.str)
  }

  /**
   * The switch on getDataType(value) in handleObject and handleArray: a
   * value tagged "object" or "array" is handed to handleObject or
   * handleArray, any other value v becomes {type: v}.
   */
  function ChildSchema(v: JsonValue): (r: Schema)
    decreases v, 1
    ensures RequiredMatches(r)
    ensures r != AnySchema
    ensures !IsContainer(v) ==> r == Typed(v)
    ensures IsPlainObject(v) ==> r.ObjectSchema? && r.required == Keys(v.members)
    ensures v.JArray? ==> r.ArraySchema?
  {
    var tag := GetDataType(v);
    if tag == TObject then HandleObject(v)
    else if tag == TArray then HandleArray(v)
    else Typed(v)
  }

  /**
   * handleObject: every key is pushed onto `required` in enumeration order
   * and gets the schema of its value under `properties`.
   */
  function HandleObject(obj: JsonValue): (r: Schema)
    requires obj.JObject?
    decreases obj, 0
    ensures r.ObjectSchema?
    ensures r.required == Keys(obj.members) && Keys(r.properties) == r.required
    ensures RequiredMatches(r)
    ensures obj.members == [] ==> r == ObjectSchema([], [])
    ensures DistinctKeys(obj.members) ==> NoDuplicates(r.required)
  {
    var m := obj.members;
    if CountKeys(m) == 0 then ObjectSchema([], [])
    else
      var props := seq(|m|, i requires 0 <= i < |m| => (m[i].0, ChildSchema(m[i].1)));
      assert Keys(props) == Keys(m);
      ObjectSchema(props, Keys(m))
  }

  /**
   * handleArray: the empty array gets items {}; otherwise items is the
   * schema of the first element.
   */
  function HandleArray(arr: JsonValue): (r: Schema)
    requires arr.JArray?
    decreases arr, 0
    ensures r.ArraySchema? && RequiredMatches(r)
    ensures arr.elems == [] <==> r.items == AnySchema
    ensures arr.elems != [] ==> r.items == ChildSchema(arr.elems[0])
  {
    if |arr.elems| == 0 then ArraySchema(AnySchema)
    else ArraySchema(ChildSchema(arr.elems[0]))
  }

  /** The property schema of each key is the schema of that key's value. */
  lemma PropertyOfKey(obj: JsonValue, i: nat)
    requires obj.JObject? && i < |obj.members| && DistinctKeys(obj.members)
    ensures Lookup(HandleObject(obj).properties, obj.members[i].0) == Some(ChildSchema(obj.members[i].1))
  {
    var props := HandleObject(obj).properties;
    assert Keys(props) == Keys(obj.members);
    assert DistinctKeys(props);
    IndexOfDistinctKey(props, i);
  }

  /** handleObject({}) and handleArray([]). */
  lemma EmptyContainerSchemas()
    ensures HandleObject(JObject([])) == ObjectSchema([], [])
    ensures HandleArray(JArray([])) == ArraySchema(AnySchema)
  {
  }

  /**
   * The normalised shape a schema describes: the schema builder loses
   * nothing of a shape, so ShapeOf undoes it (see BuilderIsLossless).
   */
  function ShapeOf(s: Schema): JsonValue {
    match s
    case ObjectSchema(props, _) =>
      JObject(seq(|props|, i requires 0 <= i < |props| => (props[i].0, ShapeOf(props[i].1))))
    case ArraySchema(items) => if items == AnySchema then JArray([]) else JArray([ShapeOf(items)])
    case AnySchema => JObject([])
    case Typed(t) => t
  }

  lemma {:induction false} BuilderIsLossless(v: JsonValue)
    requires IsShape(v)
    ensures ShapeOf(ChildSchema(v)) == v
    decreases v
  {
    match v
    case JObject(m) =>
      if m != [] {
        forall i | 0 <= i < |m| ensures ShapeOf(ChildSchema(m[i].1)) == m[i].1 {
          BuilderIsLossless(m[i].1);
        }
        assert ShapeOf(ChildSchema(v)).members == m;
      }
    case JArray(a) =>
      if a != [] {
        BuilderIsLossless(a[0]);
        assert a == [a[0]];
      }
    case JString(_) =>
  }

  lemma {:induction false} ShapeSchemaHasTagLeaves(v: JsonValue)
    requires IsShape(v)
    ensures TagLeaves(ChildSchema(v))
    decreases v
  {
    match v
    case JObject(m) =>
      forall i | 0 <= i < |m| ensures TagLeaves(ChildSchema(m[i].1)) {
        ShapeSchemaHasTagLeaves(m[i].1);
      }
    case JArray(a) =>
      if a != [] {
        ShapeSchemaHasTagLeaves(a[0]);
      }
    case JString(_) =>
  }

  /**
   * The inferred schema of a container: it requires exactly the object's
   * keys in their order (without duplicates in a well-formed document),
   * names only type tags and records the normalised shape without loss.
   */
  lemma InferredSchema(v: JsonValue)
    requires IsContainer(v)
    ensures Normalized(v).Some? ==>
              var s := ChildSchema(Normalized(v).value);
              && RequiredMatches(s)
              && TagLeaves(s)
              && ShapeOf(s) == Normalized(v).value
              && (v.JObject? ==> s.required == Keys(v.members))
              && (v.JObject? && WellFormed(v) ==> NoDuplicates(s.required))
  {
    if Normalized(v).Some? {
      ShapeSchemaHasTagLeaves(Normalized(v).value);
      BuilderIsLossless(Normalized(v).value);
    }
  }

  /**
   * The plain object that handleObject and handleArray build, with its
   * members in the order the source assigns them; this is what
   * JSON.stringify serialises.
   */
  function ToJson(s: Schema): (j: JsonValue)
    ensures j.JObject?
    ensures s.ObjectSchema? ==> Lookup(j.members, "type") == Some(JString("object"))
    ensures s.ArraySchema? ==> Lookup(j.members, "type") == Some(JString("array"))
    ensures s.Typed? ==> j.members == [("type", s.typ)]
    ensures s.AnySchema? ==> j.members == []
  {
    match s
    case ObjectSchema(props, req) =>
      JObject([("type", JString("object")),
               ("properties", JObject(seq(|props|, i requires 0 <= i < |props| => (props[i].0, ToJson(props[i].1))))),
               ("required", JArray(seq(|req|, i requires 0 <= i < |req| => JString(req[i]))))])
    case ArraySchema(items) =>
      JObject([("type", JString("array")), ("items", ToJson(items))])
    case AnySchema => JObject([])
    case Typed(t) => JObject([("type", t)])
  }

  /** Reads a schema back from its plain-object form. */
  function FromJson(j: JsonValue): Option<Schema> {
    match j
    case JObject(ms) =>
      if |ms| == 0 then Some(AnySchema)
      else if |ms| == 1 && ms[0].0 == "type" then Some(Typed(ms[0].1))
      else if |ms| == 2 && ms[0] == ("type", JString("array")) && ms[1].0 == "items" then
        match FromJson(ms[1].1)
        case Some(items) => Some(ArraySchema(items))
        case None => None
      else if && |ms| == 3 && ms[0] == ("type", JString("object"))
              && ms[1].0 == "properties" && ms[1].1.JObject?
              && ms[2].0 == "required" && ms[2].1.JArray?
      then
        var ps := ms[1].1.members;
        var rs := ms[2].1.elems;
        if && (forall i :: 0 <= i < |ps| ==> FromJson(ps[i].1).Some?)
           && (forall i :: 0 <= i < |rs| ==> rs[i].JString?)
        then
          Some(ObjectSchema(seq(|ps|, i requires 0 <= i < |ps| => (ps[i].0, FromJson(ps[i].1).value)),
                            seq(|rs|, i requires 0 <= i < |rs| => rs[i].str)))
        else None
      else None
    case _ => None
  }

  lemma {:induction false} ToJsonRoundTrip(s: Schema)
    ensures FromJson(ToJson(s)) == Some(s)
    decreases s
  {
    match s
    case ObjectSchema(props, req) =>
      forall i | 0 <= i < |props| ensures FromJson(ToJson(props[i].1)) == Some(props[i].1) {
        ToJsonRoundTrip(props[i].1);
      }
      var back := FromJson(ToJson(s)).value;
      assert back.properties == props;
      assert back.required == req;
    case ArraySchema(items) =>
      ToJsonRoundTrip(items);
    case AnySchema =>
    case Typed(_) =>
  }

  /**
   * convertToSchema: the serialised schema of an object or array; any other
   * value gets no result. The serialiser JSON.stringify(..., null, 4) is a
   * parameter.
   */
  function ConvertToSchema(data: JsonValue, stringify: JsonValue -> string): (r: Option<string>)
    ensures r.Some? <==> IsContainer(data)
    ensures IsPlainObject(data) ==> r == Some(stringify(ToJson(HandleObject(data))))
    ensures data.JArray? ==> r == Some(stringify(ToJson(HandleArray(data))))
  {
    var tag := GetDataType(data);
    if tag == TObject then Some(stringify(ToJson(HandleObject(data))))
    else if tag == TArray then Some(stringify(ToJson(HandleArray(data))))
    else None
  }

  /**
   * The key that a plain JavaScript object treats specially: assigning to
   * o["__proto__"] on an object without an own property of that name calls
   * the inherited setter, which replaces the prototype and adds no property.
   */
  const ProtoKey := "__proto__"

  /**
   * The own properties left after assigning each entry into a fresh {}:
   * exactly the entries whose key is not "__proto__", in their order (see
   * OwnAssignedAppend).
   */
  function OwnAssigned<V>(m: Entries<V>): (r: Entries<V>)
    ensures |r| <= |m|
    ensures m == [] ==> r == []
    ensures forall i :: 0 <= i < |r| ==> r[i].0 != ProtoKey && r[i] in m
    ensures forall e :: e in m && e.0 != ProtoKey ==> e in r
    ensures (forall i :: 0 <= i < |m| ==> m[i].0 != ProtoKey) ==> r == m
  {
    if m == [] then []
    else if m[0].0 == ProtoKey then OwnAssigned(m[1..])
    else [m[0]] + OwnAssigned(m[1..])
  }

  /** Assigning one more entry appends it, unless its key is "__proto__". */
  lemma {:induction false} OwnAssignedAppend<V>(m: Entries<V>, e: (string, V))
    ensures OwnAssigned(m + [e]) == OwnAssigned(m) + (if e.0 == ProtoKey then [] else [e])
    decreases |m|
  {
    if m == [] {
      assert [] + [e] == [e];
      assert [e][1..] == [];
    } else {
      assert (m + [e])[0] == m[0];
      assert (m + [e])[1..] == m[1..] + [e];
      OwnAssignedAppend(m[1..], e);
    }
  }

  /** Dropping entries keeps every remaining schema free of "__proto__". */
  lemma OwnAssignedProtoFree(w: Entries<Schema>)
    requires forall i :: 0 <= i < |w| ==> ProtoFreeSchema(w[i].1)
    ensures forall i :: 0 <= i < |OwnAssigned(w)| ==> ProtoFreeSchema(OwnAssigned(w)[i].1)
  {
    var r := OwnAssigned(w);
    forall i | 0 <= i < |r| ensures ProtoFreeSchema(r[i].1) {
      assert r[i] in w;
    }
  }

  /** Every entry whose key is not "__proto__" is kept. */
  lemma OwnAssignedKeepsEntries<V>(w: Entries<V>)
    ensures forall i :: 0 <= i < |w| && w[i].0 != ProtoKey ==> w[i] in OwnAssigned(w)
  {
    forall i | 0 <= i < |w| && w[i].0 != ProtoKey ensures w[i] in OwnAssigned(w) {
      assert w[i] in w;
    }
  }

  /** A key missing from the entries is missing from what is kept of them. */
  lemma OwnAssignedMissingKey<V>(w: Entries<V>, key: string)
    requires key !in Keys(w)
    ensures key !in Keys(OwnAssigned(w))
  {
    var r := OwnAssigned(w);
    forall j | 0 <= j < |r| ensures Keys(r)[j] != key {
      assert r[j] in w;
      var k :| 0 <= k < |w| && w[k] == r[j];
      assert Keys(w)[k] == r[j].0;
    }
  }

  /**
   * One step of the assignment loop over entries with distinct keys: the
   * entry at position i is assigned as a new key unless its key is
   * "__proto__", in which case nothing is kept.
   */
  lemma OwnAssignedStep<V>(w: Entries<V>, i: nat)
    requires DistinctKeys(w) && i < |w|
    ensures w[i].0 == ProtoKey ==> OwnAssigned(w[..i + 1]) == OwnAssigned(w[..i])
    ensures w[i].0 != ProtoKey ==>
              OwnAssigned(w[..i + 1]) == Assign(OwnAssigned(w[..i]), w[i].0, w[i].1)
  {
    assert w[..i + 1] == w[..i] + [w[i]];
    OwnAssignedAppend(w[..i], w[i]);
    if w[i].0 != ProtoKey {
      DistinctKeyNotEarlier(w, i);
      OwnAssignedMissingKey(w[..i], w[i].0);
      AssignNewKey(OwnAssigned(w[..i]), w[i].0, w[i].1);
    }
  }

  /** No object anywhere in v has a "__proto__" key. */
  predicate ProtoFree(v: JsonValue) {
    match v
    case JObject(m) => ProtoKey !in Keys(m) && forall i :: 0 <= i < |m| ==> ProtoFree(m[i].1)
    case JArray(a) => forall i :: 0 <= i < |a| ==> ProtoFree(a[i])
    case _ => true
  }

  /** No properties map anywhere in s has a "__proto__" property. */
  predicate ProtoFreeSchema(s: Schema) {
    match s
    case ObjectSchema(props, _) => forall i :: 0 <= i < |props| ==> props[i].0 != ProtoKey && ProtoFreeSchema(props[i].1)
    case ArraySchema(items) => ProtoFreeSchema(items)
    case _ => true
  }

  /**
   * The switch of handleObject and handleArray, built with JavaScript's own
   * semantics for result.properties[key] = ... (see HandleObjectAsWritten).
   */
  function ChildSchemaAsWritten(v: JsonValue): (r: Schema)
    decreases v, 2
    ensures ProtoFreeSchema(r)
    ensures r != AnySchema
    ensures !IsContainer(v) ==> r == Typed(v)
    ensures IsPlainObject(v) ==> r.ObjectSchema? && r.required == Keys(v.members)
    ensures v.JArray? ==> r.ArraySchema?
    ensures ProtoFree(v) ==> r == ChildSchema(v)
  {
    var tag := GetDataType(v);
    if tag == TObject then HandleObjectAsWritten(v)
    else if tag == TArray then HandleArrayAsWritten(v)
    else Typed(v)
  }

  /**
   * The (key, schema) pairs that handleObject assigns, one per entry and in
   * enumeration order, before JavaScript's assignment semantics apply.
   */
  function WrittenEntries(obj: JsonValue): (w: Entries<Schema>)
    requires obj.JObject?
    decreases obj, 0
    ensures |w| == |obj.members| && Keys(w) == Keys(obj.members)
    ensures forall i :: 0 <= i < |w| ==> w[i] == (obj.members[i].0, ChildSchemaAsWritten(obj.members[i].1))
    ensures forall i :: 0 <= i < |w| ==> ProtoFreeSchema(w[i].1)
    ensures ProtoFree(obj) ==> w == HandleObject(obj).properties
    ensures ProtoFree(obj) ==> forall i :: 0 <= i < |w| ==> w[i].0 != ProtoKey
  {
    var m := obj.members;
    var w := seq(|m|, i requires 0 <= i < |m| => (m[i].0, ChildSchemaAsWritten(m[i].1)));
    assert Keys(w) == Keys(m);
    assert ProtoFree(obj) ==> |m| == 0 || w == HandleObject(obj).properties;
    assert ProtoFree(obj) ==> forall i :: 0 <= i < |w| ==> w[i].0 != ProtoKey by {
      if ProtoFree(obj) {
        forall i | 0 <= i < |w| ensures w[i].0 != ProtoKey {
          assert Keys(m)[i] == m[i].0;
        }
      }
    }
    w
  }

  /**
   * handleObject as written, with JavaScript's own semantics for the
   * assignment result.properties[key] = ...: a "__proto__" key, at any
   * depth, is pushed onto required but never becomes a property. Without
   * such a key it agrees with HandleObject.
   */
  function HandleObjectAsWritten(obj: JsonValue): (r: Schema)
    requires obj.JObject?
    decreases obj, 1
    ensures r.ObjectSchema? && r.required == Keys(obj.members)
    ensures obj.members == [] ==> r == ObjectSchema([], [])
    ensures ProtoFreeSchema(r)
    ensures forall i :: 0 <= i < |obj.members| && obj.members[i].0 != ProtoKey ==>
              (obj.members[i].0, ChildSchemaAsWritten(obj.members[i].1)) in r.properties
    ensures forall j :: 0 <= j < |r.properties| ==> r.properties[j] in WrittenEntries(obj)
    ensures ProtoFree(obj) ==> r == HandleObject(obj)
  {
    var m := obj.members;
    if CountKeys(m) == 0 then ObjectSchema([], [])
    else
      var written := WrittenEntries(obj);
      var props := OwnAssigned(written);
      OwnAssignedProtoFree(written);
      OwnAssignedKeepsEntries(written);
      ObjectSchema(props, Keys(m))
  }

  /** handleArray as written, over the as-written switch. */
  function HandleArrayAsWritten(arr: JsonValue): (r: Schema)
    requires arr.JArray?
    decreases arr, 1
    ensures r.ArraySchema? && ProtoFreeSchema(r)
    ensures arr.elems == [] <==> r.items == AnySchema
    ensures arr.elems != [] ==> r.items == ChildSchemaAsWritten(arr.elems[0])
    ensures ProtoFree(arr) ==> r == HandleArray(arr)
  {
    if |arr.elems| == 0 then ArraySchema(AnySchema)
    else ArraySchema(ChildSchemaAsWritten(arr.elems[0]))
  }

  /**
   * For {"__proto__": 1}, whose shape is {"__proto__": "integer"}, the schema
   * as written requires a key that it does not describe, while the intended
   * schema describes every required key. The same happens one level down,
   * for {"a": {"__proto__": 1}}.
   */
  lemma ProtoKeyUndescribed()
    ensures var obj := JObject([(ProtoKey, JString("integer"))]);
            && HandleObjectAsWritten(obj).required == [ProtoKey]
            && HandleObjectAsWritten(obj).properties == []
            && !RequiredMatches(HandleObjectAsWritten(obj))
            && RequiredMatches(HandleObject(obj))
            && HandleObject(obj).properties == [(ProtoKey, Typed(JString("integer")))]
    ensures var outer := JObject([("a", JObject([(ProtoKey, JString("integer"))]))]);
            && HandleObjectAsWritten(outer).properties == [("a", ObjectSchema([], [ProtoKey]))]
            && !RequiredMatches(HandleObjectAsWritten(outer))
            && RequiredMatches(HandleObject(outer))
  {
    var obj := JObject([(ProtoKey, JString("integer"))]);
    assert Keys(obj.members) == [ProtoKey];
    var s := HandleObject(obj);
    assert s.properties[0] == (ProtoKey, Typed(JString("integer")));
    var w := HandleObjectAsWritten(obj);
    assert w.properties == [];
    var outer := JObject([("a", obj)]);
    assert Keys(outer.members) == ["a"];
    assert ChildSchemaAsWritten(obj) == w;
    var wo := HandleObjectAsWritten(outer);
    assert wo.properties == [("a", w)];
  }

  /**
   * The properties handleObject holds once the first i entries are
   * assigned: each entry is assigned in turn, except that assigning a
   * "__proto__" key changes no property. With distinct keys this is what
   * is kept of the first i written entries.
   */
  function AssignedPrefix(obj: JsonValue, i: nat): (r: Entries<Schema>)
    requires obj.JObject? && i <= |obj.members|
    decreases i
    ensures i == 0 ==> r == []
    ensures DistinctKeys(obj.members) ==> r == OwnAssigned(WrittenEntries(obj)[..i])
  {
    if i == 0 then []
    else
      var p := AssignedPrefix(obj, i - 1);
      var (key, value) := obj.members[i - 1];
      assert DistinctKeys(obj.members) ==> DistinctKeys(WrittenEntries(obj));
      if key == ProtoKey then
        assert DistinctKeys(obj.members) ==> p == OwnAssigned(WrittenEntries(obj)[..i]) by {
          if DistinctKeys(obj.members) {
            OwnAssignedStep(WrittenEntries(obj), i - 1);
          }
        }
        p
      else
        var q := Assign(p, key, ChildSchemaAsWritten(value));
        assert DistinctKeys(obj.members) ==> q == OwnAssigned(WrittenEntries(obj)[..i]) by {
          if DistinctKeys(obj.members) {
            OwnAssignedStep(WrittenEntries(obj), i - 1);
          }
        }
        q
  }

  /** With distinct keys, assigning every entry gives the properties as written. */
  lemma AssignedPrefixComplete(obj: JsonValue)
    requires obj.JObject? && DistinctKeys(obj.members) && obj.members != []
    ensures AssignedPrefix(obj, |obj.members|) == HandleObjectAsWritten(obj).properties
  {
    var w := WrittenEntries(obj);
    assert w[..|w|] == w;
  }

  /**
   * handleObject as the source runs it: a loop over the entries that pushes
   * each key onto `required` and assigns its schema into `properties`. The
   * assignment of a "__proto__" key calls the inherited setter and adds no
   * property, so the loop builds the schema as written.
   */
  method ComputeObjectSchema(obj: JsonValue) returns (r: Schema)
    requires obj.JObject?
    ensures r.ObjectSchema? && r.required == Keys(obj.members)
    ensures r.properties == AssignedPrefix(obj, |obj.members|)
    ensures DistinctKeys(obj.members) ==> r == HandleObjectAsWritten(obj)
  {
    var m := obj.members;
    var properties: Entries<Schema> := [];
    var required: seq<string> := [];
    if CountKeys(m) == 0 {
      return ObjectSchema(properties, required);
    }
    for i := 0 to |m|
      invariant required == Keys(m[..i])
      invariant properties == AssignedPrefix(obj, i)
    {
      var (key, value) := m[i];
      var schema := ChildSchemaAsWritten(value);
      if key != ProtoKey {
        properties := Assign(properties, key, schema);
      }
      KeysOfPrefix(m, i);
      required := required + [key];
    }
    assert m[..|m|] == m;
    if DistinctKeys(m) {
      AssignedPrefixComplete(obj);
    }
    r := ObjectSchema(properties, required);
  }

}
