/**
 * The shape normaliser of script.js: preprocessData, preprocessObject and
 * preprocessArray. Every leaf becomes the name of its type tag, containers
 * are walked recursively and a non-empty array keeps only (the shape of)
 * its first element.
 */
module Normalizer {
  import opened Wrappers
  import opened JsonValues

  /**
   * A normalised shape: every leaf is a tag name string, every object is
   * one that getDataType calls "object" and every array has at most one
   * element.
   */
  predicate IsShape(v: JsonValue) {
    match v
    case JObject(m) => IsPlainObject(v) && forall i :: 0 <= i < |m| ==> IsShape(m[i].1)
    case JArray(a) => |a| <= 1 && forall i :: 0 <= i < |a| ==> IsShape(a[i])
    case JString(s) => IsTagName(s)
    case _ => false
  }

  /**
   * What the switch on getDataType(value) in preprocessObject writes in the
   * place of `value` (obj[key] = ...): an object or array is normalised
   * recursively, a leaf becomes its tag name. None when the source throws
   * instead: the "unknown" branch logs through `prefix`, which is not in
   * scope there, so reaching it raises a ReferenceError.
   */
  function Normalized(v: JsonValue): (r: Option<JsonValue>)
    decreases v, 1
    ensures r.Some? ==> IsShape(r.value)
    ensures GetDataType(v) == TUnknown ==> r == None
    ensures !v.JObject? && !v.JArray? ==>
              r.Some? && r.value.JString? && TagFromName(r.value.str) == Some(GetDataType(v))
    ensures r.Some? ==> (r.value.JObject? <==> v.JObject?) && (r.value.JArray? <==> v.JArray?)
    ensures r.Some? && v.JObject? ==> Keys(r.value.members) == Keys(v.members)
    ensures r.Some? && v.JArray? ==> |r.value.elems| == (if v.elems == [] then 0 else 1)
    ensures r.Some? && WellFormed(v) ==> WellFormed(r.value)
  {
    var tag := GetDataType(v);
    if tag == TObject then PreprocessObject(v)
    else if tag == TArray then PreprocessArray(v)
    else if tag == TUnknown then None
    else Some(JString(TagName(tag)))
  }

  /**
   * preprocessObject: the empty object is returned as it is; otherwise each
   * key keeps its place and its value is replaced by its normalised value.
   * It throws exactly when normalising one of the values throws.
   */
  function PreprocessObject(obj: JsonValue): (r: Option<JsonValue>)
    requires obj.JObject?
    decreases obj, 0
    ensures obj.members == [] ==> r == Some(obj)
    ensures r.None? <==> exists i :: 0 <= i < |obj.members| && Normalized(obj.members[i].1).None?
    ensures r.Some? ==> r.value.JObject? && Keys(r.value.members) == Keys(obj.members)
    ensures r.Some? ==> forall i :: 0 <= i < |r.value.members| ==> IsShape(r.value.members[i].1)
    ensures r.Some? && DistinctKeys(obj.members) ==> DistinctKeys(r.value.members)
    ensures r.Some? && WellFormed(obj) ==> WellFormed(r.value)
  {
    var m := obj.members;
    if CountKeys(m) == 0 then Some(obj)
    else if exists i :: 0 <= i < |m| && Normalized(m[i].1).None? then None
    else
      var r := JObject(seq(|m|, i requires 0 <= i < |m| => (m[i].0, Normalized(m[i].1).value)));
      assert Keys(r.members) == Keys(m);
      Some(r)
  }

  /**
   * preprocessArray: the empty array is returned as it is; otherwise the
   * result is the one-element array holding the normalised first element.
   * Its switch differs from preprocessObject's in the default branch: a
   * first element tagged "unknown" is pushed as the string "unknown".
   */
  function PreprocessArray(arr: JsonValue): (r: Option<JsonValue>)
    requires arr.JArray?
    decreases arr, 0
    ensures arr.elems == [] ==> r == Some(arr)
    ensures arr.elems != [] && GetDataType(arr.elems[0]) == TUnknown ==> r == Some(JArray([JString("unknown")]))
    ensures arr.elems != [] && GetDataType(arr.elems[0]) != TUnknown ==>
              && (r.Some? <==> Normalized(arr.elems[0]).Some?)
              && (r.Some? ==> r.value == JArray([Normalized(arr.elems[0]).value]))
    ensures r.Some? ==> r.value.JArray? && |r.value.elems| == (if arr.elems == [] then 0 else 1)
    ensures r.Some? ==> forall i :: 0 <= i < |r.value.elems| ==> IsShape(r.value.elems[i])
    ensures r.Some? && WellFormed(arr) ==> WellFormed(r.value)
  {
    var a := arr.elems;
    if |a| == 0 then Some(arr)
    else
      var tag := GetDataType(a[0]);
      if tag == TObject || tag == TArray then
        match Normalized(a[0])
        case None => None
        case Some(item) => Some(JArray([item]))
      else Some(JArray([JString(TagName(tag))]))
  }

  /**
   * Why preprocessData yields no shape: its switch has no case for a
   * value that is neither object nor array (it returns undefined), or the
   * normaliser threw.
   */
  datatype NoShape = Undefined | Thrown

  /** preprocessData: dispatches objects and arrays on their tag. */
  function PreprocessData(v: JsonValue): (r: Result<JsonValue, NoShape>)
    ensures r == Failure(Undefined) <==> !IsContainer(v)
    ensures r == Failure(Thrown) <==> IsContainer(v) && Normalized(v).None?
    ensures r.Success? ==> Normalized(v) == Some(r.value) && IsShape(r.value)
  {
    var tag := GetDataType(v);
    var shape := if tag == TObject then PreprocessObject(v)
                 else if tag == TArray then PreprocessArray(v)
                 else None;
    if tag != TObject && tag != TArray then Failure(Undefined)
    else if shape.None? then Failure(Thrown)
    else Success(shape.value)
  }

  /** The entry that replaces an object entry: same key, normalised value. */
  lemma ObjectEntryReplaced(obj: JsonValue, i: nat)
    requires obj.JObject? && i < |obj.members|
    ensures Normalized(obj.members[i].1).None? ==> PreprocessObject(obj) == None
    ensures PreprocessObject(obj).Some? ==>
              PreprocessObject(obj).value.members[i] == (obj.members[i].0, Normalized(obj.members[i].1).value)
  {
  }

  /**
   * A null value is stringified ("null"), not dropped, and each leaf kind
   * yields its own tag name.
   */
  lemma LeafTags(text: string, s: string, b: bool)
    ensures Normalized(JNull) == Some(JString("null"))
    ensures Normalized(JString(s)) == Some(JString("string"))
    ensures Normalized(JBool(b)) == Some(JString("boolean"))
    ensures Normalized(JNumber(text)) == Some(JString(if '.' in text then "number" else "integer"))
  {
  }

  /** The normalised array depends only on the first element: [0, "zero"] gives ["integer"]. */
  lemma ArrayShapeDependsOnHeadOnly(a: JsonValue, b: JsonValue)
    requires a.JArray? && b.JArray? && a.elems != [] && b.elems != []
    requires a.elems[0] == b.elems[0]
    ensures PreprocessArray(a) == PreprocessArray(b)
    ensures PreprocessArray(JArray([JNumber("0"), JString("zero")])) == Some(JArray([JString("integer")]))
  {
  }

  /** Empty containers are fixed points. */
  lemma EmptyContainersFixed()
    ensures PreprocessData(JObject([])) == Success(JObject([]))
    ensures PreprocessData(JArray([])) == Success(JArray([]))
  {
  }

  /**
   * An object with an own "constructor" entry: as the value of a key it
   * makes the normaliser throw, also inside an array's first element; as
   * the first element of an array it becomes "unknown".
   */
  lemma ConstructorEntry(tail: seq<JsonValue>)
    ensures var odd := JObject([(ConstructorKey, JNumber("1"))]);
            && Normalized(JObject([("a", odd)])) == None
            && Normalized(JArray([JObject([("a", odd)])] + tail)) == None
            && PreprocessArray(JArray([odd] + tail)) == Some(JArray([JString("unknown")]))
  {
    var odd := JObject([(ConstructorKey, JNumber("1"))]);
    assert Keys(odd.members) == [ConstructorKey];
    var outer := JObject([("a", odd)]);
    assert Keys(outer.members) == ["a"];
    assert Normalized(outer.members[0].1).None?;
    assert Normalized(outer) == None;
    assert JArray([outer] + tail).elems[0] == outer;
    assert JArray([odd] + tail).elems[0] == odd;
  }

  /**
   * The normaliser is not idempotent: normalising a shape again turns every
   * tag name into "string".
   */
  lemma {:induction false} RenormalizingShape(v: JsonValue)
    requires IsShape(v)
    ensures v.JString? ==> Normalized(v) == Some(JString("string"))
    ensures Normalized(v) == Some(Restring(v))
    decreases v
  {
    match v
    case JObject(m) =>
      if m != [] {
        forall i | 0 <= i < |m| ensures Normalized(m[i].1) == Some(Restring(m[i].1)) {
          RenormalizingShape(m[i].1);
        }
        var once := PreprocessObject(v).value;
        forall i | 0 <= i < |m| ensures once.members[i] == Restring(v).members[i] {
          ObjectEntryReplaced(v, i);
        }
        assert once.members == Restring(v).members;
      }
    case JArray(a) =>
      if a != [] {
        RenormalizingShape(a[0]);
        assert GetDataType(a[0]) != TUnknown;
        assert Restring(v) == JArray([Restring(a[0])]);
      } else {
        assert Restring(v) == JArray([]);
      }
    case JString(_) =>
  }

  /** A shape with every tag name replaced by "string". */
  function Restring(v: JsonValue): JsonValue {
    match v
    case JObject(m) => JObject(seq(|m|, i requires 0 <= i < |m| => (m[i].0, Restring(m[i].1))))
    case JArray(a) => JArray(seq(|a|, i requires 0 <= i < |a| => Restring(a[i])))
    case _ => JString("string")
  }

  lemma NotIdempotent()
    ensures var once := PreprocessData(JObject([("a", JNumber("1"))]));
            && once == Success(JObject([("a", JString("integer"))]))
            && PreprocessData(once.value) == Success(JObject([("a", JString("string"))]))
  {
    var doc := JObject([("a", JNumber("1"))]);
    assert Keys(doc.members) == ["a"];
    var first := PreprocessObject(doc).value;
    assert first.members[0] == ("a", JString("integer"));
    assert first == JObject([("a", JString("integer"))]);
    var second := PreprocessObject(first).value;
    assert second.members[0] == ("a", JString("string"));
    assert second == JObject([("a", JString("string"))]);
  }

  /**
   * A JavaScript object whose entries preprocessObject overwrites in place.
   * Nested containers are values here, so only the top-level object is a
   * mutable entity; Valid() is the JavaScript guarantee that keys are unique.
   */
  class JsObject {
    var entries: Entries<JsonValue>

    ghost predicate Valid()
      reads this
    {
      DistinctKeys(entries)
    }

    constructor (members: Entries<JsonValue>)
      requires DistinctKeys(members)
      ensures Valid() && entries == members
    {
      entries := members;
    }

    /** obj[key] = value */
    method Set(key: string, value: JsonValue)
      requires Valid()
      modifies this
      ensures Valid() && entries == Assign(old(entries), key, value)
    {
      entries := Assign(entries, key, value);
    }

    /**
     * preprocessObject(obj) as the source runs it: iterate over a snapshot of
     * Object.entries(obj) and overwrite each key with its normalised value.
     * When normalising a value throws, the loop stops there: the entries
     * before it have been overwritten, that one and the later ones have not.
     */
    method Preprocess() returns (thrown: bool)
      requires Valid()
      modifies this
      ensures Valid()
      ensures thrown <==> PreprocessObject(JObject(old(entries))).None?
      ensures !thrown ==> JObject(entries) == PreprocessObject(JObject(old(entries))).value
      ensures thrown ==> |entries| == |old(entries)| && exists k :: 0 <= k < |entries| && Stopped(old(entries), entries, k)
    {
      thrown := false;
      if CountKeys(entries) == 0 {
        return;
      }
      var snapshot := entries;
      for i := 0 to |snapshot|
        invariant Valid()
        invariant |entries| == |snapshot|
        invariant Keys(entries) == Keys(snapshot)
        invariant forall j :: 0 <= j < i ==> Normalized(snapshot[j].1).Some?
        invariant forall j :: 0 <= j < i ==> entries[j] == (snapshot[j].0, Normalized(snapshot[j].1).value)
        invariant forall j :: i <= j < |snapshot| ==> entries[j] == snapshot[j]
      {
        var (key, value) := snapshot[i];
        var normal := Normalized(value);
        if normal.None? {
          assert Stopped(snapshot, entries, i);
          return true;
        }
        assert entries[i].0 == key;
        AssignExistingKey(entries, i, normal.value);
        Set(key, normal.value);
      }
      assert entries == PreprocessObject(JObject(snapshot)).value.members;
    }
  }

  /**
   * `after` is `before` with the entries before position k normalised and
   * the rest untouched, the value at k being one whose normalisation throws.
   */
  ghost predicate Stopped(before: Entries<JsonValue>, after: Entries<JsonValue>, k: nat) {
    && |after| == |before| && k < |before|
    && Normalized(before[k].1).None?
    && (forall j :: 0 <= j < k ==> Normalized(before[j].1).Some? && after[j] == (before[j].0, Normalized(before[j].1).value))
    && (forall j :: k <= j < |before| ==> after[j] == before[j])
  }
}
