/**
 * Decoded JSON documents and the type classifier `getDataType` of script.js,
 * together with the object operations the inferencer relies on
 * (Object.keys, property lookup and property assignment).
 */
module JsonValues {
  import opened Wrappers

  /**
   * A value as JSON.parse returns it. A number is represented by the text
   * that String(n) renders for it (so the literal 7.0 is JNumber("7")),
   * which is all the classifier looks at. An object is its list of
   * (key, value) entries in enumeration order.
   */
  datatype JsonValue =
    | JNull
    | JBool(b: bool)
    | JNumber(rendered: string)
    | JString(str: string)
    | JObject(members: Entries<JsonValue>)
    | JArray(elems: seq<JsonValue>)

  /** The entries of a JavaScript object, in enumeration order. */
  type Entries<V> = seq<(string, V)>

  /**
   * The key whose own property hides Object.prototype.constructor: JSON.parse
   * creates it like any other key, so `data.constructor === Object` fails for
   * an object that has it.
   */
  const ConstructorKey := "constructor"

  /** An object that getDataType calls "object": one without an own "constructor". */
  predicate IsPlainObject(v: JsonValue) {
    v.JObject? && ConstructorKey !in Keys(v.members)
  }

  /** A value that getDataType classifies as "object" or "array". */
  predicate IsContainer(v: JsonValue) {
    IsPlainObject(v) || v.JArray?
  }

  /** Object.keys: the keys of the entries, in order. */
  function Keys<V>(m: Entries<V>): seq<string> {
    seq(|m|, i requires 0 <= i < |m| => m[i].0)
  }

  function KeySet<V>(m: Entries<V>): set<string> {
    set i | 0 <= i < |m| :: m[i].0
  }

  predicate NoDuplicates(s: seq<string>) {
    forall i, j :: 0 <= i < j < |s| ==> s[i] != s[j]
  }

  /** A JavaScript object never holds the same key twice. */
  predicate DistinctKeys<V>(m: Entries<V>) {
    NoDuplicates(Keys(m))
  }

  /** Every object anywhere inside `v` has distinct keys, as JSON.parse guarantees. */
  predicate WellFormed(v: JsonValue) {
    match v
    case JObject(m) => DistinctKeys(m) && forall i :: 0 <= i < |m| ==> WellFormed(m[i].1)
    case JArray(a) => forall i :: 0 <= i < |a| ==> WellFormed(a[i])
    case _ => true
  }

  /** String.prototype.indexOf / Array.prototype.indexOf: the first position of `x`, or -1. */
  function IndexOf<T(==)>(s: seq<T>, x: T): (r: int)
    ensures -1 <= r < |s|
    ensures r == -1 ==> forall i :: 0 <= i < |s| ==> s[i] != x
    ensures 0 <= r ==> s[r] == x
    ensures forall i :: 0 <= i < r ==> s[i] != x
  {
    if s == [] then -1
    else if s[0] == x then 0
    else
      var k := IndexOf(s[1..], x);
      if k == -1 then -1 else k + 1
  }

  /** The first occurrence is the only position of `x` that has no earlier `x`. */
  lemma IndexOfFirst<T>(s: seq<T>, x: T, j: nat)
    requires j < |s| && s[j] == x && forall i :: 0 <= i < j ==> s[i] != x
    ensures IndexOf(s, x) == j
  {
  }

  /** In an object with distinct keys, the key at position i is found at position i. */
  lemma IndexOfDistinctKey<V>(m: Entries<V>, i: nat)
    requires DistinctKeys(m) && i < |m|
    ensures IndexOf(Keys(m), m[i].0) == i
  {
    var ks := Keys(m);
    forall j | 0 <= j < i ensures ks[j] != m[i].0 {
      assert ks[j] != ks[i];
    }
    IndexOfFirst(ks, m[i].0, i);
  }

  /** The keys of the first i + 1 entries extend those of the first i by one. */
  lemma KeysOfPrefix<V>(m: Entries<V>, i: nat)
    requires i < |m|
    ensures Keys(m[..i + 1]) == Keys(m[..i]) + [m[i].0]
  {
  }

  /** In an object with distinct keys, no earlier entry has the key at position i. */
  lemma DistinctKeyNotEarlier<V>(m: Entries<V>, i: nat)
    requires DistinctKeys(m) && i < |m|
    ensures m[i].0 !in Keys(m[..i])
  {
    forall j | 0 <= j < i ensures Keys(m[..i])[j] != m[i].0 {
      assert Keys(m)[j] != Keys(m)[i];
    }
  }

  lemma {:induction false} DistinctKeysCardinality<V>(m: Entries<V>)
    requires DistinctKeys(m)
    ensures |KeySet(m)| == |m|
  {
    if m != [] {
      var tail := m[1..];
      assert Keys(tail) == Keys(m)[1..];
      DistinctKeysCardinality(tail);
      assert KeySet(m) == {m[0].0} + KeySet(tail) by {
        forall k | k in KeySet(m) ensures k in {m[0].0} + KeySet(tail) {
          var i :| 0 <= i < |m| && m[i].0 == k;
          if i > 0 { assert tail[i - 1].0 == k; }
        }
      }
      assert m[0].0 !in KeySet(tail) by {
        forall i | 0 <= i < |tail| ensures tail[i].0 != m[0].0 {
          assert Keys(m)[0] != Keys(m)[i + 1];
        }
      }
    }
  }

  /**
   * countKeys: Object.keys(obj).length, one per entry, so zero exactly for
   * the empty object (and, by DistinctKeysCardinality, the number of
   * different keys).
   */
  function CountKeys<V>(m: Entries<V>): (n: nat)
    ensures n == |m|
    ensures n == 0 <==> m == []
  {
    |m|
  }

  /**
   * Reading obj[key]: the value of an entry with that key, if any; in an
   * object with distinct keys, the value of the one entry with that key.
   */
  function Lookup<V>(m: Entries<V>, key: string): (r: Option<V>)
    ensures r.Some? <==> key in Keys(m)
    ensures r.Some? ==> exists i :: 0 <= i < |m| && m[i] == (key, r.value)
    ensures DistinctKeys(m) ==> forall i :: 0 <= i < |m| && m[i].0 == key ==> r == Some(m[i].1)
  {
    var ks := Keys(m);
    var i := IndexOf(ks, key);
    assert forall j :: 0 <= j < |m| ==> ks[j] == m[j].0;
    if i < 0 then None else Some(m[i].1)
  }

  /**
   * The assignment obj[key] = value on a plain object: an existing key keeps
   * its place and gets the new value, a new key is appended at the end.
   */
  function Assign<V>(m: Entries<V>, key: string, value: V): (r: Entries<V>)
    ensures key in Keys(m) ==> Keys(r) == Keys(m)
    ensures key !in Keys(m) ==> Keys(r) == Keys(m) + [key]
    ensures Lookup(r, key) == Some(value)
    ensures forall k :: k != key ==> Lookup(r, k) == Lookup(m, k)
    ensures DistinctKeys(m) ==> DistinctKeys(r)
  {
    var i := IndexOf(Keys(m), key);
    if i < 0 then
      var r := m + [(key, value)];
      assert Keys(r) == Keys(m) + [key];
      IndexOfFirst(Keys(r), key, |m|);
      AppendKeepsLookup(m, key, value);
      r
    else
      var r := m[i := (key, value)];
      assert Keys(r) == Keys(m);
      r
  }

  /** Assigning a key the object does not have appends an entry. */
  lemma AssignNewKey<V>(m: Entries<V>, key: string, value: V)
    requires key !in Keys(m)
    ensures Assign(m, key, value) == m + [(key, value)]
  {
  }

  /** Assigning an existing key overwrites its entry in place. */
  lemma AssignExistingKey<V>(m: Entries<V>, i: nat, value: V)
    requires DistinctKeys(m) && i < |m|
    ensures Assign(m, m[i].0, value) == m[i := (m[i].0, value)]
  {
    IndexOfDistinctKey(m, i);
  }

  lemma AppendKeepsLookup<V>(m: Entries<V>, key: string, value: V)
    requires key !in Keys(m)
    ensures forall k :: k != key ==> Lookup(m + [(key, value)], k) == Lookup(m, k)
  {
    var r := m + [(key, value)];
    assert Keys(r) == Keys(m) + [key];
    forall k | k != key ensures Lookup(r, k) == Lookup(m, k) {
      var j := IndexOf(Keys(m), k);
      if j >= 0 {
        IndexOfFirst(Keys(r), k, j);
      } else {
        assert forall i :: 0 <= i < |Keys(r)| ==> Keys(r)[i] != k;
      }
    }
  }

  /** The type tags `getDataType` returns. */
  datatype TypeTag = TNull | TObject | TArray | TString | TInteger | TNumber | TBoolean | TUnknown

  /** The tag as the string the normaliser writes into the shape. */
  function TagName(t: TypeTag): string {
    match t
    case TNull => "null"
    case TObject => "object"
    case TArray => "array"
    case TString => "string"
    case TInteger => "integer"
    case TNumber => "number"
    case TBoolean => "boolean"
    case TUnknown => "unknown"
  }

  predicate IsTagName(s: string) {
    s in {"null", "object", "array", "string", "integer", "number", "boolean", "unknown"}
  }

  /** Reads a tag back from its name; TagName is therefore injective. */
  function TagFromName(s: string): (t: Option<TypeTag>)
    ensures t.Some? <==> IsTagName(s)
    ensures t.Some? ==> TagName(t.value) == s
    ensures forall tag :: TagName(tag) == s ==> t == Some(tag)
  {
    if s == "null" then Some(TNull)
    else if s == "object" then Some(TObject)
    else if s == "array" then Some(TArray)
    else if s == "string" then Some(TString)
    else if s == "integer" then Some(TInteger)
    else if s == "number" then Some(TNumber)
    else if s == "boolean" then Some(TBoolean)
    else if s == "unknown" then Some(TUnknown)
    else None
  }

  /**
   * getDataType. An object is "object" when reading its `constructor` finds
   * Object, that is when it has no own "constructor" entry; with one, neither
   * constructor test holds and typeof is "object", so it falls through to
   * "unknown". A number is "number" when its rendering contains '.', else
   * "integer".
   */
  function GetDataType(v: JsonValue): (t: TypeTag)
    ensures t == TNull <==> v.JNull?
    ensures t == TObject <==> IsPlainObject(v)
    ensures t == TUnknown <==> v.JObject? && ConstructorKey in Keys(v.members)
    ensures t == TArray <==> v.JArray?
    ensures t == TString <==> v.JString?
    ensures t == TBoolean <==> v.JBool?
    ensures t == TNumber <==> v.JNumber? && '.' in v.rendered
    ensures t == TInteger <==> v.JNumber? && '.' !in v.rendered
    ensures IsContainer(v) <==> t in {TObject, TArray}
  {
    match v
    case JNull => TNull
    case JObject(m) => if Lookup(m, ConstructorKey).None? then TObject else TUnknown
    case JArray(_) => TArray
    case JString(_) => TString
    case JNumber(text) => if IndexOf(text, '.') > -1 then TNumber else TInteger
    case JBool(_) => TBoolean
  }

  /** 7 and 7.0 render as "7" and are integers; 7.5 is a number; 1e-7 renders without '.' and is an integer. */
  lemma NumberSplitExamples()
    ensures GetDataType(JNumber("7")) == TInteger
    ensures GetDataType(JNumber("7.5")) == TNumber
    ensures GetDataType(JNumber("1e-7")) == TInteger
  {
    assert '.' !in "1e-7" by {
      assert "1e-7" == ['1', 'e', '-', '7'];
    }
    assert "7.5"[1] == '.';
  }
}
