# json2ajv in Dafny

json2ajv turns a sample JSON document into an Ajv (JSON Schema) declaration.
The logic lives in `script.js` and runs in four stages:

1. `loadJson` checks and parses the input text.
2. `preprocessData` normalises the document into a *shape*. Every leaf becomes
   the name of its type tag, and every non-empty array is cut down to (the
   shape of) its first element. It throws on an object tagged `unknown`
   (see below).
3. `handleObject` / `handleArray` / `convertToSchema` turn the shape into a
   schema tree:
   - an object becomes `{type: "object", properties, required}`;
   - an array becomes `{type: "array", items}`;
   - a leaf becomes `{type: tag}`.
4. `handleConvert` serialises the schema, wraps it in `var schema = …;` and
   strips the quotes from every `"key":` with a regular expression.

This project models those stages and proves what each promises.

Files:

- `wrappers.dfy`: `Option` and `Result`.
- `json_values.dfy` (module `JsonValues`): the decoded-JSON datatype. It also holds:
  - the object operations the inferencer relies on: `Object.keys`, `countKeys`,
    reading and assigning `obj[key]`;
  - `String.prototype.indexOf`;
  - the classifier `getDataType`.
- `normalizer.dfy` (module `Normalizer`): `preprocessData`, `preprocessObject` and
  `preprocessArray` as functions. It also has a class `JsObject` whose
  `Preprocess` method is the in-place loop of `preprocessObject`. That method is
  proved equal to the function, including where it throws.
- `schema_builder.dfy` (module `SchemaBuilder`): the schema datatype,
  `handleObject`, `handleArray` and `convertToSchema`. Also here:
  - the plain object these build (`ToJson`) and a decoder for it;
  - the loop of `handleObject` as the method `ComputeObjectSchema`;
  - the `__proto__` finding below, with the builder as written.
- `convert.dfy` (module `Convert`): the `loadJson` gate and its log messages, the
  key-unquoting regular expression as a left-to-right scan (`Unquote`), and
  `handleConvert`. Serialised text is described as a sequence of pieces (quoted keys,
  string literals, other text) for the lemmas about the scan.
- `samples.dfy` (module `Samples`): worked examples.

Modelling decisions:

- A number is the text `String(n)` renders for it. That text is all
  `getDataType` looks at. So `7.0` is `JNumber("7")` and is an integer, and
  `1e-7` contains no `.` and is an integer too.
- An object is its sequence of (key, value) entries in enumeration order. A
  JavaScript object cannot hold a key twice. Where the source relies on that,
  the model has `DistinctKeys`, and `WellFormed` at every depth.
- `JSON.parse` is a parameter `parse: string -> Result<JsonValue, string>`. Its
  failure carries the message the source logs.
- `JSON.stringify(…, null, 4)` is a parameter `stringify: JsonValue -> string`.
  It is applied to the plain object `ToJson` builds, whose members are in the
  order the source assigns them.
- A null value's type is `"null"` at every stage. `preprocessObject` writes the
  tag name `"null"` (script.js:144-145), and `handleObject` then makes it
  `{type: "null"}`. It is not turned into `"string"`.
- Text made only of blanks is not the empty text. `loadJson` hands it to the
  parser (script.js:101), and so does the model.
- `getDataType` tests `data.constructor === Object` (script.js:63). `JSON.parse`
  makes every key an own property, so an object with a `"constructor"` key
  fails that test and is tagged `"unknown"` (script.js:90-91). The model
  follows this. For such an object:
  - `loadJson` refuses it at the top level (script.js:117-119);
  - as the first element of an array it becomes the string `"unknown"` (script.js:206-207);
  - as the value of a key, `preprocessObject` takes its default branch
    (script.js:172-174). That branch logs through `prefix`, which is declared
    only inside `copyTextToClipboard` and `loadJson`. So it raises a
    `ReferenceError` and `handleConvert` writes nothing. The normaliser's
    functions return `None` for this outcome.

## Model

| member | source | states |
|---|---|---|
| JsonValues.IndexOf | script.js:79 | `indexOf` gives -1 exactly when the element is absent; otherwise it gives a position holding the element with no earlier occurrence |
| JsonValues.CountKeys | script.js:35-37 | the key count is the number of entries, so it is zero exactly for the empty object |
| JsonValues.DistinctKeysCardinality | script.js:35-37 | an object with distinct keys has as many different keys as entries, so the key count counts different keys |
| JsonValues.Lookup | script.js:243 | reading `obj[key]` finds a value exactly when `key` is among the object's keys; the value found is that of an entry with that key, and with distinct keys it is the value of every (the only) entry with that key |
| JsonValues.Assign | script.js:145 | `obj[key] = v` keeps the key order when the key exists and appends it otherwise; afterwards `key` reads `v`, every other key reads as before, and keys stay distinct |
| JsonValues.AssignNewKey | script.js:234 | assigning a key the object lacks, as an ordinary data property, appends one entry |
| JsonValues.AssignExistingKey | script.js:145 | assigning an existing key overwrites that entry in place |
| JsonValues.AppendKeepsLookup | script.js:230-243 | appending a new key leaves every other key's value unchanged |
| JsonValues.TagFromName | script.js:58-95 | tag names are exactly the eight names `getDataType` returns, and each names one tag |
| JsonValues.GetDataType | script.js:58-95 | each leaf kind gets its own tag (both directions); an object is `object` exactly when it has no own `"constructor"` entry and `unknown` exactly when it has one; every array is `array`; a number is `number` exactly when its rendering contains `.`, else `integer` |
| JsonValues.NumberSplitExamples | script.js:78-84 | `7` and `7.0` are integers, `7.5` is a number, `1e-7` is an integer |
| Normalizer.Normalized | script.js:143-175 | a value tagged `unknown` makes it throw; a leaf becomes a tag-name string naming its own tag; otherwise, when it does not throw, the replacement is a shape of the same kind with the same keys, arrays get length 0 or 1, and well-formedness is kept |
| Normalizer.PreprocessObject | script.js:135-180 | the empty object is returned as is; it throws exactly when normalising some value throws; otherwise the keys and their order are kept, every value is a shape, and distinct keys stay distinct |
| Normalizer.PreprocessArray | script.js:182-211 | the empty array is returned as is; a first element tagged `unknown` gives `["unknown"]`; otherwise it throws exactly when normalising the first element throws, and else gives the one-element array of that element's normalised value, a shape |
| Normalizer.PreprocessData | script.js:125-133 | the result is undefined exactly for values not tagged `object` or `array`; for those it throws exactly when the normaliser does, and otherwise is the normalised shape |
| Normalizer.ObjectEntryReplaced | script.js:142-177 | a value whose normalisation throws makes the object throw; otherwise entry i of the result is entry i's key with its value normalised |
| Normalizer.LeafTags | script.js:143-170 | null gives `"null"` (it is not dropped), a string gives `"string"`, a boolean gives `"boolean"`, a number gives `"number"` or `"integer"` by its `.` |
| Normalizer.ArrayShapeDependsOnHeadOnly | script.js:186-210 | two non-empty arrays with the same first element normalise alike; `[0, "zero"]` gives `["integer"]` |
| Normalizer.EmptyContainersFixed | script.js:125-133 | `{}` and `[]` are fixed points of `preprocessData` |
| Normalizer.RenormalizingShape | script.js:142-210 | normalising a shape again turns every tag name into `"string"` |
| Normalizer.NotIdempotent | script.js:142-177 | `{"a":1}` gives `{"a":"integer"}`, which normalises to `{"a":"string"}` |
| Normalizer.ConstructorEntry | script.js:142-208 | `{"a": {"constructor": 1}}` throws, also as the first element of an array; `[{"constructor": 1}, …]` gives `["unknown"]` |
| Normalizer.JsObject.Set | script.js:145 | the in-place assignment `obj[key] = v` updates the entries as `Assign` does and keeps keys distinct |
| Normalizer.JsObject.Preprocess | script.js:135-180 | the loop over a snapshot of `Object.entries`, overwriting each key, throws exactly when `PreprocessObject` does; when it does not, it leaves the object equal to `PreprocessObject` of its old entries; when it does, the entries before the throwing one are normalised and the others untouched |
| SchemaBuilder.ChildSchema | script.js:232-244 | a value tagged `object` or `array` becomes an object or array schema, and an object schema requires the object's keys; any other value v becomes `{type: v}` |
| SchemaBuilder.HandleObject | script.js:213-248 | the result is an object schema; `required` is the keys in enumeration order and `properties` has exactly those keys, at every depth; `{}` gives empty properties and required; distinct keys mean `required` has no duplicates |
| SchemaBuilder.HandleArray | script.js:250-281 | `items` is `{}` exactly for the empty array; otherwise it is the schema of element 0 |
| SchemaBuilder.PropertyOfKey | script.js:229-245 | the property under each key is the schema of that key's value |
| SchemaBuilder.EmptyContainerSchemas | script.js:219-262 | `handleObject({})` has no properties and no required keys; `handleArray([])` has items `{}` |
| SchemaBuilder.BuilderIsLossless | script.js:213-281 | from the schema of a shape, the shape can be read back unchanged |
| SchemaBuilder.ShapeSchemaHasTagLeaves | script.js:241-243 | every `{type: v}` in the schema of a shape names a type tag |
| SchemaBuilder.InferredSchema | script.js:125-281 | when normalising does not throw, the schema of the normalised document requires the document's keys, has tag-only leaves, has no duplicate required keys when well-formed, and records the shape without loss |
| SchemaBuilder.ToJson | script.js:219-277 | the plain object built carries `type` `"object"` or `"array"`, `{type: v}` for a leaf and `{}` for items of an empty array |
| SchemaBuilder.ToJsonRoundTrip | script.js:219-277 | the plain object decodes back to the same schema, so it determines the schema |
| SchemaBuilder.ConvertToSchema | script.js:283-297 | there is output exactly for values tagged `object` or `array`, and it is the serialised schema |
| SchemaBuilder.ComputeObjectSchema | script.js:213-248 | the loop pushes every key onto `required`, in order, and assigns each entry's schema into `properties`, where assigning `"__proto__"` adds no property; the result is the entries assigned one after the other (`AssignedPrefix`), and with distinct keys exactly `HandleObjectAsWritten` |
| SchemaBuilder.OwnAssigned | script.js:234 | assigning each entry into a fresh `{}` keeps exactly the entries whose key is not `"__proto__"`: every kept entry is an input entry with another key, every such entry is kept, and without `"__proto__"` keys nothing is dropped |
| SchemaBuilder.OwnAssignedAppend | script.js:234 | assigning one more entry appends it, unless its key is `"__proto__"`, which adds nothing |
| SchemaBuilder.OwnAssignedStep | script.js:229-234 | with distinct keys, assigning entry i after the earlier ones is `Assign`'s append of a new key, or no change for `"__proto__"` |
| SchemaBuilder.WrittenEntries | script.js:229-243 | one (key, schema) pair per entry, in order, whose schema is the as-written schema of the value and holds no `"__proto__"` property; without such a key anywhere these are `HandleObject`'s properties |
| SchemaBuilder.AssignedPrefix | script.js:229-245 | the properties after the loop has assigned the first i entries: none before the first, and with distinct keys exactly the written entries of those i whose key is not `"__proto__"`, in order |
| SchemaBuilder.AssignedPrefixComplete | script.js:229-248 | with distinct keys, once every entry is assigned the properties are those of `HandleObjectAsWritten` |
| SchemaBuilder.ChildSchemaAsWritten | script.js:232-243 | as written, no `properties` at any depth holds a `"__proto__"` key; a value tagged `object` gives an object schema requiring its keys, an array an array schema, and a leaf v `{type: v}`; without such a key anywhere it agrees with `ChildSchema` |
| SchemaBuilder.HandleObjectAsWritten | script.js:213-248 | as written, `required` is still all the keys and `{}` gives empty properties; every entry whose key is not `"__proto__"` appears under `properties` with its as-written schema, and every property is such a written entry; no `properties` at any depth holds a `"__proto__"` key; without such a key anywhere it agrees with `HandleObject` |
| SchemaBuilder.HandleArrayAsWritten | script.js:250-281 | as written, `items` is `{}` exactly for the empty array and otherwise the as-written schema of element 0, holding no `"__proto__"` property; without such a key anywhere it agrees with `HandleArray` |
| SchemaBuilder.ProtoKeyUndescribed | script.js:229-245 | for `{"__proto__": 1}`, and one level down for `{"a": {"__proto__": 1}}`, the schema as written requires a key it does not describe; the intended schema describes it |
| Convert.LogMessage | script.js:98-118 | every message starts with `(load JSON) `, and a parse failure logs the parser's message |
| Convert.LoadJson | script.js:97-123 | the empty text, a parse failure and a value not tagged `object` or `array` (a leaf, or an object with an own `"constructor"`) are each rejected for their own reason (both directions); otherwise the parsed value is returned unchanged |
| Convert.QuotedKeyAt | script.js:307 | a match of `"([^"]+)":` at the start is a quote, a non-empty run without quotes, a quote and a colon |
| Convert.QuotedKeyAtUnique | script.js:307 | where the text has that form, the scan finds exactly that key |
| Convert.Unquote | script.js:307 | the global replace never lengthens the text |
| Convert.UnquoteQuoteFreePrefix | script.js:307 | a leading run without quotes is copied unchanged |
| Convert.UnquoteQuoteFree | script.js:307 | a text without quotes is unchanged |
| Convert.UnquoteKey | script.js:307 | `"k":` becomes `k:` for a non-empty key without quotes |
| Convert.UnquoteQuoteFreeSuffix | script.js:306-307 | a trailing run without quotes that does not start with a colon is copied unchanged |
| Convert.QuotedKeyAtExtended | script.js:307 | such a tail neither creates nor moves a match starting before it |
| Convert.UnquoteOnlyDropsQuotes | script.js:307 | the replace deletes quote characters and nothing else |
| Convert.SkipQuoteFree | script.js:307 | text without quotes before the first quote does not change which character follows that quote |
| Convert.FirstQuoteFollower | script.js:307 | in such a text the character after the first quote is not a colon |
| Convert.NoMatchAtQuote | script.js:307 | a quote followed by such a text starts no match, because the run of non-quotes stops at that first quote |
| Convert.OpeningQuoteCopied | script.js:307 | the opening quote of a string literal and its text are copied unchanged |
| Convert.ClosingQuoteCopied | script.js:307 | a closing quote whose next quote is not followed by a colon is copied |
| Convert.UnquoteLiteral | script.js:307 | a string literal without quotes inside is copied unchanged when the text after it does not start with a colon and its next quote is not followed by one |
| Convert.RenderedStart | script.js:307 | text made of valid pieces neither starts with a colon nor has a colon after its first quote |
| Convert.UnquoteAllKeys | script.js:307 | in text made of quoted keys, string literals and quote-free text, where no key or string holds a quote or starts with a colon and keys are non-empty, every key is unquoted, one after the other, and everything else is kept |
| Convert.ConvertText | script.js:301-307 | the prefix `var schema = ` and the final `;` pass through the replace unchanged |
| Convert.HandleConvert | script.js:299-311 | there is output exactly when `loadJson` accepts and the normaliser does not throw; it is `var schema = ` + the unquoted serialised schema of the normalised document + `;` |
| Convert.ConvertedText | script.js:299-311 | when the serialised schema is made of valid pieces, the text written is `var schema = `, the schema with every key unquoted and every string kept, and `;` |
| Samples.IntegerNumberSplit | script.js:78-84 | `{"a":7,"b":7.0,"c":7.5}` gives integer, integer, number |
| Samples.IntegerNumberEntries | script.js:142-177 | `preprocessObject` of that document keeps the keys `a`, `b`, `c` and replaces their values by `"integer"`, `"integer"`, `"number"` |
| Samples.TopLevelStringRefused | script.js:115-120 | a top-level string parses, is refused, and nothing is written |
| Samples.ConstructorObjectRefused | script.js:63-120 | `{"constructor": 1}` parses, is tagged `unknown`, is refused, and nothing is written |
| Samples.NestedConstructorThrows | script.js:142-174 | `{"a": {"constructor": 1}}` is accepted, but normalising it throws, and nothing is written |
| Samples.ConstructorFirstItem | script.js:197-208 | `[{"constructor": 1}]` normalises to `["unknown"]`, whose schema has items `{type: "unknown"}` |
| Samples.FieldSchemas | script.js:315-343 | fields like those of the sample body: null gets type `"null"`, `[]` gets items `{}`, an array of strings gets items of type `"string"`, a number with `.` gets type `"number"` |

## Left out

- DOM, logging output, time, clipboard and event handlers (script.js:5-33, 39-56, 356-394). The model is the computation. `LogMessage` gives the text logged, but not the logging itself.
- `JSON.parse` and `JSON.stringify(…, null, 4)` are host built-ins. They are parameters, and their internals (grammar, indentation, escaping) are not modelled.
- Rendering numbers as text is float formatting. A number is modelled as its rendered text.
- `Object.entries` and `Object.keys` list integer-like keys first. The model takes the enumeration order as given.
- The `ReferenceError` that `preprocessObject`'s `unknown` branch raises (script.js:172-174) is modelled only as the outcome "throws" (`None`), which then propagates. The error object is not modelled, and neither is the `"string"` fallback on the line after it, which cannot run. The entries already overwritten before the throw are modelled only by `JsObject.Preprocess`; nothing is written in that case, so they are not otherwise observable.
- `handleConvert` parses the text twice (script.js:300, 304). This is modelled as one parse, because `parse` is a function of the text.
- `setAttribute(schemaTextBox, …)` (script.js:309) is not modelled. `HandleConvert` gives the text that would be written, or `None`, and nothing is written in that case.
- Normalizer.JsObject.Preprocess: only the top-level object is a mutable entity. Nested objects are values, and the recursive call is the function `Normalized`. So the model does not capture sharing between nested objects or in-place changes below the top level.
- SchemaBuilder.ComputeObjectSchema: nested schemas come from the function `ChildSchemaAsWritten`, not from recursive method calls.
- JsonValues.AssignNewKey: it is ordinary data-property assignment. Assigning `"__proto__"` on an object without an own property of that name calls the inherited setter instead and adds nothing. That case is modelled by `SchemaBuilder.OwnAssigned` and `SchemaBuilder.AssignedPrefix`, which `ComputeObjectSchema` follows.
- Deeply nested input: the source's recursion, like the host `JSON.parse` and `JSON.stringify`, exhausts the call stack on very deep nesting and throws a `RangeError`, so nothing is written. The model has no stack bound and always gives a result.
- Convert.Unquote: its own contract states only the length bound. What the replace does is stated by the lemmas beside it. The regular expression is applied to the whole serialised text. So these are rewritten in ways other than plain unquoting:
  - a key or string that contains an escaped quote;
  - a key or string that starts with `:` (in `"x", ":b":` the match runs from the closing quote of `"x"`);
  - an empty key (`"":` is not matched).
  `Unquote` follows the source on such text, but no lemma describes the result. `UnquoteAllKeys` and `ConvertedText` exclude them in `ValidPieces`.
- Convert.ConvertedText: that `JSON.stringify` writes a schema as a sequence of `Piece`s is not modelled, because the serialiser is a parameter. The pieces are a premise.
- SchemaBuilder.ConvertToSchema: it serialises the corrected `HandleObject`, not `HandleObjectAsWritten`. For a document with a `"__proto__"` key, the source's output lacks that property (see Findings). Without such a key, `HandleObjectAsWritten`'s contract shows that the two agree.
- Convert.HandleConvert: it is built on `ConvertToSchema` and so on the corrected `HandleObject`. It differs from the source only for a document with a `"__proto__"` key, as for `ConvertToSchema`.
- Duplicate keys cannot occur in a parsed object. The `JsObject` methods, the no-duplicates conclusions and the agreement of `ComputeObjectSchema` with `HandleObjectAsWritten` therefore assume distinct keys.

## Findings

| source | as written | input that shows it | evidently intended | confidence | as-written member | corrected member |
|---|---|---|---|---|---|---|
| script.js:229-248 | `result.properties[key] = …` on a fresh `{}` calls the inherited `__proto__` setter for the key `"__proto__"`, at any depth. That replaces the prototype and adds no property, while the key is still pushed onto `required` | `{"__proto__": 1}`, `{"a": {"__proto__": 1}}` | every required key is described under `properties` | medium, not executed | SchemaBuilder.ProtoKeyUndescribed | SchemaBuilder.HandleObject |
