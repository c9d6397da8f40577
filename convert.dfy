/**
 * The conversion pipeline of script.js: the input gate loadJson, the
 * key-unquoting regular expression of handleConvert and handleConvert
 * itself. JSON.parse and JSON.stringify are host built-ins and are taken
 * as parameters.
 */
module Convert {
  import opened Wrappers
  import opened JsonValues
  import opened Normalizer
  import opened SchemaBuilder

  /** Why loadJson gives no result; MalformedJson carries the parser's message. */
  datatype LoadError = EmptyInput | MalformedJson(diagnostic: string) | UnsupportedTopLevel

  const LoadPrefix := "(load JSON) "

  /** The text loadJson logs (as an error) for each rejection. */
  function LogMessage(e: LoadError): (msg: string)
    ensures LoadPrefix <= msg
    ensures e.MalformedJson? ==> msg == LoadPrefix + e.diagnostic
  {
    LoadPrefix + match e
      case EmptyInput => "No data provided."
      case MalformedJson(diagnostic) => diagnostic
      case UnsupportedTopLevel => "Request body is not an object or array."
  }

  /**
   * loadJson: the empty text is rejected before parsing, a text that JSON.parse
   * rejects is reported with the parser's message, a parsed value that is not
   * an object or an array is refused; anything else is returned as parsed.
   * Text made of blanks only is not the empty text: it goes to the parser.
   */
  function LoadJson(text: string, parse: string -> Result<JsonValue, string>): (r: Result<JsonValue, LoadError>)
    ensures r == Failure(EmptyInput) <==> text == ""
    ensures text != "" && parse(text).Failure? ==> r == Failure(MalformedJson(parse(text).error))
    ensures r == Failure(UnsupportedTopLevel) <==>
              text != "" && parse(text).Success? && !IsContainer(parse(text).value)
    ensures r.Success? <==> text != "" && parse(text).Success? && IsContainer(parse(text).value)
    ensures r.Success? ==> r.value == parse(text).value
  {
    if text == "" then Failure(EmptyInput)
    else
      match parse(text)
      case Failure(message) => Failure(MalformedJson(message))
      case Success(data) =>
        var dataType := GetDataType(data);
        if dataType != TObject && dataType != TArray then Failure(UnsupportedTopLevel)
        else Success(data)
  }

  /**
   * The regular expression /"([^"]+)":/ anchored at the start of `s`: the
   * length of the captured key when `s` starts with a quote, a non-empty run
   * of non-quote characters, a quote and a colon; 0 when it does not match.
   */
  function QuotedKeyAt(s: string): (k: nat)
    ensures k > 0 ==> k + 3 <= |s| && s[0] == '"' && s[k + 1] == '"' && s[k + 2] == ':'
    ensures forall i :: 0 < i <= k ==> s[i] != '"'
  {
    if s != [] && s[0] == '"' then
      var close := IndexOf(s[1..], '"');
      if close > 0 && close + 2 < |s| && s[close + 2] == ':' then close else 0
    else 0
  }

  /** The run of non-quote characters is maximal, so a match is the only one possible. */
  lemma QuotedKeyAtUnique(s: string, n: nat)
    requires 0 < n && n + 3 <= |s| && s[0] == '"'
    requires forall i :: 0 < i <= n ==> s[i] != '"'
    requires s[n + 1] == '"' && s[n + 2] == ':'
    ensures QuotedKeyAt(s) == n
  {
    IndexOfFirst(s[1..], '"', n);
  }

  /**
   * result.replace(/"([^"]+)":/g, '$1:'), scanning from the left: where a
   * match starts, the two quotes are dropped and scanning resumes after the
   * colon; anywhere else one character is kept and scanning moves on by one.
   */
  function Unquote(s: string): (r: string)
    ensures |r| <= |s|
    decreases |s|
  {
    if s == [] then []
    else
      var k := QuotedKeyAt(s);
      if k > 0 then s[1..k + 1] + ":" + Unquote(s[k + 3..])
      else [s[0]] + Unquote(s[1..])
  }

  /** Scanning over a text without quotes copies it. */
  lemma {:induction false} UnquoteQuoteFreePrefix(p: string, s: string)
    requires '"' !in p
    ensures Unquote(p + s) == p + Unquote(s)
    decreases |p|
  {
    if p != [] {
      var t := p + s;
      assert t[0] == p[0] && t[0] != '"';
      assert t[1..] == p[1..] + s;
      UnquoteQuoteFreePrefix(p[1..], s);
      assert Unquote(t) == [p[0]] + Unquote(t[1..]);
      assert p == [p[0]] + p[1..];
    } else {
      assert p + s == s;
    }
  }

  /** A text that contains no quote is unchanged. */
  lemma UnquoteQuoteFree(s: string)
    requires '"' !in s
    ensures Unquote(s) == s
  {
    UnquoteQuoteFreePrefix(s, []);
    assert s + [] == s;
  }

  /** "k": becomes k: for a non-empty key k without quotes. */
  lemma UnquoteKey(k: string, rest: string)
    requires k != [] && '"' !in k
    ensures Unquote("\"" + k + "\":" + rest) == k + ":" + Unquote(rest)
  {
    var s := "\"" + k + "\":" + rest;
    var n := |k|;
    assert s[1..n + 1] == k;
    QuotedKeyAtUnique(s, n);
    assert s[1..n + 1] == k;
    assert s[n + 3..] == rest;
  }

  /**
   * A quote-free tail that does not start with a colon cannot complete a
   * match, so it is copied after the rest has been unquoted.
   */
  lemma {:induction false} UnquoteQuoteFreeSuffix(x: string, y: string)
    requires '"' !in y && (y != [] ==> y[0] != ':')
    ensures Unquote(x + y) == Unquote(x) + y
    decreases |x|
  {
    if x == [] {
      UnquoteQuoteFree(y);
      assert x + y == y;
    } else {
      QuotedKeyAtExtended(x, y);
      var k := QuotedKeyAt(x);
      if k > 0 {
        UnquoteQuoteFreeSuffix(x[k + 3..], y);
        SuffixAfterMatch(x, y, k);
      } else {
        UnquoteQuoteFreeSuffix(x[1..], y);
        SuffixAfterCopy(x, y);
      }
    }
  }

  /** One step of the scan where no match starts: the first character is kept. */
  lemma CopyStep(s: string)
    requires s != [] && QuotedKeyAt(s) == 0
    ensures Unquote(s) == [s[0]] + Unquote(s[1..])
  {
  }

  /** One step of the scan where a match of a key of length k starts: the key is kept, the quotes dropped. */
  lemma MatchStep(s: string, k: nat)
    requires QuotedKeyAt(s) == k > 0
    ensures Unquote(s) == s[1..k + 1] + ":" + Unquote(s[k + 3..])
  {
  }

  lemma AppendTail(h: string, w: string, v: string, y: string)
    requires w == v + y
    ensures h + w == (h + v) + y
  {
  }

  lemma DropAfterAppend(x: string, y: string, n: nat)
    requires n <= |x|
    ensures (x + y)[n..] == x[n..] + y
  {
  }

  lemma SliceBeforeAppend(x: string, y: string, i: nat, j: nat)
    requires i <= j <= |x|
    ensures (x + y)[i..j] == x[i..j]
  {
  }

  lemma SuffixAfterMatch(x: string, y: string, k: nat)
    requires QuotedKeyAt(x) == k > 0 && QuotedKeyAt(x + y) == k
    requires Unquote(x[k + 3..] + y) == Unquote(x[k + 3..]) + y
    ensures Unquote(x + y) == Unquote(x) + y
  {
    MatchStep(x, k);
    MatchStep(x + y, k);
    SliceBeforeAppend(x, y, 1, k + 1);
    DropAfterAppend(x, y, k + 3);
    AppendTail(x[1..k + 1] + ":", Unquote(x[k + 3..] + y), Unquote(x[k + 3..]), y);
  }

  lemma SuffixAfterCopy(x: string, y: string)
    requires x != [] && QuotedKeyAt(x) == 0 && QuotedKeyAt(x + y) == 0
    requires Unquote(x[1..] + y) == Unquote(x[1..]) + y
    ensures Unquote(x + y) == Unquote(x) + y
  {
    CopyStep(x);
    CopyStep(x + y);
    DropAfterAppend(x, y, 1);
    AppendTail([x[0]], Unquote(x[1..] + y), Unquote(x[1..]), y);
  }

  /** Such a tail does not change whether, or where, a match starting in `x` ends. */
  lemma QuotedKeyAtExtended(x: string, y: string)
    requires x != [] && '"' !in y && (y != [] ==> y[0] != ':')
    ensures QuotedKeyAt(x + y) == QuotedKeyAt(x)
  {
    var s := x + y;
    var k := QuotedKeyAt(x);
    if k > 0 {
      assert s[1..k + 1] == x[1..k + 1];
      QuotedKeyAtUnique(s, k);
    } else {
      var j := QuotedKeyAt(s);
      if j > 0 {
        // the closing quote cannot lie in y, and the colon cannot be y[0]
        forall i | |x| <= i < |s| ensures s[i] != '"' {
          assert s[i] == y[i - |x|];
        }
        assert |x| < |s| ==> s[|x|] == y[0];
        forall i | 0 < i <= j ensures x[i] != '"' {
          assert x[i] == s[i];
        }
        QuotedKeyAtUnique(x, j);
      }
    }
  }

  /** The text with every quote character deleted. */
  function Unquoted(s: string): string {
    if s == [] then [] else (if s[0] == '"' then [] else [s[0]]) + Unquoted(s[1..])
  }

  lemma {:induction false} UnquotedAppend(a: string, b: string)
    ensures Unquoted(a + b) == Unquoted(a) + Unquoted(b)
    decreases |a|
  {
    if a != [] {
      var t := a + b;
      assert t[0] == a[0];
      assert t[1..] == a[1..] + b;
      UnquotedAppend(a[1..], b);
    } else {
      assert a + b == b;
    }
  }

  lemma {:induction false} UnquotedQuoteFree(s: string)
    requires '"' !in s
    ensures Unquoted(s) == s
    decreases |s|
  {
    if s != [] {
      UnquotedQuoteFree(s[1..]);
    }
  }

  /** Where a match starts, the text is a quote, the key, a quote, a colon and the rest. */
  lemma MatchShape(s: string)
    requires QuotedKeyAt(s) > 0
    ensures s == "\"" + s[1..QuotedKeyAt(s) + 1] + "\":" + s[QuotedKeyAt(s) + 3..]
  {
  }

  /** Deleting quotes from k:rest keeps the quote-free key and the colon. */
  lemma UnquotedBareKey(key: string, rest: string)
    requires '"' !in key
    ensures Unquoted(key + ":" + rest) == key + ":" + Unquoted(rest)
  {
    assert key + ":" + rest == key + ([':'] + rest);
    UnquotedAppend(key, [':'] + rest);
    UnquotedCons(':', rest);
    UnquotedQuoteFree(key);
  }

  lemma QuotedKeyLayout(key: string, rest: string)
    ensures "\"" + key + "\":" + rest == ['"'] + (key + (['"'] + ([':'] + rest)))
  {
  }

  /** Deleting quotes from "k":rest gives the same text as from k:rest. */
  lemma UnquotedQuotedKey(key: string, rest: string)
    requires '"' !in key
    ensures Unquoted("\"" + key + "\":" + rest) == key + ":" + Unquoted(rest)
  {
    var colonRest := [':'] + rest;
    var afterKey := ['"'] + colonRest;
    QuotedKeyLayout(key, rest);
    UnquotedCons('"', key + afterKey);
    UnquotedAppend(key, afterKey);
    UnquotedQuoteFree(key);
    UnquotedCons('"', colonRest);
    UnquotedCons(':', rest);
    assert Unquoted(key + afterKey) == key + ([':'] + Unquoted(rest));
  }

  lemma UnquotedCons(c: char, t: string)
    ensures Unquoted([c] + t) == (if c == '"' then [] else [c]) + Unquoted(t)
  {
    assert ([c] + t)[1..] == t;
  }

  /** The pass deletes quote characters and nothing else. */
  lemma {:induction false} UnquoteOnlyDropsQuotes(s: string)
    ensures Unquoted(Unquote(s)) == Unquoted(s)
    decreases |s|
  {
    if s != [] {
      var k := QuotedKeyAt(s);
      if k > 0 {
        var key := s[1..k + 1];
        var rest := s[k + 3..];
        MatchStep(s, k);
        MatchShape(s);
        UnquoteOnlyDropsQuotes(rest);
        UnquotedBareKey(key, Unquote(rest));
        UnquotedQuotedKey(key, rest);
      } else {
        CopyStep(s);
        UnquoteOnlyDropsQuotes(s[1..]);
        UnquotedCons(s[0], Unquote(s[1..]));
        UnquotedCons(s[0], s[1..]);
        assert s == [s[0]] + s[1..];
      }
    }
  }

  /**
   * A piece of serialised text: a quoted key with its colon ("k":), a
   * string literal ("t") or text without quotes (layout, brackets, commas,
   * numbers).
   */
  datatype Piece = Key(name: string) | Literal(text: string) | Plain(chars: string)

  /**
   * The pieces the regular expression handles as intended: a key is
   * non-empty, and no key, literal or plain text holds a quote or starts
   * with a colon.
   */
  predicate ValidPiece(p: Piece) {
    match p
    case Key(k) => k != [] && '"' !in k && k[0] != ':'
    case Literal(t) => '"' !in t && (t == [] || t[0] != ':')
    case Plain(c) => '"' !in c && (c == [] || c[0] != ':')
  }

  predicate ValidPieces(ps: seq<Piece>) {
    forall i :: 0 <= i < |ps| ==> ValidPiece(ps[i])
  }

  function PieceText(p: Piece): string {
    match p
    case Key(k) => "\"" + k + "\":"
    case Literal(t) => "\"" + t + "\""
    case Plain(c) => c
  }

  function BarePieceText(p: Piece): string {
    match p
    case Key(k) => k + ":"
    case Literal(t) => "\"" + t + "\""
    case Plain(c) => c
  }

  /** The text the pieces form, as JSON.stringify writes it. */
  function Rendered(ps: seq<Piece>): string {
    if ps == [] then [] else PieceText(ps[0]) + Rendered(ps[1..])
  }

  /** The same text with every key's quotes dropped and every literal kept. */
  function Bare(ps: seq<Piece>): string {
    if ps == [] then [] else BarePieceText(ps[0]) + Bare(ps[1..])
  }

  /** The first quote of s, if there is one, is not followed by a colon. */
  predicate NoColonAfterFirstQuote(s: string)
    decreases |s|
  {
    if s == [] then true
    else if s[0] == '"' then |s| < 2 || s[1] != ':'
    else NoColonAfterFirstQuote(s[1..])
  }

  lemma {:induction false} SkipQuoteFree(p: string, s: string)
    requires '"' !in p
    ensures NoColonAfterFirstQuote(p + s) == NoColonAfterFirstQuote(s)
    decreases |p|
  {
    if p == [] {
      assert p + s == s;
    } else {
      assert (p + s)[0] == p[0];
      assert (p + s)[1..] == p[1..] + s;
      SkipQuoteFree(p[1..], s);
    }
  }

  /** The character after the first quote is not a colon. */
  lemma {:induction false} FirstQuoteFollower(r: string)
    requires NoColonAfterFirstQuote(r)
    ensures var c := IndexOf(r, '"'); 0 <= c && c + 1 < |r| ==> r[c + 1] != ':'
    decreases |r|
  {
    if r != [] && r[0] != '"' {
      FirstQuoteFollower(r[1..]);
    }
  }

  /**
   * A quote followed by a text whose first quote is not followed by a colon
   * starts no match: the run after it ends at that quote.
   */
  lemma NoMatchAtQuote(r: string)
    requires NoColonAfterFirstQuote(r)
    ensures QuotedKeyAt("\"" + r) == 0
  {
    var s := "\"" + r;
    assert s[1..] == r;
    FirstQuoteFollower(r);
  }

  /** An opening quote and quote-free text are copied up to a quote that starts no match. */
  lemma OpeningQuoteCopied(t: string, closing: string)
    requires '"' !in t && NoColonAfterFirstQuote(closing)
    ensures Unquote("\"" + (t + closing)) == "\"" + (t + Unquote(closing))
  {
    var s := "\"" + (t + closing);
    SkipQuoteFree(t, closing);
    NoMatchAtQuote(t + closing);
    CopyStep(s);
    assert s[1..] == t + closing;
    UnquoteQuoteFreePrefix(t, closing);
  }

  /** A closing quote whose next quote is not followed by a colon is copied. */
  lemma ClosingQuoteCopied(rest: string)
    requires NoColonAfterFirstQuote(rest)
    ensures Unquote("\"" + rest) == "\"" + Unquote(rest)
  {
    NoMatchAtQuote(rest);
    CopyStep("\"" + rest);
    assert ("\"" + rest)[1..] == rest;
  }

  /**
   * A string literal is copied unchanged when what follows it does not
   * start with a colon and its first quote is not followed by one.
   */
  lemma UnquoteLiteral(t: string, rest: string)
    requires '"' !in t
    requires rest == [] || rest[0] != ':'
    requires NoColonAfterFirstQuote(rest)
    ensures Unquote("\"" + t + "\"" + rest) == "\"" + t + "\"" + Unquote(rest)
  {
    var closing := "\"" + rest;
    QuoteBeforeNonColon(rest);
    OpeningQuoteCopied(t, closing);
    ClosingQuoteCopied(rest);
    Regroup(t, rest);
    Regroup(t, Unquote(rest));
  }

  lemma QuoteBeforeNonColon(rest: string)
    requires rest == [] || rest[0] != ':'
    ensures NoColonAfterFirstQuote("\"" + rest)
  {
  }

  lemma Regroup(t: string, u: string)
    ensures "\"" + t + "\"" + u == "\"" + (t + ("\"" + u))
  {
  }

  /** Valid pieces render to a text that neither starts with a colon nor has one after its first quote. */
  lemma {:induction false} RenderedStart(ps: seq<Piece>)
    requires ValidPieces(ps)
    ensures var s := Rendered(ps); (s == [] || s[0] != ':') && NoColonAfterFirstQuote(s)
    decreases |ps|
  {
    if ps != [] {
      var tail := Rendered(ps[1..]);
      var head := PieceText(ps[0]);
      var s := head + tail;
      assert s == Rendered(ps);
      assert ValidPiece(ps[0]);
      match ps[0]
      case Key(k) =>
        assert s[0] == '"' && s[1] == k[0];
      case Literal(t) =>
        assert s[0] == '"' && s[1] == (if t == [] then '"' else t[0]);
      case Plain(c) =>
        assert ValidPieces(ps[1..]) by {
          forall i | 0 <= i < |ps[1..]| ensures ValidPiece(ps[1..][i]) {
            assert ps[1..][i] == ps[i + 1];
          }
        }
        RenderedStart(ps[1..]);
        SkipQuoteFree(c, tail);
        assert c != [] ==> s[0] == c[0];
        assert c == [] ==> s == tail;
    }
  }

  /**
   * Every quoted key of a serialised text is rewritten to a bare key, one
   * after the other, while string literals between them (type names, the
   * entries of `required`) and all other text are kept.
   */
  lemma {:induction false} UnquoteAllKeys(ps: seq<Piece>)
    requires ValidPieces(ps)
    ensures Unquote(Rendered(ps)) == Bare(ps)
    decreases |ps|
  {
    if ps != [] {
      var tail := Rendered(ps[1..]);
      assert ValidPieces(ps[1..]) by {
        forall i | 0 <= i < |ps[1..]| ensures ValidPiece(ps[1..][i]) {
          assert ps[1..][i] == ps[i + 1];
        }
      }
      UnquoteAllKeys(ps[1..]);
      assert ValidPiece(ps[0]);
      match ps[0]
      case Key(k) =>
        UnquoteKey(k, tail);
      case Literal(t) =>
        RenderedStart(ps[1..]);
        UnquoteLiteral(t, tail);
      case Plain(c) =>
        UnquoteQuoteFreePrefix(c, tail);
    }
  }

  const SchemaPrefix := "var schema = "

  /** The fixed prefix and the final semicolon pass through the unquoting unchanged. */
  lemma ConvertText(serialised: string)
    ensures Unquote(SchemaPrefix + serialised + ";") == SchemaPrefix + Unquote(serialised) + ";"
  {
    UnquoteQuoteFreeSuffix(serialised, ";");
    assert SchemaPrefix + serialised + ";" == SchemaPrefix + (serialised + ";");
    UnquoteQuoteFreePrefix(SchemaPrefix, serialised + ";");
  }

  /**
   * handleConvert: when loadJson accepts the text and the normaliser does
   * not throw, the schema text is "var schema = " + the serialised schema
   * of the normalised document + ";" with quoted keys unquoted; otherwise
   * there is no result and the output is left as it was.
   */
  function HandleConvert(text: string, parse: string -> Result<JsonValue, string>,
                         stringify: JsonValue -> string): (r: Option<string>)
    ensures r.None? <==> LoadJson(text, parse).Failure? || Normalized(parse(text).value).None?
    ensures r.Some? ==>
              r.value == SchemaPrefix + Unquote(stringify(ToJson(ChildSchema(Normalized(parse(text).value).value)))) + ";"
  {
    match LoadJson(text, parse)
    case Failure(_) => None
    case Success(json) =>
      match PreprocessData(json)
      case Failure(_) => None
      case Success(shape) =>
        var serialised := ConvertToSchema(shape, stringify).value;
        ConvertText(serialised);
        Some(Unquote(SchemaPrefix + serialised + ";"))
  }

  /**
   * When the serialised schema is made of valid pieces, the text written
   * is the prefix, the schema with every key unquoted, and the semicolon.
   */
  lemma ConvertedText(text: string, parse: string -> Result<JsonValue, string>,
                      stringify: JsonValue -> string, ps: seq<Piece>)
    requires HandleConvert(text, parse, stringify).Some?
    requires stringify(ToJson(ChildSchema(Normalized(parse(text).value).value))) == Rendered(ps)
    requires ValidPieces(ps)
    ensures HandleConvert(text, parse, stringify) == Some(SchemaPrefix + Bare(ps) + ";")
  {
    UnquoteAllKeys(ps);
  }
}
