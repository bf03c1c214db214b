/** The public functions of `utils/json5Parser.ts`: the option-driven
    pipeline of `parseJSON5` with its error wrapping, serialization with
    `formatJSON5` and `stringifyJSON5`, the two converters, validation and
    feature removal.

    The members named after the source functions run the rewrite passes as
    written (`Json5`, `Json5Commas`, `Json5Keys`), which double every quote
    after the first (see `PreprocessLiteral`). `PreprocessFixed` and
    `ParseJson5Fixed` are the same pipeline over the corrected passes of
    `Json5Fixed`, which copy a quoted literal as it is. `JSON.parse` is the
    parameter `parse`. */
module Json5Parse {
  import opened Wrappers
  import opened Chars
  import opened JsonValue
  import opened Serializer
  import Json5
  import Json5Commas
  import Json5Keys
  import Json5Fixed

  /** `JSON5ParseOptions` with its defaults filled in. */
  datatype Json5Options = Json5Options(allowComments: bool, allowTrailingCommas: bool, allowUnquotedKeys: bool)

  /** Every feature on, as an empty options object gives. */
  const DefaultJson5Options := Json5Options(true, true, true)

  /** Every feature off: the text goes to the native parse untouched. */
  const StrictJson5Options := Json5Options(false, false, false)

  /** The enabled passes, as written, in their fixed order: comments, then
      trailing commas, then unquoted keys. */
  function Preprocess(s: string, o: Json5Options): (r: string)
    ensures !o.allowComments && !o.allowTrailingCommas && !o.allowUnquotedKeys ==> r == s
  {
    var a := if o.allowComments then Json5.StripComments(s) else s;
    var b := if o.allowTrailingCommas then Json5Commas.StripTrailingCommas(a) else a;
    if o.allowUnquotedKeys then Json5Keys.UnquoteKeys(b) else b
  }

  /** Text with no slash, comma, colon or quote (a number, say) passes
      every pass unchanged, whatever the options. */
  lemma PreprocessPlain(s: string, o: Json5Options)
    requires '/' !in s && ',' !in s && ':' !in s && '"' !in s && '\'' !in s
    ensures Preprocess(s, o) == s
  {
    Json5.StripPlainPrefix(s, "");
    assert s + "" == s;
    Json5Commas.CommasIdentity(s);
    Json5Keys.KeysIdentity(s);
  }

  /** With every feature on, a plain string literal such as `"abc"` reaches
      the native parse with eight closing quotes: each pass doubles every
      quote after the opening one. */
  lemma PreprocessLiteral(body: string)
    requires '"' !in body
    ensures Preprocess(['"'] + body + ['"'], DefaultJson5Options) == ['"'] + body + Repeat('"', 8)
  {
    var q := '"';
    Json5.StripLiteralGrows(q, body);
    var a := ['"'] + body + Repeat(q, 2);
    assert [q] + body + [q, q] == a;
    LiteralRun(body, 2);
    var b := ['"'] + body + Repeat(q, 4);
    assert a[0] == q && a[1..] == body + Repeat(q, 2);
    Json5Commas.CommasQuoteRun(a);
    assert Json5Commas.StripTrailingCommas(a) == b;
    assert b[0] == q && b[1..] == body + Repeat(q, 4);
    LiteralRun(body, 4);
    Json5Keys.KeysQuoteRun(b);
  }

  /** A quote-free body followed by `n` quotes, through `Doubled`. */
  lemma LiteralRun(body: string, n: nat)
    requires '"' !in body
    ensures Json5.Doubled(body + Repeat('"', n), '"') == body + Repeat('"', 2 * n)
  {
    Json5.DoubledAppend(body, Repeat('"', n), '"');
    Json5.DoubledAbsent(body, '"');
    DoubledQuotes(n);
  }

  lemma {:induction false} DoubledQuotes(n: nat)
    ensures Json5.Doubled(Repeat('"', n), '"') == Repeat('"', 2 * n)
  {
    if n > 0 {
      var t := Repeat('"', n);
      assert t[0] == '"' && t[1..] == Repeat('"', n - 1);
      DoubledQuotes(n - 1);
      assert Repeat('"', 2 * n) == ['"', '"'] + Repeat('"', 2 * (n - 1));
    }
  }

  /** The enabled passes over the corrected rewrites. */
  function PreprocessFixed(s: string, o: Json5Options): (r: string)
    ensures !o.allowComments && !o.allowTrailingCommas && !o.allowUnquotedKeys ==> r == s
  {
    var a := if o.allowComments then Json5Fixed.StripComments(s) else s;
    var b := if o.allowTrailingCommas then Json5Fixed.StripTrailingCommas(a) else a;
    if o.allowUnquotedKeys then Json5Fixed.UnquoteKeys(b) else b
  }

  /** With the corrected passes, text with no slash, comma or colon is
      unchanged whatever the options, quotes included. */
  lemma PreprocessFixedPlain(s: string, o: Json5Options)
    requires '/' !in s && ',' !in s && ':' !in s
    ensures PreprocessFixed(s, o) == s
  {
    Json5Fixed.StripIdentity(s);
    Json5Fixed.CommasIdentity(s);
    Json5Fixed.KeysIdentity(s);
  }

  /** With the corrected passes a well-formed string literal reaches the
      native parse as it was written, escapes, slashes, commas and colons
      inside it included. */
  lemma PreprocessFixedLiteral(body: string, o: Json5Options)
    requires Json5Fixed.LiteralBody(body, '"')
    ensures PreprocessFixed(['"'] + body + ['"'], o) == ['"'] + body + ['"']
  {
    var lit := ['"'] + body + ['"'];
    assert lit + "" == lit;
    assert Json5.IsQuote('"');
    Json5Fixed.StripKeepsLiteral('"', body, "");
    Json5Fixed.CommasKeepLiteral(body, "");
    Json5Fixed.KeysKeepLiteral('"', body, "");
    assert Json5Fixed.StripComments("") == "";
    assert Json5Fixed.StripTrailingCommas("") == "";
    assert Json5Fixed.UnquoteKeys("") == "";
  }

  const SyntaxPrefix := "Invalid JSON5 syntax: "
  const CommentHint := ". Check for unterminated comments."
  const CommaHint := ". Trailing commas might be causing issues."

  /** The message of the error `parseJSON5` throws when the native parse
      fails: a native message that names a position is wrapped with the
      comment hint when comments are on, otherwise with the comma hint when
      trailing commas are on; any other message is passed on. */
  function WrapError(m: string, o: Json5Options): (r: string)
    ensures Contains(r, m)
    ensures !Contains(m, "position") ==> r == m
    ensures !o.allowComments && !o.allowTrailingCommas ==> r == m
    ensures o.allowComments && Contains(m, "position") ==> r == SyntaxPrefix + m + CommentHint
    ensures !o.allowComments && o.allowTrailingCommas && Contains(m, "position") ==>
      r == SyntaxPrefix + m + CommaHint
    ensures r != m <==> (o.allowComments || o.allowTrailingCommas) && Contains(m, "position")
  {
    ContainsSelf(m);
    if o.allowComments && Contains(m, "position") then
      ContainsWithin(SyntaxPrefix, m, CommentHint, m);
      SyntaxPrefix + m + CommentHint
    else if o.allowTrailingCommas && Contains(m, "position") then
      ContainsWithin(SyntaxPrefix, m, CommaHint, m);
      SyntaxPrefix + m + CommaHint
    else m
  }

  /** The comma hint is only ever given when comments are off: with both
      features on, the comment branch catches every positional message
      first. */
  lemma CommaHintNeedsCommentsOff(m: string, o: Json5Options)
    requires WrapError(m, o) == SyntaxPrefix + m + CommaHint
    ensures !o.allowComments && o.allowTrailingCommas && Contains(m, "position")
  {
  }

  /** `parseJSON5`: the native parse of the preprocessed text, with a
      failure's message wrapped. */
  function ParseJson5(s: string, o: Json5Options, parse: NativeParse): (r: Result<Json, string>)
    ensures r.Ok? <==> parse(Preprocess(s, o)).Ok?
    ensures r.Ok? ==> r.value == parse(Preprocess(s, o)).value
    ensures r.Err? ==> Contains(r.error, parse(Preprocess(s, o)).error)
  {
    ParsePreprocessed(Preprocess(s, o), o, parse)
  }

  /** The native parse of text already preprocessed under `o`. */
  function ParsePreprocessed(p: string, o: Json5Options, parse: NativeParse): (r: Result<Json, string>)
    ensures r.Ok? <==> parse(p).Ok?
  {
    match parse(p)
    case Ok(v) => Ok(v)
    case Err(m) => Err(WrapError(m, o))
  }

  /** With every feature off `parseJSON5` is the native parse, message and
      all. */
  lemma StrictIsNative(s: string, parse: NativeParse)
    ensures ParseJson5(s, StrictJson5Options, parse) == parse(s)
  {
  }

  /** A string literal is never handed to the native parse as it was
      written: `parseJSON5('"abc"')` parses the text with eight closing
      quotes, and succeeds exactly when the parser accepts that. */
  lemma ParseJson5Literal(body: string, parse: NativeParse)
    requires '"' !in body
    ensures ParseJson5(['"'] + body + ['"'], DefaultJson5Options, parse).Ok? <==>
      parse(['"'] + body + Repeat('"', 8)).Ok?
  {
    PreprocessLiteral(body);
  }

  /** `parseJSON5` over the corrected passes. */
  function ParseJson5Fixed(s: string, o: Json5Options, parse: NativeParse): (r: Result<Json, string>)
    ensures r.Ok? <==> parse(PreprocessFixed(s, o)).Ok?
    ensures r.Ok? ==> r.value == parse(PreprocessFixed(s, o)).value
    ensures r.Err? ==> Contains(r.error, parse(PreprocessFixed(s, o)).error)
  {
    ParsePreprocessed(PreprocessFixed(s, o), o, parse)
  }

  /** With the corrected passes a well-formed string literal, escapes
      included, parses as the native parser reads it. */
  lemma ParseJson5FixedLiteral(body: string, o: Json5Options, parse: NativeParse)
    requires Json5Fixed.LiteralBody(body, '"')
    ensures ParseJson5Fixed(['"'] + body + ['"'], o, parse).Ok? <==> parse(['"'] + body + ['"']).Ok?
  {
    PreprocessFixedLiteral(body, o);
  }

  /** `formatJSON5`: plain `JSON.stringify` with `indentSize` spaces; a
      negative size makes `repeat` throw. The text reads back as the
      value. */
  function FormatJson5(v: Json, indentSize: int): (r: Result<string, string>)
    ensures indentSize < 0 <==> r.Err?
    ensures r.Ok? ==> ReadDocument(r.value) == Some(v)
  {
    if indentSize < 0 then Err("RangeError: Invalid count value")
    else
      var space := SpaceText(Repeat(' ', indentSize));
      SpacesAreGap(indentSize);
      StringifyRoundTrip(v, space);
      Ok(Stringify(v, space))
  }

  /** Any run of spaces makes a gap of JSON white space. */
  lemma SpacesAreGap(n: nat)
    ensures AllJsonWs(Gap(SpaceText(Repeat(' ', n))))
  {
    var g := Gap(SpaceText(Repeat(' ', n)));
    assert forall i :: 0 <= i < |g| ==> g[i] == Repeat(' ', n)[i];
  }

  /** `.replace(/a/g, b)` for single characters. */
  function ReplaceAll(s: string, a: char, b: char): (r: string)
    ensures |r| == |s|
    ensures forall i :: 0 <= i < |s| ==> r[i] == (if s[i] == a then b else s[i])
  {
    seq(|s|, i requires 0 <= i < |s| => if s[i] == a then b else s[i])
  }

  /** The `indent` option: a count of spaces or a literal string. */
  datatype Indent = IndentCount(n: int) | IndentText(text: string)

  /** `stringifyJSON5`: `JSON.stringify` with the indent, then double quotes
      become the chosen quote and every single quote becomes a double quote.
      The second replacement undoes the first, so `singleQuotes` has no
      effect, and a single quote inside a string value turns into a double
      quote as well. A negative count makes `repeat` throw. */
  function StringifyJson5(v: Json, indent: Indent, singleQuotes: bool): (r: Result<string, string>)
    ensures r.Err? <==> indent.IndentCount? && indent.n < 0
    ensures r.Ok? ==> '\'' !in r.value
  {
    match indent
    case IndentCount(n) =>
      if n < 0 then Err("RangeError: Invalid count value")
      else Ok(Requote(Stringify(v, SpaceText(Repeat(' ', n))), singleQuotes))
    case IndentText(t) => Ok(Requote(Stringify(v, SpaceText(t)), singleQuotes))
  }

  /** The two replacements of `stringifyJSON5`. */
  function Requote(s: string, singleQuotes: bool): (r: string)
    ensures |r| == |s| && '\'' !in r
  {
    ReplaceAll(ReplaceAll(s, '"', if singleQuotes then '\'' else '"'), '\'', '"')
  }

  /** Both settings of `singleQuotes` give the same text: every single
      quote, old or new, ends up a double quote. */
  lemma RequoteIgnoresOption(s: string)
    ensures Requote(s, true) == Requote(s, false)
    ensures forall i :: 0 <= i < |s| ==> Requote(s, true)[i] == (if s[i] == '\'' then '"' else s[i])
  {
  }

  /** Text without single quotes is left as `JSON.stringify` wrote it, so
      it reads back as the value. */
  lemma StringifyJson5ReadsBack(v: Json, n: nat, singleQuotes: bool)
    requires '\'' !in Stringify(v, SpaceText(Repeat(' ', n)))
    ensures StringifyJson5(v, IndentCount(n), singleQuotes) == Ok(Stringify(v, SpaceText(Repeat(' ', n))))
    ensures ReadDocument(StringifyJson5(v, IndentCount(n), singleQuotes).value) == Some(v)
  {
    var s := Stringify(v, SpaceText(Repeat(' ', n)));
    assert Requote(s, singleQuotes) == s;
    SpacesAreGap(n);
    StringifyRoundTrip(v, SpaceText(Repeat(' ', n)));
  }

  /** A single quote inside a string value is rewritten too: the string
      `it's` comes out as `"it"s"`, which no longer reads back. */
  lemma StringValueRequoted(w: string, singleQuotes: bool)
    requires forall i :: 0 <= i < |w| ==> Plain(w[i])
    ensures StringifyJson5(Str(w), IndentCount(2), singleQuotes) == Ok(['"'] + ReplaceAll(w, '\'', '"') + ['"'])
  {
    var s := Stringify(Str(w), SpaceText(Repeat(' ', 2)));
    EscapePlain(w);
    assert s == ['"'] + w + ['"'];
    RequoteQuoted(w, singleQuotes);
  }

  /** `Requote` on a quoted body: the quotes stay, and inside only single
      quotes change. */
  lemma RequoteQuoted(w: string, singleQuotes: bool)
    ensures Requote(['"'] + w + ['"'], singleQuotes) == ['"'] + ReplaceAll(w, '\'', '"') + ['"']
  {
    var s := ['"'] + w + ['"'];
    var r := Requote(s, singleQuotes);
    var expected := ['"'] + ReplaceAll(w, '\'', '"') + ['"'];
    forall i | 0 <= i < |r|
      ensures r[i] == expected[i]
    {
      if 0 < i < |r| - 1 {
        assert s[i] == w[i - 1];
      }
    }
    assert r == expected;
  }

  /** `convertJSONtoJSON5`: the input when the native parse fails,
      otherwise `stringifyJSON5` with its defaults (two spaces, which cannot
      throw). */
  function ConvertJsonToJson5(s: string, parse: NativeParse): (r: string)
    ensures parse(s).Err? ==> r == s
    ensures parse(s).Ok? ==> '\'' !in r && StringifyJson5(parse(s).value, IndentCount(2), false) == Ok(r)
  {
    match parse(s)
    case Err(_) => s
    case Ok(v) => StringifyJson5(v, IndentCount(2), false).value
  }

  /** `JSON.stringify(v, null, 2)`. */
  function Pretty(v: Json): (r: string)
    ensures ReadDocument(r) == Some(v)
  {
    StringifyRoundTrip(v, SpaceCount(2));
    Stringify(v, SpaceCount(2))
  }

  /** `convertJSON5toJSON`: the input when `parseJSON5` fails, otherwise
      the parsed value pretty-printed, which reads back as that value. */
  function ConvertJson5ToJson(s: string, parse: NativeParse): (r: string)
    ensures ParseJson5(s, DefaultJson5Options, parse).Err? ==> r == s
    ensures ParseJson5(s, DefaultJson5Options, parse).Ok? ==>
      ReadDocument(r) == Some(ParseJson5(s, DefaultJson5Options, parse).value)
  {
    match ParseJson5(s, DefaultJson5Options, parse)
    case Err(_) => s
    case Ok(v) => Pretty(v)
  }

  /** `stripJSON5Comments`: the comment pass alone. */
  function StripJson5Comments(s: string): (r: string)
    ensures '/' !in s && '"' !in s && '\'' !in s ==> r == s
  {
    var r := Json5.StripComments(s);
    if '/' !in s && '"' !in s && '\'' !in s then
      Json5.StripPlainPrefix(s, "");
      assert s + "" == s;
      r
    else r
  }

  /** As written, the comment pass copies a closed literal with its
      closing quote doubled: `stripJSON5Comments('"ab"')` is `"ab""`. */
  lemma StripJson5CommentsLiteral(q: char, body: string)
    requires Json5.IsQuote(q) && q !in body
    ensures StripJson5Comments([q] + body + [q]) == [q] + body + [q, q]
  {
    Json5.StripLiteralGrows(q, body);
  }

  /** The result object of `validateJSON5`. */
  datatype Json5Validation = Json5Validation(isValid: bool, errors: seq<string>, cleaned: Option<string>)

  /** `validateJSON5`: valid with the pretty-printed value when `parseJSON5`
      succeeds, otherwise invalid with the one error message. */
  function ValidateJson5(s: string, parse: NativeParse): (r: Json5Validation)
    ensures r.isValid <==> ParseJson5(s, DefaultJson5Options, parse).Ok?
    ensures r.isValid <==> |r.errors| == 0
    ensures r.isValid <==> r.cleaned.Some?
    ensures r.isValid ==> ReadDocument(r.cleaned.value) == Some(ParseJson5(s, DefaultJson5Options, parse).value)
    ensures !r.isValid ==> r.errors == [ParseJson5(s, DefaultJson5Options, parse).error]
  {
    match ParseJson5(s, DefaultJson5Options, parse)
    case Ok(v) => Json5Validation(true, [], Some(Pretty(v)))
    case Err(m) => Json5Validation(false, [m], None)
  }

  /** `removeJSON5Features`: all three passes, then the native parse; the
      pretty-printed value when it succeeds, the rewritten text when it
      fails. */
  function RemoveJson5Features(s: string, parse: NativeParse): (r: string)
    ensures parse(Preprocess(s, DefaultJson5Options)).Err? ==> r == Preprocess(s, DefaultJson5Options)
    ensures parse(Preprocess(s, DefaultJson5Options)).Ok? ==>
      ReadDocument(r) == Some(parse(Preprocess(s, DefaultJson5Options)).value)
  {
    var cleaned := Json5Keys.UnquoteKeys(Json5Commas.StripTrailingCommas(Json5.StripComments(s)));
    match parse(cleaned)
    case Ok(v) => Pretty(v)
    case Err(_) => cleaned
  }

  /** Where `parseJSON5` succeeds, removing the features and converting to
      JSON give the same text; where it fails, conversion hands back the
      input and removal the rewritten text. */
  lemma RemoveMatchesConvert(s: string, parse: NativeParse)
    ensures ParseJson5(s, DefaultJson5Options, parse).Ok? ==> RemoveJson5Features(s, parse) == ConvertJson5ToJson(s, parse)
    ensures ParseJson5(s, DefaultJson5Options, parse).Err? ==>
      ConvertJson5ToJson(s, parse) == s && RemoveJson5Features(s, parse) == Preprocess(s, DefaultJson5Options)
  {
  }
}
