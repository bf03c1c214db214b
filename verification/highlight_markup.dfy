/** The HTML side of `utils/syntaxHighlighter.ts`: `escapeHtml`, the span
    markup of `applySyntaxHighlighting`, `highlightJSON`, the key/value
    classifier of `highlightKeyValuePairs` and `generateLineNumbers`. */
module HighlightMarkup {
  import opened Chars
  import opened Types
  import opened Highlighter

  // ---------------------------------------------------------------------
  // escapeHtml

  /** `s.replace(/c/g, rep)`. */
  function ReplaceEvery(s: string, c: char, rep: string): string
    decreases |s|
  {
    if |s| == 0 then "" else (if s[0] == c then rep else [s[0]]) + ReplaceEvery(s[1..], c, rep)
  }

  /** `escapeHtml`: five global replacements, the ampersand first. */
  function EscapeHtml(s: string): string {
    ReplaceEvery(ReplaceEvery(ReplaceEvery(ReplaceEvery(ReplaceEvery(
      s, '&', "&amp;"), '<', "&lt;"), '>', "&gt;"), '"', "&quot;"), '\'', "&#039;")
  }

  /** What a single character becomes in HTML text. */
  function Entity(c: char): string {
    if c == '&' then "&amp;"
    else if c == '<' then "&lt;"
    else if c == '>' then "&gt;"
    else if c == '"' then "&quot;"
    else if c == '\'' then "&#039;"
    else [c]
  }

  /** The reference: every character replaced by its entity, on its own. */
  function EscapeEach(s: string): string
    decreases |s|
  {
    if |s| == 0 then "" else Entity(s[0]) + EscapeEach(s[1..])
  }

  lemma {:induction false} ReplaceAppend(a: string, b: string, c: char, rep: string)
    ensures ReplaceEvery(a + b, c, rep) == ReplaceEvery(a, c, rep) + ReplaceEvery(b, c, rep)
    decreases |a|
  {
    if |a| == 0 {
      assert a + b == b;
    } else {
      assert (a + b)[1..] == a[1..] + b;
      ReplaceAppend(a[1..], b, c, rep);
    }
  }

  lemma {:induction false} ReplaceAbsent(s: string, c: char, rep: string)
    requires c !in s
    ensures ReplaceEvery(s, c, rep) == s
    decreases |s|
  {
    if |s| > 0 {
      assert forall x :: x in s[1..] ==> x in s;
      ReplaceAbsent(s[1..], c, rep);
      assert s == [s[0]] + s[1..];
    }
  }

  lemma ReplaceOne(x: char, c: char, rep: string)
    ensures ReplaceEvery([x], c, rep) == if x == c then rep else [x]
  {
    assert [x][1..] == [];
  }

  lemma EscapeAppend(a: string, b: string)
    ensures EscapeHtml(a + b) == EscapeHtml(a) + EscapeHtml(b)
  {
    var a1, b1 := ReplaceEvery(a, '&', "&amp;"), ReplaceEvery(b, '&', "&amp;");
    ReplaceAppend(a, b, '&', "&amp;");
    var a2, b2 := ReplaceEvery(a1, '<', "&lt;"), ReplaceEvery(b1, '<', "&lt;");
    ReplaceAppend(a1, b1, '<', "&lt;");
    var a3, b3 := ReplaceEvery(a2, '>', "&gt;"), ReplaceEvery(b2, '>', "&gt;");
    ReplaceAppend(a2, b2, '>', "&gt;");
    var a4, b4 := ReplaceEvery(a3, '"', "&quot;"), ReplaceEvery(b3, '"', "&quot;");
    ReplaceAppend(a3, b3, '"', "&quot;");
    ReplaceAppend(a4, b4, '\'', "&#039;");
  }

  /** A text none of whose characters a pass replaces goes through it. */
  lemma ReplacePlain(w: string, c: char, rep: string)
    requires c !in w
    ensures ReplaceEvery(w, c, rep) == w
  {
    ReplaceAbsent(w, c, rep);
  }

  /** Text without `<`, `>`, `"` and `'` goes through the last four
      passes unchanged. */
  lemma InertStays(e: string)
    requires Inert(e)
    ensures ReplaceEvery(e, '<', "&lt;") == e && ReplaceEvery(e, '>', "&gt;") == e
    ensures ReplaceEvery(e, '"', "&quot;") == e && ReplaceEvery(e, '\'', "&#039;") == e
  {
    ReplaceAbsent(e, '<', "&lt;");
    ReplaceAbsent(e, '>', "&gt;");
    ReplaceAbsent(e, '"', "&quot;");
    ReplaceAbsent(e, '\'', "&#039;");
  }

  /** One character through the five passes: the entities written by an
      earlier pass hold nothing a later pass replaces. */
  lemma EscapeOne(x: char)
    ensures EscapeHtml([x]) == Entity(x)
  {
    ReplaceOne(x, '&', "&amp;");
    if x == '&' {
      InertStays("&amp;");
    } else {
      ReplaceOne(x, '<', "&lt;");
      if x == '<' {
        InertStays("&lt;");
      } else {
        EscapeOneLate(x);
      }
    }
  }

  lemma EscapeOneLate(x: char)
    requires x != '&' && x != '<'
    ensures ReplaceEvery(ReplaceEvery(ReplaceEvery([x], '>', "&gt;"), '"', "&quot;"), '\'', "&#039;")
      == Entity(x)
  {
    ReplaceOne(x, '>', "&gt;");
    if x == '>' {
      InertStays("&gt;");
    } else {
      ReplaceOne(x, '"', "&quot;");
      if x == '"' {
        InertStays("&quot;");
      } else {
        ReplaceOne(x, '\'', "&#039;");
      }
    }
  }

  /** `escapeHtml` is the per-character entity map: the sequential
      replacements never touch an entity an earlier one wrote. */
  lemma {:induction false} EscapeHtmlIsEach(s: string)
    ensures EscapeHtml(s) == EscapeEach(s)
    decreases |s|
  {
    if |s| == 0 {
      assert EscapeHtml(s) == "";
    } else {
      assert s == [s[0]] + s[1..];
      EscapeAppend([s[0]], s[1..]);
      EscapeOne(s[0]);
      EscapeHtmlIsEach(s[1..]);
    }
  }

  /** None of `<`, `>`, `"` and `'` is left in escaped text. */
  predicate Inert(h: string) {
    '<' !in h && '>' !in h && '"' !in h && '\'' !in h
  }

  lemma {:induction false} EscapeEachInert(s: string)
    ensures Inert(EscapeEach(s))
    decreases |s|
  {
    if |s| > 0 {
      EscapeEachInert(s[1..]);
    }
  }

  lemma EscapeHtmlInert(s: string)
    ensures Inert(EscapeHtml(s))
  {
    EscapeHtmlIsEach(s);
    EscapeEachInert(s);
  }

  // ---------------------------------------------------------------------
  // Markup

  /** The CSS class of each kind of token; white space gets no span. */
  function ClassName(kind: TokenType): string {
    match kind
    case KeyToken => "syntax-key"
    case StringToken => "syntax-string"
    case NumberToken => "syntax-number"
    case BooleanToken => "syntax-boolean"
    case NullToken => "syntax-null"
    case BracketToken => "syntax-brackets"
    case OperatorToken => "syntax-operator"
    case WhitespaceToken => ""
  }

  /** The inside of the opening tag, between `<` and `>`. */
  function OpenTag(kind: TokenType): string {
    "span class=\"" + ClassName(kind) + "\""
  }

  /** `applySyntaxHighlighting` for a token of `kind` holding `value`: the
      escaped text, inside a span unless it is white space. */
  function Markup(kind: TokenType, value: string): string {
    if kind == WhitespaceToken then EscapeHtml(value)
    else "<" + OpenTag(kind) + ">" + EscapeHtml(value) + "</span>"
  }

  /** Concatenation of the markup of `ts`, each marked with the kind of the
      same index in `kinds`. */
  function MarkupAll(kinds: seq<TokenType>, ts: seq<SyntaxToken>): string
    requires |kinds| == |ts|
    decreases |ts|
  {
    if |ts| == 0 then "" else Markup(kinds[0], ts[0].value) + MarkupAll(kinds[1..], ts[1..])
  }

  function KindsOf(ts: seq<SyntaxToken>): (ks: seq<TokenType>)
    ensures |ks| == |ts|
  {
    seq(|ts|, k requires 0 <= k < |ts| => ts[k].kind)
  }

  /** `highlightJSON`: every token marked by its own kind. */
  function HighlightJson(s: string): string {
    if |s| == 0 then "" else
      var ts := TokenizeJson(s);
      MarkupAll(KindsOf(ts), ts)
  }

  /** The text a browser shows: everything outside `<...>` tags. */
  function DropTags(h: string): string
    decreases |h|
  {
    if |h| == 0 then ""
    else if h[0] == '<' then
      var j := IndexOf(h, '>', 1);
      if j < |h| then DropTags(h[j + 1..]) else ""
    else [h[0]] + DropTags(h[1..])
  }

  lemma {:induction false} DropPlain(a: string, b: string)
    requires '<' !in a
    ensures DropTags(a + b) == a + DropTags(b)
    decreases |a|
  {
    if |a| == 0 {
      assert a + b == b;
    } else {
      assert (a + b)[1..] == a[1..] + b;
      assert forall x :: x in a[1..] ==> x in a;
      DropPlain(a[1..], b);
      ConsAppend(a, DropTags(b));
    }
  }

  lemma DropTag(u: string, b: string)
    requires '>' !in u
    ensures DropTags("<" + u + ">" + b) == DropTags(b)
  {
    var h := "<" + u + ">" + b;
    IndexOfIs(h, '>', 1, |u| + 1);
    assert h[|u| + 2..] == b;
  }

  lemma OpenTagClosed(kind: TokenType)
    ensures '>' !in OpenTag(kind)
  {
  }

  /** Dropping the tags from one token's markup leaves its escaped text. */
  lemma DropMarkup(kind: TokenType, value: string, b: string)
    ensures DropTags(Markup(kind, value) + b) == EscapeHtml(value) + DropTags(b)
  {
    var e := EscapeHtml(value);
    EscapeHtmlInert(value);
    if kind == WhitespaceToken {
      DropPlain(e, b);
    } else {
      OpenTagClosed(kind);
      DropSpan(OpenTag(kind), e, b);
    }
  }

  /** A span around text without `<` shows just the text. */
  lemma DropSpan(u: string, e: string, b: string)
    requires '>' !in u && '<' !in e
    ensures DropTags("<" + u + ">" + e + "</span>" + b) == e + DropTags(b)
  {
    var open, close := "<" + u + ">", "</span>";
    Regroup(open, e, close, b);
    DropTag(u, e + (close + b));
    DropPlain(e, close + b);
    CloseTagShape();
    DropTag("/span", b);
  }

  lemma Regroup(p: string, e: string, c: string, b: string)
    ensures p + e + c + b == p + (e + (c + b))
  {
  }

  lemma CloseTagShape()
    ensures "</span>" == "<" + "/span" + ">"
  {
  }

  /** The escaped token texts, concatenated. */
  function EscapedText(ts: seq<SyntaxToken>): string
    decreases |ts|
  {
    if |ts| == 0 then "" else EscapeHtml(ts[0].value) + EscapedText(ts[1..])
  }

  /** Whatever kinds mark the tokens, the text left between the tags is
      their escaped text. */
  lemma {:induction false} DropMarkupAll(kinds: seq<TokenType>, ts: seq<SyntaxToken>)
    requires |kinds| == |ts|
    ensures DropTags(MarkupAll(kinds, ts)) == EscapedText(ts)
    decreases |ts|
  {
    if |ts| > 0 {
      DropMarkup(kinds[0], ts[0].value, MarkupAll(kinds[1..], ts[1..]));
      DropMarkupAll(kinds[1..], ts[1..]);
    }
  }

  lemma {:induction false} EscapedTextIsEscape(ts: seq<SyntaxToken>)
    ensures EscapedText(ts) == EscapeHtml(Text(ts))
    decreases |ts|
  {
    if |ts| == 0 {
      assert EscapeHtml("") == "";
    } else {
      EscapedTextIsEscape(ts[1..]);
      EscapeAppend(ts[0].value, Text(ts[1..]));
    }
  }

  /** The highlighted text reads as the input: with the tags dropped,
      `highlightJSON` gives the escaped input. */
  lemma HighlightShowsInput(s: string)
    ensures DropTags(HighlightJson(s)) == EscapeHtml(s)
  {
    if |s| == 0 {
      assert EscapeHtml(s) == "";
    } else {
      var ts := TokenizeJson(s);
      DropMarkupAll(KindsOf(ts), ts);
      EscapedTextIsEscape(ts);
      TokenizeCovers(s);
    }
  }

  // ---------------------------------------------------------------------
  // highlightKeyValuePairs

  /** The kind a token is marked with: a string met while a key is
      expected is a key, every other token keeps its kind. */
  function Mark(t: SyntaxToken, expectKey: bool): TokenType {
    if t.kind == StringToken && expectKey then KeyToken else t.kind
  }

  /** The expectation after a token as written: a `:` or `,` bracket sets
      it to whether it is the `:`, which is the wrong way round; a key
      ends it. */
  function AsWrittenNext(t: SyntaxToken, expectKey: bool): bool {
    if t.kind == BracketToken && (t.value == ":" || t.value == ",") then t.value == ":"
    else expectKey && t.kind != StringToken
  }

  /** `highlightKeyValuePairs`'s classifier as written, from `expectKey`. */
  function PairKinds(ts: seq<SyntaxToken>, expectKey: bool): (ks: seq<TokenType>)
    ensures |ks| == |ts|
    decreases |ts|
  {
    if |ts| == 0 then []
    else [Mark(ts[0], expectKey)] + PairKinds(ts[1..], AsWrittenNext(ts[0], expectKey))
  }

  /** The expectation as written after the first `n` tokens. */
  function StateAt(ts: seq<SyntaxToken>, expectKey: bool, n: nat): bool
    requires n <= |ts|
    decreases n
  {
    if n == 0 then expectKey else StateAt(ts[1..], AsWrittenNext(ts[0], expectKey), n - 1)
  }

  /** As written, the `n`th token is marked from the expectation the
      tokens before it leave. */
  lemma {:induction false} PairKindsAt(ts: seq<SyntaxToken>, expectKey: bool, n: nat)
    requires n < |ts|
    ensures PairKinds(ts, expectKey)[n] == Mark(ts[n], StateAt(ts, expectKey, n))
    decreases n
  {
    if n > 0 {
      PairKindsAt(ts[1..], AsWrittenNext(ts[0], expectKey), n - 1);
    }
  }

  /** The corrected state after a token: the stack of open brackets (`true`
      for a brace) and whether a key is expected. A key is expected after
      `{`, and after `,` exactly when the innermost open bracket is a
      brace; `:`, `[`, a closing bracket and a key end the expectation. */
  function Next(t: SyntaxToken, open: seq<bool>, expectKey: bool): (seq<bool>, bool) {
    if t.kind != BracketToken then (open, expectKey && t.kind != StringToken)
    else if t.value == "{" then (open + [true], true)
    else if t.value == "[" then (open + [false], false)
    else if t.value == "}" || t.value == "]" then (if |open| > 0 then open[..|open| - 1] else open, false)
    else if t.value == ":" then (open, false)
    else if t.value == "," then (open, |open| > 0 && open[|open| - 1])
    else (open, expectKey)
  }

  /** The corrected classifier, from a stack of open brackets and an
      expectation. */
  function PairKindsFixed(ts: seq<SyntaxToken>, open: seq<bool>, expectKey: bool): (ks: seq<TokenType>)
    ensures |ks| == |ts|
    decreases |ts|
  {
    if |ts| == 0 then []
    else
      var after := Next(ts[0], open, expectKey);
      [Mark(ts[0], expectKey)] + PairKindsFixed(ts[1..], after.0, after.1)
  }

  /** `highlightKeyValuePairs` as written. */
  function HighlightPairs(s: string): string {
    if |s| == 0 then "" else
      var ts := TokenizeJson(s);
      MarkupAll(PairKinds(ts, true), ts)
  }

  /** `highlightKeyValuePairs` with the corrected classifier. */
  function HighlightPairsFixed(s: string): string {
    if |s| == 0 then "" else
      var ts := TokenizeJson(s);
      MarkupAll(PairKindsFixed(ts, [], true), ts)
  }

  /** Either way the text between the tags is the escaped input. */
  lemma HighlightPairsShowsInput(s: string)
    ensures DropTags(HighlightPairs(s)) == EscapeHtml(s)
    ensures DropTags(HighlightPairsFixed(s)) == EscapeHtml(s)
  {
    if |s| == 0 {
      assert EscapeHtml(s) == "";
    } else {
      var ts := TokenizeJson(s);
      DropMarkupAll(PairKindsFixed(ts, [], true), ts);
      DropMarkupAll(PairKinds(ts, true), ts);
      EscapedTextIsEscape(ts);
      TokenizeCovers(s);
    }
  }

  // The reference: a JSON value as the tokenizer sees it, and the kind
  // each of its tokens should be marked with.

  /** A JSON value without white space, its scalars as token kind and
      text. */
  datatype Shape =
    | Leaf(kind: TokenType, text: string)
    | Members(fields: seq<Field>)
    | Items(elems: seq<Shape>)

  /** An object member: the key's token text and the value. */
  datatype Field = Field(key: string, val: Shape)

  /** Every scalar is a string, number, boolean or null. */
  predicate WellShaped(v: Shape)
    decreases v
  {
    match v
    case Leaf(k, _) => k == StringToken || k == NumberToken || k == BooleanToken || k == NullToken
    case Members(fs) => forall i | 0 <= i < |fs| :: WellShaped(fs[i].val)
    case Items(es) => forall i | 0 <= i < |es| :: WellShaped(es[i])
  }

  /** A token's kind and text, and the kind it should be marked with. */
  datatype Lex = Lex(kind: TokenType, value: string, mark: TokenType)

  function Punct(p: string): Lex {
    Lex(BracketToken, p, BracketToken)
  }

  /** The tokens of a value, each key marked as a key and every other
      token as its own kind. */
  function Render(v: Shape): (r: seq<Lex>)
    ensures |r| >= 1
    decreases v, 1
  {
    match v
    case Leaf(k, x) => [Lex(k, x, k)]
    case Members(_) => [Punct("{")] + RenderFields(v, 0) + [Punct("}")]
    case Items(_) => [Punct("[")] + RenderItems(v, 0) + [Punct("]")]
  }

  /** The members from the `i`th on, each after a comma but the first. */
  function RenderFields(v: Shape, i: nat): seq<Lex>
    requires v.Members? && i <= |v.fields|
    decreases v, 0, |v.fields| - i
  {
    if i == |v.fields| then []
    else
      (if i == 0 then [] else [Punct(",")])
      + KeyColon(v, i) + Render(v.fields[i].val) + RenderFields(v, i + 1)
  }

  /** The elements from the `i`th on, each after a comma but the first. */
  function RenderItems(v: Shape, i: nat): seq<Lex>
    requires v.Items? && i <= |v.elems|
    decreases v, 0, |v.elems| - i
  {
    if i == |v.elems| then []
    else (if i == 0 then [] else [Punct(",")]) + Render(v.elems[i]) + RenderItems(v, i + 1)
  }

  function Marks(r: seq<Lex>): seq<TokenType> {
    seq(|r|, k requires 0 <= k < |r| => r[k].mark)
  }

  /** The tokens start with the kinds and texts of `r`. */
  predicate Matches(ts: seq<SyntaxToken>, r: seq<Lex>) {
    |r| <= |ts| && forall k :: 0 <= k < |r| ==> ts[k].kind == r[k].kind && ts[k].value == r[k].value
  }

  lemma MarksAppend(a: seq<Lex>, b: seq<Lex>)
    ensures Marks(a + b) == Marks(a) + Marks(b)
  {
    assert forall k :: 0 <= k < |a + b| ==> Marks(a + b)[k] == (Marks(a) + Marks(b))[k];
  }

  lemma MatchesHead(ts: seq<SyntaxToken>, r: seq<Lex>)
    requires Matches(ts, r) && |r| > 0
    ensures ts[0].kind == r[0].kind && ts[0].value == r[0].value
  {
  }

  lemma MatchesPrefix(ts: seq<SyntaxToken>, a: seq<Lex>, b: seq<Lex>)
    requires Matches(ts, a + b)
    ensures Matches(ts, a)
  {
    assert forall k :: 0 <= k < |a| ==> (a + b)[k] == a[k];
  }

  lemma MatchesDrop(ts: seq<SyntaxToken>, r: seq<Lex>, n: nat)
    requires Matches(ts, r) && n <= |r|
    ensures Matches(ts[n..], r[n..])
  {
    assert forall k :: 0 <= k < |r| - n ==> ts[n..][k] == ts[n + k] && r[n..][k] == r[n + k];
  }

  /** From state `(o0, e0)` the tokens start with the marks `m`, after
      which the state is `(o1, e1)`. */
  predicate Run(ts: seq<SyntaxToken>, o0: seq<bool>, e0: bool, m: seq<TokenType>, o1: seq<bool>, e1: bool) {
    |m| <= |ts| && PairKindsFixed(ts, o0, e0) == m + PairKindsFixed(ts[|m|..], o1, e1)
  }

  lemma RunStep(ts: seq<SyntaxToken>, o: seq<bool>, e: bool)
    requires |ts| > 0
    ensures Run(ts, o, e, [Mark(ts[0], e)], Next(ts[0], o, e).0, Next(ts[0], o, e).1)
  {
  }

  lemma RunChain(ts: seq<SyntaxToken>, o0: seq<bool>, e0: bool, a: seq<TokenType>,
                 o1: seq<bool>, e1: bool, b: seq<TokenType>, o2: seq<bool>, e2: bool)
    requires Run(ts, o0, e0, a, o1, e1) && Run(ts[|a|..], o1, e1, b, o2, e2)
    ensures Run(ts, o0, e0, a + b, o2, e2)
  {
    assert ts[|a|..][|b|..] == ts[|a + b|..];
  }

  /** With the corrected classifier, a value met where no key is expected
      is marked as its reference says, and leaves the bracket stack and the
      expectation as it found them. */
  lemma {:induction false} FixedMarksValue(v: Shape, ts: seq<SyntaxToken>, open: seq<bool>)
    requires WellShaped(v) && Matches(ts, Render(v))
    ensures Run(ts, open, false, Marks(Render(v)), open, false)
    decreases v, 2
  {
    match v
    case Leaf(k, x) =>
      MatchesHead(ts, Render(v));
      RunStep(ts, open, false);
      assert Marks(Render(v)) == [k];
    case Members(_) =>
      FixedMarksObject(v, ts, open);
    case Items(_) =>
      FixedMarksArray(v, ts, open);
  }

  lemma {:induction false} FixedMarksObject(v: Shape, ts: seq<SyntaxToken>, open: seq<bool>)
    requires WellShaped(v) && v.Members? && Matches(ts, Render(v))
    ensures Run(ts, open, false, Marks(Render(v)), open, false)
    decreases v, 1
  {
    var inner := open + [true];
    var f := RenderFields(v, 0);
    var r := Render(v);
    var e := |v.fields| == 0;
    assert r == [Punct("{")] + (f + [Punct("}")]);
    MatchesHead(ts, r);
    RunStep(ts, open, false);
    assert Next(ts[0], open, false) == (inner, true);
    MatchesDrop(ts, r, 1);
    assert r[1..] == f + [Punct("}")];
    MatchesPrefix(ts[1..], f, [Punct("}")]);
    FixedMarksFields(v, 0, ts[1..], inner);
    MatchesDrop(ts[1..], f + [Punct("}")], |f|);
    assert (f + [Punct("}")])[|f|..] == [Punct("}")];
    var u := ts[1..][|Marks(f)|..];
    MatchesHead(u, [Punct("}")]);
    RunStep(u, inner, e);
    assert inner[..|inner| - 1] == open;
    assert Next(u[0], inner, e) == (open, false);
    RunChain(ts[1..], inner, true, Marks(f), inner, e, [BracketToken], open, false);
    RunChain(ts, open, false, [BracketToken], inner, true, Marks(f) + [BracketToken], open, false);
    MarksAppend([Punct("{")], f + [Punct("}")]);
    MarksAppend(f, [Punct("}")]);
    assert Marks([Punct("{")]) == [BracketToken] && Marks([Punct("}")]) == [BracketToken];
  }

  lemma {:induction false} FixedMarksArray(v: Shape, ts: seq<SyntaxToken>, open: seq<bool>)
    requires WellShaped(v) && v.Items? && Matches(ts, Render(v))
    ensures Run(ts, open, false, Marks(Render(v)), open, false)
    decreases v, 1
  {
    var inner := open + [false];
    var g := RenderItems(v, 0);
    var r := Render(v);
    assert r == [Punct("[")] + (g + [Punct("]")]);
    MatchesHead(ts, r);
    RunStep(ts, open, false);
    assert Next(ts[0], open, false) == (inner, false);
    MatchesDrop(ts, r, 1);
    assert r[1..] == g + [Punct("]")];
    MatchesPrefix(ts[1..], g, [Punct("]")]);
    FixedMarksItems(v, 0, ts[1..], inner);
    MatchesDrop(ts[1..], g + [Punct("]")], |g|);
    assert (g + [Punct("]")])[|g|..] == [Punct("]")];
    var u := ts[1..][|Marks(g)|..];
    MatchesHead(u, [Punct("]")]);
    RunStep(u, inner, false);
    assert inner[..|inner| - 1] == open;
    assert Next(u[0], inner, false) == (open, false);
    RunChain(ts[1..], inner, false, Marks(g), inner, false, [BracketToken], open, false);
    RunChain(ts, open, false, [BracketToken], inner, false, Marks(g) + [BracketToken], open, false);
    MarksAppend([Punct("[")], g + [Punct("]")]);
    MarksAppend(g, [Punct("]")]);
    assert Marks([Punct("[")]) == [BracketToken] && Marks([Punct("]")]) == [BracketToken];
  }

  lemma MatchesSplit(ts: seq<SyntaxToken>, a: seq<Lex>, b: seq<Lex>)
    requires Matches(ts, a + b)
    ensures Matches(ts, a) && Matches(ts[|a|..], b)
  {
    MatchesPrefix(ts, a, b);
    MatchesDrop(ts, a + b, |a|);
    assert (a + b)[|a|..] == b;
  }

  /** The key of the `i`th member, then its colon. */
  function KeyColon(v: Shape, i: nat): seq<Lex>
    requires v.Members? && i < |v.fields|
  {
    [Lex(StringToken, v.fields[i].key, KeyToken), Punct(":")]
  }

  /** One member met while a key is expected: its key is marked as a key,
      its value as the reference says, and no key is expected after it. */
  lemma {:induction false} FixedMarksMember(v: Shape, i: nat, ts: seq<SyntaxToken>, open: seq<bool>)
    requires WellShaped(v) && v.Members? && i < |v.fields|
    requires Matches(ts, KeyColon(v, i) + Render(v.fields[i].val))
    ensures Run(ts, open, true, Marks(KeyColon(v, i) + Render(v.fields[i].val)), open, false)
    decreases v, 0, |v.fields| - i, 1
  {
    var key := KeyColon(v, i);
    var rv := Render(v.fields[i].val);
    assert WellShaped(v.fields[i].val);
    MatchesSplit(ts, key, rv);
    MatchesHead(ts, key);
    RunStep(ts, open, true);
    MatchesDrop(ts, key, 1);
    MatchesHead(ts[1..], key[1..]);
    RunStep(ts[1..], open, false);
    RunChain(ts, open, true, [KeyToken], open, false, [BracketToken], open, false);
    assert Marks(key) == [KeyToken] + [BracketToken];
    FixedMarksValue(v.fields[i].val, ts[|Marks(key)|..], open);
    RunChain(ts, open, true, Marks(key), open, false, Marks(rv), open, false);
    MarksAppend(key, rv);
  }

  /** Inside a brace, the members from the `i`th on: each key is marked as
      a key, and a key is still expected at the end only for an empty
      object. */
  lemma {:induction false} FixedMarksFields(v: Shape, i: nat, ts: seq<SyntaxToken>, open: seq<bool>)
    requires WellShaped(v) && v.Members? && i <= |v.fields|
    requires Matches(ts, RenderFields(v, i))
    requires |open| > 0 && open[|open| - 1]
    ensures Run(ts, open, i == 0, Marks(RenderFields(v, i)), open, i == 0 && i == |v.fields|)
    decreases v, 0, |v.fields| - i, 2
  {
    var r := RenderFields(v, i);
    if i == |v.fields| {
      assert r == [] && Marks(r) == [] && ts[0..] == ts;
    } else {
      var c := if i == 0 then [] else [Punct(",")];
      var m := KeyColon(v, i) + Render(v.fields[i].val);
      var rest := RenderFields(v, i + 1);
      assert r == c + (m + rest);
      MatchesSplit(ts, c, m + rest);
      if i == 0 {
        assert Marks(c) == [] && ts[0..] == ts;
        assert Run(ts, open, true, Marks(c), open, true);
      } else {
        MatchesHead(ts, c);
        RunStep(ts, open, false);
        assert Next(ts[0], open, false) == (open, true);
        assert Marks(c) == [BracketToken];
      }
      var t1 := ts[|Marks(c)|..];
      MatchesSplit(t1, m, rest);
      FixedMarksMember(v, i, t1, open);
      FixedMarksFields(v, i + 1, t1[|Marks(m)|..], open);
      RunChain(t1, open, true, Marks(m), open, false, Marks(rest), open, false);
      RunChain(ts, open, i == 0, Marks(c), open, true, Marks(m) + Marks(rest), open, false);
      MarksAppend(m, rest);
      MarksAppend(c, m + rest);
    }
  }

  /** Inside a square bracket, the elements from the `i`th on: no string
      of theirs outside an object is marked as a key. */
  lemma {:induction false} FixedMarksItems(v: Shape, i: nat, ts: seq<SyntaxToken>, open: seq<bool>)
    requires WellShaped(v) && v.Items? && i <= |v.elems|
    requires Matches(ts, RenderItems(v, i))
    requires |open| > 0 && !open[|open| - 1]
    ensures Run(ts, open, false, Marks(RenderItems(v, i)), open, false)
    decreases v, 0, |v.elems| - i
  {
    var r := RenderItems(v, i);
    if i == |v.elems| {
      assert r == [] && Marks(r) == [] && ts[0..] == ts;
    } else {
      var c := if i == 0 then [] else [Punct(",")];
      var rv := Render(v.elems[i]);
      var rest := RenderItems(v, i + 1);
      assert WellShaped(v.elems[i]);
      assert r == c + (rv + rest);
      MatchesSplit(ts, c, rv + rest);
      if i == 0 {
        assert Marks(c) == [] && ts[0..] == ts;
        assert Run(ts, open, false, Marks(c), open, false);
      } else {
        MatchesHead(ts, c);
        RunStep(ts, open, false);
        assert Next(ts[0], open, false) == (open, false);
        assert Marks(c) == [BracketToken];
      }
      var t1 := ts[|Marks(c)|..];
      MatchesSplit(t1, rv, rest);
      FixedMarksValue(v.elems[i], t1, open);
      FixedMarksItems(v, i + 1, t1[|Marks(rv)|..], open);
      RunChain(t1, open, false, Marks(rv), open, false, Marks(rest), open, false);
      RunChain(ts, open, false, Marks(c), open, false, Marks(rv) + Marks(rest), open, false);
      MarksAppend(rv, rest);
      MarksAppend(c, rv + rest);
    }
  }

  /** With the corrected classifier, the tokens of an object or array are
      marked exactly as the reference says: the keys of every object, at
      any depth, as keys, and every other string as a string. */
  lemma FixedMarksKeys(v: Shape, ts: seq<SyntaxToken>)
    requires WellShaped(v) && (v.Members? || v.Items?)
    requires Matches(ts, Render(v)) && |ts| == |Render(v)|
    ensures PairKindsFixed(ts, [], true) == Marks(Render(v))
  {
    var r := Render(v);
    MatchesHead(ts, r);
    assert ts[0].kind == BracketToken && (ts[0].value == "{" || ts[0].value == "[");
    assert Next(ts[0], [], true) == Next(ts[0], [], false);
    assert PairKindsFixed(ts, [], true) == PairKindsFixed(ts, [], false);
    FixedMarksValue(v, ts, []);
    assert ts[|Marks(r)|..] == [];
  }

  /** `{"a":{"b":"c"}}`. */
  const NestedObject: Shape :=
    Members([Field("\"a\"", Members([Field("\"b\"", Leaf(StringToken, "\"c\""))]))])

  /** `["x","y"]`. */
  const StringArray: Shape :=
    Items([Leaf(StringToken, "\"x\""), Leaf(StringToken, "\"y\"")])

  lemma NestedObjectRender()
    ensures Render(NestedObject) == [
      Punct("{"), Lex(StringToken, "\"a\"", KeyToken), Punct(":"),
      Punct("{"), Lex(StringToken, "\"b\"", KeyToken), Punct(":"), Lex(StringToken, "\"c\"", StringToken),
      Punct("}"), Punct("}")]
  {
    var inner := Members([Field("\"b\"", Leaf(StringToken, "\"c\""))]);
    assert RenderFields(inner, 1) == [];
    assert Render(inner) == [Punct("{")] + KeyColon(inner, 0) + [Lex(StringToken, "\"c\"", StringToken)] + [Punct("}")];
    assert RenderFields(NestedObject, 1) == [];
    assert Render(NestedObject) == [Punct("{")] + KeyColon(NestedObject, 0) + Render(inner) + [Punct("}")];
  }

  /** In `{"a":{"b":"c"}}` the corrected classifier marks both keys as
      keys and the value `"c"` as a string. */
  lemma {:induction false} NestedObjectMarked(ts: seq<SyntaxToken>)
    requires Matches(ts, Render(NestedObject)) && |ts| == |Render(NestedObject)|
    ensures PairKindsFixed(ts, [], true)
      == [BracketToken, KeyToken, BracketToken, BracketToken, KeyToken, BracketToken, StringToken, BracketToken, BracketToken]
  {
    NestedObjectRender();
    assert WellShaped(NestedObject) by {
      assert WellShaped(Leaf(StringToken, "\"c\""));
      assert WellShaped(Members([Field("\"b\"", Leaf(StringToken, "\"c\""))]));
    }
    FixedMarksKeys(NestedObject, ts);
    assert Marks(Render(NestedObject))
      == [BracketToken, KeyToken, BracketToken, BracketToken, KeyToken, BracketToken, StringToken, BracketToken, BracketToken];
  }

  /** As written, the value `"c"` of `{"a":{"b":"c"}}` is marked as a key:
      the colon before it sets the expectation. */
  lemma {:induction false} NestedObjectAsWritten(ts: seq<SyntaxToken>)
    requires Matches(ts, Render(NestedObject)) && |ts| == |Render(NestedObject)|
    ensures PairKinds(ts, true)[6] == KeyToken
  {
    NestedObjectRender();
    var r := Render(NestedObject);
    assert ts[5].kind == BracketToken && ts[5].value == ":" && ts[6].kind == StringToken;
    var t5 := ts[5..];
    assert StateAt(ts, true, 6) == StateAt(t5, StateAt(ts, true, 5), 1) by {
      StateSplit(ts, true, 5, 1);
    }
    assert t5[0] == ts[5];
    PairKindsAt(ts, true, 6);
  }

  /** The expectation after `n + m` tokens is that after `m` more tokens
      from the one after `n`. */
  lemma {:induction false} StateSplit(ts: seq<SyntaxToken>, e: bool, n: nat, m: nat)
    requires n + m <= |ts|
    ensures StateAt(ts, e, n + m) == StateAt(ts[n..], StateAt(ts, e, n), m)
    decreases n
  {
    if n == 0 {
      assert ts[0..] == ts;
    } else {
      StateSplit(ts[1..], AsWrittenNext(ts[0], e), n - 1, m);
      assert ts[1..][n - 1..] == ts[n..];
    }
  }

  /** In `["x","y"]` the corrected classifier marks no element as a key;
      as written, the first element is marked as a key. */
  lemma {:induction false} StringArrayMarked(ts: seq<SyntaxToken>)
    requires Matches(ts, Render(StringArray)) && |ts| == |Render(StringArray)|
    ensures PairKindsFixed(ts, [], true) == [BracketToken, StringToken, BracketToken, StringToken, BracketToken]
    ensures PairKinds(ts, true)[1] == KeyToken
  {
    var x, y := Leaf(StringToken, "\"x\""), Leaf(StringToken, "\"y\"");
    assert RenderItems(StringArray, 2) == [];
    assert RenderItems(StringArray, 1) == [Punct(",")] + Render(y);
    assert Render(StringArray) == [Punct("[")] + Render(x) + [Punct(","), Lex(StringToken, "\"y\"", StringToken)] + [Punct("]")];
    var r := Render(StringArray);
    assert WellShaped(StringArray) by {
      assert WellShaped(x) && WellShaped(y);
    }
    FixedMarksKeys(StringArray, ts);
    assert Marks(r) == [BracketToken, StringToken, BracketToken, StringToken, BracketToken];
    assert ts[0].kind == BracketToken && ts[0].value == "[" && ts[1].kind == StringToken;
    PairKindsAt(ts, true, 1);
  }

  /** A key's reference mark is a key, and every other token's is its own
      kind. */
  lemma {:induction false} MarksAreKinds(v: Shape, k: nat)
    requires WellShaped(v) && k < |Render(v)|
    ensures Render(v)[k].mark == KeyToken || Render(v)[k].mark == Render(v)[k].kind
    ensures Render(v)[k].mark == KeyToken ==> Render(v)[k].kind == StringToken
    decreases v, 1
  {
    match v
    case Leaf(_, _) =>
    case Members(_) =>
      if 0 < k < |Render(v)| - 1 {
        FieldsMarksAreKinds(v, 0, k - 1);
      }
    case Items(_) =>
      if 0 < k < |Render(v)| - 1 {
        ItemsMarksAreKinds(v, 0, k - 1);
      }
  }

  lemma {:induction false} FieldsMarksAreKinds(v: Shape, i: nat, k: nat)
    requires WellShaped(v) && v.Members? && i <= |v.fields| && k < |RenderFields(v, i)|
    ensures RenderFields(v, i)[k].mark == KeyToken || RenderFields(v, i)[k].mark == RenderFields(v, i)[k].kind
    ensures RenderFields(v, i)[k].mark == KeyToken ==> RenderFields(v, i)[k].kind == StringToken
    decreases v, 0, |v.fields| - i
  {
    var c := if i == 0 then [] else [Punct(",")];
    var key := KeyColon(v, i);
    var rv := Render(v.fields[i].val);
    var rest := RenderFields(v, i + 1);
    assert RenderFields(v, i) == (c + key) + rv + rest;
    assert WellShaped(v.fields[i].val);
    if k < |c + key| {
    } else if k < |c + key| + |rv| {
      MarksAreKinds(v.fields[i].val, k - |c + key|);
    } else {
      FieldsMarksAreKinds(v, i + 1, k - |c + key| - |rv|);
    }
  }

  lemma {:induction false} ItemsMarksAreKinds(v: Shape, i: nat, k: nat)
    requires WellShaped(v) && v.Items? && i <= |v.elems| && k < |RenderItems(v, i)|
    ensures RenderItems(v, i)[k].mark == KeyToken || RenderItems(v, i)[k].mark == RenderItems(v, i)[k].kind
    ensures RenderItems(v, i)[k].mark == KeyToken ==> RenderItems(v, i)[k].kind == StringToken
    decreases v, 0, |v.elems| - i
  {
    var c := if i == 0 then [] else [Punct(",")];
    var rv := Render(v.elems[i]);
    var rest := RenderItems(v, i + 1);
    assert RenderItems(v, i) == c + rv + rest;
    assert WellShaped(v.elems[i]);
    if k < |c| {
    } else if k < |c| + |rv| {
      MarksAreKinds(v.elems[i], k - |c|);
    } else {
      ItemsMarksAreKinds(v, i + 1, k - |c| - |rv|);
    }
  }

  predicate IsString(t: SyntaxToken) {
    t.kind == StringToken
  }

  predicate IsSeparator(t: SyntaxToken, sep: string) {
    t.kind == BracketToken && t.value == sep
  }

  /** The tokens of the members of a flat object whose values are strings,
      with no white space: key, `:`, value, then `,` before the next
      member. */
  predicate StringMembers(ts: seq<SyntaxToken>)
    decreases |ts|
  {
    && |ts| >= 3 && IsString(ts[0]) && IsSeparator(ts[1], ":") && IsString(ts[2])
    && (|ts| == 3 || (|ts| >= 4 && IsSeparator(ts[3], ",") && StringMembers(ts[4..])))
  }

  /** Every key marked as a key and every value as a string. */
  predicate KeysAndValues(ts: seq<SyntaxToken>, ks: seq<TokenType>)
    requires |ks| == |ts|
    decreases |ts|
  {
    && |ts| >= 3 && ks[0] == KeyToken && ks[1] == BracketToken && ks[2] == StringToken
    && (|ts| == 3 || (|ts| >= 4 && ks[3] == BracketToken && KeysAndValues(ts[4..], ks[4..])))
  }

  /** The kinds of one member as written: the key is marked as a key, the
      colon sets the expectation, so the value is marked as a key too, and
      after a comma no key is expected. */
  lemma {:induction false} MemberStep(ts: seq<SyntaxToken>)
    requires |ts| >= 3 && IsString(ts[0]) && IsSeparator(ts[1], ":") && IsString(ts[2])
    ensures PairKinds(ts, true)[..3] == [KeyToken, BracketToken, KeyToken]
    ensures |ts| >= 4 && IsSeparator(ts[3], ",") ==>
      PairKinds(ts, true)[3] == BracketToken && PairKinds(ts, true)[4..] == PairKinds(ts[4..], false)
  {
    assert ts[1..][1..] == ts[2..] && ts[2..][1..] == ts[3..];
    assert PairKinds(ts[2..], true) == [KeyToken] + PairKinds(ts[3..], false);
    assert PairKinds(ts[1..], false) == [BracketToken] + PairKinds(ts[2..], true);
    assert PairKinds(ts, true) == [KeyToken] + PairKinds(ts[1..], false);
    if |ts| >= 4 && IsSeparator(ts[3], ",") {
      assert ts[3..][1..] == ts[4..];
      assert PairKinds(ts[3..], false) == [BracketToken] + PairKinds(ts[4..], false);
    }
  }

  /** As written, the expectation is the wrong way round: the value of the
      first member is marked as a key, as in `{"a":"b"}` where `"b"` is
      marked as a key. */
  lemma PairKindsAsWritten(ts: seq<SyntaxToken>)
    requires StringMembers(ts)
    ensures PairKinds(ts, true)[2] == KeyToken
    ensures !KeysAndValues(ts, PairKinds(ts, true))
  {
    MemberStep(ts);
  }

  /** As written, from the second member on a key is marked as a string:
      after the comma no key is expected. */
  lemma SecondKeyAsWritten(ts: seq<SyntaxToken>)
    requires StringMembers(ts) && |ts| >= 7
    ensures PairKinds(ts, true)[4] == StringToken
  {
    MemberStep(ts);
    var rest := ts[4..];
    assert rest[1..][1..] == rest[2..];
  }

  /** A brace, bracket, colon or comma is a one-character bracket token. */
  lemma BracketTokenAt(s: string, i: nat)
    requires i < |s| && s[i] in "{}[]:,"
    ensures TokenAt(s, i) == Scan(BracketToken, [s[i]], i + 1)
  {
    assert !LiteralAt(s, i, "true") && !LiteralAt(s, i, "false") && !LiteralAt(s, i, "null") by {
      assert s[i] != 't' && s[i] != 'f' && s[i] != 'n';
    }
  }

  /** A string without quotes or backslashes inside is one string token
      through its closing quote. */
  lemma PlainStringTokenAt(s: string, i: nat, j: nat)
    requires i < j < |s| && s[i] == '"' && s[j] == '"'
    requires forall k :: i < k < j ==> s[k] != '"' && s[k] != '\\'
    ensures TokenAt(s, i) == Scan(StringToken, s[i..j + 1], j + 1)
  {
    StringCloseIsLiteralScan(s, i + 1, false);
    var body := s[i + 1..j];
    assert forall k :: 0 <= k < |body| ==> body[k] == s[i + 1 + k];
    Json5Fixed.PlainBody(body, '"');
    Json5Fixed.SpanCloseBody(s, i + 1, body, '"');
  }

  lemma TokensStep(s: string, i: nat, line: int, column: int)
    requires i < |s|
    ensures var t := TokenAt(s, i);
      Tokens(s, i, line, column)
        == [SyntaxToken(t.kind, t.value, Position(i, t.end, line, column))]
           + Tokens(s, t.end, Advance(t, line, column).0, Advance(t, line, column).1)
  {
  }

  /** The tokens of `{"a":"b"}`: a brace, a string, a colon, a string and
      a brace, whatever the two one-character bodies. */
  lemma SmallObjectTokens(s: string)
    requires |s| == 9 && s[0] == '{' && s[1] == '"' && s[3] == '"' && s[4] == ':'
    requires s[5] == '"' && s[7] == '"' && s[8] == '}'
    requires s[2] != '"' && s[2] != '\\' && s[6] != '"' && s[6] != '\\'
    ensures |TokenizeJson(s)| == 5 && StringMembers(TokenizeJson(s)[1..4])
    ensures |TokenizeJson(s)| == 5 && IsSeparator(TokenizeJson(s)[0], "{") && IsSeparator(TokenizeJson(s)[4], "}")
  {
    var r := Tokens(s, 4, 1, 5);
    SmallObjectTail(s);
    BracketTokenAt(s, 0);
    PlainStringTokenAt(s, 1, 3);
    var u := Tokens(s, 1, 1, 2);
    TokensStep(s, 1, 1, 2);
    assert u == [SyntaxToken(StringToken, s[1..4], Position(1, 4, 1, 2))] + r;
    TokensStep(s, 0, 1, 1);
    var ts := TokenizeJson(s);
    assert ts == [SyntaxToken(BracketToken, "{", Position(0, 1, 1, 1))] + u;
    assert ts[1..4] == u[..3];
  }

  /** The last three tokens of `{"a":"b"}`: a colon, a string and a
      brace. */
  lemma SmallObjectTail(s: string)
    requires |s| == 9 && s[4] == ':' && s[5] == '"' && s[7] == '"' && s[8] == '}'
    requires s[6] != '"' && s[6] != '\\'
    ensures var r := Tokens(s, 4, 1, 5);
      |r| == 3 && IsSeparator(r[0], ":") && IsString(r[1]) && IsSeparator(r[2], "}")
  {
    BracketTokenAt(s, 4);
    PlainStringTokenAt(s, 5, 7);
    BracketTokenAt(s, 8);
    var p := Tokens(s, 8, 1, 9);
    TokensStep(s, 8, 1, 9);
    assert |p| == 1;
    var q := Tokens(s, 5, 1, 6);
    TokensStep(s, 5, 1, 6);
    assert q == [SyntaxToken(StringToken, s[5..8], Position(5, 8, 1, 6))] + p;
    TokensStep(s, 4, 1, 5);
  }

  /** On the text `{"a":"b"}` as written, the value `"b"` is marked as a
      key; with the corrected classifier it is marked as a string. */
  lemma SmallObjectMarked(s: string)
    requires |s| == 9 && s[0] == '{' && s[1] == '"' && s[3] == '"' && s[4] == ':'
    requires s[5] == '"' && s[7] == '"' && s[8] == '}'
    requires s[2] != '"' && s[2] != '\\' && s[6] != '"' && s[6] != '\\'
    ensures |TokenizeJson(s)| == 5 && PairKinds(TokenizeJson(s), true)[3] == KeyToken
    ensures |TokenizeJson(s)| == 5 && PairKindsFixed(TokenizeJson(s), [], true)[3] == StringToken
  {
    SmallObjectTokens(s);
    var ts := TokenizeJson(s);
    assert ts[1..][..3] == ts[1..4];
    MemberStep(ts[1..]);
    assert PairKinds(ts, true)[1..4] == PairKinds(ts[1..], true)[..3];
    var v := Members([Field(ts[1].value, Leaf(StringToken, ts[3].value))]);
    assert RenderFields(v, 1) == [];
    assert RenderFields(v, 0) == KeyColon(v, 0) + [Lex(StringToken, ts[3].value, StringToken)];
    assert Render(v) == [Punct("{"), Lex(StringToken, ts[1].value, KeyToken), Punct(":"),
                         Lex(StringToken, ts[3].value, StringToken), Punct("}")];
    FixedMarksKeys(v, ts);
  }

  // ---------------------------------------------------------------------
  // generateLineNumbers

  /** `generateLineNumbers`: `"1"` to `"n"` for the `n` pieces of
      `split('\n')`. */
  function GenerateLineNumbers(s: string): (r: seq<string>)
    ensures |r| == Count(s, '\n') + 1
    ensures forall k :: 0 <= k < |r| ==> r[k] == NatToString(k + 1)
  {
    SplitPieces(s, '\n');
    seq(|Split(s, '\n')|, k requires 0 <= k => NatToString(k + 1))
  }

  /** The last number is the line the end of the text is on. */
  lemma LastLineNumber(s: string)
    ensures var r := GenerateLineNumbers(s);
      r[|r| - 1] == NatToString(LineColumn(s).0)
  {
  }
}
