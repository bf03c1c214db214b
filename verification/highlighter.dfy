/** `tokenizeJSON` of `utils/syntaxHighlighter.ts`: a left-to-right scanner
    that cuts any text into tokens carrying their offsets and the line and
    column they start on. Each iteration of its loop is `TokenAt`, and the
    loop itself is the recursion `Tokens`. */
module Highlighter {
  import opened Chars
  import opened Types
  import Json5Fixed

  // ---------------------------------------------------------------------
  // The scanners of the loop's branches

  /** End of the run of white space other than a newline from `i`. */
  function BlankEnd(s: string, i: nat): (e: nat)
    requires i <= |s|
    ensures i <= e <= |s|
    decreases |s| - i
  {
    if i < |s| && IsSpace(s[i]) && s[i] != '\n' then BlankEnd(s, i + 1) else i
  }

  lemma {:induction false} BlankRun(s: string, i: nat)
    requires i <= |s|
    ensures forall k :: i <= k < BlankEnd(s, i) ==> IsSpace(s[k]) && s[k] != '\n'
    ensures BlankEnd(s, i) < |s| ==> !IsSpace(s[BlankEnd(s, i)]) || s[BlankEnd(s, i)] == '\n'
    decreases |s| - i
  {
    if i < |s| && IsSpace(s[i]) && s[i] != '\n' {
      BlankRun(s, i + 1);
    }
  }

  /** A white-space token: the blank run, then one newline if one follows. */
  function SpaceTokenEnd(s: string, i: nat): (e: nat)
    requires i < |s| && IsSpace(s[i])
    ensures i < e <= |s|
  {
    var b := BlankEnd(s, i);
    if b < |s| && s[b] == '\n' then b + 1 else b
  }

  /** Inside a string from `i`: the index of the quote that closes it, or
      the end of the text. A backslash that is not itself escaped escapes
      the character after it. */
  function StringClose(s: string, i: nat, inEscape: bool): (j: nat)
    requires i <= |s|
    ensures i <= j <= |s|
    ensures j < |s| ==> s[j] == '"'
    decreases |s| - i
  {
    if i == |s| || (s[i] == '"' && !inEscape) then i
    else StringClose(s, i + 1, s[i] == '\\' && !inEscape)
  }

  /** A string token runs through its closing quote, or to the end of the
      text when it has none. */
  function StringTokenEnd(s: string, i: nat): (e: nat)
    requires i < |s| && s[i] == '"'
    ensures i < e <= |s|
  {
    var j := StringClose(s, i + 1, false);
    if j < |s| && s[j] == '"' then j + 1 else j
  }

  /** The characters a number token absorbs: `[\d.eE+-]`. */
  predicate IsNumberChar(c: char) {
    IsDigit(c) || c == '.' || c == 'e' || c == 'E' || c == '+' || c == '-'
  }

  /** The number loop from `i` with its two flags, as written. */
  function NumberScan(s: string, i: nat, hasDecimal: bool, hasExponent: bool): (e: nat)
    requires 1 <= i <= |s|
    ensures i <= e <= |s|
    decreases |s| - i
  {
    if i == |s| || !IsNumberChar(s[i]) then i
    else if s[i] == '.' && !hasDecimal then NumberScan(s, i + 1, true, hasExponent)
    else if (s[i] == 'e' || s[i] == 'E') && !hasExponent then NumberScan(s, i + 1, hasDecimal, true)
    else if s[i] == '-' && s[i - 1] != 'e' && s[i - 1] != 'E' then i
    else NumberScan(s, i + 1, hasDecimal, hasExponent)
  }

  /** Where a number token ends: a character it cannot absorb, or a minus
      sign that does not follow an exponent mark. */
  predicate NumberStopsAt(s: string, k: nat)
    requires 1 <= k < |s|
  {
    !IsNumberChar(s[k]) || (s[k] == '-' && s[k - 1] != 'e' && s[k - 1] != 'E')
  }

  /** The text from offset `i` starts with `w`. `substring` past the end
      gives a shorter text, which never equals `w`. */
  predicate LiteralAt(s: string, i: nat, w: string) {
    i + |w| <= |s| && s[i..i + |w|] == w
  }

  // ---------------------------------------------------------------------
  // One iteration of the loop

  /** What one iteration scans: the kind and text of the token, and the
      offset just past it. */
  datatype Scan = Scan(kind: TokenType, value: string, end: nat)

  /** The token at offset `i`, tried in the order of the loop: white space,
      string, number, `true`, `false`, `null`, then one bracket or one
      other character. The loop's separate newline branch never runs,
      because a newline already passes the white-space test; see
      `NewlineIsSpaceToken`. */
  function TokenAt(s: string, i: nat): (r: Scan)
    requires i < |s|
    ensures i < r.end <= |s| && r.value == s[i..r.end]
  {
    var c := s[i];
    if IsSpace(c) then
      var e := SpaceTokenEnd(s, i);
      Scan(WhitespaceToken, s[i..e], e)
    else if c == '"' then
      var e := StringTokenEnd(s, i);
      Scan(StringToken, s[i..e], e)
    else if IsDigit(c) || c == '-' then
      var e := NumberScan(s, i + 1, false, false);
      Scan(NumberToken, s[i..e], e)
    else if LiteralAt(s, i, "true") then Scan(BooleanToken, "true", i + 4)
    else if LiteralAt(s, i, "false") then Scan(BooleanToken, "false", i + 5)
    else if LiteralAt(s, i, "null") then Scan(NullToken, "null", i + 4)
    else if c in "{}[]:, " then Scan(BracketToken, [c], i + 1)
    else Scan(OperatorToken, [c], i + 1)
  }

  /** A token ends a line when it is white space whose last character is a
      newline. */
  predicate EndsLine(kind: TokenType, value: string) {
    kind == WhitespaceToken && |value| > 0 && value[|value| - 1] == '\n'
  }

  /** Line and column after a token: a newline ending a white-space token
      starts the next line; every other token moves the column by its
      length, newlines inside a string included. */
  function Advance(t: Scan, line: int, column: int): (int, int) {
    if EndsLine(t.kind, t.value) then (line + 1, 1) else (line, column + |t.value|)
  }

  // ---------------------------------------------------------------------
  // The loop

  /** The tokens of `s` from offset `i`, starting on `line` and `column`. */
  function Tokens(s: string, i: nat, line: int, column: int): (ts: seq<SyntaxToken>)
    requires i <= |s|
    decreases |s| - i
  {
    if i == |s| then []
    else
      var t := TokenAt(s, i);
      var (l, c) := Advance(t, line, column);
      [SyntaxToken(t.kind, t.value, Position(i, t.end, line, column))] + Tokens(s, t.end, l, c)
  }

  /** `tokenizeJSON`: from offset 0 on line 1, column 1. */
  function TokenizeJson(s: string): seq<SyntaxToken> {
    Tokens(s, 0, 1, 1)
  }

  /** The token texts, concatenated. */
  function Text(ts: seq<SyntaxToken>): string
    decreases |ts|
  {
    if |ts| == 0 then "" else ts[0].value + Text(ts[1..])
  }

  /** `ts` cuts `s[from..]` into consecutive non-empty tokens, each holding
      the text between its offsets. */
  predicate Cuts(s: string, ts: seq<SyntaxToken>, from: nat) {
    && from <= |s|
    && (|ts| == 0 <==> from == |s|)
    && (|ts| > 0 ==> ts[0].position.start == from && ts[|ts| - 1].position.end == |s|)
    && (forall k :: 0 <= k < |ts| ==>
          0 <= ts[k].position.start < ts[k].position.end <= |s|
          && ts[k].value == s[ts[k].position.start..ts[k].position.end])
    && (forall k :: 0 <= k < |ts| - 1 ==> ts[k].position.end == ts[k + 1].position.start)
  }

  // ---------------------------------------------------------------------
  // Coverage and contiguity

  lemma {:induction false} TokensCover(s: string, i: nat, line: int, column: int)
    requires i <= |s|
    ensures Text(Tokens(s, i, line, column)) == s[i..]
    decreases |s| - i
  {
    if i < |s| {
      var t := TokenAt(s, i);
      var (l, c) := Advance(t, line, column);
      var ts := Tokens(s, i, line, column);
      var rest := Tokens(s, t.end, l, c);
      assert ts[1..] == rest;
      TokensCover(s, t.end, l, c);
      assert s[i..] == s[i..t.end] + s[t.end..];
    }
  }

  /** Token coverage: the token texts concatenate back to the input, so no
      character is lost or repeated. */
  lemma TokenizeCovers(s: string)
    ensures Text(TokenizeJson(s)) == s
  {
    TokensCover(s, 0, 1, 1);
    assert s[0..] == s;
  }

  lemma {:induction false} TokensCut(s: string, i: nat, line: int, column: int)
    requires i <= |s|
    ensures Cuts(s, Tokens(s, i, line, column), i)
    decreases |s| - i
  {
    if i < |s| {
      var t := TokenAt(s, i);
      var (l, c) := Advance(t, line, column);
      var ts := Tokens(s, i, line, column);
      var rest := Tokens(s, t.end, l, c);
      TokensCut(s, t.end, l, c);
      assert ts == [ts[0]] + rest;
      CutsCons(s, ts[0], rest, i);
    }
  }

  /** A token in front of a cut of the rest is a cut of the whole. */
  lemma CutsCons(s: string, t: SyntaxToken, rest: seq<SyntaxToken>, i: nat)
    requires i < t.position.end <= |s| && t.position.start == i
    requires t.value == s[i..t.position.end]
    requires Cuts(s, rest, t.position.end)
    ensures Cuts(s, [t] + rest, i)
  {
    var ts := [t] + rest;
    assert forall k :: 1 <= k < |ts| ==> ts[k] == rest[k - 1];
  }

  /** Contiguity: the first token starts at 0, each token starts where the
      one before it ends, none is empty, each holds exactly the text between
      its offsets, and the last one ends at the end of the input. */
  lemma TokenizeCuts(s: string)
    ensures Cuts(s, TokenizeJson(s), 0)
  {
    TokensCut(s, 0, 1, 1);
  }

  // ---------------------------------------------------------------------
  // The shape of each kind of token

  /** A white-space token is a run of white space other than newlines, with
      at most one newline, at its end. It stops short of a newline only where
      no more white space follows. */
  lemma SpaceTokenShape(s: string, i: nat)
    requires i < |s| && IsSpace(s[i])
    ensures TokenAt(s, i).kind == WhitespaceToken
    ensures forall k :: 0 <= k < |TokenAt(s, i).value| ==> IsSpace(TokenAt(s, i).value[k])
    ensures forall k :: 0 <= k < |TokenAt(s, i).value| - 1 ==> TokenAt(s, i).value[k] != '\n'
    ensures var t := TokenAt(s, i);
      !EndsLine(t.kind, t.value) ==> t.end == |s| || !IsSpace(s[t.end])
  {
    BlankRun(s, i);
  }

  /** The loop's newline branch would give a one-character white-space
      token; the white-space branch already gives exactly that token. */
  lemma NewlineIsSpaceToken(s: string, i: nat)
    requires i < |s| && s[i] == '\n'
    ensures TokenAt(s, i) == Scan(WhitespaceToken, "\n", i + 1)
  {
    assert BlankEnd(s, i) == i;
    assert s[i..i + 1] == [s[i]];
  }

  /** The string scan is the escape-aware literal scan of the corrected
      JSON5 passes: the first quote not escaped by a backslash closes it. */
  lemma {:induction false} StringCloseIsLiteralScan(s: string, i: nat, inEscape: bool)
    requires i <= |s|
    ensures StringClose(s, i, inEscape) == Json5Fixed.SpanClose(s, i, '"', inEscape)
    decreases |s| - i
  {
    if i < |s| && !(s[i] == '"' && !inEscape) {
      StringCloseIsLiteralScan(s, i + 1, s[i] == '\\' && !inEscape);
    }
  }

  /** A string token opens with its quote and either runs to the end of the
      text or closes with a quote; a backslash-escaped quote does not close
      it. */
  lemma StringTokenShape(s: string, i: nat)
    requires i < |s| && s[i] == '"'
    ensures TokenAt(s, i).kind == StringToken && TokenAt(s, i).value[0] == '"'
    ensures var t := TokenAt(s, i);
      t.end == |s| || (|t.value| >= 2 && t.value[|t.value| - 1] == '"')
    ensures forall j :: i < j && j + 1 < |s| && s[j] == '\\' && s[j + 1] == '"' ==>
      StringClose(s, j, false) == StringClose(s, j + 2, false)
  {
    var t := TokenAt(s, i);
    if t.end < |s| {
      assert t.value[|t.value| - 1] == s[t.end - 1];
    }
  }

  /** The flags of the number loop never change where it stops: it ends at
      the first character it cannot absorb or the first minus that does not
      follow `e`/`E`, so `1-2` is two numbers and `1e-2` one. */
  lemma {:induction false} NumberScanStops(s: string, i: nat, hasDecimal: bool, hasExponent: bool)
    requires 1 <= i <= |s|
    ensures forall k :: i <= k < NumberScan(s, i, hasDecimal, hasExponent) ==> !NumberStopsAt(s, k)
    ensures NumberScan(s, i, hasDecimal, hasExponent) < |s| ==>
      NumberStopsAt(s, NumberScan(s, i, hasDecimal, hasExponent))
    decreases |s| - i
  {
    if i < |s| && IsNumberChar(s[i]) {
      if s[i] == '.' && !hasDecimal {
        NumberScanStops(s, i + 1, true, hasExponent);
      } else if (s[i] == 'e' || s[i] == 'E') && !hasExponent {
        NumberScanStops(s, i + 1, hasDecimal, true);
      } else if !(s[i] == '-' && s[i - 1] != 'e' && s[i - 1] != 'E') {
        NumberScanStops(s, i + 1, hasDecimal, hasExponent);
      }
    }
  }

  /** A number token opens with a digit or a minus and holds only number
      characters. */
  lemma NumberTokenShape(s: string, i: nat)
    requires i < |s| && (IsDigit(s[i]) || s[i] == '-')
    ensures TokenAt(s, i).kind == NumberToken
    ensures forall k :: 0 <= k < |TokenAt(s, i).value| ==> IsNumberChar(TokenAt(s, i).value[k])
  {
    NumberScanStops(s, i + 1, false, false);
    var v := TokenAt(s, i).value;
    forall k | 0 <= k < |v|
      ensures IsNumberChar(v[k])
    {
      assert v[k] == s[i + k];
      if k > 0 {
        assert !NumberStopsAt(s, i + k);
      }
    }
  }

  /** `true`, `false` and `null` are read by a fixed-length lookahead with
      no word-boundary check: `nullx` gives `null`, then `x`. */
  lemma KeywordToken(s: string, i: nat, w: string, kind: TokenType)
    requires (w == "true" && kind == BooleanToken) || (w == "false" && kind == BooleanToken)
          || (w == "null" && kind == NullToken)
    requires LiteralAt(s, i, w)
    ensures TokenAt(s, i) == Scan(kind, w, i + |w|)
  {
    assert s[i] == w[0];
  }

  // ---------------------------------------------------------------------
  // Lines and columns

  /** Only white space and strings can hold a newline. */
  lemma NewlineOnlyInSpaceOrString(s: string, i: nat)
    requires i < |s|
    requires TokenAt(s, i).kind != WhitespaceToken && TokenAt(s, i).kind != StringToken
    ensures '\n' !in TokenAt(s, i).value
  {
    var t := TokenAt(s, i);
    if t.kind == NumberToken {
      NumberTokenShape(s, i);
    }
  }

  /** After a token the position is the line and column of the text read so
      far, as long as the token is not a string. */
  lemma AdvanceTracks(s: string, i: nat, line: int, column: int)
    requires i < |s| && TokenAt(s, i).kind != StringToken
    requires (line, column) == LineColumn(s[..i])
    ensures Advance(TokenAt(s, i), line, column) == LineColumn(s[..TokenAt(s, i).end])
  {
    var t := TokenAt(s, i);
    assert s[..t.end] == s[..i] + t.value;
    if t.kind == WhitespaceToken {
      SpaceAdvance(s, i);
    } else {
      NewlineOnlyInSpaceOrString(s, i);
      LineColumnPlain(s[..i], t.value);
    }
  }

  lemma SpaceAdvance(s: string, i: nat)
    requires i < |s| && TokenAt(s, i).kind == WhitespaceToken
    ensures var t := TokenAt(s, i);
      LineColumn(s[..i] + t.value)
        == if EndsLine(t.kind, t.value) then (LineColumn(s[..i]).0 + 1, 1)
           else (LineColumn(s[..i]).0, LineColumn(s[..i]).1 + |t.value|)
  {
    var t := TokenAt(s, i);
    SpaceTokenShape(s, i);
    if EndsLine(t.kind, t.value) {
      assert '\n' !in t.value[..|t.value| - 1];
      LineColumnBreak(s[..i], t.value);
    } else {
      LineColumnPlain(s[..i], t.value);
    }
  }

  /** Every token of `ts` carries the line and column of its offset in `s`. */
  predicate Tracked(s: string, ts: seq<SyntaxToken>) {
    forall k :: 0 <= k < |ts| ==>
      0 <= ts[k].position.start <= |s|
      && (ts[k].position.line, ts[k].position.column) == LineColumn(s[..ts[k].position.start])
  }

  lemma {:induction false} TokensLines(s: string, i: nat, line: int, column: int)
    requires i <= |s| && '"' !in s
    requires (line, column) == LineColumn(s[..i])
    ensures Tracked(s, Tokens(s, i, line, column))
    decreases |s| - i
  {
    if i < |s| {
      var t := TokenAt(s, i);
      var (l, c) := Advance(t, line, column);
      var ts := Tokens(s, i, line, column);
      var rest := Tokens(s, t.end, l, c);
      assert s[i] in s;
      AdvanceTracks(s, i, line, column);
      TokensLines(s, t.end, l, c);
      assert ts == [SyntaxToken(t.kind, t.value, Position(i, t.end, line, column))] + rest;
      forall k | 0 <= k < |ts|
        ensures 0 <= ts[k].position.start <= |s|
        ensures (ts[k].position.line, ts[k].position.column) == LineColumn(s[..ts[k].position.start])
      {
        if k > 0 {
          assert ts[k] == rest[k - 1];
        }
      }
    }
  }

  /** On text without strings every token carries the line and column of
      its offset: one more than the newlines before it, and one more than
      the characters since the last of them. */
  lemma TokenizeLines(s: string)
    requires '"' !in s
    ensures Tracked(s, TokenizeJson(s))
  {
    assert s[..0] == "";
    TokensLines(s, 0, 1, 1);
  }

  /** The number of tokens that end a line. */
  function Breaks(ts: seq<SyntaxToken>): nat
    decreases |ts|
  {
    if |ts| == 0 then 0
    else (if EndsLine(ts[0].kind, ts[0].value) then 1 else 0) + Breaks(ts[1..])
  }

  /** Every token of `ts` is on `line` plus the number of line ends before
      it. */
  predicate LinesCounted(ts: seq<SyntaxToken>, line: int) {
    forall k :: 0 <= k < |ts| ==> ts[k].position.line == line + Breaks(ts[..k])
  }

  /** The line only moves on a white-space token that ends in a newline, so
      a newline inside a string leaves the line where it was. */
  lemma {:induction false} TokensLineCount(s: string, i: nat, line: int, column: int)
    requires i <= |s|
    ensures LinesCounted(Tokens(s, i, line, column), line)
    decreases |s| - i
  {
    if i < |s| {
      var t := TokenAt(s, i);
      var (l, c) := Advance(t, line, column);
      var ts := Tokens(s, i, line, column);
      var rest := Tokens(s, t.end, l, c);
      TokensLineCount(s, t.end, l, c);
      assert ts == [SyntaxToken(t.kind, t.value, Position(i, t.end, line, column))] + rest;
      assert ts[..0] == [];
      forall k | 1 <= k < |ts|
        ensures ts[k].position.line == line + Breaks(ts[..k])
      {
        assert ts[k] == rest[k - 1];
        assert ts[..k][0] == ts[0] && ts[..k][1..] == rest[..k - 1];
        assert Breaks(ts[..k]) == (if EndsLine(t.kind, t.value) then 1 else 0) + Breaks(rest[..k - 1]);
      }
    }
  }
}
