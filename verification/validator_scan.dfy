/** The rest of `utils/jsonValidator.ts`: `parseWithLineNumbers` (a scan
    that lists the strings, numbers and literals of the text with their
    line and column), `getErrorContext`, `isValidJSON`, `isValidJSON5` and
    the comment stripping the latter relies on. */
module ValidatorScan {
  import opened Wrappers
  import opened Chars
  import opened JsonValue
  import opened Types
  import Validator
  import Highlighter
  import Json5
  import Json5Fixed

  // ---------------------------------------------------------------------
  // parseWithLineNumbers

  /** A token as `parseWithLineNumbers` lists it; `kind` is one of
      `string`, `number`, `boolean` and `null`. */
  datatype LineToken = LineToken(value: string, line: int, column: int, kind: string)

  /** What the loop body finds at `i`: the token's text and kind, the index
      the body leaves the cursor at (the loop then steps past it), and how
      far the reported column is pulled back from the column of `s[i]`. */
  datatype Lexeme = Lexeme(value: string, kind: string, last: nat, back: nat)

  /** `substring(i, i + n)`. */
  function Window(s: string, i: nat, n: nat): string
    requires i <= |s|
  {
    s[i..Validator.Min(i + n, |s|)]
  }

  /** End of the run of `[\d.eE+-]` from `i`. */
  function NumberRun(s: string, i: nat): (e: nat)
    requires i <= |s|
    ensures i <= e <= |s|
    ensures i < |s| && Highlighter.IsNumberChar(s[i]) ==> i < e
    decreases |s| - i
  {
    if i == |s| || !Highlighter.IsNumberChar(s[i]) then i else NumberRun(s, i + 1)
  }

  /** The branches of the loop body at `i`. The string loop toggles its
      escape flag on a backslash and clears it on anything else, which is
      the scan of the highlighter's string branch. */
  function LexemeAt(s: string, i: nat): (r: Option<Lexeme>)
    requires i < |s|
    ensures r.Some? ==> i <= r.value.last <= |s| && OccursAt(s, r.value.value, i)
    ensures r.Some? ==> i + |r.value.value| == Validator.Min(r.value.last + 1, |s|)
  {
    if s[i] == '"' then
      var j := Highlighter.StringClose(s, i + 1, false);
      Some(Lexeme(s[i..Validator.Min(j + 1, |s|)], "string", j, j - i))
    else if IsDigit(s[i]) || s[i] == '-' then
      var e := NumberRun(s, i);
      Some(Lexeme(s[i..e], "number", e - 1, e - i))
    else if Window(s, i, 4) == "true" then Some(Lexeme("true", "boolean", i + 3, 0))
    else if Window(s, i, 5) == "false" then Some(Lexeme("false", "boolean", i + 4, 0))
    else if Window(s, i, 4) == "null" then Some(Lexeme("null", "null", i + 3, 0))
    else None
  }

  /** The loop as written, from `i`, with the counters as they stood before
      the pass at `i`: they move over `s[i]` only, never over the rest of a
      token, and a token's column is pulled back by the characters the
      token's own loop passed. */
  function ScanAsWritten(s: string, i: nat, line: int, column: int): seq<LineToken>
    decreases |s| - i
  {
    if i >= |s| then []
    else
      var line' := if s[i] == '\n' then line + 1 else line;
      var column' := if s[i] == '\n' then 0 else column + 1;
      match LexemeAt(s, i)
      case None => ScanAsWritten(s, i + 1, line', column')
      case Some(x) =>
        [LineToken(x.value, line', column' - x.back, x.kind)] + ScanAsWritten(s, x.last + 1, line', column')
  }

  /** A number at the start of the text is reported, as written, in column
      one minus its length, which is zero or less. */
  lemma NumberColumnAsWritten(s: string)
    requires |s| >= 1 && IsDigit(s[0])
    ensures var ts := ScanAsWritten(s, 0, 1, 0);
      |ts| >= 1 && ts[0].line == 1 && ts[0].column == 1 - NumberRun(s, 0) && ts[0].column <= 0
  {
    assert Highlighter.IsNumberChar(s[0]);
  }

  /** The line and column moved over one character. */
  function Step(c: char, at: (nat, nat)): (nat, nat) {
    if c == '\n' then (at.0 + 1, 1) else (at.0, at.1 + 1)
  }

  /** The line and column moved over a text, character by character. */
  function Walk(p: string, at: (nat, nat)): (nat, nat)
    decreases |p|
  {
    if |p| == 0 then at else Walk(p[1..], Step(p[0], at))
  }

  lemma StepCounts(q: string, c: char)
    ensures Step(c, LineColumn(q)) == LineColumn(q + [c])
  {
    if c == '\n' {
      assert [c][..0] == [];
      LineColumnBreak(q, [c]);
    } else {
      LineColumnPlain(q, [c]);
    }
  }

  /** Walking over `p` from the line and column after `q` gives those after
      `q + p`. */
  lemma {:induction false} WalkCounts(q: string, p: string)
    ensures Walk(p, LineColumn(q)) == LineColumn(q + p)
    decreases |p|
  {
    if |p| == 0 {
      assert q + p == q;
    } else {
      StepCounts(q, p[0]);
      WalkCounts(q + [p[0]], p[1..]);
      assert q + [p[0]] + p[1..] == q + p;
    }
  }

  /** The loop with the counters moved over every character a token
      covers, and each token reported at its first character. Each entry
      carries the token's offset. */
  function ScanFixed(s: string, i: nat, at: (nat, nat)): seq<(nat, LineToken)>
    requires i <= |s|
    decreases |s| - i
  {
    if i == |s| then []
    else
      match LexemeAt(s, i)
      case None => ScanFixed(s, i + 1, Step(s[i], at))
      case Some(x) =>
        var n := Validator.Min(x.last + 1, |s|);
        [(i, LineToken(x.value, at.0, at.1, x.kind))] + ScanFixed(s, n, Walk(s[i..n], at))
  }

  /** Every token of `ps` stands in `s` at its offset, at or after `from`,
      ends before the next one starts, and carries the line and column of
      its offset. */
  predicate Placed(s: string, ps: seq<(nat, LineToken)>, from: nat) {
    && (forall k :: 0 <= k < |ps| ==> from <= ps[k].0 && OccursAt(s, ps[k].1.value, ps[k].0))
    && (forall k :: 0 <= k < |ps| ==> (ps[k].1.line, ps[k].1.column) == LineColumn(s[..ps[k].0]))
    && (forall k :: 0 <= k < |ps| - 1 ==> ps[k].0 + |ps[k].1.value| <= ps[k + 1].0)
  }

  /** Where the scan resumes after the pass at `i`. */
  function Resume(s: string, i: nat): (n: nat)
    requires i < |s|
    ensures i < n <= |s|
  {
    match LexemeAt(s, i)
    case None => i + 1
    case Some(x) => Validator.Min(x.last + 1, |s|)
  }

  /** The corrected scan reports every token at the line and column where
      it starts, in order and without overlap. */
  lemma {:induction false} ScanFixedPlaced(s: string, i: nat)
    requires i <= |s|
    ensures Placed(s, ScanFixed(s, i, LineColumn(s[..i])), i)
    decreases |s| - i
  {
    if i < |s| {
      ScanFixedPlaced(s, Resume(s, i));
      if LexemeAt(s, i).None? {
        ScanSkips(s, i);
      } else {
        ScanTakes(s, i);
      }
    }
  }

  lemma ScanSkips(s: string, i: nat)
    requires i < |s| && LexemeAt(s, i).None?
    requires Placed(s, ScanFixed(s, i + 1, LineColumn(s[..i + 1])), i + 1)
    ensures Placed(s, ScanFixed(s, i, LineColumn(s[..i])), i)
  {
    StepCounts(s[..i], s[i]);
    assert s[..i] + [s[i]] == s[..i + 1];
    assert ScanFixed(s, i, LineColumn(s[..i])) == ScanFixed(s, i + 1, LineColumn(s[..i + 1]));
  }

  lemma ScanTakes(s: string, i: nat)
    requires i < |s| && LexemeAt(s, i).Some?
    requires Placed(s, ScanFixed(s, Resume(s, i), LineColumn(s[..Resume(s, i)])), Resume(s, i))
    ensures Placed(s, ScanFixed(s, i, LineColumn(s[..i])), i)
  {
    var x := LexemeAt(s, i).value;
    var n := Resume(s, i);
    var at := LineColumn(s[..i]);
    var t := LineToken(x.value, at.0, at.1, x.kind);
    ScanTakesUnfold(s, i);
    PlacedCons(s, i, n, t, ScanFixed(s, n, LineColumn(s[..n])));
  }

  lemma ScanTakesUnfold(s: string, i: nat)
    requires i < |s| && LexemeAt(s, i).Some?
    ensures var x := LexemeAt(s, i).value;
      var at := LineColumn(s[..i]);
      var n := Resume(s, i);
      ScanFixed(s, i, at) == [(i, LineToken(x.value, at.0, at.1, x.kind))] + ScanFixed(s, n, LineColumn(s[..n]))
  {
    var n := Resume(s, i);
    WalkCounts(s[..i], s[i..n]);
    assert s[..i] + s[i..n] == s[..n];
  }

  lemma PlacedCons(s: string, i: nat, n: nat, t: LineToken, rest: seq<(nat, LineToken)>)
    requires i + |t.value| == n && OccursAt(s, t.value, i)
    requires (t.line, t.column) == LineColumn(s[..i])
    requires Placed(s, rest, n)
    ensures Placed(s, [(i, t)] + rest, i)
  {
    var ps := [(i, t)] + rest;
    forall k | 0 <= k < |ps| - 1
      ensures ps[k].0 + |ps[k].1.value| <= ps[k + 1].0
    {
      if k > 0 {
        assert ps[k] == rest[k - 1] && ps[k + 1] == rest[k];
      }
    }
  }

  /** The tokens without their offsets. */
  function TokensOf(ps: seq<(nat, LineToken)>): (ts: seq<LineToken>)
    ensures |ts| == |ps|
  {
    seq(|ps|, k requires 0 <= k < |ps| => ps[k].1)
  }

  datatype LineParse = LineParse(data: Option<Json>, errors: seq<ValidationError>, tokens: seq<LineToken>)

  /** `parseWithLineNumbers` with the native parser `parse`: the loop as
      written, from line 1 and column 0, lists the tokens. */
  function ParseWithLineNumbers(s: string, parse: NativeParse): (r: LineParse)
    ensures r.data.Some? <==> parse(s).Ok?
    ensures r.data.Some? ==> r.data.value == parse(s).value && r.errors == []
    ensures r.data.None? ==> 1 <= |r.errors| <= 4 && r.errors[0].code == SyntaxError
  {
    var tokens := ScanAsWritten(s, 0, 1, 0);
    match parse(s)
    case Ok(v) => LineParse(Some(v), [], tokens)
    case Err(_) => LineParse(None, Validator.ValidateJson(s, parse).errors, tokens)
  }

  /** `parseWithLineNumbers` over the corrected scan. */
  function ParseWithLineNumbersFixed(s: string, parse: NativeParse): (r: LineParse)
    ensures r.data == ParseWithLineNumbers(s, parse).data
    ensures r.errors == ParseWithLineNumbers(s, parse).errors
    ensures |r.tokens| == |ParseWithLineNumbers(s, parse).tokens|
  {
    var tokens := TokensOf(ScanFixed(s, 0, (1, 1)));
    ScanSameTokens(s, 0, 1, 0, (1, 1));
    match parse(s)
    case Ok(v) => LineParse(Some(v), [], tokens)
    case Err(_) => LineParse(None, Validator.ValidateJson(s, parse).errors, tokens)
  }

  /** The two scans find the same tokens, with the same texts and kinds, in
      the same order; they differ in lines and columns only. */
  predicate SameTokens(ts: seq<LineToken>, ps: seq<(nat, LineToken)>) {
    |ts| == |ps| && forall k :: 0 <= k < |ts| ==> ts[k].value == ps[k].1.value && ts[k].kind == ps[k].1.kind
  }

  lemma {:induction false} ScanSameTokens(s: string, i: nat, line: int, column: int, at: (nat, nat))
    requires i <= |s|
    ensures SameTokens(ScanAsWritten(s, i, line, column), ScanFixed(s, i, at))
    decreases |s| - i
  {
    if i < |s| {
      var line' := if s[i] == '\n' then line + 1 else line;
      var column' := if s[i] == '\n' then 0 else column + 1;
      match LexemeAt(s, i)
      case None =>
        ScanSameTokens(s, i + 1, line', column', Step(s[i], at));
      case Some(x) =>
        var n := Validator.Min(x.last + 1, |s|);
        ScanSameTokens(s, n, line', column', Walk(s[i..n], at));
        assert ScanAsWritten(s, x.last + 1, line', column') == ScanAsWritten(s, n, line', column');
        SameTokensCons(LineToken(x.value, line', column' - x.back, x.kind), ScanAsWritten(s, n, line', column'),
                       (i, LineToken(x.value, at.0, at.1, x.kind)), ScanFixed(s, n, Walk(s[i..n], at)));
    }
  }

  lemma SameTokensCons(t: LineToken, ts: seq<LineToken>, p: (nat, LineToken), ps: seq<(nat, LineToken)>)
    requires t.value == p.1.value && t.kind == p.1.kind && SameTokens(ts, ps)
    ensures SameTokens([t] + ts, [p] + ps)
  {
  }

  /** Every token the loop as written lists is a piece of the text: it
      occurs at some offset, and the tokens follow one another without
      overlap. Only their lines and columns can be off. */
  lemma ParseTokensOccur(s: string, parse: NativeParse)
    ensures var ts := ParseWithLineNumbers(s, parse).tokens;
      forall k :: 0 <= k < |ts| ==> Contains(s, ts[k].value)
  {
    assert s[..0] == "";
    ScanFixedPlaced(s, 0);
    ScanSameTokens(s, 0, 1, 0, (1, 1));
    var ps := ScanFixed(s, 0, (1, 1));
    var ts := ParseWithLineNumbers(s, parse).tokens;
    assert ts == ScanAsWritten(s, 0, 1, 0);
    forall k | 0 <= k < |ts|
      ensures Contains(s, ts[k].value)
    {
      assert ts[k].value == ps[k].1.value;
      assert OccursAt(s, ts[k].value, ps[k].0);
    }
  }

  /** With the corrected scan every listed token occurs in the text at an
      offset whose line and column it carries. */
  lemma ParseTokensPlaced(s: string, parse: NativeParse)
    ensures var ts := ParseWithLineNumbersFixed(s, parse).tokens;
      forall k :: 0 <= k < |ts| ==>
        exists o :: OccursAt(s, ts[k].value, o) && (ts[k].line, ts[k].column) == LineColumn(s[..o])
  {
    assert s[..0] == "";
    ScanFixedPlaced(s, 0);
    var ps := ScanFixed(s, 0, (1, 1));
    var ts := ParseWithLineNumbersFixed(s, parse).tokens;
    forall k | 0 <= k < |ts|
      ensures exists o :: OccursAt(s, ts[k].value, o) && (ts[k].line, ts[k].column) == LineColumn(s[..o])
    {
      assert ts[k] == ps[k].1;
      var o := ps[k].0;
      assert OccursAt(s, ts[k].value, o);
    }
  }

  // ---------------------------------------------------------------------
  // getErrorContext

  /** `xs.slice(a, b)` for a start that is not negative: a negative end
      counts from the back, and both ends are clamped. */
  function SliceFrom<T>(xs: seq<T>, a: nat, b: int): seq<T> {
    var lo := if a > |xs| then |xs| else a;
    var hi := if b < 0 then Validator.Max(|xs| + b, 0) else Validator.Min(b, |xs|);
    if lo >= hi then [] else xs[lo..hi]
  }

  /** `t.padStart(w)`: spaces in front up to width `w`. */
  function PadStart(t: string, w: nat): (r: string)
    ensures |r| == Validator.Max(|t|, w) && EndsWith(r, t)
  {
    if |t| >= w then t else Repeat(' ', w - |t|) + t
  }

  /** One line of the context: an arrow on the error's line, the line
      number right-aligned in four places, a bar, and the text. */
  function ContextLine(n: nat, marked: bool, text: string): string {
    (if marked then "\U{2192} " else "  ") + PadStart(NatToString(n), 4) + " \U{2502} " + text
  }

  function ContextLines(lines: seq<string>, first: nat, errorLine: int): (r: seq<string>)
    ensures |r| == |lines|
  {
    seq(|lines|, k requires 0 <= k < |lines| => ContextLine(first + k + 1, first + k + 1 == errorLine, lines[k]))
  }

  /** The context `getErrorContext` shows when its caller gives none. */
  const DefaultContextLines: int := 2

  /** `getErrorContext`: the lines around the error's line, `contextLines`
      on each side (`DefaultContextLines` when the caller omits it). */
  function ErrorContext(s: string, e: ValidationError, contextLines: int): string {
    var lines := Split(s, '\n');
    var first := ContextFirst(e.line, contextLines);
    Join(ContextLines(SliceFrom(lines, first, ContextEnd(|lines|, e.line, contextLines)), first, e.line), "\n")
  }

  /** The first line shown, counted from 0. */
  function ContextFirst(errorLine: int, contextLines: int): nat {
    Validator.Max(0, errorLine - 1 - contextLines)
  }

  /** Where the lines shown end. */
  function ContextEnd(count: nat, errorLine: int, contextLines: int): int {
    Validator.Min(count, errorLine + contextLines)
  }

  lemma ContextLineNoBreak(n: nat, marked: bool, text: string)
    requires '\n' !in text
    ensures '\n' !in ContextLine(n, marked, text)
  {
    var ds := NatToString(n);
    var pad := PadStart(ds, 4);
    if |ds| < 4 {
      assert pad == Repeat(' ', 4 - |ds|) + ds;
    }
  }

  /** With a line of the text and a context of `c >= 0` lines, the output
      has one line for each text line from `c` before the error's line to
      `c` after it (within the text), each numbered and showing that line,
      and only the error's line carries the arrow. */
  lemma ErrorContextLines(s: string, e: ValidationError, c: int)
    requires c >= 0 && 1 <= e.line <= |Split(s, '\n')|
    ensures var lines := Split(s, '\n');
      var first := ContextFirst(e.line, c);
      var end := ContextEnd(|lines|, e.line, c);
      var out := Split(ErrorContext(s, e, c), '\n');
      && first < e.line <= end
      && |out| == end - first
      && Shows(out, lines, first, e.line)
  {
    var lines := Split(s, '\n');
    var first := ContextFirst(e.line, c);
    var end := ContextEnd(|lines|, e.line, c);
    ContextWindow(|lines|, e.line, c);
    LinesNoBreak(s);
    ErrorContextIs(s, e, c, first, end);
    ContextShown(lines, first, end, e.line, ErrorContext(s, e, c));
  }

  /** Line `k` of `out` shows text line `first + k`, numbered from 1 and
      marked when it is the error's line. */
  predicate Shows(out: seq<string>, lines: seq<string>, first: nat, errorLine: int) {
    forall k :: 0 <= k < |out| ==>
      first + k < |lines| && out[k] == ContextLine(first + k + 1, first + k + 1 == errorLine, lines[first + k])
  }

  lemma LinesNoBreak(s: string)
    ensures forall i :: 0 <= i < |Split(s, '\n')| ==> '\n' !in Split(s, '\n')[i]
  {
    SplitPieces(s, '\n');
  }

  /** The split of a joined context gives back its lines. */
  lemma ContextShown(lines: seq<string>, first: nat, end: nat, errorLine: int, text: string)
    requires first < end <= |lines|
    requires forall i :: 0 <= i < |lines| ==> '\n' !in lines[i]
    requires text == Join(ContextLines(lines[first..end], first, errorLine), "\n")
    ensures |Split(text, '\n')| == end - first && Shows(Split(text, '\n'), lines, first, errorLine)
  {
    var xs := ContextLines(lines[first..end], first, errorLine);
    ContextNoBreaks(lines, first, end, errorLine);
    SplitOfJoin(text, xs);
    ContextLinesAt(lines, first, end, errorLine);
  }

  lemma ContextLinesAt(lines: seq<string>, first: nat, end: nat, errorLine: int)
    requires first <= end <= |lines|
    ensures var xs := ContextLines(lines[first..end], first, errorLine);
      forall k :: 0 <= k < |xs| ==> xs[k] == ContextLine(first + k + 1, first + k + 1 == errorLine, lines[first + k])
  {
    var xs := ContextLines(lines[first..end], first, errorLine);
    forall k | 0 <= k < |xs|
      ensures xs[k] == ContextLine(first + k + 1, first + k + 1 == errorLine, lines[first + k])
    {
      assert lines[first..end][k] == lines[first + k];
    }
  }

  lemma SplitOfJoin(text: string, xs: seq<string>)
    requires text == Join(xs, "\n") && |xs| >= 1
    requires forall k :: 0 <= k < |xs| ==> '\n' !in xs[k]
    ensures Split(text, '\n') == xs
  {
    SplitJoin(xs, '\n');
  }

  lemma ContextWindow(n: nat, line: int, c: int)
    requires c >= 0 && 1 <= line <= n
    ensures ContextFirst(line, c) < line <= ContextEnd(n, line, c) <= n
  {
  }

  lemma ErrorContextIs(s: string, e: ValidationError, c: int, first: nat, end: nat)
    requires first == ContextFirst(e.line, c) && end == ContextEnd(|Split(s, '\n')|, e.line, c)
    requires first < end
    ensures ErrorContext(s, e, c) == Join(ContextLines(Split(s, '\n')[first..end], first, e.line), "\n")
  {
    assert SliceFrom(Split(s, '\n'), first, end) == Split(s, '\n')[first..end];
  }

  lemma ContextNoBreaks(lines: seq<string>, first: nat, end: nat, errorLine: int)
    requires first < end <= |lines|
    requires forall i :: 0 <= i < |lines| ==> '\n' !in lines[i]
    ensures var xs := ContextLines(lines[first..end], first, errorLine);
      |xs| >= 1 && forall k :: 0 <= k < |xs| ==> '\n' !in xs[k]
  {
    var xs := ContextLines(lines[first..end], first, errorLine);
    forall k | 0 <= k < |xs|
      ensures '\n' !in xs[k]
    {
      assert lines[first..end][k] == lines[first + k];
      ContextLineNoBreak(first + k + 1, first + k + 1 == errorLine, lines[first + k]);
    }
  }

  // ---------------------------------------------------------------------
  // isValidJSON, isValidJSON5 and their comment stripping

  /** `isValidJSON`: the native parser accepts the text. */
  function IsValidJson(s: string, parse: NativeParse): (r: bool)
    ensures !AllSpace(s) ==> (r <==> Validator.ValidateJson(s, parse).isValid)
  {
    parse(s).Ok?
  }

  /** One iteration of the loop of the validator's own `stripJSON5Comments`
      on the rest `t`: a line comment is skipped up to (not over) its line
      break, a block comment as in the JSON5 parser's pass, and anything
      else copied. Quotes are not looked at. */
  function StripStep(t: string): (r: (string, nat))
    requires |t| >= 1
    ensures 1 <= r.1 <= |t|
  {
    if Json5.LineCommentAt(t, 0) then ("", IndexOf(t, '\n', 0))
    else if Json5.BlockCommentAt(t, 0) then ("", Json5.BlockEnd(t, 2))
    else ([t[0]], 1)
  }

  /** `stripJSON5Comments` of the validator, as written. */
  function StripJson5Comments(t: string): string
    decreases |t|
  {
    if |t| == 0 then [] else StripStep(t).0 + StripJson5Comments(t[StripStep(t).1..])
  }

  /** `isValidJSON5`: the text parses, or parses once its comments are
      stripped by the validator's own pass, which does not look at
      strings. */
  function IsValidJson5(s: string, parse: NativeParse): (r: bool)
    ensures IsValidJson(s, parse) ==> r
  {
    parse(s).Ok? || parse(StripJson5Comments(s)).Ok?
  }

  /** `isValidJSON5` with comments stripped outside strings only. */
  function IsValidJson5Fixed(s: string, parse: NativeParse): (r: bool)
    ensures IsValidJson(s, parse) ==> r
  {
    parse(s).Ok? || parse(Json5Fixed.StripComments(s)).Ok?
  }

  /** Text with no slash has no comment to strip: it is valid JSON5 exactly
      when it is valid JSON. */
  lemma Json5NeedsComment(s: string, parse: NativeParse)
    requires '/' !in s
    ensures IsValidJson5(s, parse) == IsValidJson(s, parse)
  {
    StripPlainPrefix(s, "");
    assert s + "" == s;
  }

  /** Without quotes the two verdicts agree: the passes differ only inside
      strings. */
  lemma Json5VerdictsAgree(s: string, parse: NativeParse)
    requires '"' !in s && '\'' !in s
    ensures IsValidJson5(s, parse) == IsValidJson5Fixed(s, parse)
  {
    StripAgrees(s);
  }

  lemma StripAfter(t: string, piece: string, n: nat)
    requires |t| >= 1 && StripStep(t) == (piece, n)
    ensures StripJson5Comments(t) == piece + StripJson5Comments(t[n..])
  {
  }

  /** Outside strings the two strippers agree: keeping a line comment's
      break for the next pass writes the same break the JSON5 parser's pass
      writes itself. */
  lemma {:induction false} StripAgrees(t: string)
    requires '"' !in t && '\'' !in t
    ensures StripJson5Comments(t) == Json5Fixed.StripComments(t)
    decreases |t|
  {
    if |t| > 0 {
      var (piece, n) := StripStep(t);
      StripAfter(t, piece, n);
      assert forall x :: x in t[n..] ==> x in t;
      if Json5.LineCommentAt(t, 0) && n < |t| {
        BreakKept(t, n);
        assert forall x :: x in t[n + 1..] ==> x in t;
        StripAgrees(t[n + 1..]);
      } else {
        StripAgrees(t[n..]);
        Json5Fixed.CommentAfter(t, piece, n);
      }
    }
  }

  /** After a line comment the break is copied by the next pass, which is
      what the JSON5 parser's pass writes in one step. */
  lemma BreakKept(t: string, n: nat)
    requires |t| >= 1 && Json5.LineCommentAt(t, 0) && n == IndexOf(t, '\n', 0) && n < |t|
    ensures StripJson5Comments(t[n..]) == "\n" + StripJson5Comments(t[n + 1..])
    ensures Json5Fixed.StripComments(t) == "\n" + Json5Fixed.StripComments(t[n + 1..])
  {
    var u := t[n..];
    assert u[0] == '\n' && !Json5.LineCommentAt(u, 0) && !Json5.BlockCommentAt(u, 0);
    StripAfter(u, "\n", 1);
    assert u[1..] == t[n + 1..];
    Json5Fixed.CommentAfter(t, "\n", n + 1);
  }

  /** Text without a slash is copied. */
  lemma {:induction false} StripPlainPrefix(p: string, rest: string)
    requires '/' !in p
    ensures StripJson5Comments(p + rest) == p + StripJson5Comments(rest)
    decreases |p|
  {
    if |p| > 0 {
      var t := p + rest;
      assert t[0] == p[0] && !Json5.LineCommentAt(t, 0) && !Json5.BlockCommentAt(t, 0);
      StripAfter(t, [p[0]], 1);
      assert t[1..] == p[1..] + rest;
      assert forall x :: x in p[1..] ==> x in p;
      StripPlainPrefix(p[1..], rest);
      ConsAppend(p, StripJson5Comments(rest));
    } else {
      assert p + rest == rest;
    }
  }

  /** As written, `//` inside a string opens a comment: a string holding
      `//` loses everything from the slashes to the end of the line. */
  lemma StripCutsString(a: string, b: string)
    requires '/' !in a && '\n' !in b
    ensures StripJson5Comments(['"'] + a + "//" + b) == ['"'] + a
  {
    var c := "//" + b;
    assert ['"'] + a + "//" + b == (['"'] + a) + c;
    StripPlainPrefix(['"'] + a, c);
    IndexOfIs(c, '\n', 0, |c|);
    assert Json5.LineCommentAt(c, 0);
    StripAfter(c, "", |c|);
    assert c[|c|..] == [];
  }

  /** The stripping used by `IsValidJson5` keeps a well-formed string as it
      is, escapes and `//` inside it included. */
  lemma FixedStripKeepsString(body: string)
    requires Json5Fixed.LiteralBody(body, '"')
    ensures Json5Fixed.StripComments(['"'] + body + ['"']) == ['"'] + body + ['"']
  {
    Json5Fixed.StripKeepsLiteral('"', body, "");
    assert ['"'] + body + ['"'] + "" == ['"'] + body + ['"'];
    assert Json5Fixed.StripComments("") == "";
  }

  /** `{"u":"a\"//b"}`: an escaped quote and `//` inside one string; the
      corrected stripping keeps the string whole. */
  lemma FixedStripKeepsEscape()
    ensures Json5Fixed.StripComments("\"a\\\"//b\"") == "\"a\\\"//b\""
  {
    var body := "a\\\"//b";
    assert body[1..][2..][1..][1..][1..] == "";
    assert Json5Fixed.LiteralBody(body, '"');
    FixedStripKeepsString(body);
    assert ['"'] + body + ['"'] == "\"a\\\"//b\"";
  }
}
