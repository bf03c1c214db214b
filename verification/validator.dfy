/** `validateJSON` of `utils/jsonValidator.ts` and the helpers it calls: the
    text is handed to the native parser; a failure is located by line and
    column (from the position the parser's message names, or from a search
    of the text for the message's words), given a suggestion from the
    characters around it, and followed by up to three reports of trailing
    commas further on. */
module Validator {
  import opened Wrappers
  import opened Chars
  import opened JsonValue
  import opened Types

  function Min(a: int, b: int): int {
    if a <= b then a else b
  }

  function Max(a: int, b: int): int {
    if a >= b then a else b
  }

  /** `substring` clamps its bounds into the text. */
  function Clamp(s: string, k: int): (p: nat)
    ensures p <= |s|
  {
    if k < 0 then 0 else if k > |s| then |s| else k
  }

  // ---------------------------------------------------------------------
  // getLineAndColumn

  /** `getLineAndColumn`: the text before the position is split on
      newlines; the number of pieces is the line, and one more than the
      length of the last piece is the column. */
  function LineAndColumn(s: string, position: int): (nat, nat)
  {
    var lines := Split(s[..Clamp(s, position)], '\n');
    (|lines|, |lines[|lines| - 1]| + 1)
  }

  /** The line is one more than the number of newlines before the
      position, and the column one more than the number of characters since
      the last of them. */
  lemma LineAndColumnCounts(s: string, position: int)
    ensures LineAndColumn(s, position) == LineColumn(s[..Clamp(s, position)])
    ensures LineAndColumn(s, position).0 == Count(s[..Clamp(s, position)], '\n') + 1
  {
    SplitLineColumn(s[..Clamp(s, position)]);
  }

  /** An error whose line and column are those of its position. */
  predicate Located(s: string, e: ValidationError) {
    (e.line, e.column) == LineColumn(s[..Clamp(s, e.position)])
  }

  // ---------------------------------------------------------------------
  // The position named by the parser's message

  /** Where `/position\s+(\d+)/i` matches at `k`: the word in either case,
      white space, and a digit. The runs are greedy and a digit is not
      white space, so the first character after the white space decides.
      Case-insensitive matching without the unicode flag folds no other
      character onto these ASCII letters. */
  predicate PositionMatchAt(m: string, k: nat) {
    && k + 8 <= |m|
    && LowerStr(m[k..k + 8]) == "position"
    && var e := SpaceEnd(m, k + 8);
       k + 8 < e < |m| && IsDigit(m[e])
  }

  /** The leftmost match from `k`, or the end of the message. */
  function FirstPositionMatch(m: string, k: nat): (r: nat)
    requires k <= |m|
    ensures k <= r <= |m|
    ensures r < |m| ==> PositionMatchAt(m, r)
    decreases |m| - k
  {
    if k == |m| || PositionMatchAt(m, k) then k else FirstPositionMatch(m, k + 1)
  }

  lemma {:induction false} FirstPositionMatchIs(m: string, k: nat, j: nat)
    requires k <= j < |m| && PositionMatchAt(m, j)
    requires forall i :: k <= i < j ==> !PositionMatchAt(m, i)
    ensures FirstPositionMatch(m, k) == j
    decreases j - k
  {
    if k < j {
      FirstPositionMatchIs(m, k + 1, j);
    }
  }

  /** End of the run of digits from `i`. */
  function DigitEnd(m: string, i: nat): (e: nat)
    requires i <= |m|
    ensures i <= e <= |m|
    decreases |m| - i
  {
    if i == |m| || !IsDigit(m[i]) then i else DigitEnd(m, i + 1)
  }

  lemma {:induction false} DigitRun(m: string, i: nat)
    requires i <= |m|
    ensures AllDigits(m[i..DigitEnd(m, i)])
    decreases |m| - i
  {
    if i < |m| && IsDigit(m[i]) {
      DigitRun(m, i + 1);
      assert m[i..DigitEnd(m, i)] == [m[i]] + m[i + 1..DigitEnd(m, i + 1)];
    }
  }

  lemma {:induction false} DigitEndIs(m: string, i: nat, e: nat)
    requires i <= e <= |m| && forall k :: i <= k < e ==> IsDigit(m[k])
    requires e == |m| || !IsDigit(m[e])
    ensures DigitEnd(m, i) == e
    decreases e - i
  {
    if i < e {
      DigitEndIs(m, i + 1, e);
    }
  }

  /** `parseInt(digits, 10)` of the run of digits from `i`. */
  function NumberAt(m: string, i: nat): nat
    requires i <= |m|
  {
    DigitRun(m, i);
    DigitsValue(m[i..DigitEnd(m, i)])
  }

  /** The number the first match captures, when there is a match. */
  function PositionInMessage(m: string): (r: Option<nat>)
  {
    var k := FirstPositionMatch(m, 0);
    if k < |m| then Some(NumberAt(m, SpaceEnd(m, k + 8))) else None
  }

  /** A message that names a position gives it back: the word (in any
      case), white space and the decimal digits of `n`, with no `p` before
      the word and no digit after the number. */
  lemma PositionReadBack(pre: string, word: string, gap: string, n: nat, post: string)
    requires 'p' !in pre && 'P' !in pre
    requires |word| == 8 && LowerStr(word) == "position"
    requires |gap| >= 1 && AllSpace(gap)
    requires |post| == 0 || !IsDigit(post[0])
    ensures PositionInMessage(pre + word + gap + NatToString(n) + post) == Some(n)
  {
    var ds := NatToString(n);
    var m := pre + word + gap + ds + post;
    var a := |pre| + 8;
    var b := a + |gap|;
    MessageParts(pre, word, gap, ds, post);
    NoEarlierMatch(m, |pre|);
    SpaceEndIs(m, a, b);
    assert PositionMatchAt(m, |pre|);
    FirstPositionMatchIs(m, 0, |pre|);
    DigitEndIs(m, b, b + |ds|);
    assert m[b..b + |ds|] == ds;
    DigitsValueOfNatToString(n);
  }

  lemma MessageParts(pre: string, word: string, gap: string, ds: string, post: string)
    requires |word| == 8 && |ds| >= 1 && AllDigits(ds)
    requires |post| == 0 || !IsDigit(post[0])
    ensures var m := pre + word + gap + ds + post;
      var b := |pre| + 8 + |gap|;
      && m[..|pre|] == pre && m[|pre|..|pre| + 8] == word
      && (forall k :: |pre| + 8 <= k < b ==> m[k] == gap[k - |pre| - 8])
      && (forall k :: b <= k < b + |ds| ==> IsDigit(m[k]))
      && m[b..b + |ds|] == ds
      && (b + |ds| == |m| || !IsDigit(m[b + |ds|]))
  {
    var m := pre + word + gap + ds + post;
    assert m == (pre + word + gap + ds) + post;
  }

  /** No match starts before the first `p`. */
  lemma NoEarlierMatch(m: string, j: nat)
    requires j <= |m| && forall i :: 0 <= i < j ==> m[i] != 'p' && m[i] != 'P'
    ensures forall i :: 0 <= i < j ==> !PositionMatchAt(m, i)
  {
    forall i | 0 <= i < j
      ensures !PositionMatchAt(m, i)
    {
      if i + 8 <= |m| {
        assert LowerStr(m[i..i + 8])[0] == Lower(m[i]) != 'p';
      }
    }
  }

  // ---------------------------------------------------------------------
  // getApproximateErrorPosition

  /** The window of `word`'s length at `i` (cut at the end of the text)
      includes `word`, both in lower case. */
  predicate WordAt(s: string, word: string, i: nat)
    requires i <= |s|
  {
    Contains(LowerStr(s[i..Min(i + |word|, |s|)]), LowerStr(word))
  }

  /** Every word of the message is found at `i`. */
  predicate WordsAt(s: string, words: seq<string>, i: nat)
    requires i <= |s|
  {
    forall j :: 0 <= j < |words| ==> WordAt(s, words[j], i)
  }

  /** The search from `i` down to 0: the first index where every word is
      found, or -1. */
  function SearchDown(s: string, words: seq<string>, i: int): (r: int)
    requires i < |s|
    ensures r == -1 || 0 <= r <= i
    decreases i + 1
  {
    if i < 0 then -1 else if WordsAt(s, words, i) then i else SearchDown(s, words, i - 1)
  }

  /** The three patterns, in the order they are tried. */
  const ErrorPatterns: seq<string> := ["unexpected", "end of string", "expected"]

  /** The loop over the patterns: a pattern the message matches runs the
      search, and a search that finds nothing moves on to the next
      pattern. */
  function PatternLoop(msg: string, s: string, patterns: seq<string>): (r: int)
    ensures -1 <= r < |s|
    decreases |patterns|
  {
    if |patterns| == 0 then -1
    else if Contains(LowerStr(msg), patterns[0]) && SearchDown(s, Split(msg, ' '), |s| - 1) != -1 then
      SearchDown(s, Split(msg, ' '), |s| - 1)
    else PatternLoop(msg, s, patterns[1..])
  }

  /** `getApproximateErrorPosition`. */
  function ApproximatePosition(msg: string, s: string): (r: int)
    ensures -1 <= r < |s|
  {
    PatternLoop(msg, s, ErrorPatterns)
  }

  /** The message matches one of the patterns. */
  predicate Triggered(msg: string) {
    exists k :: 0 <= k < |ErrorPatterns| && Contains(LowerStr(msg), ErrorPatterns[k])
  }

  /** Every pattern runs the same search, so the loop is one search, run
      when the message matches any pattern. */
  lemma {:induction false} PatternLoopIsSearch(msg: string, s: string, patterns: seq<string>)
    ensures PatternLoop(msg, s, patterns)
      == if exists k :: 0 <= k < |patterns| && Contains(LowerStr(msg), patterns[k])
         then SearchDown(s, Split(msg, ' '), |s| - 1) else -1
    decreases |patterns|
  {
    if |patterns| > 0 {
      PatternLoopIsSearch(msg, s, patterns[1..]);
      var m := LowerStr(msg);
      if Contains(m, patterns[0]) {
        assert exists k :: 0 <= k < |patterns| && Contains(m, patterns[k]) by {
          assert 0 < |patterns| && Contains(m, patterns[0]);
        }
      } else {
        PatternsAfterFirst(m, patterns);
      }
    }
  }

  lemma PatternsAfterFirst(m: string, patterns: seq<string>)
    requires |patterns| > 0 && !Contains(m, patterns[0])
    ensures (exists k :: 0 <= k < |patterns| && Contains(m, patterns[k]))
      <==> (exists k :: 0 <= k < |patterns[1..]| && Contains(m, patterns[1..][k]))
  {
    if exists k :: 0 <= k < |patterns| && Contains(m, patterns[k]) {
      var k :| 0 <= k < |patterns| && Contains(m, patterns[k]);
      assert patterns[1..][k - 1] == patterns[k];
    }
    if exists k :: 0 <= k < |patterns[1..]| && Contains(m, patterns[1..][k]) {
      var k :| 0 <= k < |patterns[1..]| && Contains(m, patterns[1..][k]);
      assert patterns[k + 1] == patterns[1..][k];
    }
  }

  lemma ApproximateIsSearch(msg: string, s: string)
    ensures ApproximatePosition(msg, s)
      == if Triggered(msg) then SearchDown(s, Split(msg, ' '), |s| - 1) else -1
  {
    PatternLoopIsSearch(msg, s, ErrorPatterns);
  }

  /** A message with `unexpected` also holds `expected`, so the first
      pattern adds nothing to the third. */
  lemma UnexpectedIsExpected(msg: string)
    requires Contains(LowerStr(msg), "unexpected")
    ensures Contains(LowerStr(msg), "expected")
  {
    assert OccursAt("unexpected", "expected", 2);
    ContainsTransitive(LowerStr(msg), "unexpected", "expected");
  }

  /** The search finds the last index where every word is found, and -1
      exactly when there is none. */
  lemma {:induction false} SearchDownLast(s: string, words: seq<string>, i: int)
    requires i < |s|
    ensures var r := SearchDown(s, words, i);
      && (r >= 0 ==> WordsAt(s, words, r))
      && (forall j :: r < j <= i && j >= 0 ==> !WordsAt(s, words, j))
    decreases i + 1
  {
    if i >= 0 && !WordsAt(s, words, i) {
      SearchDownLast(s, words, i - 1);
    }
  }

  /** The window can only include the word by being it: a word is found at
      `i` when it is empty or the text there is the word, up to case. */
  lemma WordAtIff(s: string, word: string, i: nat)
    requires i <= |s|
    ensures WordAt(s, word, i)
      <==> |word| == 0 || (i + |word| <= |s| && LowerStr(s[i..i + |word|]) == LowerStr(word))
  {
    var w := LowerStr(s[i..Min(i + |word|, |s|)]);
    if WordAt(s, word, i) {
      var k :| 0 <= k <= |w| - |word| && OccursAt(w, LowerStr(word), k);
      assert k == 0;
      assert w[0..|word|] == w;
    }
    if |word| == 0 {
      assert OccursAt(w, LowerStr(word), 0);
    } else if i + |word| <= |s| && LowerStr(s[i..i + |word|]) == LowerStr(word) {
      assert OccursAt(w, LowerStr(word), 0);
    }
  }

  /** Two words that begin with different letters are never found at the
      same index, so a message holding both locates nothing. */
  lemma ClashingWordsFindNothing(s: string, words: seq<string>, a: nat, b: nat)
    requires a < |words| && b < |words| && |words[a]| >= 1 && |words[b]| >= 1
    requires Lower(words[a][0]) != Lower(words[b][0])
    ensures SearchDown(s, words, |s| - 1) == -1
  {
    SearchDownLast(s, words, |s| - 1);
    var r := SearchDown(s, words, |s| - 1);
    if r >= 0 {
      WordAtIff(s, words[a], r);
      WordAtIff(s, words[b], r);
    }
  }

  // ---------------------------------------------------------------------
  // parseErrorWithPosition

  datatype ErrorDetails = ErrorDetails(line: int, column: int, position: int)

  /** `parseErrorWithPosition`: the position the message names, else the
      approximate one, else the start of the text. */
  function ErrorLocation(msg: string, s: string): (r: ErrorDetails)
  {
    match PositionInMessage(msg)
    case Some(p) =>
      var (line, column) := LineAndColumn(s, p);
      ErrorDetails(line, column, p)
    case None =>
      var p := ApproximatePosition(msg, s);
      if p != -1 then
        var (line, column) := LineAndColumn(s, p);
        ErrorDetails(line, column, p)
      else ErrorDetails(1, 1, 0)
  }

  /** The position is never negative, it is the one the message names when
      there is one, and the line and column are those of the position. */
  lemma ErrorLocationLocated(msg: string, s: string)
    ensures var d := ErrorLocation(msg, s);
      && d.position >= 0
      && (PositionInMessage(msg).Some? ==> d.position == PositionInMessage(msg).value)
      && (d.line, d.column) == LineColumn(s[..Clamp(s, d.position)])
  {
    var d := ErrorLocation(msg, s);
    LineAndColumnCounts(s, d.position);
  }

  // ---------------------------------------------------------------------
  // getErrorSuggestion

  /** `s[k]`: nothing outside the text. */
  function CharAt(s: string, k: int): Option<char> {
    if 0 <= k < |s| then Some(s[k]) else None
  }

  const CommaAdvice := "Check for missing comma or extra comma"
  const UnterminatedAdvice := "String is not properly terminated. Check for unescaped quotes or special characters"
  const ColonAdvice := "Missing colon after object key"
  const TokenAdvice := "Unexpected token. Check for missing value or extra comma"
  const ReviewAdvice := "Review the JSON structure around this position"

  /** `getErrorSuggestion`, from the characters before, at and after the
      position, rule by rule in the source's order. */
  function Suggestion(s: string, position: int): (r: string)
    ensures var before := CharAt(s, position - 1);
      && (r == CommaAdvice <==> before == Some(',') || before == Some('}') || before == Some(']'))
      && (r == ReviewAdvice ==> CharAt(s, position) != Some(',') && CharAt(s, position) != Some(':'))
      && (r == ColonAdvice ==> before == Some('"') && CharAt(s, position + 1) == Some('"'))
  {
    var before := CharAt(s, position - 1);
    var at := CharAt(s, position);
    var after := CharAt(s, position + 1);
    if before == Some(',') || before == Some('}') || before == Some(']') then CommaAdvice
    else if at == Some('"') && after.Some? && after.value !in "}], " then UnterminatedAdvice
    else if before == Some('"') && after == Some('"') then ColonAdvice
    else if at == Some(',') || at == Some(':') then TokenAdvice
    else ReviewAdvice
  }

  /** An error just after a comma or a closing bracket is taken for a comma
      problem, whatever follows. */
  lemma SuggestionAfterSeparator(a: string, b: string)
    requires |a| >= 1 && a[|a| - 1] in ",}]"
    ensures Suggestion(a + b, |a|) == CommaAdvice
  {
    assert (a + b)[|a| - 1] == a[|a| - 1];
  }

  // ---------------------------------------------------------------------
  // findAdditionalErrors

  /** `/,\s*([}\]])/` matches at `k`: a comma, white space, then a closing
      brace or bracket. */
  predicate TrailingCommaAt(s: string, k: nat) {
    && k < |s|
    && s[k] == ','
    && var e := SpaceEnd(s, k + 1);
       e < |s| && (s[e] == '}' || s[e] == ']')
  }

  /** The global search from `k`: every match in order. A match runs from
      its comma over white space to a bracket, so the next comma can only
      lie after it, and the matches are exactly the commas that match. */
  function TrailingCommas(s: string, k: nat): (r: seq<nat>)
    requires k <= |s|
    decreases |s| - k
  {
    if k == |s| then [] else (if TrailingCommaAt(s, k) then [k] else []) + TrailingCommas(s, k + 1)
  }

  predicate Increasing(xs: seq<nat>) {
    forall a, b :: 0 <= a < b < |xs| ==> xs[a] < xs[b]
  }

  lemma TrailingCommasUnfold(s: string, k: nat)
    requires k < |s|
    ensures TrailingCommas(s, k) == (if TrailingCommaAt(s, k) then [k] else []) + TrailingCommas(s, k + 1)
  {
  }

  /** The matches from `k` are all the trailing commas from `k` on. */
  lemma {:induction false} TrailingCommasMembers(s: string, k: nat)
    requires k <= |s|
    ensures forall j :: j in TrailingCommas(s, k) <==> k <= j && TrailingCommaAt(s, j)
    decreases |s| - k
  {
    if k < |s| {
      TrailingCommasMembers(s, k + 1);
      TrailingCommasUnfold(s, k);
    }
  }

  /** The matches come in increasing order. */
  lemma {:induction false} TrailingCommasSorted(s: string, k: nat)
    requires k <= |s|
    ensures Increasing(TrailingCommas(s, k))
    decreases |s| - k
  {
    if k < |s| {
      TrailingCommasSorted(s, k + 1);
      TrailingCommasMembers(s, k + 1);
      TrailingCommasUnfold(s, k);
      if TrailingCommaAt(s, k) {
        IncreasingCons(k, TrailingCommas(s, k + 1));
      }
    }
  }

  lemma IncreasingCons(k: nat, rest: seq<nat>)
    requires Increasing(rest) && forall x :: x in rest ==> k < x
    ensures Increasing([k] + rest)
  {
    forall a, b | 0 <= a < b < |[k] + rest|
      ensures ([k] + rest)[a] < ([k] + rest)[b]
    {
      assert rest[b - 1] in rest;
    }
  }

  const TrailingCommaMessage := "Trailing comma is not allowed in standard JSON"
  const TrailingCommaAdvice := "Remove the trailing comma before the closing bracket"

  /** The report for the match at `k` of the text after `start`: its
      position counts from `start + 1`, as the match index does in the
      substring. */
  function TrailingCommaError(s: string, start: int, k: nat): ValidationError
  {
    var position := start + 1 + (k - Clamp(s, start + 1));
    var (line, column) := LineAndColumn(s, position);
    ValidationError(line, column, TrailingCommaMessage, MissingComma, Some(TrailingCommaAdvice), position)
  }

  /** `findAdditionalErrors`: the first three trailing commas after the
      first error. */
  function AdditionalErrors(s: string, start: int): (r: seq<ValidationError>)
    ensures |r| <= 3
    ensures forall i :: 0 <= i < |r| ==> r[i].code == MissingComma && r[i].message == TrailingCommaMessage
  {
    var ks := TrailingCommas(s, Clamp(s, start + 1));
    var firsts := if |ks| <= 3 then ks else ks[..3];
    seq(|firsts|, i requires 0 <= i < |firsts| => TrailingCommaError(s, start, firsts[i]))
  }

  /** After a first error at `start`, the reports are trailing commas past
      it, in increasing order, each located, each a missing-comma error; and
      fewer than three only when no other trailing comma follows. */
  lemma AdditionalErrorsAre(s: string, start: int)
    requires start >= 0
    ensures var r := AdditionalErrors(s, start);
      && (forall i :: 0 <= i < |r| ==> r[i].position > start && TrailingCommaAt(s, r[i].position))
      && (forall i :: 0 <= i < |r| ==> r[i].code == MissingComma && Located(s, r[i]))
      && (forall i, j :: 0 <= i < j < |r| ==> r[i].position < r[j].position)
      && (|r| < 3 ==> forall k :: start < k < |s| && TrailingCommaAt(s, k) ==>
            exists i :: 0 <= i < |r| && r[i].position == k)
  {
    var from := Clamp(s, start + 1);
    var ks := TrailingCommas(s, from);
    var r := AdditionalErrors(s, start);
    TrailingCommasMembers(s, from);
    TrailingCommasSorted(s, from);
    var firsts := if |ks| <= 3 then ks else ks[..3];
    forall i | 0 <= i < |r|
      ensures r[i].position == firsts[i] && Located(s, r[i])
    {
      assert r[i] == TrailingCommaError(s, start, firsts[i]);
      assert firsts[i] in ks;
      assert from == start + 1;
      LineAndColumnCounts(s, firsts[i]);
    }
    forall i | 0 <= i < |r|
      ensures r[i].position > start && TrailingCommaAt(s, r[i].position)
    {
      assert firsts[i] in ks;
    }
    if |r| < 3 {
      forall k | start < k < |s| && TrailingCommaAt(s, k)
        ensures exists i :: 0 <= i < |r| && r[i].position == k
      {
        assert k in ks;
        var i :| 0 <= i < |ks| && ks[i] == k;
        assert r[i].position == k;
      }
    }
  }

  // ---------------------------------------------------------------------
  // validateJSON

  const EmptyInputMessage := "Empty JSON input"

  /** `validateJSON` with the native parser `parse`. */
  function ValidateJson(s: string, parse: NativeParse): (r: ValidationResult)
    ensures r.isValid <==> r.errors == []
    ensures r.isValid <==> !AllSpace(s) && parse(s).Ok?
    ensures r.isValid ==> r.data == Some(parse(s).value)
    ensures !r.isValid ==> r.data == None && 1 <= |r.errors| <= 4 && r.errors[0].code == SyntaxError
    ensures AllSpace(s) ==> r.errors == [ValidationError(1, 1, EmptyInputMessage, SyntaxError, None, 0)]
    ensures !AllSpace(s) && parse(s).Err? ==> r.errors[0].message == parse(s).error
    ensures forall i :: 1 <= i < |r.errors| ==> r.errors[i].code == MissingComma
  {
    if AllSpace(s) then
      ValidationResult(false, [ValidationError(1, 1, EmptyInputMessage, SyntaxError, None, 0)], None)
    else
      match parse(s)
      case Ok(v) => ValidationResult(true, [], Some(v))
      case Err(msg) =>
        var d := ErrorLocation(msg, s);
        var first := ValidationError(d.line, d.column, msg, SyntaxError, Some(Suggestion(s, d.position)), d.position);
        ValidationResult(false, [first] + AdditionalErrors(s, d.position), None)
  }

  /** Every error of a validation sits at the line and column of its
      position, and the trailing-comma reports come after the first error,
      in increasing order. */
  lemma ValidateLocated(s: string, parse: NativeParse)
    ensures var es := ValidateJson(s, parse).errors;
      && (forall i :: 0 <= i < |es| ==> es[i].position >= 0 && Located(s, es[i]))
      && (forall i, j :: 0 <= i < j < |es| ==> es[i].position < es[j].position)
  {
    if !AllSpace(s) && parse(s).Err? {
      var msg := parse(s).error;
      var d := ErrorLocation(msg, s);
      ErrorLocationLocated(msg, s);
      AdditionalErrorsAre(s, d.position);
      var es := ValidateJson(s, parse).errors;
      assert es[1..] == AdditionalErrors(s, d.position);
      forall i | 1 <= i < |es|
        ensures es[i] == AdditionalErrors(s, d.position)[i - 1]
      {
      }
    } else if AllSpace(s) {
      assert s[..0] == "";
    }
  }
}
