/** The three rewrite passes of `utils/json5Parser.ts` that turn JSON5 text
    into text for the native parse: `stripComments`, `stripTrailingCommas`
    and `unquoteKeys`.

    Each pass is a single cursor loop. A pass is modelled by its loop body
    (a step: the text one iteration appends and how far it moves the
    cursor) and by the loop itself as a recursion over the rest of the
    text. For `stripComments` a method with the loops of the source is also
    proved to compute the same text.

    All three passes share a defect in their quote handling: the loop over a
    quoted span stops at the first quote character whatever precedes it,
    and stops before moving past it, so the outer loop starts a new span on
    that same quote. From the first quote on, the rest of the text is copied
    with every later quote of the same kind written twice. */
module Json5 {
  import opened Chars

  // ---------------------------------------------------------------------
  // The quoted-span loop

  predicate IsQuote(c: char) {
    c == '"' || c == '\''
  }

  /** The inner loop after an opening quote `q`, from index `i` with the
      escape flag `inEscape`: the index where it stops, on a quote or at the
      end of the text. */
  function QuoteStop(t: string, i: nat, q: char, inEscape: bool): (j: nat)
    requires i <= |t|
    ensures i <= j <= |t|
    decreases |t| - i
  {
    if i == |t| then i
    else
      var esc := t[i] == '\\' && !inEscape;
      if t[i] == q && !esc then i else QuoteStop(t, i + 1, q, esc)
  }

  /** The escape flag is recomputed before the terminator test, so it never
      keeps a quote from ending the span: the loop stops at the first `q`,
      escaped or not. */
  lemma {:induction false} QuoteStopIsFirst(t: string, i: nat, q: char, inEscape: bool)
    requires i <= |t| && q != '\\'
    ensures QuoteStop(t, i, q, inEscape) == IndexOf(t, q, i)
    decreases |t| - i
  {
    if i < |t| && t[i] != q {
      QuoteStopIsFirst(t, i + 1, q, t[i] == '\\' && !inEscape);
    }
  }

  /** One iteration of the string branch on text `t` that starts with a
      quote: the quote and everything through the quote the inner loop stops
      on (or to the end), and the cursor left ON that stopping quote. */
  function SpanStep(t: string): (r: (string, nat))
    requires |t| >= 1
    ensures 1 <= r.1 <= |t|
  {
    var j := QuoteStop(t, 1, t[0], false);
    (if j < |t| then t[..j + 1] else t, j)
  }

  /** `t` with every `q` written twice. */
  function Doubled(t: string, q: char): (r: string)
    decreases |t|
  {
    if |t| == 0 then [] else (if t[0] == q then [q, q] else [t[0]]) + Doubled(t[1..], q)
  }

  lemma {:induction false} DoubledAppend(a: string, b: string, q: char)
    ensures Doubled(a + b, q) == Doubled(a, q) + Doubled(b, q)
    decreases |a|
  {
    if |a| == 0 {
      assert a + b == b;
    } else {
      assert (a + b)[1..] == a[1..] + b;
      DoubledAppend(a[1..], b, q);
    }
  }

  lemma {:induction false} DoubledAbsent(t: string, q: char)
    requires q !in t
    ensures Doubled(t, q) == t
    decreases |t|
  {
    if |t| > 0 {
      assert t[0] != q;
      assert forall x :: x in t[1..] ==> x in t;
      DoubledAbsent(t[1..], q);
    }
  }

  /** Every `q` adds one character. */
  lemma {:induction false} DoubledLength(t: string, q: char)
    ensures |Doubled(t, q)| == |t| + Count(t, q)
    decreases |t|
  {
    if |t| > 0 {
      DoubledLength(t[1..], q);
      assert t == [t[0]] + t[1..];
      CountAppend([t[0]], t[1..], q);
      assert [t[0]][..0] == [];
    }
  }

  /** The span loop of a quoted run stops on the next quote of the same
      kind, escaped or not, or runs to the end. */
  lemma SpanStops(t: string)
    requires |t| >= 1 && IsQuote(t[0])
    ensures SpanStep(t).1 < |t| ==> t[SpanStep(t).1] == t[0]
    ensures forall k :: 1 <= k < SpanStep(t).1 ==> t[k] != t[0]
  {
    QuoteStopIsFirst(t, 1, t[0], false);
  }

  /** A span that runs to the end: the rest has no quote of its kind. */
  lemma SpanToEnd(t: string)
    requires |t| >= 1 && IsQuote(t[0]) && SpanStep(t).1 == |t|
    ensures SpanStep(t).0 == [t[0]] + Doubled(t[1..], t[0])
  {
    SpanStops(t);
    assert forall x :: x in t[1..] ==> x != t[0];
    DoubledAbsent(t[1..], t[0]);
  }

  /** `Doubled` around the first `q` of `u`, at index `m`. */
  lemma DoubledAtFirst(u: string, m: nat, q: char)
    requires m < |u| && u[m] == q && q !in u[..m]
    ensures Doubled(u, q) == u[..m] + [q, q] + Doubled(u[m + 1..], q)
  {
    assert u == u[..m] + ([q] + u[m + 1..]);
    DoubledAbsent(u[..m], q);
    DoubledAppend(u[..m], [q] + u[m + 1..], q);
    DoubledAppend([q], u[m + 1..], q);
    assert Doubled([q], q) == [q, q] by {
      assert [q][1..] == [];
    }
  }

  /** A closed literal seen through `Doubled`: its closing quote doubles. */
  lemma DoubledClosed(body: string, q: char)
    requires q !in body
    ensures Doubled(body + [q], q) == body + [q, q]
  {
    DoubledAppend(body, [q], q);
    DoubledAbsent(body, q);
    assert [q][1..] == [];
  }

  lemma RegroupQuotes(q: char, a: string, rest: string)
    ensures [q] + a + [q] + [q] + rest == [q] + (a + [q, q] + rest)
  {
  }

  /** A span that stops on a quote: what it appends, followed by the
      doubled view of the text from that quote on, is the doubled view of
      the whole run. */
  lemma SpanThenDoubled(t: string)
    requires |t| >= 1 && IsQuote(t[0]) && SpanStep(t).1 < |t|
    ensures SpanStep(t).0 + [t[0]] + Doubled(t[SpanStep(t).1 + 1..], t[0]) == [t[0]] + Doubled(t[1..], t[0])
  {
    var q := t[0];
    var j := SpanStep(t).1;
    var u := t[1..];
    var a := u[..j - 1];
    SpanStops(t);
    assert a == t[1..j];
    assert q !in a;
    DoubledAtFirst(u, j - 1, q);
    assert u[j..] == t[j + 1..];
    var rest := Doubled(t[j + 1..], q);
    assert SpanStep(t).0 == [q] + a + [q] by {
      assert t[..j + 1] == [q] + t[1..j] + [t[j]];
    }
    RegroupQuotes(q, a, rest);
  }

  // ---------------------------------------------------------------------
  // stripComments

  /** The block-comment loop from `k`: just past the first star-slash pair
      that starts before the last character, or, when there is none, the
      last index, which leaves the final character to the outer loop. */
  function BlockEnd(t: string, k: nat): (e: nat)
    requires k <= |t|
    ensures k <= e <= |t|
    decreases |t| - k
  {
    if k + 1 >= |t| then k
    else if t[k] == '*' && t[k + 1] == '/' then k + 2
    else BlockEnd(t, k + 1)
  }

  /** A line comment opens at `i` (two slashes). */
  predicate LineCommentAt(t: string, i: nat) {
    i + 1 < |t| && t[i] == '/' && t[i + 1] == '/'
  }

  /** A block comment opens at `i` (a slash, then a star). */
  predicate BlockCommentAt(t: string, i: nat) {
    i + 1 < |t| && t[i] == '/' && t[i + 1] == '*'
  }

  /** One iteration of the outer loop of `stripComments` on the rest `t` of
      the text: what it appends, and how far the cursor moves. */
  function StripStep(t: string): (r: (string, nat))
    requires |t| >= 1
    ensures 1 <= r.1 <= |t|
  {
    if LineCommentAt(t, 0) then
      var j := IndexOf(t, '\n', 0);
      if j < |t| then ("\n", j + 1) else ("", |t|)
    else if BlockCommentAt(t, 0) then ("", BlockEnd(t, 2))
    else if IsQuote(t[0]) then SpanStep(t)
    else ([t[0]], 1)
  }

  /** `stripComments`: the outer loop, iteration by iteration. */
  function StripComments(t: string): string
    decreases |t|
  {
    if |t| == 0 then [] else StripStep(t).0 + StripComments(t[StripStep(t).1..])
  }

  /** The skip over a line comment that starts at `i`: up to the next line
      break, or the end of the text. */
  method SkipLine(s: string, i: nat) returns (j: nat)
    requires i <= |s|
    ensures j == i + IndexOf(s[i..], '\n', 0)
  {
    j := i;
    while j < |s| && s[j] != '\n'
      invariant i <= j <= |s|
      invariant forall k :: i <= k < j ==> s[k] != '\n'
      decreases |s| - j
    {
      j := j + 1;
    }
    IndexOfIs(s[i..], '\n', 0, j - i);
  }

  /** The search for the end of a block comment whose body starts at `k`,
      in the text from `i` on. */
  method SkipBlock(s: string, i: nat, k: nat) returns (e: nat)
    requires i <= k <= |s|
    ensures e == i + BlockEnd(s[i..], k - i)
  {
    e := k;
    while e < |s| - 1
      invariant k <= e <= |s|
      invariant BlockEnd(s[i..], k - i) == BlockEnd(s[i..], e - i)
      decreases |s| - e
    {
      assert s[i..][e - i] == s[e] && s[i..][e - i + 1] == s[e + 1];
      if s[e] == '*' && s[e + 1] == '/' {
        e := e + 2;
        break;
      }
      e := e + 1;
    }
  }

  /** The quoted-span loop, with its escape flag, after the quote at `i`:
      the text it appends and the index where the outer loop resumes. */
  method CopySpan(s: string, i: nat) returns (piece: string, next: nat)
    requires i < |s|
    ensures (piece, next - i) == SpanStep(s[i..])
  {
    ghost var t := s[i..];
    var q := s[i];
    var inEscape := false;
    piece := [q];
    next := i + 1;
    while next < |s|
      invariant i + 1 <= next <= |s|
      invariant QuoteStop(t, 1, q, false) == QuoteStop(t, next - i, q, inEscape)
      invariant piece == s[i..next]
      decreases |s| - next
    {
      ghost var was := inEscape;
      assert t[next - i] == s[next];
      if s[next] == '\\' && !inEscape {
        inEscape := true;
      } else {
        inEscape := false;
      }
      assert s[i..next + 1] == s[i..next] + [s[next]];
      piece := piece + [s[next]];
      if s[next] == q && !inEscape {
        assert QuoteStop(t, next - i, q, was) == next - i;
        assert t[..next - i + 1] == s[i..next + 1];
        break;
      }
      next := next + 1;
    }
    if next == |s| {
      assert piece == t;
    }
  }

  /** One iteration of the outer loop of `stripComments` at index `i`. */
  method StripOnce(s: string, i: nat) returns (piece: string, next: nat)
    requires i < |s|
    ensures (piece, next - i) == StripStep(s[i..])
  {
    ghost var t := s[i..];
    if i + 1 < |s| && s[i] == '/' && s[i + 1] == '/' {
      assert LineCommentAt(t, 0);
      next := SkipLine(s, i);
      piece := "";
      if next < |s| && s[next] == '\n' {
        piece := [s[next]];
        next := next + 1;
      }
    } else if i + 1 < |s| && s[i] == '/' && s[i + 1] == '*' {
      assert BlockCommentAt(t, 0);
      next := SkipBlock(s, i, i + 2);
      piece := "";
    } else if s[i] == '"' || s[i] == '\'' {
      piece, next := CopySpan(s, i);
    } else {
      piece := [s[i]];
      next := i + 1;
    }
  }

  /** One turn of the outer loop. */
  lemma StripAfter(t: string, piece: string, n: nat)
    requires |t| >= 1 && StripStep(t) == (piece, n)
    ensures StripComments(t) == piece + StripComments(t[n..])
  {
  }

  /** What one turn of the loop adds to the result. */
  lemma StripLoopStep(s: string, i: nat, next: nat, piece: string, result: string)
    requires i < next <= |s| && (piece, next - i) == StripStep(s[i..])
    ensures result + StripComments(s[i..]) == (result + piece) + StripComments(s[next..])
  {
    StripAfter(s[i..], piece, next - i);
    assert s[i..][next - i..] == s[next..];
  }

  /** `stripComments` with the loops of the source: the outer cursor loop
      around the skip to the end of a line comment, the search for the end
      of a block comment, and the quoted-span loop with its escape flag. */
  method StripCommentsLoop(s: string) returns (result: string)
    ensures result == StripComments(s)
  {
    result := [];
    var i := 0;
    while i < |s|
      invariant 0 <= i <= |s|
      invariant result + StripComments(s[i..]) == StripComments(s)
      decreases |s| - i
    {
      var piece, next := StripOnce(s, i);
      StripLoopStep(s, i, next, piece, result);
      result := result + piece;
      i := next;
    }
  }

  // ---------------------------------------------------------------------
  // What stripComments does

  /** Once the loop reaches a quote, the rest of the text is copied with
      that quote once and every later quote of its kind twice: a backslash
      does not protect a quote, and the quote that ends one span opens the
      next. */
  lemma {:induction false} StripQuoteRun(t: string)
    requires |t| >= 1 && IsQuote(t[0])
    ensures StripComments(t) == [t[0]] + Doubled(t[1..], t[0])
    decreases |t|
  {
    var j := SpanStep(t).1;
    assert StripStep(t) == SpanStep(t);
    if j == |t| {
      SpanToEnd(t);
      assert t[j..] == [];
    } else {
      SpanStops(t);
      var rest := t[j..];
      assert rest[0] == t[0] && rest[1..] == t[j + 1..];
      StripQuoteRun(rest);
      SpanThenDoubled(t);
    }
  }

  /** A character that is neither a slash nor a quote is copied. */
  lemma StripPlainChar(c: char, t: string)
    requires c != '/' && !IsQuote(c)
    ensures StripComments([c] + t) == [c] + StripComments(t)
  {
    var u := [c] + t;
    assert u[0] == c;
    assert StripStep(u) == ([c], 1);
    StripAfter(u, [c], 1);
    assert u[1..] == t;
  }

  /** Text without slashes and quotes is copied as it is, and what follows
      it is stripped on its own. */
  lemma {:induction false} StripPlainPrefix(a: string, b: string)
    requires '/' !in a && '"' !in a && '\'' !in a
    ensures StripComments(a + b) == a + StripComments(b)
    decreases |a|
  {
    if |a| > 0 {
      var u := a[1..] + b;
      assert a + b == [a[0]] + u;
      StripPlainChar(a[0], u);
      assert forall x :: x in a[1..] ==> x in a;
      StripPlainPrefix(a[1..], b);
      ConsAppend(a, StripComments(b));
    } else {
      assert a + b == b;
    }
  }

  /** A line comment is dropped up to, not including, its line break. */
  lemma StripLineComment(c: string, d: string)
    requires '\n' !in c
    ensures StripComments("//" + c + "\n" + d) == "\n" + StripComments(d)
  {
    var t := "//" + c + "\n" + d;
    assert LineCommentAt(t, 0);
    assert forall k :: 0 <= k < |c| ==> t[k + 2] == c[k];
    IndexOfIs(t, '\n', 0, |c| + 2);
    assert t[|c| + 3..] == d;
  }

  /** A line comment on the last line is dropped to the end. */
  lemma StripLastLineComment(c: string)
    requires '\n' !in c
    ensures StripComments("//" + c) == ""
  {
    var t := "//" + c;
    assert LineCommentAt(t, 0);
    assert forall k :: 0 <= k < |c| ==> t[k + 2] == c[k];
    IndexOfIs(t, '\n', 0, |t|);
    assert t[|t|..] == [];
  }

  /** No star-slash pair inside `c`. */
  predicate NoCloser(c: string) {
    forall m :: 0 <= m < |c| - 1 ==> !(c[m] == '*' && c[m + 1] == '/')
  }

  lemma {:induction false} BlockEndAt(t: string, k: nat, m: nat)
    requires k <= m && m + 1 < |t| && t[m] == '*' && t[m + 1] == '/'
    requires forall p :: k <= p < m ==> !(t[p] == '*' && t[p + 1] == '/')
    ensures BlockEnd(t, k) == m + 2
    decreases m - k
  {
    if k < m {
      BlockEndAt(t, k + 1, m);
    }
  }

  lemma {:induction false} BlockEndNone(t: string, k: nat)
    requires k <= |t|
    requires forall p :: k <= p < |t| - 1 ==> !(t[p] == '*' && t[p + 1] == '/')
    ensures BlockEnd(t, k) == if k + 1 >= |t| then k else |t| - 1
    decreases |t| - k
  {
    if k + 1 < |t| {
      BlockEndNone(t, k + 1);
    }
  }

  /** A closed block comment is dropped, line breaks and all. */
  lemma StripBlockComment(c: string, d: string)
    requires NoCloser(c)
    ensures StripComments("/*" + c + "*/" + d) == StripComments(d)
  {
    var t := "/*" + c + "*/" + d;
    assert BlockCommentAt(t, 0);
    assert forall k :: 0 <= k < |c| ==> t[k + 2] == c[k];
    assert t[|c| + 2] == '*' && t[|c| + 3] == '/';
    BlockEndAt(t, 2, |c| + 2);
    assert t[|c| + 4..] == d;
  }

  /** A lone character is copied, whatever it is. */
  lemma StripOneChar(x: char)
    ensures StripComments([x]) == [x]
  {
    assert [x][1..] == [];
  }

  /** Where the unclosed comment leaves the loop. */
  lemma UnclosedBlockStep(c: string)
    requires NoCloser(c)
    ensures StripStep("/*" + c) == ("", if |c| == 0 then 2 else |c| + 1)
  {
    var t := "/*" + c;
    assert BlockCommentAt(t, 0);
    assert forall k :: 0 <= k < |c| ==> t[k + 2] == c[k];
    BlockEndNone(t, 2);
  }

  /** A block comment that is never closed swallows the rest of the text
      except its final character, which the outer loop still sees. */
  lemma StripUnclosedBlock(c: string)
    requires NoCloser(c)
    ensures StripComments("/*" + c) == if |c| == 0 then "" else [c[|c| - 1]]
  {
    UnclosedBlockStep(c);
    if |c| == 0 {
      StripAfter("/*" + c, "", 2);
      assert ("/*" + c)[2..] == [];
    } else {
      UnclosedBlockTail(c);
    }
  }

  /** A step that drops everything but the final character. */
  lemma StripKeepsLast(t: string)
    requires |t| >= 2 && StripStep(t) == ("", |t| - 1)
    ensures StripComments(t) == [t[|t| - 1]]
  {
    StripAfter(t, "", |t| - 1);
    assert t[|t| - 1..] == [t[|t| - 1]];
    StripOneChar(t[|t| - 1]);
  }

  lemma UnclosedBlockTail(c: string)
    requires |c| > 0
    requires StripStep("/*" + c) == ("", |c| + 1)
    ensures StripComments("/*" + c) == [c[|c| - 1]]
  {
    var t := "/*" + c;
    assert |t| == |c| + 2 && t[|t| - 1] == c[|c| - 1];
    StripKeepsLast(t);
  }

  /** The defect on the smallest case: a closed literal such as `"a"` comes
      out as `"a""`, one quote longer than it went in. */
  lemma StripLiteralGrows(q: char, body: string)
    requires IsQuote(q) && q !in body
    ensures StripComments([q] + body + [q]) == [q] + body + [q, q]
    ensures StripComments([q] + body + [q]) != [q] + body + [q]
  {
    var t := [q] + body + [q];
    assert t[0] == q && t[1..] == body + [q];
    StripQuoteRun(t);
    DoubledClosed(body, q);
  }
}
