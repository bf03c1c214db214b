/** The three JSON5 rewrite passes with the quoted-span handling they
    evidently intend: a backslash escapes the character after it, the span
    ends on the first unescaped quote of its kind, and the cursor moves past
    that closing quote. Everything outside quoted spans is handled exactly
    as in the passes of `Json5`, `Json5Commas` and `Json5Keys`. */
module Json5Fixed {
  import opened Chars
  import Json5
  import Json5Commas
  import Json5Keys

  /** From index `i` inside a literal opened by `q`: the index of its
      closing quote, or the end of the text. */
  function SpanClose(t: string, i: nat, q: char, inEscape: bool): (j: nat)
    requires i <= |t|
    ensures i <= j <= |t|
    ensures j < |t| ==> t[j] == q
    decreases |t| - i
  {
    if i == |t| then i
    else if inEscape then SpanClose(t, i + 1, q, false)
    else if t[i] == '\\' then SpanClose(t, i + 1, q, true)
    else if t[i] == q then i
    else SpanClose(t, i + 1, q, false)
  }

  /** The literal that opens at the start of `t`, through its closing
      quote: copied as it is, and the cursor moves past it. */
  function LiteralStep(t: string): (r: (string, nat))
    requires |t| >= 1
    ensures 1 <= r.1 <= |t| && r.0 == t[..r.1]
  {
    var j := SpanClose(t, 1, t[0], false);
    if j < |t| then (t[..j + 1], j + 1) else (t, |t|)
  }

  /** The text between the quotes of a well-formed literal opened by `q`:
      every backslash escapes the character after it, and `q` occurs only
      escaped. */
  predicate LiteralBody(b: string, q: char)
    decreases |b|
  {
    if |b| == 0 then true
    else if b[0] == '\\' then |b| >= 2 && LiteralBody(b[2..], q)
    else b[0] != q && LiteralBody(b[1..], q)
  }

  /** A body with neither its quote nor a backslash is well formed. */
  lemma {:induction false} PlainBody(b: string, q: char)
    requires q !in b && '\\' !in b
    ensures LiteralBody(b, q)
    decreases |b|
  {
    if |b| > 0 {
      assert forall x :: x in b[1..] ==> x in b;
      PlainBody(b[1..], q);
    }
  }

  /** A well-formed body runs to the quote after it: no escaped character
      closes the literal. */
  lemma {:induction false} SpanCloseBody(t: string, i: nat, body: string, q: char)
    requires i + |body| < |t| && t[i..i + |body|] == body && t[i + |body|] == q
    requires q != '\\' && LiteralBody(body, q)
    ensures SpanClose(t, i, q, false) == i + |body|
    decreases |body|
  {
    if |body| > 0 {
      assert t[i] == body[0];
      if body[0] == '\\' {
        assert t[i + 1] == body[1];
        assert t[i + 2..i + |body|] == body[2..];
        SpanCloseBody(t, i + 2, body[2..], q);
      } else {
        assert t[i + 1..i + |body|] == body[1..];
        SpanCloseBody(t, i + 1, body[1..], q);
      }
    }
  }

  /** An escaped quote does not close the literal. */
  lemma EscapedQuoteStays(t: string, i: nat, q: char)
    requires i + 2 <= |t| && t[i] == '\\' && t[i + 1] == q
    ensures SpanClose(t, i, q, false) == SpanClose(t, i + 2, q, false)
  {
  }

  lemma LiteralStepBody(q: char, body: string, rest: string)
    requires Json5.IsQuote(q) && LiteralBody(body, q)
    ensures LiteralStep([q] + body + [q] + rest) == ([q] + body + [q], |body| + 2)
  {
    var t := [q] + body + [q] + rest;
    assert t[1..|body| + 1] == body;
    SpanCloseBody(t, 1, body, q);
    assert t[..|body| + 2] == [q] + body + [q];
  }

  // ---------------------------------------------------------------------
  // stripComments

  function CommentStep(t: string): (r: (string, nat))
    requires |t| >= 1
    ensures 1 <= r.1 <= |t|
  {
    if Json5.LineCommentAt(t, 0) then
      var j := IndexOf(t, '\n', 0);
      if j < |t| then ("\n", j + 1) else ("", |t|)
    else if Json5.BlockCommentAt(t, 0) then ("", Json5.BlockEnd(t, 2))
    else if Json5.IsQuote(t[0]) then LiteralStep(t)
    else ([t[0]], 1)
  }

  function StripComments(t: string): string
    decreases |t|
  {
    if |t| == 0 then [] else CommentStep(t).0 + StripComments(t[CommentStep(t).1..])
  }

  lemma CommentAfter(t: string, piece: string, n: nat)
    requires |t| >= 1 && CommentStep(t) == (piece, n)
    ensures StripComments(t) == piece + StripComments(t[n..])
  {
  }

  /** A well-formed literal is copied as it is, escapes and comment
      markers inside it included. */
  lemma StripKeepsLiteral(q: char, body: string, rest: string)
    requires Json5.IsQuote(q) && LiteralBody(body, q)
    ensures StripComments([q] + body + [q] + rest) == [q] + body + [q] + StripComments(rest)
  {
    var t := [q] + body + [q] + rest;
    var lit := [q] + body + [q];
    LiteralStepBody(q, body, rest);
    assert t[0] == q && !Json5.LineCommentAt(t, 0) && !Json5.BlockCommentAt(t, 0);
    CommentAfter(t, lit, |lit|);
    assert t[|lit|..] == rest;
  }

  /** Without a slash a step copies what it moves over. */
  lemma CommentStepCopies(t: string)
    requires |t| >= 1 && '/' !in t
    ensures CommentStep(t).0 == t[..CommentStep(t).1]
  {
    assert !Json5.LineCommentAt(t, 0) && !Json5.BlockCommentAt(t, 0);
  }

  /** Text without a slash has no comment, and comes out unchanged. */
  lemma {:induction false} StripIdentity(t: string)
    requires '/' !in t
    ensures StripComments(t) == t
    decreases |t|
  {
    if |t| > 0 {
      CommentStepCopies(t);
      var (piece, n) := CommentStep(t);
      CommentAfter(t, piece, n);
      var u := t[n..];
      assert forall x :: x in u ==> x in t;
      StripIdentity(u);
      assert t == t[..n] + u;
    }
  }

  // ---------------------------------------------------------------------
  // stripTrailingCommas

  function CommaStep(t: string): (r: (string, nat))
    requires |t| >= 1
    ensures 1 <= r.1 <= |t|
  {
    if t[0] == '"' then LiteralStep(t)
    else if Json5Commas.TrailingCommaAt(t) then ("", 1)
    else ([t[0]], 1)
  }

  function StripTrailingCommas(t: string): string
    decreases |t|
  {
    if |t| == 0 then [] else CommaStep(t).0 + StripTrailingCommas(t[CommaStep(t).1..])
  }

  lemma CommaAfter(t: string, piece: string, n: nat)
    requires |t| >= 1 && CommaStep(t) == (piece, n)
    ensures StripTrailingCommas(t) == piece + StripTrailingCommas(t[n..])
  {
  }

  /** A well-formed double-quoted literal is copied as it is, escapes and
      commas inside it included. */
  lemma CommasKeepLiteral(body: string, rest: string)
    requires LiteralBody(body, '"')
    ensures StripTrailingCommas(['"'] + body + ['"'] + rest) == ['"'] + body + ['"'] + StripTrailingCommas(rest)
  {
    var t := ['"'] + body + ['"'] + rest;
    var lit := ['"'] + body + ['"'];
    assert Json5.IsQuote('"');
    LiteralStepBody('"', body, rest);
    assert t[0] == '"';
    CommaAfter(t, lit, |lit|);
    assert t[|lit|..] == rest;
  }

  /** Without a comma a step copies what it moves over. */
  lemma CommaStepCopies(t: string)
    requires |t| >= 1 && ',' !in t
    ensures CommaStep(t).0 == t[..CommaStep(t).1]
  {
    assert !Json5Commas.TrailingCommaAt(t);
  }

  /** Text without a comma comes out unchanged. */
  lemma {:induction false} CommasIdentity(t: string)
    requires ',' !in t
    ensures StripTrailingCommas(t) == t
    decreases |t|
  {
    if |t| > 0 {
      CommaStepCopies(t);
      var (piece, n) := CommaStep(t);
      CommaAfter(t, piece, n);
      var u := t[n..];
      assert forall x :: x in u ==> x in t;
      CommasIdentity(u);
      assert t == t[..n] + u;
    }
  }

  // ---------------------------------------------------------------------
  // unquoteKeys

  function KeyStep(t: string): (r: (string, nat))
    requires |t| >= 1
    ensures 1 <= r.1 <= |t|
  {
    match Json5Keys.KeyColon(t)
    case Some(w) => (Json5Keys.QuotedKey(t[..Json5Keys.IdentEnd(t, 1)]), w + 1)
    case None => if Json5.IsQuote(t[0]) then LiteralStep(t) else ([t[0]], 1)
  }

  function UnquoteKeys(t: string): string
    decreases |t|
  {
    if |t| == 0 then [] else KeyStep(t).0 + UnquoteKeys(t[KeyStep(t).1..])
  }

  lemma KeyAfter(t: string, piece: string, n: nat)
    requires |t| >= 1 && KeyStep(t) == (piece, n)
    ensures UnquoteKeys(t) == piece + UnquoteKeys(t[n..])
  {
  }

  lemma QuoteIsLiteral(t: string)
    requires |t| >= 1 && Json5.IsQuote(t[0])
    ensures KeyStep(t) == LiteralStep(t)
  {
    assert Json5Keys.KeyColon(t).None?;
  }

  /** A well-formed literal is copied as it is, escapes and colons inside it
      included: a quoted key stays as it was written. */
  lemma KeysKeepLiteral(q: char, body: string, rest: string)
    requires Json5.IsQuote(q) && LiteralBody(body, q)
    ensures UnquoteKeys([q] + body + [q] + rest) == [q] + body + [q] + UnquoteKeys(rest)
  {
    var t := [q] + body + [q] + rest;
    var lit := [q] + body + [q];
    LiteralStepBody(q, body, rest);
    assert t[0] == q;
    QuoteIsLiteral(t);
    KeyAfter(t, lit, |lit|);
    assert t[|lit|..] == rest;
  }

  /** Without a colon a step copies what it moves over. */
  lemma KeyStepCopies(t: string)
    requires |t| >= 1 && ':' !in t
    ensures KeyStep(t).0 == t[..KeyStep(t).1]
  {
    assert Json5Keys.KeyColon(t).None?;
  }

  /** Text without a colon comes out unchanged. */
  lemma {:induction false} KeysIdentity(t: string)
    requires ':' !in t
    ensures UnquoteKeys(t) == t
    decreases |t|
  {
    if |t| > 0 {
      KeyStepCopies(t);
      var (piece, n) := KeyStep(t);
      KeyAfter(t, piece, n);
      var u := t[n..];
      assert forall x :: x in u ==> x in t;
      KeysIdentity(u);
      assert t == t[..n] + u;
    }
  }
}
