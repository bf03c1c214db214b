/** `unquoteKeys` of `utils/json5Parser.ts`: at every cursor position the
    rest of the text is matched against an identifier, optional white space
    and a colon; a match is written back as a double-quoted key and a
    colon. Both kinds of quote open a protected span, with the same quote
    defect as the other passes. */
module Json5Keys {
  import opened Wrappers
  import opened Chars
  import opened Json5

  /** First character of the key pattern: a letter, `_` or `$`. */
  predicate IsIdentStart(c: char) {
    ('a' <= c <= 'z') || ('A' <= c <= 'Z') || c == '_' || c == '$'
  }

  /** Later characters of the key pattern: those, or a digit. */
  predicate IsIdentPart(c: char) {
    IsIdentStart(c) || ('0' <= c <= '9')
  }

  /** End of the run of identifier characters from `i`. */
  function IdentEnd(t: string, i: nat): (e: nat)
    requires i <= |t|
    ensures i <= e <= |t|
    decreases |t| - i
  {
    if i == |t| || !IsIdentPart(t[i]) then i else IdentEnd(t, i + 1)
  }

  lemma {:induction false} IdentRun(t: string, i: nat)
    requires i <= |t|
    ensures forall k :: i <= k < IdentEnd(t, i) ==> IsIdentPart(t[k])
    decreases |t| - i
  {
    if i < |t| && IsIdentPart(t[i]) {
      IdentRun(t, i + 1);
    }
  }

  /** The key pattern anchored at the start of `t`: the index of its colon.
      Neither run can give back characters to let the pattern match
      otherwise, since an identifier character is neither white space nor a
      colon, so the greedy runs decide the match. */
  function KeyColon(t: string): (r: Option<nat>)
    ensures r.Some? ==> r.value < |t| && t[r.value] == ':'
  {
    if |t| == 0 || !IsIdentStart(t[0]) then None
    else
      var w := SpaceEnd(t, IdentEnd(t, 1));
      if w < |t| && t[w] == ':' then Some(w) else None
  }

  /** A key as the pass writes it back: between double quotes, followed
      by a colon. */
  function QuotedKey(key: string): (r: string)
    ensures |r| == |key| + 3 && r[0] == '"' && r[|r| - 1] == ':'
  {
    "\"" + key + "\":"
  }

  lemma QuotedKeyColons(key: string)
    requires ':' !in key
    ensures Count(QuotedKey(key), ':') == 1
  {
    var open := "\"" + key + "\"";
    assert QuotedKey(key) == open + [':'];
    CountAppend(open, [':'], ':');
    CountAbsent(open, ':');
    assert [':'][..0] == [];
  }

  /** One iteration of the loop on the rest `t` of the text. On a match the
      key is written quoted with its colon, and the cursor moves past the
      identifier, then up to the colon (only white space lies between), then
      past it. */
  function KeyStep(t: string): (r: (string, nat))
    requires |t| >= 1
    ensures 1 <= r.1 <= |t|
  {
    match KeyColon(t)
    case Some(w) => (QuotedKey(t[..IdentEnd(t, 1)]), w + 1)
    case None => if IsQuote(t[0]) then SpanStep(t) else ([t[0]], 1)
  }

  /** `unquoteKeys`: the loop as a recursion over the rest. */
  function UnquoteKeys(t: string): string
    decreases |t|
  {
    if |t| == 0 then [] else KeyStep(t).0 + UnquoteKeys(t[KeyStep(t).1..])
  }

  lemma KeyAfter(t: string, piece: string, n: nat)
    requires |t| >= 1 && KeyStep(t) == (piece, n)
    ensures UnquoteKeys(t) == piece + UnquoteKeys(t[n..])
  {
  }

  /** An identifier, white space and a colon: the identifier comes out
      between double quotes, the white space is dropped and the colon kept. */
  lemma KeyQuoted(t: string, key: nat, w: nat)
    requires 1 <= key <= w < |t| && t[w] == ':'
    requires IsIdentStart(t[0]) && forall k :: 1 <= k < key ==> IsIdentPart(t[k])
    requires forall k :: key <= k < w ==> IsSpace(t[k])
    ensures UnquoteKeys(t) == QuotedKey(t[..key]) + UnquoteKeys(t[w + 1..])
  {
    KeyColonIs(t, key, w);
    KeyMatched(t, w);
  }

  lemma KeyMatched(t: string, w: nat)
    requires KeyColon(t) == Some(w)
    ensures UnquoteKeys(t) == QuotedKey(t[..IdentEnd(t, 1)]) + UnquoteKeys(t[w + 1..])
  {
    KeyAfter(t, QuotedKey(t[..IdentEnd(t, 1)]), w + 1);
  }

  lemma KeyColonIs(t: string, key: nat, w: nat)
    requires 1 <= key <= w < |t| && t[w] == ':'
    requires IsIdentStart(t[0]) && forall k :: 1 <= k < key ==> IsIdentPart(t[k])
    requires forall k :: key <= k < w ==> IsSpace(t[k])
    ensures IdentEnd(t, 1) == key && KeyColon(t) == Some(w)
  {
    IdentEndIs(t, 1, key);
    SpaceEndIs(t, key, w);
  }

  lemma {:induction false} IdentEndIs(t: string, i: nat, e: nat)
    requires i <= e < |t| && forall k :: i <= k < e ==> IsIdentPart(t[k])
    requires t[e] == ':' || IsSpace(t[e])
    ensures IdentEnd(t, i) == e
    decreases e - i
  {
    if i < e {
      IdentEndIs(t, i + 1, e);
    }
  }

  lemma QuoteIsSpan(t: string)
    requires |t| >= 1 && IsQuote(t[0])
    ensures KeyStep(t) == SpanStep(t)
  {
    assert KeyColon(t) == None;
  }

  lemma KeysAtQuote(t: string)
    requires |t| >= 1 && IsQuote(t[0])
    ensures UnquoteKeys(t) == SpanStep(t).0 + UnquoteKeys(t[SpanStep(t).1..])
  {
    QuoteIsSpan(t);
    KeyAfter(t, SpanStep(t).0, SpanStep(t).1);
  }

  /** From the first quote on, the rest is copied with every later quote of
      the same kind written twice. */
  lemma {:induction false} KeysQuoteRun(t: string)
    requires |t| >= 1 && IsQuote(t[0])
    ensures UnquoteKeys(t) == [t[0]] + Doubled(t[1..], t[0])
    decreases |t|
  {
    var j := SpanStep(t).1;
    KeysAtQuote(t);
    if j == |t| {
      SpanToEnd(t);
      assert t[j..] == [];
    } else {
      SpanStops(t);
      var rest := t[j..];
      assert rest[0] == t[0] && rest[1..] == t[j + 1..];
      KeysQuoteRun(rest);
      SpanThenDoubled(t);
    }
  }

  /** A character that can neither start a key nor open a quote is copied,
      and matching resumes on the very next character: so a key is found
      in the middle of a word, as in `1ab:` which becomes `1"ab":`. */
  lemma KeysPlainChar(t: string)
    requires |t| >= 1 && !IsIdentStart(t[0]) && !IsQuote(t[0])
    ensures UnquoteKeys(t) == [t[0]] + UnquoteKeys(t[1..])
  {
    KeyAfter(t, [t[0]], 1);
  }

  /** Without a colon there is no key to match, and without quotes no span:
      such text is left as it is. */
  lemma {:induction false} KeysIdentity(t: string)
    requires ':' !in t && '"' !in t && '\'' !in t
    ensures UnquoteKeys(t) == t
    decreases |t|
  {
    if |t| > 0 {
      assert KeyColon(t) == None;
      KeyAfter(t, [t[0]], 1);
      var u := t[1..];
      assert forall x :: x in u ==> x in t;
      KeysIdentity(u);
      assert t == [t[0]] + u;
    }
  }

  /** On quote-free text every colon survives: a match writes back the
      colon it consumes, and everything else is copied. */
  lemma {:induction false} KeysKeepColons(t: string)
    requires '"' !in t && '\'' !in t
    ensures Count(UnquoteKeys(t), ':') == Count(t, ':')
    decreases |t|
  {
    if |t| > 0 {
      var (piece, n) := KeyStep(t);
      KeyAfter(t, piece, n);
      var u := t[n..];
      assert t == t[..n] + u;
      assert forall x :: x in u ==> x in t;
      KeysKeepColons(u);
      CountAppend(piece, UnquoteKeys(u), ':');
      CountAppend(t[..n], u, ':');
      StepColons(t);
    }
  }

  /** The piece a step appends holds as many colons as the text it moves
      over. */
  lemma StepColons(t: string)
    requires |t| >= 1 && '"' !in t && '\'' !in t
    ensures Count(KeyStep(t).0, ':') == Count(t[..KeyStep(t).1], ':')
  {
    match KeyColon(t)
    case Some(w) =>
      MatchColons(t, w);
      QuotedKeyColons(t[..IdentEnd(t, 1)]);
      CountOnceAtEnd(t[..w + 1], ':');
    case None =>
      assert !IsQuote(t[0]);
      assert KeyStep(t) == ([t[0]], 1);
  }

  /** A match holds no colon before the one that ends it. */
  lemma MatchColons(t: string, w: nat)
    requires KeyColon(t) == Some(w)
    ensures ':' !in t[..IdentEnd(t, 1)] && ':' !in t[..w] && t[..w + 1][w] == ':'
  {
    var e := IdentEnd(t, 1);
    IdentRun(t, 1);
    SpaceRun(t, e);
    assert forall k :: 0 <= k < w ==> t[k] != ':';
  }

  /** The defect on the smallest case: `"a"` comes out as `"a""`, and
      `'a'` as `'a''`. */
  lemma KeysLiteralGrows(q: char, body: string)
    requires IsQuote(q) && q !in body
    ensures UnquoteKeys([q] + body + [q]) == [q] + body + [q, q]
    ensures UnquoteKeys([q] + body + [q]) != [q] + body + [q]
  {
    var t := [q] + body + [q];
    assert t[0] == q && t[1..] == body + [q];
    KeysQuoteRun(t);
    DoubledClosed(body, q);
  }
}
