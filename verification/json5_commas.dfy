/** `stripTrailingCommas` of `utils/json5Parser.ts`: a comma directly
    before a closing brace or bracket is dropped. Only double quotes open a
    protected span, with the same quote defect as the other passes. */
module Json5Commas {
  import opened Chars
  import opened Json5

  /** A comma whose very next character closes an object or an array. The
      lookahead past the end of the text reads nothing, so a comma in last
      position stays. */
  predicate TrailingCommaAt(t: string) {
    |t| >= 2 && t[0] == ',' && (t[1] == '}' || t[1] == ']')
  }

  /** One iteration of the loop on the rest `t` of the text. */
  function CommaStep(t: string): (r: (string, nat))
    requires |t| >= 1
    ensures 1 <= r.1 <= |t|
  {
    if t[0] == '"' then SpanStep(t)
    else if TrailingCommaAt(t) then ("", 1)
    else ([t[0]], 1)
  }

  /** `stripTrailingCommas`: the loop as a recursion over the rest. */
  function StripTrailingCommas(t: string): string
    decreases |t|
  {
    if |t| == 0 then [] else CommaStep(t).0 + StripTrailingCommas(t[CommaStep(t).1..])
  }

  lemma CommaAfter(t: string, piece: string, n: nat)
    requires |t| >= 1 && CommaStep(t) == (piece, n)
    ensures StripTrailingCommas(t) == piece + StripTrailingCommas(t[n..])
  {
  }

  /** From the first double quote on, the rest is copied with every later
      double quote written twice. */
  lemma {:induction false} CommasQuoteRun(t: string)
    requires |t| >= 1 && t[0] == '"'
    ensures StripTrailingCommas(t) == ['"'] + Doubled(t[1..], '"')
    decreases |t|
  {
    var j := SpanStep(t).1;
    CommaAfter(t, SpanStep(t).0, j);
    if j == |t| {
      SpanToEnd(t);
      assert t[j..] == [];
    } else {
      SpanStops(t);
      var rest := t[j..];
      assert rest[0] == t[0] && rest[1..] == t[j + 1..];
      CommasQuoteRun(rest);
      SpanThenDoubled(t);
    }
  }

  /** A character other than a double quote or a comma is copied. */
  lemma CommasPlainChar(c: char, t: string)
    requires c != '"' && c != ','
    ensures StripTrailingCommas([c] + t) == [c] + StripTrailingCommas(t)
  {
    var u := [c] + t;
    assert u[0] == c && !TrailingCommaAt(u);
    CommaAfter(u, [c], 1);
    assert u[1..] == t;
  }

  /** Text without double quotes and commas is copied as it is, and what
      follows it is processed on its own. */
  lemma {:induction false} CommasPlainPrefix(a: string, b: string)
    requires '"' !in a && ',' !in a
    ensures StripTrailingCommas(a + b) == a + StripTrailingCommas(b)
    decreases |a|
  {
    if |a| > 0 {
      var u := a[1..] + b;
      assert a + b == [a[0]] + u;
      CommasPlainChar(a[0], u);
      assert forall x :: x in a[1..] ==> x in a;
      CommasPlainPrefix(a[1..], b);
      ConsAppend(a, StripTrailingCommas(b));
    } else {
      assert a + b == b;
    }
  }

  /** A comma before a closer is dropped and the closer kept. */
  lemma CommaDropped(t: string)
    requires TrailingCommaAt(t)
    ensures StripTrailingCommas(t) == [t[1]] + StripTrailingCommas(t[2..])
  {
    CommaAfter(t, "", 1);
    var v := t[1..];
    assert v[0] == t[1] && v[1..] == t[2..];
    CommaAfter(v, [t[1]], 1);
  }

  /** Any other comma is kept: at the end of the text, or before anything
      but a closer. */
  lemma CommaKept(t: string)
    requires |t| >= 1 && t[0] == ','
    requires |t| == 1 || (t[1] != '}' && t[1] != ']')
    ensures StripTrailingCommas(t) == [','] + StripTrailingCommas(t[1..])
  {
    CommaAfter(t, [','], 1);
  }

  /** One pass only: in a run of commas before a closer just the last one
      goes, so `[1,,]` comes out as `[1,]`. */
  lemma CommaRunKeepsOne(t: string)
    requires |t| >= 3 && t[0] == ',' && t[1] == ',' && (t[2] == '}' || t[2] == ']')
    ensures StripTrailingCommas(t) == t[1..3] + StripTrailingCommas(t[3..])
  {
    CommaKept(t);
    var v := t[1..];
    assert TrailingCommaAt(v) && v[1] == t[2] && v[2..] == t[3..];
    CommaDropped(v);
    var pair := t[1..3];
    assert pair[0] == ',' && pair[1..] == [t[2]];
    ConsAppend(pair, StripTrailingCommas(t[3..]));
  }

  /** Quote-free text: the pass removes commas and nothing else. */
  lemma {:induction false} CommasKeepOthers(t: string, c: char)
    requires '"' !in t && c != ','
    ensures Count(StripTrailingCommas(t), c) == Count(t, c)
    decreases |t|
  {
    if |t| > 0 {
      var u := t[1..];
      assert t == [t[0]] + u;
      assert forall x :: x in u ==> x in t;
      CommasKeepOthers(u, c);
      var piece := CommaStep(t).0;
      assert CommaStep(t) == (piece, 1);
      CommaAfter(t, piece, 1);
      CountAppend(piece, StripTrailingCommas(u), c);
      CountAppend([t[0]], u, c);
      assert Count(piece, c) == Count([t[0]], c) by {
        assert piece == [] || piece == [t[0]];
        assert [t[0]][..0] == [];
        if piece == [] {
          assert t[0] == ',';
        }
      }
    }
  }

  /** Quote-free text with no comma before a closer is left unchanged. */
  lemma {:induction false} CommasIdentity(t: string)
    requires '"' !in t
    requires forall k :: 0 <= k < |t| - 1 ==> !(t[k] == ',' && (t[k + 1] == '}' || t[k + 1] == ']'))
    ensures StripTrailingCommas(t) == t
    decreases |t|
  {
    if |t| > 0 {
      assert !TrailingCommaAt(t);
      CommaAfter(t, [t[0]], 1);
      var u := t[1..];
      assert forall x :: x in u ==> x in t;
      assert forall k :: 0 <= k < |u| ==> u[k] == t[k + 1];
      CommasIdentity(u);
      assert t == [t[0]] + u;
    }
  }

  /** The defect on the smallest case: `"a"` comes out as `"a""`. */
  lemma CommasLiteralGrows(body: string)
    requires '"' !in body
    ensures StripTrailingCommas(['"'] + body + ['"']) == ['"'] + body + ['"', '"']
    ensures StripTrailingCommas(['"'] + body + ['"']) != ['"'] + body + ['"']
  {
    var t := ['"'] + body + ['"'];
    assert t[0] == '"' && t[1..] == body + ['"'];
    CommasQuoteRun(t);
    DoubledClosed(body, '"');
  }
}
