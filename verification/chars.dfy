/** Character classes and string helpers shared by every scanner of the
    formatter: JavaScript's `\s` class, ASCII case folding, counting,
    `split`/`join`, decimal rendering and the character-by-character string
    order that stands in for `Array.prototype.sort`'s. */
module Chars {

  /** JavaScript's `\s` class, which is also the set `String.prototype.trim`
      removes: the ASCII blanks and line breaks plus the Unicode space
      separators, the line/paragraph separators and the byte-order mark. */
  predicate IsSpace(c: char) {
    || c == ' ' || c == '\t' || c == '\n' || c == '\r'
    || c == '\U{000B}' || c == '\U{000C}'
    || c == '\U{00A0}' || c == '\U{1680}'
    || ('\U{2000}' <= c <= '\U{200A}')
    || c == '\U{2028}' || c == '\U{2029}' || c == '\U{202F}'
    || c == '\U{205F}' || c == '\U{3000}' || c == '\U{FEFF}'
  }

  /** JavaScript's `\d`: the ASCII digits only. */
  predicate IsDigit(c: char) {
    '0' <= c <= '9'
  }

  predicate AllSpace(s: string) {
    forall i :: 0 <= i < |s| ==> IsSpace(s[i])
  }

  predicate AllDigits(s: string) {
    forall i :: 0 <= i < |s| ==> IsDigit(s[i])
  }

  /** `toLowerCase` restricted to ASCII letters. */
  function Lower(c: char): (r: char)
    ensures 'A' <= c <= 'Z' ==> r as int == c as int + 32
    ensures !('A' <= c <= 'Z') ==> r == c
  {
    if 'A' <= c <= 'Z' then (c as int + 32) as char else c
  }

  function LowerStr(s: string): (r: string)
    ensures |r| == |s|
    ensures forall i :: 0 <= i < |s| ==> r[i] == Lower(s[i])
  {
    seq(|s|, i requires 0 <= i < |s| => Lower(s[i]))
  }

  lemma LowerStrAppend(a: string, b: string)
    ensures LowerStr(a + b) == LowerStr(a) + LowerStr(b)
  {
  }

  /** Regrouping a concatenation after its first character. */
  lemma ConsAppend(s: string, rest: string)
    requires |s| > 0
    ensures [s[0]] + (s[1..] + rest) == s + rest
  {
    assert s == [s[0]] + s[1..];
  }

  /** Number of occurrences of `c` in `s`. */
  function Count(s: string, c: char): nat
    decreases |s|
  {
    if |s| == 0 then 0 else (if s[|s| - 1] == c then 1 else 0) + Count(s[..|s| - 1], c)
  }

  lemma {:induction false} CountAppend(a: string, b: string, c: char)
    ensures Count(a + b, c) == Count(a, c) + Count(b, c)
    decreases |b|
  {
    if |b| == 0 {
      assert a + b == a;
    } else {
      assert (a + b)[..|a + b| - 1] == a + b[..|b| - 1];
      CountAppend(a, b[..|b| - 1], c);
    }
  }

  lemma CountAbsent(s: string, c: char)
    requires c !in s
    ensures Count(s, c) == 0
  {
    if |s| > 0 {
      assert s[|s| - 1] in s;
      assert forall x :: x in s[..|s| - 1] ==> x in s;
      CountAbsent(s[..|s| - 1], c);
    }
  }

  predicate StartsWith(s: string, p: string) {
    |p| <= |s| && s[..|p|] == p
  }

  predicate EndsWith(s: string, p: string) {
    |p| <= |s| && s[|s| - |p|..] == p
  }

  /** `sub` occurs in `s` at offset `k`. */
  predicate OccursAt(s: string, sub: string, k: int) {
    0 <= k <= |s| - |sub| && s[k..k + |sub|] == sub
  }

  /** `s.includes(sub)`: some window of `s` equals `sub`. */
  predicate Contains(s: string, sub: string) {
    exists k :: 0 <= k <= |s| - |sub| && OccursAt(s, sub, k)
  }

  lemma ContainsSelf(s: string)
    ensures Contains(s, s)
  {
    assert OccursAt(s, s, 0);
  }

  /** A text inside a text inside a text. */
  lemma ContainsTransitive(a: string, b: string, c: string)
    requires Contains(a, b) && Contains(b, c)
    ensures Contains(a, c)
  {
    var i :| 0 <= i <= |a| - |b| && OccursAt(a, b, i);
    var j :| 0 <= j <= |b| - |c| && OccursAt(b, c, j);
    assert b == a[i..i + |b|];
    forall t | 0 <= t < |c|
      ensures a[i + j + t] == c[t]
    {
      assert c[t] == b[j + t];
    }
    assert a[i + j..i + j + |c|] == c;
    assert OccursAt(a, c, i + j);
  }

  /** Whatever occurs in `s` occurs in `a + s + b`. */
  lemma ContainsWithin(a: string, s: string, b: string, sub: string)
    requires Contains(s, sub)
    ensures Contains(a + s + b, sub)
  {
    var i :| 0 <= i <= |s| - |sub| && OccursAt(s, sub, i);
    assert (a + s + b)[|a| + i..|a| + i + |sub|] == s[i..i + |sub|];
    assert OccursAt(a + s + b, sub, |a| + i);
  }

  /** Both ends of a text that occurs in `s` occur in `s`. */
  lemma ContainsEnds(s: string, a: string, b: string, c: string)
    requires Contains(s, a + b + c)
    ensures Contains(s, a) && Contains(s, c)
  {
    ContainsSelf(a);
    ContainsWithin("", a, b + c, a);
    assert "" + a + (b + c) == a + b + c;
    ContainsTransitive(s, a + b + c, a);
    ContainsSelf(c);
    ContainsWithin(a + b, c, "", c);
    assert a + b + c + "" == a + b + c;
    ContainsTransitive(s, a + b + c, c);
  }

  /** Index of the first `c` at or after `from`, or `|s|` when there is none. */
  function IndexOf(s: string, c: char, from: nat): (r: nat)
    requires from <= |s|
    ensures from <= r <= |s|
    ensures r < |s| ==> s[r] == c
    ensures forall k :: from <= k < r ==> s[k] != c
    decreases |s| - from
  {
    if from == |s| then from else if s[from] == c then from else IndexOf(s, c, from + 1)
  }

  /** Any index that is a `c` (or the end) with no `c` before it is the one
      `IndexOf` finds. */
  lemma {:induction false} IndexOfIs(s: string, c: char, from: nat, j: nat)
    requires from <= j <= |s|
    requires j == |s| || s[j] == c
    requires forall k :: from <= k < j ==> s[k] != c
    ensures IndexOf(s, c, from) == j
    decreases j - from
  {
    if from < j {
      IndexOfIs(s, c, from + 1, j);
    }
  }

  /** End of the run of white space (the `\s` class) from `i`. */
  function SpaceEnd(t: string, i: nat): (e: nat)
    requires i <= |t|
    ensures i <= e <= |t|
    decreases |t| - i
  {
    if i == |t| || !IsSpace(t[i]) then i else SpaceEnd(t, i + 1)
  }

  lemma {:induction false} SpaceRun(t: string, i: nat)
    requires i <= |t|
    ensures forall k :: i <= k < SpaceEnd(t, i) ==> IsSpace(t[k])
    decreases |t| - i
  {
    if i < |t| && IsSpace(t[i]) {
      SpaceRun(t, i + 1);
    }
  }

  /** The run of white space from `i` ends at `e` when everything between
      is white space and `e` is not. */
  lemma {:induction false} SpaceEndIs(t: string, i: nat, e: nat)
    requires i <= e <= |t| && forall k :: i <= k < e ==> IsSpace(t[k])
    requires e == |t| || !IsSpace(t[e])
    ensures SpaceEnd(t, i) == e
    decreases e - i
  {
    if i < e {
      SpaceEndIs(t, i + 1, e);
    }
  }

  /** `s.split(c)` for a one-character separator: never empty, and the
      pieces are the maximal separator-free runs. */
  function Split(s: string, c: char): (parts: seq<string>)
    ensures |parts| >= 1
    decreases |s|
  {
    var j := IndexOf(s, c, 0);
    if j == |s| then [s] else [s[..j]] + Split(s[j + 1..], c)
  }

  /** `xs.join(sep)`. */
  function Join(xs: seq<string>, sep: string): string
    decreases |xs|
  {
    if |xs| == 0 then "" else if |xs| == 1 then xs[0] else xs[0] + sep + Join(xs[1..], sep)
  }

  /** Every piece occurs in the joined text. */
  lemma {:induction false} JoinContains(xs: seq<string>, sep: string, k: nat)
    requires k < |xs|
    ensures Contains(Join(xs, sep), xs[k])
    decreases |xs|
  {
    if |xs| == 1 {
      ContainsSelf(xs[0]);
    } else if k == 0 {
      ContainsSelf(xs[0]);
      ContainsWithin("", xs[0], sep + Join(xs[1..], sep), xs[0]);
      assert "" + xs[0] + (sep + Join(xs[1..], sep)) == Join(xs, sep);
    } else {
      JoinContains(xs[1..], sep, k - 1);
      ContainsWithin(xs[0] + sep, Join(xs[1..], sep), "", xs[k]);
      assert xs[0] + sep + Join(xs[1..], sep) + "" == Join(xs, sep);
    }
  }

  lemma {:induction false} SplitPieces(s: string, c: char)
    ensures |Split(s, c)| == Count(s, c) + 1
    ensures forall i :: 0 <= i < |Split(s, c)| ==> c !in Split(s, c)[i]
    ensures Join(Split(s, c), [c]) == s
    decreases |s|
  {
    var j := IndexOf(s, c, 0);
    if j == |s| {
      CountAbsent(s, c);
    } else {
      SplitPieces(s[j + 1..], c);
      assert s == s[..j] + [c] + s[j + 1..];
      CountAppend(s[..j] + [c], s[j + 1..], c);
      CountAppend(s[..j], [c], c);
      CountAbsent(s[..j], c);
      assert Count([c], c) == 1 by {
        assert [c][..0] == [];
      }
      var rest := Split(s[j + 1..], c);
      assert Split(s, c) == [s[..j]] + rest;
      assert Join(Split(s, c), [c]) == s[..j] + [c] + Join(rest, [c]) by {
        assert (Split(s, c))[1..] == rest;
      }
    }
  }

  lemma {:induction false} SplitJoin(xs: seq<string>, c: char)
    requires |xs| >= 1
    requires forall i :: 0 <= i < |xs| ==> c !in xs[i]
    ensures Split(Join(xs, [c]), c) == xs
    decreases |xs|
  {
    var s := Join(xs, [c]);
    assert c !in xs[0];
    if |xs| == 1 {
      IndexOfIs(s, c, 0, |s|);
    } else {
      var rest := Join(xs[1..], [c]);
      assert s == xs[0] + [c] + rest;
      assert forall k :: 0 <= k < |xs[0]| ==> s[k] == xs[0][k];
      IndexOfIs(s, c, 0, |xs[0]|);
      assert s[..|xs[0]|] == xs[0];
      assert s[|xs[0]| + 1..] == rest;
      SplitJoin(xs[1..], c);
    }
  }

  /** `last` is the text of `s` after its last `c` (all of `s` when it has
      no `c`). */
  predicate AfterLast(s: string, c: char, last: string) {
    c !in last && EndsWith(s, last) && (|last| < |s| ==> s[|s| - |last| - 1] == c)
  }

  /** The last piece of `split`: the text after the last separator. */
  lemma {:induction false} SplitLast(s: string, c: char)
    ensures AfterLast(s, c, Split(s, c)[|Split(s, c)| - 1])
    decreases |s|
  {
    var j := IndexOf(s, c, 0);
    var parts := Split(s, c);
    if j == |s| {
      assert parts == [s];
      assert s[|s| - |s|..] == s;
    } else {
      var t := s[j + 1..];
      SplitLast(t, c);
      var tail := Split(t, c);
      var last := tail[|tail| - 1];
      assert parts == [s[..j]] + tail;
      assert parts[|parts| - 1] == last;
      SuffixOfSuffix(s, j + 1, t, last, c);
    }
  }

  /** A suffix of a suffix is a suffix, preceded by the same character. */
  lemma SuffixOfSuffix(s: string, k: nat, t: string, last: string, c: char)
    requires 0 < k <= |s| && s[k - 1] == c && t == s[k..]
    requires AfterLast(t, c, last)
    ensures AfterLast(s, c, last)
  {
    assert s[|s| - |last|..] == t[|t| - |last|..];
  }

  /** Two texts that both follow the last `c` of `s` are the same text. */
  lemma AfterLastUnique(s: string, c: char, a: string, b: string)
    requires AfterLast(s, c, a) && AfterLast(s, c, b)
    ensures a == b
  {
  }

  /** A text holding `c` only as its last character holds it once. */
  lemma CountOnceAtEnd(s: string, c: char)
    requires |s| >= 1 && s[|s| - 1] == c && c !in s[..|s| - 1]
    ensures Count(s, c) == 1
  {
    CountAbsent(s[..|s| - 1], c);
  }

  // ---------------------------------------------------------------------
  // Lines and columns

  /** Index just past the last newline of `p`, or 0 when it has none. */
  function LineStart(p: string): (k: nat)
    ensures k <= |p|
    decreases |p|
  {
    if |p| == 0 then 0 else if p[|p| - 1] == '\n' then |p| else LineStart(p[..|p| - 1])
  }

  /** The 1-based line and column of the position just past `p`: one more
      than the number of newlines, and one more than the number of
      characters after the last newline. */
  function LineColumn(p: string): (r: (nat, nat))
    ensures r.0 >= 1 && r.1 >= 1
  {
    (Count(p, '\n') + 1, |p| - LineStart(p) + 1)
  }

  /** What follows the last newline of `p` is the text from `LineStart`. */
  lemma {:induction false} LineStartAfterLast(p: string)
    ensures AfterLast(p, '\n', p[LineStart(p)..])
    decreases |p|
  {
    if |p| > 0 && p[|p| - 1] != '\n' {
      var q := p[..|p| - 1];
      LineStartAfterLast(q);
      var k := LineStart(q);
      assert p[k..] == q[k..] + [p[|p| - 1]];
      assert q[k..] == q[|q| - |q[k..]|..];
    } else if |p| > 0 {
      assert p[|p|..] == "";
    }
  }

  /** `split('\n')` gives the same line and column: as many pieces as the
      line number, and a last piece one shorter than the column. */
  lemma SplitLineColumn(p: string)
    ensures |Split(p, '\n')| == LineColumn(p).0
    ensures |Split(p, '\n')[|Split(p, '\n')| - 1]| + 1 == LineColumn(p).1
  {
    SplitPieces(p, '\n');
    SplitLast(p, '\n');
    LineStartAfterLast(p);
    var parts := Split(p, '\n');
    AfterLastUnique(p, '\n', parts[|parts| - 1], p[LineStart(p)..]);
  }

  /** Text without a newline stays on the line and moves the column by its
      length. */
  lemma {:induction false} LineColumnPlain(p: string, w: string)
    requires '\n' !in w
    ensures LineColumn(p + w) == (LineColumn(p).0, LineColumn(p).1 + |w|)
    decreases |w|
  {
    if |w| == 0 {
      assert p + w == p;
    } else {
      var u := w[..|w| - 1];
      assert w[|w| - 1] in w;
      assert forall x :: x in u ==> x in w;
      LineColumnPlain(p, u);
      assert (p + w)[..|p + w| - 1] == p + u;
    }
  }

  /** Text whose only newline is its last character moves to the start of
      the next line. */
  lemma LineColumnBreak(p: string, w: string)
    requires |w| >= 1 && w[|w| - 1] == '\n' && '\n' !in w[..|w| - 1]
    ensures LineColumn(p + w) == (LineColumn(p).0 + 1, 1)
  {
    var u := w[..|w| - 1];
    LineColumnPlain(p, u);
    assert (p + w)[..|p + w| - 1] == p + u;
  }

  function Repeat(c: char, n: nat): (r: string)
    ensures |r| == n
    ensures forall i :: 0 <= i < n ==> r[i] == c
  {
    seq(n, _ => c)
  }

  // ---------------------------------------------------------------------
  // Decimal rendering (`String(n)` for integers) and reading

  function DigitChar(d: nat): (c: char)
    requires d < 10
    ensures IsDigit(c)
  {
    (48 + d) as char
  }

  function DigitValue(c: char): nat
    requires IsDigit(c)
  {
    c as int - 48
  }

  function NatToString(n: nat): (r: string)
    ensures |r| >= 1 && AllDigits(r)
    ensures r[0] == '0' ==> n == 0
    decreases n
  {
    if n < 10 then [DigitChar(n)] else NatToString(n / 10) + [DigitChar(n % 10)]
  }

  /** `String(i)` for an integer: a minus sign for negatives, then the digits. */
  function IntToString(i: int): (r: string)
    ensures |r| >= 1
    ensures i >= 0 ==> AllDigits(r)
    ensures i < 0 ==> r[0] == '-' && |r| >= 2 && AllDigits(r[1..])
  {
    if i < 0 then "-" + NatToString(-i) else NatToString(i)
  }

  /** The value of a run of decimal digits (`parseInt(ds, 10)`). */
  function DigitsValue(ds: string): nat
    requires AllDigits(ds)
    decreases |ds|
  {
    if |ds| == 0 then 0 else DigitsValue(ds[..|ds| - 1]) * 10 + DigitValue(ds[|ds| - 1])
  }

  lemma {:induction false} DigitsValueOfNatToString(n: nat)
    ensures DigitsValue(NatToString(n)) == n
    decreases n
  {
    if n >= 10 {
      var r := NatToString(n);
      assert r[..|r| - 1] == NatToString(n / 10);
      DigitsValueOfNatToString(n / 10);
    }
  }

  /** Distinct numbers render to distinct strings. */
  lemma NatToStringInjective(a: nat, b: nat)
    requires NatToString(a) == NatToString(b)
    ensures a == b
  {
    DigitsValueOfNatToString(a);
    DigitsValueOfNatToString(b);
  }

  // ---------------------------------------------------------------------
  // String order. `Array.prototype.sort` without a comparator compares
  // UTF-16 code units; a Dafny `char` is a Unicode scalar value, so the two
  // orders agree on text below U+10000 only.

  predicate Less(a: string, b: string)
    decreases |a|
  {
    if |a| == 0 then |b| > 0
    else if |b| == 0 then false
    else if a[0] != b[0] then a[0] < b[0]
    else Less(a[1..], b[1..])
  }

  predicate LessEq(a: string, b: string) {
    a == b || Less(a, b)
  }

  lemma {:induction false} LessIrreflexive(a: string)
    ensures !Less(a, a)
    decreases |a|
  {
    if |a| > 0 {
      LessIrreflexive(a[1..]);
    }
  }

  lemma {:induction false} LessTransitive(a: string, b: string, c: string)
    requires Less(a, b) && Less(b, c)
    ensures Less(a, c)
    decreases |a|
  {
    if |a| > 0 && |b| > 0 && |c| > 0 && a[0] == b[0] && b[0] == c[0] {
      LessTransitive(a[1..], b[1..], c[1..]);
    }
  }

  lemma {:induction false} LessTotal(a: string, b: string)
    ensures a == b || Less(a, b) || Less(b, a)
    decreases |a|
  {
    if |a| > 0 && |b| > 0 && a[0] == b[0] {
      LessTotal(a[1..], b[1..]);
      if a[1..] == b[1..] {
        assert a == [a[0]] + a[1..] && b == [b[0]] + b[1..];
      }
    }
  }

  lemma LessEqTransitive(a: string, b: string, c: string)
    requires LessEq(a, b) && LessEq(b, c)
    ensures LessEq(a, c)
  {
    if a != b && b != c {
      LessTransitive(a, b, c);
    }
  }

  /** `LessEq` is a total order: two strings neither of which precedes the
      other are equal, and one that does not precede another follows it. */
  lemma LessEqTotal(a: string, b: string)
    ensures LessEq(a, b) || Less(b, a)
  {
    LessTotal(a, b);
  }

  lemma LessAsymmetric(a: string, b: string)
    requires Less(a, b)
    ensures !Less(b, a)
  {
    if Less(b, a) {
      LessTransitive(a, b, a);
      LessIrreflexive(a);
    }
  }

  // ---------------------------------------------------------------------
  // UTF-8 size (`new Blob([s]).size`)

  function Utf8Width(c: char): nat {
    if c as int < 0x80 then 1
    else if c as int < 0x800 then 2
    else if c as int < 0x10000 then 3
    else 4
  }

  function Utf8Length(s: string): (n: nat)
    ensures |s| <= n <= 4 * |s|
    decreases |s|
  {
    if |s| == 0 then 0 else Utf8Length(s[..|s| - 1]) + Utf8Width(s[|s| - 1])
  }
}
