/** `JSON.stringify(value, null, space)` restricted to the `Json` domain,
    following section 25.5.2 of ECMA-262 (SerializeJSONProperty,
    SerializeJSONObject, SerializeJSONArray, QuoteJSONString) and the string
    escapes of section 7 of RFC 8259. A small reference reader of the JSON
    grammar is the serializer's partner: it reads every serialized value
    back. */
module Serializer {
  import opened Wrappers
  import opened Chars
  import opened JsonValue

  // ---------------------------------------------------------------------
  // QuoteJSONString

  function HexDigit(d: nat): (c: char)
    requires d < 16
    ensures IsHex(c) && HexValue(c) == d
  {
    if d < 10 then (48 + d) as char else (87 + d) as char
  }

  predicate IsHex(c: char) {
    ('0' <= c <= '9') || ('a' <= c <= 'f') || ('A' <= c <= 'F')
  }

  function HexValue(c: char): (d: nat)
    requires IsHex(c)
    ensures d < 16
  {
    if '0' <= c <= '9' then c as int - 48
    else if 'a' <= c <= 'f' then c as int - 87
    else c as int - 55
  }

  /** A character that QuoteJSONString copies unchanged. */
  predicate Plain(c: char) {
    c >= ' ' && c != '"' && c != '\\'
  }

  /** The text QuoteJSONString emits for one code point: the two-character
      escapes for backspace, tab, line feed, form feed, carriage return,
      quote and backslash, `\u00xx` with lower-case hex digits for the
      remaining control characters, and the character itself otherwise. */
  function EscapeChar(c: char): (r: string)
    ensures |r| >= 1
    ensures Plain(c) <==> r == [c]
    ensures !Plain(c) ==> r[0] == '\\' && 2 <= |r| <= 6
  {
    if c == '\U{0008}' then "\\b"
    else if c == '\t' then "\\t"
    else if c == '\n' then "\\n"
    else if c == '\U{000C}' then "\\f"
    else if c == '\r' then "\\r"
    else if c == '"' then "\\\""
    else if c == '\\' then "\\\\"
    else if c < ' ' then "\\u00" + [HexDigit(c as int / 16), HexDigit(c as int % 16)]
    else [c]
  }

  /** The body of a quoted string. No control character survives, and every
      quote in the output is preceded by a backslash. */
  function EscapeString(s: string): (r: string)
    ensures |r| >= |s|
    ensures forall i :: 0 <= i < |r| ==> r[i] >= ' '
    decreases |s|
  {
    if |s| == 0 then "" else EscapeChar(s[0]) + EscapeString(s[1..])
  }

  lemma {:induction false} EscapeStringAppend(a: string, b: string)
    ensures EscapeString(a + b) == EscapeString(a) + EscapeString(b)
    decreases |a|
  {
    if |a| > 0 {
      var t := a[1..];
      EscapeStringAppend(t, b);
      ConsAppend(a, b);
      EscapeStringCons(a[0], t + b);
      EscapeStringCons(a[0], t);
      assert a == [a[0]] + t;
      Regroup(EscapeChar(a[0]), EscapeString(t), EscapeString(b));
    } else {
      assert a + b == b;
    }
  }

  lemma EscapeStringCons(c: char, t: string)
    ensures EscapeString([c] + t) == EscapeChar(c) + EscapeString(t)
  {
    assert ([c] + t)[1..] == t;
  }

  lemma Regroup(x: string, y: string, z: string)
    ensures x + (y + z) == x + y + z
  {
  }

  lemma Regroup4(x: string, y: string, q: string, r: string)
    ensures x + y + q + r == x + (y + q + r)
  {
  }

  /** Text without quotes, backslashes or control characters is copied
      unchanged. */
  lemma {:induction false} EscapePlain(s: string)
    requires forall i :: 0 <= i < |s| ==> Plain(s[i])
    ensures EscapeString(s) == s
    decreases |s|
  {
    if |s| > 0 {
      EscapePlain(s[1..]);
      assert s == [s[0]] + s[1..];
    }
  }

  function Quote(s: string): string {
    "\"" + EscapeString(s) + "\""
  }

  // ---------------------------------------------------------------------
  // SerializeJSONObject / SerializeJSONArray

  /** The `space` argument: absent, a number, or a string. */
  datatype Space = NoSpace | SpaceCount(n: int) | SpaceText(text: string)

  /** The gap: at most ten spaces for a number (none below one), the first
      ten characters of a string, nothing otherwise. */
  function Gap(space: Space): (gap: string)
    ensures |gap| <= 10
    ensures space.SpaceCount? ==> |gap| == (if space.n < 1 then 0 else if space.n > 10 then 10 else space.n)
    ensures space.SpaceCount? ==> forall i :: 0 <= i < |gap| ==> gap[i] == ' '
    ensures space.SpaceText? ==> StartsWith(space.text, gap) && (|gap| == 10 || gap == space.text)
    ensures space.NoSpace? ==> gap == ""
  {
    match space
    case NoSpace => ""
    case SpaceCount(n) => Repeat(' ', if n < 1 then 0 else if n > 10 then 10 else n)
    case SpaceText(t) => if |t| <= 10 then t else t[..10]
  }

  /** What opens a member list or element list: a line break and the deeper
      indent in pretty mode, nothing in minified mode. */
  function Break(indent: string, gap: string): string {
    if gap == "" then "" else "\n" + indent + gap
  }

  /** What precedes the closing bracket: a line break and the stepback
      indent in pretty mode, nothing in minified mode. */
  function Back(indent: string, gap: string): string {
    if gap == "" then "" else "\n" + indent
  }

  /** The member separator: `:` minified, `": "` when a gap is present. */
  function Colon(gap: string): string {
    if gap == "" then ":" else ": "
  }

  /** A non-empty element or member list after its opening bracket: the
      parts separated by commas, each on its own line in pretty mode, then
      the closing bracket on the stepback line. */
  function Layout(parts: seq<string>, indent: string, gap: string, close: char): string {
    Break(indent, gap) + Join(parts, "," + Break(indent, gap)) + Back(indent, gap) + [close]
  }

  /** A character that can start a serialized value. */
  predicate ValueStart(c: char) {
    c == 'n' || c == 't' || c == 'f' || c == '"' || c == '[' || c == '{' || c == '-' || IsDigit(c)
  }

  /** SerializeJSONProperty for a value at the current `indent`. */
  function Ser(v: Json, indent: string, gap: string): (r: string)
    ensures |r| >= 1 && ValueStart(r[0])
    decreases v, 1, 0
  {
    match v
    case Null => "null"
    case Bool(b) => if b then "true" else "false"
    case Num(n) => IntToString(n)
    case Str(s) => Quote(s)
    case Arr(items) =>
      if |items| == 0 then "[]"
      else "[" + Layout(SerItems(v, 0, indent + gap, gap), indent, gap, ']')
    case Obj(fs) =>
      if |fs| == 0 then "{}"
      else "{" + Layout(SerMembers(v, 0, indent + gap, gap), indent, gap, '}')
  }

  /** The serialized elements `k..` of an array. */
  function SerItems(v: Json, k: nat, inner: string, gap: string): (parts: seq<string>)
    requires v.Arr? && k <= |v.items|
    ensures |parts| == |v.items| - k
    decreases v, 0, |v.items| - k
  {
    if k == |v.items| then [] else [Ser(v.items[k], inner, gap)] + SerItems(v, k + 1, inner, gap)
  }

  /** The serialized members `k..` of an object: quoted key, separator, value. */
  function SerMembers(v: Json, k: nat, inner: string, gap: string): (parts: seq<string>)
    requires v.Obj? && k <= |v.fields|
    ensures |parts| == |v.fields| - k
    decreases v, 0, |v.fields| - k
  {
    if k == |v.fields| then []
    else [Quote(v.fields[k].0) + Colon(gap) + Ser(v.fields[k].1, inner, gap)] + SerMembers(v, k + 1, inner, gap)
  }

  /** `JSON.stringify(v, null, space)`. */
  function Stringify(v: Json, space: Space): string {
    Ser(v, "", Gap(space))
  }

  // ---------------------------------------------------------------------
  // Reference reader (the JSON grammar of section 2 of RFC 8259, integers only)

  predicate IsJsonWs(c: char) {
    c == ' ' || c == '\t' || c == '\n' || c == '\r'
  }

  predicate AllJsonWs(s: string) {
    forall i :: 0 <= i < |s| ==> IsJsonWs(s[i])
  }

  function SkipWs(s: string): (r: string)
    ensures |r| <= |s|
    ensures |r| > 0 ==> !IsJsonWs(r[0])
    decreases |s|
  {
    if |s| > 0 && IsJsonWs(s[0]) then SkipWs(s[1..]) else s
  }

  /** The escape after a backslash: the character and how many characters
      it took. */
  function ReadEscape(t: string): (r: Option<(char, nat)>)
    ensures r.Some? ==> 1 <= r.value.1 <= |t|
  {
    if |t| == 0 then None
    else if t[0] == '"' then Some(('"', 1))
    else if t[0] == '\\' then Some(('\\', 1))
    else if t[0] == '/' then Some(('/', 1))
    else if t[0] == 'b' then Some(('\U{0008}', 1))
    else if t[0] == 'f' then Some(('\U{000C}', 1))
    else if t[0] == 'n' then Some(('\n', 1))
    else if t[0] == 'r' then Some(('\r', 1))
    else if t[0] == 't' then Some(('\t', 1))
    else if t[0] == 'u' && |t| >= 5 && IsHex(t[1]) && IsHex(t[2]) && IsHex(t[3]) && IsHex(t[4]) then
      var code := HexValue(t[1]) * 4096 + HexValue(t[2]) * 256 + HexValue(t[3]) * 16 + HexValue(t[4]);
      if code < 0xD800 || code >= 0xE000 then Some((code as char, 5)) else None
    else None
  }

  /** The characters of a string literal after its opening quote, and the
      text after its closing quote. */
  function ReadStringBody(s: string): (r: Option<(string, string)>)
    ensures r.Some? ==> |r.value.1| < |s|
    decreases |s|
  {
    if |s| == 0 then None
    else if s[0] == '"' then Some(("", s[1..]))
    else if s[0] == '\\' then
      match ReadEscape(s[1..])
      case None => None
      case Some((c, k)) =>
        match ReadStringBody(s[1 + k..])
        case None => None
        case Some((body, rest)) => Some(([c] + body, rest))
    else if s[0] < ' ' then None
    else
      match ReadStringBody(s[1..])
      case None => None
      case Some((body, rest)) => Some(([s[0]] + body, rest))
  }

  /** Length of the longest digit prefix. */
  function DigitRun(s: string): (n: nat)
    ensures n <= |s|
    ensures forall i :: 0 <= i < n ==> IsDigit(s[i])
    ensures n < |s| ==> !IsDigit(s[n])
    decreases |s|
  {
    if |s| == 0 || !IsDigit(s[0]) then 0 else 1 + DigitRun(s[1..])
  }

  /** A maximal run of digits and its value. */
  function ReadNatural(t: string): (r: Option<(nat, string)>)
    ensures r.Some? ==> |r.value.1| < |t|
  {
    var n := DigitRun(t);
    if n == 0 then None
    else
      assert AllDigits(t[..n]);
      Some((DigitsValue(t[..n]), t[n..]))
  }

  /** An optional minus sign, then digits. */
  function ReadNumber(t: string): (r: Option<(Json, string)>)
    ensures r.Some? ==> |r.value.1| < |t|
  {
    if |t| > 0 && t[0] == '-' then
      match ReadNatural(t[1..])
      case None => None
      case Some((m, rest)) => Some((Num(-(m as int)), rest))
    else
      match ReadNatural(t)
      case None => None
      case Some((m, rest)) => Some((Num(m), rest))
  }

  function ReadScalar(t: string): (r: Option<(Json, string)>)
    ensures r.Some? ==> |r.value.1| < |t|
  {
    if StartsWith(t, "null") then Some((Null, t[4..]))
    else if StartsWith(t, "true") then Some((Bool(true), t[4..]))
    else if StartsWith(t, "false") then Some((Bool(false), t[5..]))
    else if |t| > 0 && t[0] == '"' then
      match ReadStringBody(t[1..])
      case None => None
      case Some((body, rest)) => Some((Str(body), rest))
    else ReadNumber(t)
  }

  /** One value, after optional leading whitespace; the text after it. */
  function ReadValue(s: string): (r: Option<(Json, string)>)
    ensures r.Some? ==> |r.value.1| < |s|
    decreases |s|, 0
  {
    var t := SkipWs(s);
    if |t| == 0 then None
    else if t[0] == '[' then ReadArray(t[1..])
    else if t[0] == '{' then ReadObject(t[1..])
    else ReadScalar(t)
  }

  /** The rest of an array after its `[`. */
  function ReadArray(s: string): (r: Option<(Json, string)>)
    ensures r.Some? ==> |r.value.1| < |s|
    decreases |s|, 2
  {
    var t := SkipWs(s);
    if |t| > 0 && t[0] == ']' then Some((Arr([]), t[1..]))
    else
      match ReadElements(s)
      case None => None
      case Some((items, rest)) => Some((Arr(items), rest))
  }

  /** `value (, value)* ]`. */
  function ReadElements(s: string): (r: Option<(seq<Json>, string)>)
    ensures r.Some? ==> |r.value.1| < |s|
    decreases |s|, 1
  {
    match ReadValue(s)
    case None => None
    case Some((v, r)) =>
      var t := SkipWs(r);
      if |t| == 0 then None
      else if t[0] == ']' then Some(([v], t[1..]))
      else if t[0] != ',' then None
      else
        match ReadElements(t[1..])
        case None => None
        case Some((vs, rest)) => Some(([v] + vs, rest))
  }

  /** The rest of an object after its `{`. */
  function ReadObject(s: string): (r: Option<(Json, string)>)
    ensures r.Some? ==> |r.value.1| < |s|
    decreases |s|, 2
  {
    var t := SkipWs(s);
    if |t| > 0 && t[0] == '}' then Some((Obj([]), t[1..]))
    else
      match ReadMembers(s)
      case None => None
      case Some((fs, rest)) => Some((Obj(fs), rest))
  }

  /** A quoted key and its colon, with blanks around both; the key and the
      text after the colon. */
  function ReadKey(s: string): (r: Option<(string, string)>)
    ensures r.Some? ==> |r.value.1| < |s|
  {
    var t := SkipWs(s);
    if |t| == 0 || t[0] != '"' then None
    else
      match ReadStringBody(t[1..])
      case None => None
      case Some((k, r1)) =>
        var t2 := SkipWs(r1);
        if |t2| == 0 || t2[0] != ':' then None else Some((k, t2[1..]))
  }

  /** One `"key" : value` member. */
  function ReadMember(s: string): (r: Option<((string, Json), string)>)
    ensures r.Some? ==> |r.value.1| < |s|
    decreases |s|, 0
  {
    match ReadKey(s)
    case None => None
    case Some((k, r)) =>
      match ReadValue(r)
      case None => None
      case Some((v, r2)) => Some(((k, v), r2))
  }

  /** `member (, member)* }`. */
  function ReadMembers(s: string): (r: Option<(seq<(string, Json)>, string)>)
    ensures r.Some? ==> |r.value.1| < |s|
    decreases |s|, 1
  {
    match ReadMember(s)
    case None => None
    case Some((m, r)) =>
      var t := SkipWs(r);
      if |t| == 0 then None
      else if t[0] == '}' then Some(([m], t[1..]))
      else if t[0] != ',' then None
      else
        match ReadMembers(t[1..])
        case None => None
        case Some((fs, rest)) => Some(([m] + fs, rest))
  }

  /** A whole document: one value surrounded by optional whitespace. */
  function ReadDocument(s: string): (r: Option<Json>)
  {
    match ReadValue(s)
    case None => None
    case Some((v, rest)) => if SkipWs(rest) == "" then Some(v) else None
  }

  // ---------------------------------------------------------------------
  // Round trip: the reader recovers every serialized value

  lemma {:induction false} SkipWsOver(w: string, x: string)
    requires AllJsonWs(w)
    ensures SkipWs(w + x) == SkipWs(x)
    decreases |w|
  {
    if |w| > 0 {
      assert (w + x)[1..] == w[1..] + x;
      SkipWsOver(w[1..], x);
    } else {
      assert w + x == x;
    }
  }

  lemma ReadValueOverWs(w: string, x: string)
    requires AllJsonWs(w)
    ensures ReadValue(w + x) == ReadValue(x)
  {
    SkipWsOver(w, x);
  }

  lemma WsConcat(a: string, b: string)
    requires AllJsonWs(a) && AllJsonWs(b)
    ensures AllJsonWs(a + b)
  {
  }

  lemma BreakIsWs(indent: string, gap: string)
    requires AllJsonWs(indent) && AllJsonWs(gap)
    ensures AllJsonWs(Break(indent, gap)) && AllJsonWs(Back(indent, gap))
    ensures |Back(indent, gap)| == 0 || Back(indent, gap)[0] == '\n'
  {
  }

  lemma JoinHead(parts: seq<string>, sep: string)
    requires |parts| >= 1 && |parts[0]| >= 1
    ensures |Join(parts, sep)| >= 1 && Join(parts, sep)[0] == parts[0][0]
  {
  }

  lemma JoinCons(p: string, tail: seq<string>, sep: string)
    ensures Join([p] + tail, sep) == if |tail| == 0 then p else p + sep + Join(tail, sep)
  {
    assert ([p] + tail)[1..] == tail;
  }

  /** Every escape the serializer writes is read back as the character it
      stands for. */
  lemma ReadEscapeOf(c: char, t: string)
    requires !Plain(c)
    ensures ReadEscape(EscapeChar(c)[1..] + t) == Some((c, |EscapeChar(c)| - 1))
  {
    var e := EscapeChar(c)[1..] + t;
    if c < ' ' && c != '\U{0008}' && c != '\t' && c != '\n' && c != '\U{000C}' && c != '\r' {
      var h1 := HexDigit(c as int / 16);
      var h2 := HexDigit(c as int % 16);
      assert e[0] == 'u' && e[1] == '0' && e[2] == '0' && e[3] == h1 && e[4] == h2;
      assert HexValue(e[1]) * 4096 + HexValue(e[2]) * 256 + HexValue(e[3]) * 16 + HexValue(e[4]) == c as int;
    }
  }

  /** The string reader undoes QuoteJSONString. */
  lemma {:induction false} ReadEscaped(s: string, rest: string)
    ensures ReadStringBody(EscapeString(s) + "\"" + rest) == Some((s, rest))
    decreases |s|
  {
    if |s| == 0 {
      assert EscapeString(s) + "\"" + rest == "\"" + rest;
    } else {
      var c, t := s[0], s[1..];
      ReadEscaped(t, rest);
      assert s == [c] + t;
      EscapeStringCons(c, t);
      Regroup4(EscapeChar(c), EscapeString(t), "\"", rest);
      ReadOneChar(c, EscapeString(t) + "\"" + rest, t, rest);
    }
  }

  /** One escaped character in front of a body the reader already takes. */
  lemma ReadOneChar(c: char, tail: string, body: string, rest: string)
    requires ReadStringBody(tail) == Some((body, rest))
    ensures ReadStringBody(EscapeChar(c) + tail) == Some(([c] + body, rest))
  {
    var e := EscapeChar(c);
    var input := e + tail;
    if Plain(c) {
      assert input[1..] == tail;
    } else {
      assert input[1..] == e[1..] + tail;
      ReadEscapeOf(c, tail);
      assert input[1 + (|e| - 1)..] == tail;
    }
  }

  lemma {:induction false} DigitRunAppend(a: string, b: string)
    requires AllDigits(a)
    ensures DigitRun(a + b) == |a| + DigitRun(b)
    decreases |a|
  {
    if |a| > 0 {
      assert (a + b)[1..] == a[1..] + b;
      DigitRunAppend(a[1..], b);
    } else {
      assert a + b == b;
    }
  }

  lemma ReadDigits(ds: string, rest: string)
    requires AllDigits(ds) && |ds| >= 1
    requires |rest| == 0 || !IsDigit(rest[0])
    ensures ReadNatural(ds + rest) == Some((DigitsValue(ds), rest))
  {
    DigitRunAppend(ds, rest);
    assert (ds + rest)[..|ds|] == ds;
    assert (ds + rest)[|ds|..] == rest;
  }

  lemma ReadUnsigned(u: string, m: nat, rest: string)
    requires |u| > 0 && u[0] != '-'
    requires ReadNatural(u) == Some((m, rest))
    ensures ReadNumber(u) == Some((Num(m), rest))
  {
  }

  lemma ReadNegative(u: string, m: nat, rest: string)
    requires ReadNatural(u) == Some((m, rest))
    ensures ReadNumber("-" + u) == Some((Num(-(m as int)), rest))
  {
    assert ("-" + u)[1..] == u;
  }

  /** The number reader undoes `String(n)` when no digit follows. */
  lemma ReadNumberOf(i: int, rest: string)
    requires |rest| == 0 || !IsDigit(rest[0])
    ensures ReadNumber(IntToString(i) + rest) == Some((Num(i), rest))
  {
    if i < 0 {
      ReadNegativeOf(-i, rest);
      assert IntToString(i) + rest == "-" + (NatToString(-i) + rest);
    } else {
      ReadNaturalOf(i, rest);
      var ds := NatToString(i);
      assert (ds + rest)[0] == ds[0];
      ReadUnsigned(ds + rest, i, rest);
    }
  }

  /** The digits of `n` read back as `n`. */
  lemma ReadNaturalOf(n: nat, rest: string)
    requires |rest| == 0 || !IsDigit(rest[0])
    ensures ReadNatural(NatToString(n) + rest) == Some((n, rest))
  {
    ReadDigits(NatToString(n), rest);
    DigitsValueOfNatToString(n);
  }

  /** A minus sign before the digits of `n` reads back as `-n`. */
  lemma ReadNegativeOf(n: nat, rest: string)
    requires |rest| == 0 || !IsDigit(rest[0])
    ensures ReadNumber("-" + (NatToString(n) + rest)) == Some((Num(-(n as int)), rest))
  {
    ReadNaturalOf(n, rest);
    ReadNegative(NatToString(n) + rest, n, rest);
  }

  /** Peeling the first part off a layout. */
  lemma LayoutCons(p: string, tail: seq<string>, indent: string, gap: string, close: char)
    ensures Layout([p] + tail, indent, gap, close)
            == if |tail| == 0 then Break(indent, gap) + p + Back(indent, gap) + [close]
               else Break(indent, gap) + p + "," + Layout(tail, indent, gap, close)
  {
    var b := Break(indent, gap);
    JoinCons(p, tail, "," + b);
    if |tail| > 0 {
      LayoutRegroup(b, p, Join(tail, "," + b), Back(indent, gap), [close]);
    }
  }

  lemma LayoutRegroup(b: string, p: string, j: string, e: string, f: string)
    ensures b + (p + ("," + b) + j) + e + f == b + p + "," + (b + j + e + f)
  {
  }

  lemma LayoutHead(parts: seq<string>, indent: string, gap: string, close: char)
    requires AllJsonWs(indent) && AllJsonWs(gap)
    requires |parts| >= 1 && |parts[0]| >= 1 && ValueStart(parts[0][0])
    ensures SkipWs(Layout(parts, indent, gap, close)) == Join(parts, "," + Break(indent, gap)) + Back(indent, gap) + [close]
    ensures Join(parts, "," + Break(indent, gap))[0] == parts[0][0]
  {
    var b := Break(indent, gap);
    BreakIsWs(indent, gap);
    JoinHead(parts, "," + b);
    var j := Join(parts, "," + b);
    assert Layout(parts, indent, gap, close) == b + (j + Back(indent, gap) + [close]);
    SkipWsOver(b, j + Back(indent, gap) + [close]);
    assert (j + Back(indent, gap) + [close])[0] == parts[0][0];
  }

  lemma SerItemsCons(v: Json, k: nat, inner: string, gap: string)
    requires v.Arr? && k < |v.items|
    ensures SerItems(v, k, inner, gap) == [Ser(v.items[k], inner, gap)] + SerItems(v, k + 1, inner, gap)
  {
  }

  lemma SerMembersCons(v: Json, k: nat, inner: string, gap: string)
    requires v.Obj? && k < |v.fields|
    ensures SerMembers(v, k, inner, gap)
            == [Quote(v.fields[k].0) + Colon(gap) + Ser(v.fields[k].1, inner, gap)] + SerMembers(v, k + 1, inner, gap)
  {
  }

  /** The last element of an array: its value, then the closing bracket. */
  lemma ElementsLast(b: string, p: string, back: string, rest: string, x: Json)
    requires AllJsonWs(b) && AllJsonWs(back)
    requires ReadValue(p + (back + "]" + rest)) == Some((x, back + "]" + rest))
    ensures ReadElements(b + p + back + "]" + rest) == Some(([x], rest))
  {
    var after := back + "]" + rest;
    Regroup5(b, p, back, "]", rest);
    ReadValueOverWs(b, p + after);
    Regroup(back, "]", rest);
    SkipWsOver(back, "]" + rest);
    ElementsClose(b + p + back + "]" + rest, x, after, rest);
  }

  lemma Regroup5(b: string, p: string, back: string, c: string, rest: string)
    ensures b + p + back + c + rest == b + (p + (back + c + rest))
  {
  }

  /** A value followed by the closing bracket ends the elements. */
  lemma ElementsClose(s: string, x: Json, after: string, rest: string)
    requires ReadValue(s) == Some((x, after))
    requires SkipWs(after) == "]" + rest
    ensures ReadElements(s) == Some(([x], rest))
  {
    assert ("]" + rest)[1..] == rest;
  }

  /** An element followed by a comma and further elements. */
  lemma ElementsMore(b: string, p: string, more: string, x: Json, xs: seq<Json>, rest: string)
    requires AllJsonWs(b)
    requires ReadValue(p + ("," + more)) == Some((x, "," + more))
    requires ReadElements(more) == Some((xs, rest))
    ensures ReadElements(b + p + "," + more) == Some(([x] + xs, rest))
  {
    assert b + p + "," + more == b + (p + ("," + more));
    ReadValueOverWs(b, p + ("," + more));
    assert ("," + more)[1..] == more;
  }

  /** `q` is a string literal that reads back as `key`, whatever follows it. */
  ghost predicate KeyText(q: string, key: string) {
    |q| >= 1 && q[0] == '"' && forall t :: ReadStringBody(q[1..] + t) == Some((key, t))
  }

  lemma QuoteKeyText(key: string)
    ensures KeyText(Quote(key), key)
  {
    forall t
      ensures ReadStringBody(Quote(key)[1..] + t) == Some((key, t))
    {
      assert Quote(key)[1..] + t == EscapeString(key) + "\"" + t;
      ReadEscaped(key, t);
    }
  }

  /** The last member of an object: key, colon, value, closing brace. */
  lemma MembersLast(b: string, q: string, key: string, c: string, p: string, back: string, rest: string, x: Json)
    requires AllJsonWs(b) && AllJsonWs(back) && (c == ":" || c == ": ") && KeyText(q, key)
    requires ReadValue(p + (back + "}" + rest)) == Some((x, back + "}" + rest))
    ensures ReadMembers(b + q + c + p + back + "}" + rest) == Some(([(key, x)], rest))
  {
    var after := back + "}" + rest;
    MemberRead(b, q, key, c, p, after, x);
    assert b + q + c + p + back + "}" + rest == b + q + c + p + after;
    ClosingBrace(back, rest);
    assert ("}" + rest)[1..] == rest;
  }

  lemma ClosingBrace(back: string, rest: string)
    requires AllJsonWs(back)
    ensures SkipWs(back + "}" + rest) == "}" + rest
  {
    assert back + "}" + rest == back + ("}" + rest);
    SkipWsOver(back, "}" + rest);
  }

  /** A member followed by a comma and further members. */
  lemma MembersMore(b: string, q: string, key: string, c: string, p: string, more: string, x: Json,
                    fs: seq<(string, Json)>, rest: string)
    requires AllJsonWs(b) && (c == ":" || c == ": ") && KeyText(q, key)
    requires ReadValue(p + ("," + more)) == Some((x, "," + more))
    requires ReadMembers(more) == Some((fs, rest))
    ensures ReadMembers(b + q + c + p + "," + more) == Some(([(key, x)] + fs, rest))
  {
    MemberRead(b, q, key, c, p, "," + more, x);
    assert ("," + more)[1..] == more;
    assert b + q + c + p + "," + more == b + q + c + p + ("," + more);
  }

  /** Reading one member up to the text after its value. */
  lemma MemberRead(b: string, q: string, key: string, c: string, p: string, after: string, x: Json)
    requires AllJsonWs(b) && (c == ":" || c == ": ") && KeyText(q, key)
    requires ReadValue(p + after) == Some((x, after))
    ensures ReadMember(b + q + c + p + after) == Some(((key, x), after))
  {
    KeyRead(b, q, key, c, p + after);
    assert b + q + c + p + after == b + q + c + (p + after);
    assert AllJsonWs(c[1..]);
    ReadValueOverWs(c[1..], p + after);
  }

  lemma KeyRead(b: string, q: string, key: string, c: string, tail: string)
    requires AllJsonWs(b) && (c == ":" || c == ": ") && KeyText(q, key)
    ensures ReadKey(b + q + c + tail) == Some((key, c[1..] + tail))
  {
    var m := q + (c + tail);
    assert b + q + c + tail == b + m;
    SkipWsOver(b, m);
    assert m[1..] == q[1..] + (c + tail);
    assert ReadStringBody(q[1..] + (c + tail)) == Some((key, c + tail));
    assert (c + tail)[0] == ':';
    assert (c + tail)[1..] == c[1..] + tail;
  }

  lemma ColonValue(c: string, p: string, after: string, x: Json)
    requires c == ":" || c == ": "
    requires ReadValue(p + after) == Some((x, after))
    ensures SkipWs(c + p + after) == c + p + after
    ensures ReadValue((c + p + after)[1..]) == Some((x, after))
  {
    assert (c + p + after)[0] == ':';
    assert (c + p + after)[1..] == c[1..] + (p + after);
    assert AllJsonWs(c[1..]);
    ReadValueOverWs(c[1..], p + after);
  }

  /** The reader recovers any value the serializer writes, at any
      whitespace indent and gap, and leaves the text after it untouched
      (unless that text starts with a digit, which would extend a number). */
  lemma {:induction false} ReadSer(v: Json, indent: string, gap: string, rest: string)
    requires AllJsonWs(indent) && AllJsonWs(gap)
    requires |rest| == 0 || !IsDigit(rest[0])
    ensures ReadValue(Ser(v, indent, gap) + rest) == Some((v, rest))
    decreases v, 3, 0, 0
  {
    match v
    case Arr(items) => ReadSerArray(v, indent, gap, rest);
    case Obj(fs) => ReadSerObject(v, indent, gap, rest);
    case _ => ReadSerScalar(v, indent, gap, rest);
  }

  lemma ReadSerScalar(v: Json, indent: string, gap: string, rest: string)
    requires !v.Arr? && !v.Obj?
    requires |rest| == 0 || !IsDigit(rest[0])
    ensures ReadValue(Ser(v, indent, gap) + rest) == Some((v, rest))
  {
    match v
    case Null => ReadLiteral("null", Null, rest);
    case Bool(b) => if b { ReadLiteral("true", v, rest); } else { ReadLiteral("false", v, rest); }
    case Num(n) => ReadNumberValue(n, rest);
    case Str(s) => ReadStringValue(s, rest);
  }

  lemma ReadLiteral(lit: string, v: Json, rest: string)
    requires (lit == "null" && v == Null) || (lit == "true" && v == Bool(true)) || (lit == "false" && v == Bool(false))
    ensures ReadValue(lit + rest) == Some((v, rest))
  {
    var input := lit + rest;
    assert input[0] == lit[0];
    assert SkipWs(input) == input;
    assert input[|lit|..] == rest;
    assert StartsWith(input, lit);
    if lit != "null" {
      assert input[0] != 'n';
    }
    if lit == "false" {
      assert input[0] != 't';
    }
  }

  lemma ReadNumberValue(n: int, rest: string)
    requires |rest| == 0 || !IsDigit(rest[0])
    ensures ReadValue(IntToString(n) + rest) == Some((Num(n), rest))
  {
    var input := IntToString(n) + rest;
    assert input[0] == IntToString(n)[0];
    ScalarStart(input);
    NumberStart(input);
    ReadNumberOf(n, rest);
  }

  /** A value that does not start with a blank or a bracket is a scalar. */
  lemma ScalarStart(t: string)
    requires |t| > 0 && !IsJsonWs(t[0]) && t[0] != '[' && t[0] != '{'
    ensures ReadValue(t) == ReadScalar(t)
  {
  }

  lemma NumberStart(t: string)
    requires |t| > 0 && (t[0] == '-' || IsDigit(t[0]))
    ensures ReadScalar(t) == ReadNumber(t)
  {
    assert !StartsWith(t, "null") && !StartsWith(t, "true") && !StartsWith(t, "false");
  }

  lemma ReadStringValue(s: string, rest: string)
    ensures ReadValue(Quote(s) + rest) == Some((Str(s), rest))
  {
    var input := Quote(s) + rest;
    assert input[0] == '"';
    assert SkipWs(input) == input;
    assert !StartsWith(input, "null") && !StartsWith(input, "true") && !StartsWith(input, "false");
    assert input[1..] == EscapeString(s) + "\"" + rest;
    ReadEscaped(s, rest);
  }

  lemma SerArrayShape(v: Json, indent: string, gap: string)
    requires v.Arr? && |v.items| > 0
    ensures Ser(v, indent, gap) == "[" + Layout(SerItems(v, 0, indent + gap, gap), indent, gap, ']')
  {
  }

  lemma SerObjectShape(v: Json, indent: string, gap: string)
    requires v.Obj? && |v.fields| > 0
    ensures Ser(v, indent, gap) == "{" + Layout(SerMembers(v, 0, indent + gap, gap), indent, gap, '}')
  {
  }

  /** An array whose first non-blank character is not `]`. */
  lemma ArrayOpen(l: string, xs: seq<Json>, rest: string)
    requires |SkipWs(l)| > 0 && SkipWs(l)[0] != ']'
    requires ReadElements(l) == Some((xs, rest))
    ensures ReadValue("[" + l) == Some((Arr(xs), rest))
  {
    assert ReadArray(l) == Some((Arr(xs), rest));
    OpenBracket('[', l);
  }

  /** An object whose first non-blank character is not `}`. */
  lemma ObjectOpen(l: string, fs: seq<(string, Json)>, rest: string)
    requires |SkipWs(l)| > 0 && SkipWs(l)[0] != '}'
    requires ReadMembers(l) == Some((fs, rest))
    ensures ReadValue("{" + l) == Some((Obj(fs), rest))
  {
    assert ReadObject(l) == Some((Obj(fs), rest));
    OpenBracket('{', l);
  }

  /** Reading a value that starts with a bracket hands the rest to the
      array or object reader. */
  lemma OpenBracket(open: char, l: string)
    requires open == '[' || open == '{'
    ensures open == '[' ==> ReadValue([open] + l) == ReadArray(l)
    ensures open == '{' ==> ReadValue([open] + l) == ReadObject(l)
  {
    var s := [open] + l;
    assert s[0] == open;
    assert SkipWs(s) == s;
    assert s[1..] == l;
  }

  lemma LayoutRestHead(parts: seq<string>, indent: string, gap: string, close: char, rest: string)
    requires AllJsonWs(indent) && AllJsonWs(gap)
    requires |parts| >= 1 && |parts[0]| >= 1 && ValueStart(parts[0][0])
    ensures |SkipWs(Layout(parts, indent, gap, close) + rest)| > 0
    ensures ValueStart(SkipWs(Layout(parts, indent, gap, close) + rest)[0])
  {
    var b := Break(indent, gap);
    BreakIsWs(indent, gap);
    JoinHead(parts, "," + b);
    var j := Join(parts, "," + b);
    var x := j + Back(indent, gap) + [close] + rest;
    assert Layout(parts, indent, gap, close) + rest == b + x;
    SkipWsOver(b, x);
    assert x[0] == parts[0][0];
  }

  lemma ReadEmpty(open: char, close: char, v: Json, rest: string)
    requires (open == '[' && close == ']' && v == Arr([])) || (open == '{' && close == '}' && v == Obj([]))
    ensures ReadValue([open, close] + rest) == Some((v, rest))
  {
    var input := [open, close] + rest;
    assert input[1..] == [close] + rest;
    assert ([close] + rest)[1..] == rest;
  }

  lemma {:induction false} ReadSerArray(v: Json, indent: string, gap: string, rest: string)
    requires v.Arr?
    requires AllJsonWs(indent) && AllJsonWs(gap)
    ensures ReadValue(Ser(v, indent, gap) + rest) == Some((v, rest))
    decreases v, 2, 0, 0
  {
    if |v.items| == 0 {
      ReadEmpty('[', ']', v, rest);
    } else {
      var parts := SerItems(v, 0, indent + gap, gap);
      var l := Layout(parts, indent, gap, ']');
      assert Ser(v, indent, gap) + rest == "[" + (l + rest) by {
        SerArrayShape(v, indent, gap);
      }
      assert ReadElements(l + rest) == Some((v.items, rest)) by {
        ReadItems(v, 0, indent, gap, rest);
        assert v.items[0..] == v.items;
      }
      assert |SkipWs(l + rest)| > 0 && SkipWs(l + rest)[0] != ']' by {
        LayoutRestHead(parts, indent, gap, ']', rest);
      }
      ArrayOpen(l + rest, v.items, rest);
    }
  }

  lemma {:induction false} ReadSerObject(v: Json, indent: string, gap: string, rest: string)
    requires v.Obj?
    requires AllJsonWs(indent) && AllJsonWs(gap)
    ensures ReadValue(Ser(v, indent, gap) + rest) == Some((v, rest))
    decreases v, 2, 0, 0
  {
    if |v.fields| == 0 {
      ReadEmpty('{', '}', v, rest);
    } else {
      var parts := SerMembers(v, 0, indent + gap, gap);
      var l := Layout(parts, indent, gap, '}');
      assert Ser(v, indent, gap) + rest == "{" + (l + rest) by {
        SerObjectShape(v, indent, gap);
      }
      assert ReadMembers(l + rest) == Some((v.fields, rest)) by {
        ReadMembersOf(v, 0, indent, gap, rest);
        assert v.fields[0..] == v.fields;
      }
      assert |SkipWs(l + rest)| > 0 && SkipWs(l + rest)[0] != '}' by {
        LayoutRestHead(parts, indent, gap, '}', rest);
      }
      ObjectOpen(l + rest, v.fields, rest);
    }
  }

  lemma LayoutElementsLast(p: string, indent: string, gap: string, x: Json, rest: string)
    requires AllJsonWs(indent) && AllJsonWs(gap)
    requires ReadValue(p + (Back(indent, gap) + "]" + rest)) == Some((x, Back(indent, gap) + "]" + rest))
    ensures ReadElements(Layout([p], indent, gap, ']') + rest) == Some(([x], rest))
  {
    BreakIsWs(indent, gap);
    LayoutCons(p, [], indent, gap, ']');
    assert [p] + [] == [p];
    ElementsLast(Break(indent, gap), p, Back(indent, gap), rest, x);
  }

  lemma LayoutElementsMore(p: string, tail: seq<string>, indent: string, gap: string,
                           x: Json, xs: seq<Json>, rest: string)
    requires AllJsonWs(indent) && AllJsonWs(gap) && |tail| > 0
    requires ReadValue(p + ("," + (Layout(tail, indent, gap, ']') + rest)))
             == Some((x, "," + (Layout(tail, indent, gap, ']') + rest)))
    requires ReadElements(Layout(tail, indent, gap, ']') + rest) == Some((xs, rest))
    ensures ReadElements(Layout([p] + tail, indent, gap, ']') + rest) == Some(([x] + xs, rest))
  {
    BreakIsWs(indent, gap);
    LayoutCons(p, tail, indent, gap, ']');
    var more := Layout(tail, indent, gap, ']') + rest;
    ElementsMore(Break(indent, gap), p, more, x, xs, rest);
    RegroupItem(Break(indent, gap), p, Layout(tail, indent, gap, ']'), rest);
  }

  lemma RegroupItem(b: string, p: string, l: string, rest: string)
    ensures (b + p + "," + l) + rest == b + p + "," + (l + rest)
  {
  }

  lemma RegroupMember(b: string, q: string, c: string, p: string, l: string, rest: string)
    ensures b + (q + c + p) + "," + l + rest == b + q + c + p + "," + (l + rest)
  {
  }

  lemma LayoutMembersLast(q: string, key: string, c: string, p: string, indent: string, gap: string,
                          x: Json, rest: string)
    requires AllJsonWs(indent) && AllJsonWs(gap) && (c == ":" || c == ": ") && KeyText(q, key)
    requires ReadValue(p + (Back(indent, gap) + "}" + rest)) == Some((x, Back(indent, gap) + "}" + rest))
    ensures ReadMembers(Layout([q + c + p], indent, gap, '}') + rest) == Some(([(key, x)], rest))
  {
    var b := Break(indent, gap);
    var back := Back(indent, gap);
    assert Layout([q + c + p], indent, gap, '}') + rest == b + q + c + p + back + "}" + rest by {
      LayoutCons(q + c + p, [], indent, gap, '}');
      assert [q + c + p] + [] == [q + c + p];
    }
    BreakIsWs(indent, gap);
    MembersLast(b, q, key, c, p, back, rest, x);
  }

  lemma LayoutMembersMore(q: string, key: string, c: string, p: string, tail: seq<string>, indent: string,
                          gap: string, x: Json, fs: seq<(string, Json)>, rest: string)
    requires AllJsonWs(indent) && AllJsonWs(gap) && |tail| > 0 && (c == ":" || c == ": ") && KeyText(q, key)
    requires ReadValue(p + ("," + (Layout(tail, indent, gap, '}') + rest)))
             == Some((x, "," + (Layout(tail, indent, gap, '}') + rest)))
    requires ReadMembers(Layout(tail, indent, gap, '}') + rest) == Some((fs, rest))
    ensures ReadMembers(Layout([q + c + p] + tail, indent, gap, '}') + rest) == Some(([(key, x)] + fs, rest))
  {
    var b := Break(indent, gap);
    var more := Layout(tail, indent, gap, '}') + rest;
    assert Layout([q + c + p] + tail, indent, gap, '}') + rest == b + q + c + p + "," + more by {
      LayoutCons(q + c + p, tail, indent, gap, '}');
      RegroupMember(b, q, c, p, Layout(tail, indent, gap, '}'), rest);
    }
    BreakIsWs(indent, gap);
    MembersMore(b, q, key, c, p, more, x, fs, rest);
  }

  lemma {:induction false} ReadItems(v: Json, k: nat, indent: string, gap: string, rest: string)
    requires v.Arr? && k < |v.items|
    requires AllJsonWs(indent) && AllJsonWs(gap)
    ensures ReadElements(Layout(SerItems(v, k, indent + gap, gap), indent, gap, ']') + rest)
            == Some((v.items[k..], rest))
    decreases v, 1, |v.items| - k, 1
  {
    if k + 1 == |v.items| {
      ReadLastItem(v, k, indent, gap, rest);
    } else {
      ReadNextItem(v, k, indent, gap, rest);
    }
  }

  lemma {:induction false} ReadLastItem(v: Json, k: nat, indent: string, gap: string, rest: string)
    requires v.Arr? && k + 1 == |v.items|
    requires AllJsonWs(indent) && AllJsonWs(gap)
    ensures ReadElements(Layout(SerItems(v, k, indent + gap, gap), indent, gap, ']') + rest)
            == Some((v.items[k..], rest))
    decreases v, 1, 0, 0
  {
    var inner := indent + gap;
    var x := v.items[k];
    var p := Ser(x, inner, gap);
    var after := Back(indent, gap) + "]" + rest;
    assert ReadValue(p + after) == Some((x, after)) by {
      WsConcat(indent, gap);
      ReadSer(x, inner, gap, after);
    }
    assert SerItems(v, k, inner, gap) == [p] by {
      SerItemsCons(v, k, inner, gap);
    }
    LayoutElementsLast(p, indent, gap, x, rest);
    assert v.items[k..] == [x];
  }

  lemma {:induction false} ReadNextItem(v: Json, k: nat, indent: string, gap: string, rest: string)
    requires v.Arr? && k + 1 < |v.items|
    requires AllJsonWs(indent) && AllJsonWs(gap)
    ensures ReadElements(Layout(SerItems(v, k, indent + gap, gap), indent, gap, ']') + rest)
            == Some((v.items[k..], rest))
    decreases v, 1, |v.items| - k, 0
  {
    var inner := indent + gap;
    var x := v.items[k];
    var more := Layout(SerItems(v, k + 1, inner, gap), indent, gap, ']') + rest;
    assert ReadValue(Ser(x, inner, gap) + ("," + more)) == Some((x, "," + more)) by {
      WsConcat(indent, gap);
      ReadSer(x, inner, gap, "," + more);
    }
    ReadItems(v, k + 1, indent, gap, rest);
    JoinNextItem(v, k, indent, gap, rest);
  }

  /** The step of `ReadNextItem` once the element and the later elements
      are known to read back. */
  lemma JoinNextItem(v: Json, k: nat, indent: string, gap: string, rest: string)
    requires v.Arr? && k + 1 < |v.items|
    requires AllJsonWs(indent) && AllJsonWs(gap)
    requires var more := Layout(SerItems(v, k + 1, indent + gap, gap), indent, gap, ']') + rest;
      ReadValue(Ser(v.items[k], indent + gap, gap) + ("," + more)) == Some((v.items[k], "," + more))
    requires ReadElements(Layout(SerItems(v, k + 1, indent + gap, gap), indent, gap, ']') + rest)
             == Some((v.items[k + 1..], rest))
    ensures ReadElements(Layout(SerItems(v, k, indent + gap, gap), indent, gap, ']') + rest)
            == Some((v.items[k..], rest))
  {
    var inner := indent + gap;
    var x := v.items[k];
    var xs := v.items[k + 1..];
    assert v.items[k..] == [x] + xs;
    SerItemsCons(v, k, inner, gap);
    LayoutElementsMore(Ser(x, inner, gap), SerItems(v, k + 1, inner, gap), indent, gap, x, xs, rest);
  }

  lemma {:induction false} ReadMembersOf(v: Json, k: nat, indent: string, gap: string, rest: string)
    requires v.Obj? && k < |v.fields|
    requires AllJsonWs(indent) && AllJsonWs(gap)
    ensures ReadMembers(Layout(SerMembers(v, k, indent + gap, gap), indent, gap, '}') + rest)
            == Some((v.fields[k..], rest))
    decreases v, 1, |v.fields| - k, 1
  {
    if k + 1 == |v.fields| {
      ReadLastMember(v, k, indent, gap, rest);
    } else {
      ReadNextMember(v, k, indent, gap, rest);
    }
  }

  lemma {:induction false} ReadLastMember(v: Json, k: nat, indent: string, gap: string, rest: string)
    requires v.Obj? && k + 1 == |v.fields|
    requires AllJsonWs(indent) && AllJsonWs(gap)
    ensures ReadMembers(Layout(SerMembers(v, k, indent + gap, gap), indent, gap, '}') + rest)
            == Some((v.fields[k..], rest))
    decreases v, 1, 0, 0
  {
    var inner := indent + gap;
    var key := v.fields[k].0;
    var x := v.fields[k].1;
    var c := Colon(gap);
    var q := Quote(key);
    var p := Ser(x, inner, gap);
    var after := Back(indent, gap) + "}" + rest;
    assert ReadValue(p + after) == Some((x, after)) by {
      WsConcat(indent, gap);
      ReadSer(x, inner, gap, after);
    }
    assert SerMembers(v, k, inner, gap) == [q + c + p] by {
      SerMembersCons(v, k, inner, gap);
    }
    assert KeyText(q, key) by {
      QuoteKeyText(key);
    }
    LayoutMembersLast(q, key, c, p, indent, gap, x, rest);
    assert v.fields[k..] == [(key, x)];
  }

  lemma {:induction false} ReadNextMember(v: Json, k: nat, indent: string, gap: string, rest: string)
    requires v.Obj? && k + 1 < |v.fields|
    requires AllJsonWs(indent) && AllJsonWs(gap)
    ensures ReadMembers(Layout(SerMembers(v, k, indent + gap, gap), indent, gap, '}') + rest)
            == Some((v.fields[k..], rest))
    decreases v, 1, |v.fields| - k, 0
  {
    var inner := indent + gap;
    var x := v.fields[k].1;
    var more := Layout(SerMembers(v, k + 1, inner, gap), indent, gap, '}') + rest;
    assert ReadValue(Ser(x, inner, gap) + ("," + more)) == Some((x, "," + more)) by {
      WsConcat(indent, gap);
      ReadSer(x, inner, gap, "," + more);
    }
    ReadMembersOf(v, k + 1, indent, gap, rest);
    JoinNextMember(v, k, indent, gap, rest);
  }

  /** The step of `ReadNextMember` once the member's value and the later
      members are known to read back. */
  lemma JoinNextMember(v: Json, k: nat, indent: string, gap: string, rest: string)
    requires v.Obj? && k + 1 < |v.fields|
    requires AllJsonWs(indent) && AllJsonWs(gap)
    requires var more := Layout(SerMembers(v, k + 1, indent + gap, gap), indent, gap, '}') + rest;
      ReadValue(Ser(v.fields[k].1, indent + gap, gap) + ("," + more)) == Some((v.fields[k].1, "," + more))
    requires ReadMembers(Layout(SerMembers(v, k + 1, indent + gap, gap), indent, gap, '}') + rest)
             == Some((v.fields[k + 1..], rest))
    ensures ReadMembers(Layout(SerMembers(v, k, indent + gap, gap), indent, gap, '}') + rest)
            == Some((v.fields[k..], rest))
  {
    var inner := indent + gap;
    var key := v.fields[k].0;
    var x := v.fields[k].1;
    var fs := v.fields[k + 1..];
    assert v.fields[k..] == [(key, x)] + fs;
    var tail := SerMembers(v, k + 1, inner, gap);
    SerMembersCons(v, k, inner, gap);
    QuoteKeyText(key);
    LayoutMembersMore(Quote(key), key, Colon(gap), Ser(x, inner, gap), tail, indent, gap, x, fs, rest);
  }

  // ---------------------------------------------------------------------
  // What the output shows

  lemma {:induction false} SerMembersAt(v: Json, k: nat, inner: string, gap: string, i: nat)
    requires v.Obj? && k + i < |v.fields|
    ensures SerMembers(v, k, inner, gap)[i] == Quote(v.fields[k + i].0) + Colon(gap) + Ser(v.fields[k + i].1, inner, gap)
    decreases i
  {
    SerMembersCons(v, k, inner, gap);
    if i > 0 {
      SerMembersAt(v, k + 1, inner, gap, i - 1);
    }
  }

  /** Every member of a non-empty object shows up in its serialization as
      the quoted key, the separator and the serialized value. */
  lemma MemberText(v: Json, indent: string, gap: string, k: nat)
    requires v.Obj? && k < |v.fields|
    ensures Contains(Ser(v, indent, gap),
                     Quote(v.fields[k].0) + Colon(gap) + Ser(v.fields[k].1, indent + gap, gap))
  {
    var parts := SerMembers(v, 0, indent + gap, gap);
    assert parts[k] == Quote(v.fields[k].0) + Colon(gap) + Ser(v.fields[k].1, indent + gap, gap) by {
      SerMembersAt(v, 0, indent + gap, gap, k);
    }
    assert Ser(v, indent, gap) == "{" + Layout(parts, indent, gap, '}') by {
      SerObjectShape(v, indent, gap);
    }
    LayoutContains(parts, indent, gap, '}', k);
    ContainsWithin("{", Layout(parts, indent, gap, '}'), "", parts[k]);
    assert "{" + Layout(parts, indent, gap, '}') + "" == Ser(v, indent, gap);
  }

  lemma LayoutContains(parts: seq<string>, indent: string, gap: string, close: char, k: nat)
    requires k < |parts|
    ensures Contains(Layout(parts, indent, gap, close), parts[k])
  {
    var b := Break(indent, gap);
    JoinContains(parts, "," + b, k);
    ContainsWithin(b, Join(parts, "," + b), Back(indent, gap) + [close], parts[k]);
    assert Layout(parts, indent, gap, close) == b + Join(parts, "," + b) + (Back(indent, gap) + [close]);
  }

  /** `JSON.parse(JSON.stringify(v, null, indent))` gives `v` back, for the
      indents the formatter uses (spaces or a tab). */
  lemma StringifyRoundTrip(v: Json, space: Space)
    requires AllJsonWs(Gap(space))
    ensures ReadDocument(Stringify(v, space)) == Some(v)
  {
    ReadSer(v, "", Gap(space), "");
    assert Stringify(v, space) + "" == Stringify(v, space);
  }
}
