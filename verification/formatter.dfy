/** `utils/jsonFormatter.ts`: the indent choice, the serializing wrappers
    (which return the input text when the native parse fails), and the two
    recursive value transforms, key sorting and key filtering. Flattening is
    in module `Flatten`. */
module Formatter {
  import opened Wrappers
  import opened Chars
  import opened JsonValue
  import opened Types
  import opened Serializer

  // ---------------------------------------------------------------------
  // Indentation and the serializing wrappers

  /** `getIndentationString`: a tab, or `indentSize` spaces. Without tabs
      a negative count makes `repeat` throw its `RangeError`. */
  function IndentationString(indentSize: int, useTabs: bool): (r: Result<string, string>)
    ensures r.Err? <==> !useTabs && indentSize < 0
    ensures useTabs ==> r == Ok("\t")
    ensures r.Ok? && !useTabs ==> |r.value| == indentSize && forall i :: 0 <= i < |r.value| ==> r.value[i] == ' '
  {
    if useTabs then Ok("\t")
    else if indentSize < 0 then Err("RangeError: Invalid count value")
    else Ok(Repeat(' ', indentSize))
  }

  /** The indent unit is JSON whitespace and short enough that
      `JSON.stringify` uses all of it. */
  lemma IndentationIsGap(indentSize: nat, useTabs: bool)
    requires indentSize <= 10
    ensures IndentationString(indentSize, useTabs).Ok?
    ensures AllJsonWs(IndentationString(indentSize, useTabs).value)
    ensures Gap(SpaceText(IndentationString(indentSize, useTabs).value)) == IndentationString(indentSize, useTabs).value
  {
  }

  /** `formatJSON`: `""` for an absent value, otherwise the value serialized
      with the configured indent unit, which reads back as the value. The
      `catch` branch is unreachable on this domain (no cycles, no BigInt). */
  function FormatJson(data: Option<Json>, options: FormattingOptions): (r: string)
    ensures data.None? ==> r == ""
    ensures data.Some? ==> ReadDocument(r) == Some(data.value)
    ensures data.Some? ==> r == Stringify(data.value, SpaceText(IndentationString(options.indentSize, options.useTabs).value))
  {
    match data
    case None => ""
    case Some(v) =>
      var space := SpaceText(IndentationString(options.indentSize, options.useTabs).value);
      IndentationIsGap(options.indentSize, options.useTabs);
      StringifyRoundTrip(v, space);
      Stringify(v, space)
  }

  /** `minifyJSON`: `""` for an absent value, otherwise the compact form,
      which reads back as the value and is a single line. */
  function MinifyJson(data: Option<Json>): (r: string)
    ensures data.None? ==> r == ""
    ensures data.Some? ==> ReadDocument(r) == Some(data.value) && '\n' !in r
    ensures data.Some? ==> r == Stringify(data.value, NoSpace)
  {
    match data
    case None => ""
    case Some(v) =>
      StringifyRoundTrip(v, NoSpace);
      SingleLine(v, "");
      Stringify(v, NoSpace)
  }

  /** `!s || s.trim().length === 0`. */
  predicate IsBlank(s: string) {
    AllSpace(s)
  }

  /** `prettyPrintJSON`: `""` for blank text; the input unchanged when the
      native parse fails or `repeat` rejects a negative width; otherwise the
      parsed value re-serialized, which reads back as that value. */
  function PrettyPrintJson(s: string, indentSize: int, parse: NativeParse): (r: string)
    ensures IsBlank(s) ==> r == ""
    ensures !IsBlank(s) && (parse(s).Err? || indentSize < 0) ==> r == s
    ensures !IsBlank(s) && parse(s).Ok? && indentSize >= 0 ==> ReadDocument(r) == Some(parse(s).value)
  {
    if IsBlank(s) then ""
    else match parse(s)
      case Err(_) => s
      case Ok(v) =>
        if indentSize < 0 then s
        else
          var space := SpaceText(Repeat(' ', indentSize));
          StringifyRoundTrip(v, space);
          Stringify(v, space)
  }

  /** `compressJSON`: `""` for blank text, the input when the parse fails,
      otherwise the single-line compact form of the parsed value. */
  function CompressJson(s: string, parse: NativeParse): (r: string)
    ensures IsBlank(s) ==> r == ""
    ensures !IsBlank(s) && parse(s).Err? ==> r == s
    ensures !IsBlank(s) && parse(s).Ok? ==> ReadDocument(r) == Some(parse(s).value) && '\n' !in r
  {
    if IsBlank(s) then ""
    else match parse(s)
      case Err(_) => s
      case Ok(v) => MinifyJson(Some(v))
  }

  /** The target of `convertIndentation`: a tab or a number of spaces. */
  datatype IndentTarget = TabIndent | SpaceIndent(n: int)

  /** `convertIndentation`: blank text and unparsable text come back
      unchanged (the source indent is ignored); otherwise the value is
      re-serialized with the target indent. */
  function ConvertIndentation(s: string, to: IndentTarget, parse: NativeParse): (r: string)
    ensures IsBlank(s) || parse(s).Err? ==> r == s
    ensures to.SpaceIndent? && to.n < 0 ==> r == s
    ensures !IsBlank(s) && parse(s).Ok? && !(to.SpaceIndent? && to.n < 0)
            ==> ReadDocument(r) == Some(parse(s).value)
  {
    if IsBlank(s) then s
    else match parse(s)
      case Err(_) => s
      case Ok(v) =>
        match to
        case TabIndent =>
          StringifyRoundTrip(v, SpaceText("\t"));
          Stringify(v, SpaceText("\t"))
        case SpaceIndent(n) =>
          if n < 0 then s
          else
            StringifyRoundTrip(v, SpaceText(Repeat(' ', n)));
            Stringify(v, SpaceText(Repeat(' ', n)))
  }

  /** `sortJSONKeys`: the parsed value with keys sorted at every level,
      formatted; blank or unparsable text comes back unchanged. */
  function SortJsonKeys(s: string, options: FormattingOptions, parse: NativeParse): (r: string)
    ensures IsBlank(s) || parse(s).Err? ==> r == s
    ensures !IsBlank(s) && parse(s).Ok? ==> ReadDocument(r) == Some(SortKeys(parse(s).value))
  {
    if IsBlank(s) then s
    else match parse(s)
      case Err(_) => s
      case Ok(v) => FormatJson(Some(SortKeys(v)), options)
  }

  /** `filterJSONKeys`: the parsed value keeping only allowed keys at every
      level, formatted; blank or unparsable text comes back unchanged. */
  function FilterJsonKeys(s: string, allowed: seq<string>, options: FormattingOptions, parse: NativeParse): (r: string)
    ensures IsBlank(s) || parse(s).Err? ==> r == s
    ensures !IsBlank(s) && parse(s).Ok? ==> ReadDocument(r) == Some(FilterKeys(parse(s).value, allowed))
  {
    if IsBlank(s) then s
    else match parse(s)
      case Err(_) => s
      case Ok(v) => FormatJson(Some(FilterKeys(v, allowed)), options)
  }

  // ---------------------------------------------------------------------
  // The compact form has no line break

  lemma {:induction false} SingleLine(v: Json, indent: string)
    ensures '\n' !in Ser(v, indent, "")
    decreases v, 2, 0
  {
    match v
    case Null =>
    case Bool(_) =>
    case Num(n) => DigitsHaveNoBreak(IntToString(n));
    case Str(s) =>
    case Arr(items) =>
      if |items| > 0 {
        ItemsSingleLine(v, 0, indent + "");
        CompactLayout(SerItems(v, 0, indent + "", ""), indent, ']');
      }
    case Obj(fs) =>
      if |fs| > 0 {
        MembersSingleLine(v, 0, indent + "");
        CompactLayout(SerMembers(v, 0, indent + "", ""), indent, '}');
      }
  }

  lemma DigitsHaveNoBreak(r: string)
    requires |r| >= 1
    requires AllDigits(r) || (r[0] == '-' && AllDigits(r[1..]))
    ensures '\n' !in r
  {
    forall i | 0 <= i < |r|
      ensures r[i] != '\n'
    {
      if i > 0 && !AllDigits(r) {
        assert r[i] == r[1..][i - 1];
      }
    }
  }

  /** Without a gap a layout is the parts joined by commas, then the
      closing bracket. */
  lemma CompactLayout(parts: seq<string>, indent: string, close: char)
    requires close != '\n'
    requires forall i :: 0 <= i < |parts| ==> '\n' !in parts[i]
    ensures '\n' !in Layout(parts, indent, "", close)
  {
    assert Break(indent, "") == "" && Back(indent, "") == "" && "," + "" == ",";
    assert Layout(parts, indent, "", close) == Join(parts, ",") + [close];
    JoinNoBreak(parts, ",");
  }

  lemma {:induction false} JoinNoBreak(parts: seq<string>, sep: string)
    requires '\n' !in sep
    requires forall i :: 0 <= i < |parts| ==> '\n' !in parts[i]
    ensures '\n' !in Join(parts, sep)
    decreases |parts|
  {
    if |parts| > 1 {
      JoinNoBreak(parts[1..], sep);
      assert forall i :: 0 <= i < |parts[1..]| ==> parts[1..][i] == parts[i + 1];
    }
  }

  lemma {:induction false} ItemsSingleLine(v: Json, k: nat, inner: string)
    requires v.Arr? && k <= |v.items|
    ensures forall i :: 0 <= i < |SerItems(v, k, inner, "")| ==> '\n' !in SerItems(v, k, inner, "")[i]
    decreases v, 1, |v.items| - k
  {
    if k < |v.items| {
      SingleLine(v.items[k], inner);
      ItemsSingleLine(v, k + 1, inner);
      SerItemsCons(v, k, inner, "");
    }
  }

  lemma {:induction false} MembersSingleLine(v: Json, k: nat, inner: string)
    requires v.Obj? && k <= |v.fields|
    ensures forall i :: 0 <= i < |SerMembers(v, k, inner, "")| ==> '\n' !in SerMembers(v, k, inner, "")[i]
    decreases v, 1, |v.fields| - k
  {
    if k < |v.fields| {
      SingleLine(v.fields[k].1, inner);
      MembersSingleLine(v, k + 1, inner);
      SerMembersCons(v, k, inner, "");
      var q := Quote(v.fields[k].0);
      assert '\n' !in q by {
        assert forall i :: 0 <= i < |q| ==> q[i] >= ' ' by {
          assert q == "\"" + EscapeString(v.fields[k].0) + "\"";
        }
      }
    }
  }

  // ---------------------------------------------------------------------
  // sortObjectKeys

  /** Keys in non-decreasing `Less` order, the default sort's. */
  predicate KeysSorted(fs: seq<(string, Json)>) {
    forall i, j :: 0 <= i < j < |fs| ==> LessEq(fs[i].0, fs[j].0)
  }

  /** Insert one member into a key-sorted member list. */
  function InsertField(f: (string, Json), fs: seq<(string, Json)>): (r: seq<(string, Json)>)
    ensures multiset(r) == multiset(fs) + multiset{f}
    decreases |fs|
  {
    if |fs| == 0 then [f]
    else if LessEq(f.0, fs[0].0) then [f] + fs
    else
      assert fs == [fs[0]] + fs[1..];
      [fs[0]] + InsertField(f, fs[1..])
  }

  /** `Object.keys(obj).sort()`, each key carrying its value. */
  function SortFields(fs: seq<(string, Json)>): (r: seq<(string, Json)>)
    ensures multiset(r) == multiset(fs)
    decreases |fs|
  {
    if |fs| == 0 then []
    else
      assert fs == [fs[0]] + fs[1..];
      InsertField(fs[0], SortFields(fs[1..]))
  }

  lemma {:induction false} InsertFieldSorted(f: (string, Json), fs: seq<(string, Json)>)
    requires KeysSorted(fs)
    ensures KeysSorted(InsertField(f, fs))
    decreases |fs|
  {
    var r := InsertField(f, fs);
    if |fs| == 0 {
    } else if LessEq(f.0, fs[0].0) {
      forall i, j | 0 <= i < j < |r|
        ensures LessEq(r[i].0, r[j].0)
      {
        if i == 0 {
          if j > 1 {
            LessEqTransitive(f.0, fs[0].0, fs[j - 1].0);
          }
        }
      }
    } else {
      LessEqTotal(f.0, fs[0].0);
      var rest := InsertField(f, fs[1..]);
      InsertFieldSorted(f, fs[1..]);
      assert r == [fs[0]] + rest;
      forall j | 0 <= j < |rest|
        ensures LessEq(fs[0].0, rest[j].0)
      {
        assert rest[j] in multiset(rest);
        if rest[j] != f {
          assert rest[j] in multiset(fs[1..]);
          var m :| 0 <= m < |fs[1..]| && fs[1..][m] == rest[j];
          assert fs[m + 1] == rest[j];
        }
      }
    }
  }

  lemma {:induction false} SortFieldsSorted(fs: seq<(string, Json)>)
    ensures KeysSorted(SortFields(fs))
    decreases |fs|
  {
    if |fs| > 0 {
      SortFieldsSorted(fs[1..]);
      InsertFieldSorted(fs[0], SortFields(fs[1..]));
    }
  }

  /** Sorting an already sorted member list changes nothing. */
  lemma {:induction false} SortFieldsOfSorted(fs: seq<(string, Json)>)
    requires KeysSorted(fs)
    ensures SortFields(fs) == fs
    decreases |fs|
  {
    if |fs| > 0 {
      assert KeysSorted(fs[1..]);
      SortFieldsOfSorted(fs[1..]);
      if |fs| > 1 {
        assert LessEq(fs[0].0, fs[1..][0].0);
      }
      assert [fs[0]] + fs[1..] == fs;
    }
  }

  /** `sortObjectKeys`: arrays map element-wise, objects have their keys
      sorted and their values sorted recursively, primitives are kept. */
  function SortKeys(v: Json): (r: Json)
    ensures !IsComposite(v) ==> r == v
    ensures v.Arr? ==> r.Arr? && |r.items| == |v.items|
                       && forall i :: 0 <= i < |v.items| ==> r.items[i] == SortKeys(v.items[i])
    ensures v.Obj? ==> r.Obj? && KeysSorted(r.fields) && multiset(r.fields) == multiset(SortedValues(v))
    decreases v, 1
  {
    match v
    case Arr(items) => Arr(seq(|items|, i requires 0 <= i < |items| => SortKeys(items[i])))
    case Obj(_) =>
      SortFieldsSorted(SortedValues(v));
      Obj(SortFields(SortedValues(v)))
    case _ => v
  }

  /** An object's members with their values sorted, in the original order. */
  function SortedValues(v: Json): (fs: seq<(string, Json)>)
    requires v.Obj?
    ensures |fs| == |v.fields|
    ensures forall i :: 0 <= i < |fs| ==> fs[i] == (v.fields[i].0, SortKeys(v.fields[i].1))
    decreases v, 0
  {
    seq(|v.fields|, i requires 0 <= i < |v.fields| => (v.fields[i].0, SortKeys(v.fields[i].1)))
  }

  /** Keys sorted in every object at every depth. */
  predicate DeepSorted(v: Json)
    decreases v
  {
    match v
    case Arr(items) => forall i :: 0 <= i < |items| ==> DeepSorted(items[i])
    case Obj(fs) => KeysSorted(fs) && forall i :: 0 <= i < |fs| ==> DeepSorted(fs[i].1)
    case _ => true
  }

  /** Every member of the sorted object is an original key with its sorted
      value, and every original member appears so: same keys, same values. */
  lemma SortKeysKeepsMembers(v: Json)
    requires v.Obj?
    ensures forall key, x :: (key, x) in v.fields ==> (key, SortKeys(x)) in SortKeys(v).fields
    ensures forall key, y :: (key, y) in SortKeys(v).fields ==> exists x :: (key, x) in v.fields && y == SortKeys(x)
  {
    var m := SortedValues(v);
    var r := SortKeys(v).fields;
    forall key, x | (key, x) in v.fields
      ensures (key, SortKeys(x)) in r
    {
      var i :| 0 <= i < |v.fields| && v.fields[i] == (key, x);
      assert m[i] == (key, SortKeys(x));
      assert (key, SortKeys(x)) in multiset(m);
    }
    forall key, y | (key, y) in r
      ensures exists x :: (key, x) in v.fields && y == SortKeys(x)
    {
      assert (key, y) in multiset(m);
      var i :| 0 <= i < |m| && m[i] == (key, y);
      assert v.fields[i] == (key, v.fields[i].1);
    }
  }

  lemma {:induction false} SortKeysDeepSorted(v: Json)
    ensures DeepSorted(SortKeys(v))
    decreases v
  {
    match v
    case Arr(items) =>
      forall i | 0 <= i < |items|
        ensures DeepSorted(SortKeys(v).items[i])
      {
        SortKeysDeepSorted(items[i]);
      }
    case Obj(fs) =>
      var r := SortKeys(v).fields;
      var m := SortedValues(v);
      forall j | 0 <= j < |r|
        ensures DeepSorted(r[j].1)
      {
        assert r[j] in multiset(m);
        var i :| 0 <= i < |m| && m[i] == r[j];
        SortKeysDeepSorted(fs[i].1);
      }
    case _ =>
  }

  /** A value already sorted at every depth is a fixed point. */
  lemma {:induction false} SortKeysOfSorted(v: Json)
    requires DeepSorted(v)
    ensures SortKeys(v) == v
    decreases v
  {
    match v
    case Arr(items) =>
      forall i | 0 <= i < |items|
        ensures SortKeys(items[i]) == items[i]
      {
        SortKeysOfSorted(items[i]);
      }
      assert SortKeys(v).items == items;
    case Obj(fs) =>
      var m := SortedValues(v);
      forall i | 0 <= i < |fs|
        ensures m[i] == fs[i]
      {
        SortKeysOfSorted(fs[i].1);
      }
      assert m == fs;
      SortFieldsOfSorted(fs);
    case _ =>
  }

  /** Sorting twice is sorting once. */
  lemma SortKeysIdempotent(v: Json)
    ensures SortKeys(SortKeys(v)) == SortKeys(v)
  {
    SortKeysDeepSorted(v);
    SortKeysOfSorted(SortKeys(v));
  }

  // ---------------------------------------------------------------------
  // filterObjectKeys

  /** `filterObjectKeys`: arrays map element-wise, objects keep only the
      allowed keys (in their order) with filtered values. */
  function FilterKeys(v: Json, allowed: seq<string>): (r: Json)
    ensures !IsComposite(v) ==> r == v
    ensures v.Arr? ==> r.Arr? && |r.items| == |v.items|
                       && forall i :: 0 <= i < |v.items| ==> r.items[i] == FilterKeys(v.items[i], allowed)
    ensures v.Obj? ==> r.Obj? && r.fields == FilterFields(v, 0, allowed)
    decreases v, 1
  {
    match v
    case Arr(items) => Arr(seq(|items|, i requires 0 <= i < |items| => FilterKeys(items[i], allowed)))
    case Obj(_) => Obj(FilterFields(v, 0, allowed))
    case _ => v
  }

  /** The allowed members `k..` of an object, values filtered, in order. A
      key is kept exactly when it is allowed. */
  function FilterFields(v: Json, k: nat, allowed: seq<string>): (r: seq<(string, Json)>)
    requires v.Obj? && k <= |v.fields|
    ensures |r| <= |v.fields| - k
    ensures forall key :: key in KeysOf(r) <==> key in allowed && key in KeysOf(v.fields[k..])
    decreases v, 0, |v.fields| - k
  {
    if k == |v.fields| then []
    else
      var rest := FilterFields(v, k + 1, allowed);
      var f := v.fields[k];
      assert KeysOf(v.fields[k..]) == [f.0] + KeysOf(v.fields[k + 1..]);
      if f.0 in allowed then
        assert KeysOf([(f.0, FilterKeys(f.1, allowed))] + rest) == [f.0] + KeysOf(rest);
        [(f.0, FilterKeys(f.1, allowed))] + rest
      else rest
  }

  /** `p` is one of the members `k..` of `v` with its value filtered. */
  ghost predicate FilteredFrom(v: Json, k: nat, allowed: seq<string>, p: (string, Json))
    requires v.Obj?
  {
    exists i :: k <= i < |v.fields| && p == (v.fields[i].0, FilterKeys(v.fields[i].1, allowed))
  }

  lemma FilteredFromEarlier(v: Json, k: nat, allowed: seq<string>, p: (string, Json))
    requires v.Obj? && FilteredFrom(v, k + 1, allowed, p)
    ensures FilteredFrom(v, k, allowed, p)
  {
  }

  /** Each kept member is an original member with its value filtered. */
  lemma {:induction false} FilterFieldsOrigin(v: Json, k: nat, allowed: seq<string>)
    requires v.Obj? && k <= |v.fields|
    ensures forall j :: 0 <= j < |FilterFields(v, k, allowed)| ==> FilteredFrom(v, k, allowed, FilterFields(v, k, allowed)[j])
    decreases |v.fields| - k
  {
    if k < |v.fields| {
      FilterFieldsOrigin(v, k + 1, allowed);
      var rest := FilterFields(v, k + 1, allowed);
      var r := FilterFields(v, k, allowed);
      var f := v.fields[k];
      forall j | 0 <= j < |rest|
        ensures FilteredFrom(v, k, allowed, rest[j])
      {
        FilteredFromEarlier(v, k, allowed, rest[j]);
      }
      if f.0 in allowed {
        var head := (f.0, FilterKeys(f.1, allowed));
        assert r == [head] + rest;
        assert FilteredFrom(v, k, allowed, head);
      } else {
        assert r == rest;
      }
    }
  }

  /** Every object at every depth has only allowed keys. */
  predicate DeepAllowed(v: Json, allowed: seq<string>)
    decreases v
  {
    match v
    case Arr(items) => forall i :: 0 <= i < |items| ==> DeepAllowed(items[i], allowed)
    case Obj(fs) => (forall i :: 0 <= i < |fs| ==> fs[i].0 in allowed)
                    && forall i :: 0 <= i < |fs| ==> DeepAllowed(fs[i].1, allowed)
    case _ => true
  }

  lemma {:induction false} FilterKeysAllowed(v: Json, allowed: seq<string>)
    ensures DeepAllowed(FilterKeys(v, allowed), allowed)
    decreases v
  {
    match v
    case Arr(items) =>
      forall i | 0 <= i < |items|
        ensures DeepAllowed(FilterKeys(v, allowed).items[i], allowed)
      {
        FilterKeysAllowed(items[i], allowed);
      }
    case Obj(fs) =>
      var r := FilterFields(v, 0, allowed);
      FilterFieldsOrigin(v, 0, allowed);
      forall j | 0 <= j < |r|
        ensures r[j].0 in allowed && DeepAllowed(r[j].1, allowed)
      {
        assert r[j].0 in KeysOf(r) by {
          assert KeysOf(r)[j] == r[j].0;
        }
        assert FilteredFrom(v, 0, allowed, r[j]);
        var i :| 0 <= i < |fs| && r[j] == (fs[i].0, FilterKeys(fs[i].1, allowed));
        FilterKeysAllowed(fs[i].1, allowed);
      }
    case _ =>
  }

  /** On a value whose keys are all allowed, filtering changes nothing. */
  lemma {:induction false} FilterKeysOfAllowed(v: Json, allowed: seq<string>)
    requires DeepAllowed(v, allowed)
    ensures FilterKeys(v, allowed) == v
    decreases v, 1, 0
  {
    match v
    case Arr(items) =>
      forall i | 0 <= i < |items|
        ensures FilterKeys(items[i], allowed) == items[i]
      {
        FilterKeysOfAllowed(items[i], allowed);
      }
      assert FilterKeys(v, allowed).items == items;
    case Obj(fs) =>
      FilterFieldsOfAllowed(v, 0, allowed);
      assert fs[0..] == fs;
    case _ =>
  }

  lemma {:induction false} FilterFieldsOfAllowed(v: Json, k: nat, allowed: seq<string>)
    requires v.Obj? && k <= |v.fields| && DeepAllowed(v, allowed)
    ensures FilterFields(v, k, allowed) == v.fields[k..]
    decreases v, 0, |v.fields| - k
  {
    if k < |v.fields| {
      var f := v.fields[k];
      assert f.0 in allowed;
      assert FilterFields(v, k, allowed) == [(f.0, FilterKeys(f.1, allowed))] + FilterFields(v, k + 1, allowed);
      FilterKeysOfAllowed(f.1, allowed);
      FilterFieldsOfAllowed(v, k + 1, allowed);
      assert v.fields[k..] == [f] + v.fields[k + 1..];
    }
  }

  /** Filtering twice is filtering once. */
  lemma FilterKeysIdempotent(v: Json, allowed: seq<string>)
    ensures FilterKeys(FilterKeys(v, allowed), allowed) == FilterKeys(v, allowed)
  {
    FilterKeysAllowed(v, allowed);
    FilterKeysOfAllowed(FilterKeys(v, allowed), allowed);
  }
}
