/** `utils/metricsCalculator.ts`: key counting, nesting depth, the
    statistics shown under the editor, and the rating of a processing time
    against size-dependent thresholds. */
module Metrics {
  import opened Wrappers
  import opened Chars
  import opened JsonValue
  import opened Types

  // ---------------------------------------------------------------------
  // countKeys

  /** `countKeys`: every object member counts once, at every depth. */
  function CountKeys(v: Json): nat
    decreases v, 1, 0
  {
    match v
    case Arr(_) => ItemKeys(v, 0)
    case Obj(_) => FieldKeys(v, 0)
    case _ => 0
  }

  /** The keys under the elements `k..` of an array (the `reduce`). */
  function ItemKeys(v: Json, k: nat): nat
    requires v.Arr? && k <= |v.items|
    decreases v, 0, |v.items| - k
  {
    if k == |v.items| then 0 else CountKeys(v.items[k]) + ItemKeys(v, k + 1)
  }

  /** The members `k..` of an object, one each, plus the keys under them. */
  function FieldKeys(v: Json, k: nat): nat
    requires v.Obj? && k <= |v.fields|
    decreases v, 0, |v.fields| - k
  {
    if k == |v.fields| then 0 else 1 + CountKeys(v.fields[k].1) + FieldKeys(v, k + 1)
  }

  /** An object has at least as many keys as it has members, and exactly
      as many when no member holds a composite value. */
  lemma {:induction false} FieldKeysAtLeast(v: Json, k: nat)
    requires v.Obj? && k <= |v.fields|
    ensures FieldKeys(v, k) >= |v.fields| - k
    ensures (forall j :: k <= j < |v.fields| ==> !IsComposite(v.fields[j].1)) ==> FieldKeys(v, k) == |v.fields| - k
    decreases |v.fields| - k
  {
    if k < |v.fields| {
      FieldKeysAtLeast(v, k + 1);
    }
  }

  /** `{a:1,b:{c:2,d:3}}` has four keys. */
  lemma FourKeys(a: string, b: string, c: string, d: string)
    ensures CountKeys(Obj([(a, Num(1)), (b, Obj([(c, Num(2)), (d, Num(3))]))])) == 4
  {
    var inner := Obj([(c, Num(2)), (d, Num(3))]);
    var outer := Obj([(a, Num(1)), (b, inner)]);
    assert FieldKeys(inner, 2) == 0;
    assert FieldKeys(inner, 1) == 1 + CountKeys(Num(3)) + FieldKeys(inner, 2);
    assert FieldKeys(inner, 0) == 1 + CountKeys(Num(2)) + FieldKeys(inner, 1);
    assert CountKeys(inner) == 2;
    assert FieldKeys(outer, 2) == 0;
    assert FieldKeys(outer, 1) == 1 + CountKeys(inner) + FieldKeys(outer, 2);
    assert FieldKeys(outer, 0) == 1 + CountKeys(Num(1)) + FieldKeys(outer, 1);
  }

  // ---------------------------------------------------------------------
  // calculateDepth

  /** `calculateDepth(v, d)`: `d` for a scalar or an empty container, else
      the deepest child one level down. */
  function Depth(v: Json, d: nat): (r: nat)
    ensures r >= d
    decreases v, 1, 0
  {
    match v
    case Arr(items) => if |items| == 0 then d else ItemsDepth(v, 0, d + 1)
    case Obj(fs) => if |fs| == 0 then d else FieldsDepth(v, 0, d + 1)
    case _ => d
  }

  /** The deepest of the elements `k..` (there is at least one) at `d`. */
  function ItemsDepth(v: Json, k: nat, d: nat): (r: nat)
    requires v.Arr? && k < |v.items|
    ensures r >= d
    decreases v, 0, |v.items| - k
  {
    if k == |v.items| - 1 then Depth(v.items[k], d)
    else Max(Depth(v.items[k], d), ItemsDepth(v, k + 1, d))
  }

  /** The deepest of the members `k..` (there is at least one) at `d`. */
  function FieldsDepth(v: Json, k: nat, d: nat): (r: nat)
    requires v.Obj? && k < |v.fields|
    ensures r >= d
    decreases v, 0, |v.fields| - k
  {
    if k == |v.fields| - 1 then Depth(v.fields[k].1, d)
    else Max(Depth(v.fields[k].1, d), FieldsDepth(v, k + 1, d))
  }

  function Max(a: nat, b: nat): nat {
    if a >= b then a else b
  }

  /** Starting deeper shifts the result: `calculateDepth(v, d + e)` is
      `e + calculateDepth(v, d)`. */
  lemma {:induction false} DepthShift(v: Json, d: nat, e: nat)
    ensures Depth(v, d + e) == e + Depth(v, d)
    decreases v, 1, 0
  {
    match v
    case Arr(items) =>
      if |items| > 0 {
        ItemsDepthShift(v, 0, d + 1, e);
      }
    case Obj(fs) =>
      if |fs| > 0 {
        FieldsDepthShift(v, 0, d + 1, e);
      }
    case _ =>
  }

  lemma {:induction false} ItemsDepthShift(v: Json, k: nat, d: nat, e: nat)
    requires v.Arr? && k < |v.items|
    ensures ItemsDepth(v, k, d + e) == e + ItemsDepth(v, k, d)
    decreases v, 0, |v.items| - k
  {
    DepthShift(v.items[k], d, e);
    if k < |v.items| - 1 {
      ItemsDepthShift(v, k + 1, d, e);
    }
  }

  lemma {:induction false} FieldsDepthShift(v: Json, k: nat, d: nat, e: nat)
    requires v.Obj? && k < |v.fields|
    ensures FieldsDepth(v, k, d + e) == e + FieldsDepth(v, k, d)
    decreases v, 0, |v.fields| - k
  {
    DepthShift(v.fields[k].1, d, e);
    if k < |v.fields| - 1 {
      FieldsDepthShift(v, k + 1, d, e);
    }
  }

  /** The depth from 0 is 0 exactly for scalars and empty containers. */
  lemma DepthZero(v: Json)
    ensures Depth(v, 0) == 0 <==> !IsComposite(v) || (v.Arr? && |v.items| == 0) || (v.Obj? && |v.fields| == 0)
  {
  }

  /** `{a:{b:{c:1}}}` is three deep. */
  lemma ThreeDeep(a: string, b: string, c: string)
    ensures Depth(Obj([(a, Obj([(b, Obj([(c, Num(1))]))]))]), 0) == 3
  {
    var v3 := Obj([(c, Num(1))]);
    var v2 := Obj([(b, v3)]);
    var v1 := Obj([(a, v2)]);
    assert Depth(v3, 2) == 3 by {
      assert FieldsDepth(v3, 0, 3) == 3;
    }
    assert Depth(v2, 1) == 3 by {
      assert FieldsDepth(v2, 0, 2) == Depth(v3, 2);
    }
    assert FieldsDepth(v1, 0, 1) == Depth(v2, 1);
  }

  // ---------------------------------------------------------------------
  // The key estimate on text that does not parse

  /** Where a match of `/"[^"]*"\s*:/` that starts at the quote `s[i]`
      ends: past the colon, or nothing when the closing quote is missing or
      followed by something other than white space and a colon. */
  function KeyPatternEnd(s: string, i: nat): (r: Option<nat>)
    requires i < |s|
    ensures r.Some? ==> i < r.value <= |s|
  {
    var j := IndexOf(s, '"', i + 1);
    if j == |s| then None
    else
      var e := SpaceEnd(s, j + 1);
      if e < |s| && s[e] == ':' then Some(e + 1) else None
  }

  /** One attempt of the global match at `s[i]`: how many matches it
      found (0 or 1) and where the next attempt starts. A failed attempt
      moves on by one character, a match resumes after itself. */
  function KeyPatternStep(s: string, i: nat): (r: (nat, nat))
    requires i < |s|
    ensures i < r.1 <= |s|
  {
    if s[i] == '"' && KeyPatternEnd(s, i).Some? then (1, KeyPatternEnd(s, i).value) else (0, i + 1)
  }

  /** The number of matches of `/"[^"]*"\s*:/g` from `i`. */
  function KeyPatternCount(s: string, i: nat): nat
    decreases |s| - i
  {
    if i >= |s| then 0 else KeyPatternStep(s, i).0 + KeyPatternCount(s, KeyPatternStep(s, i).1)
  }

  /** Text without a double quote has no key-like match. */
  lemma {:induction false} KeyPatternNone(s: string, i: nat)
    requires '"' !in s
    ensures KeyPatternCount(s, i) == 0
    decreases |s| - i
  {
    if i < |s| {
      assert s[i] in s;
      KeyPatternNone(s, i + 1);
    }
  }

  /** A quoted name, white space and a colon count once, and counting goes
      on after the colon. */
  lemma KeyPatternMember(name: string, gap: string, rest: string)
    requires '"' !in name && AllSpace(gap)
    ensures KeyPatternCount(['"'] + name + ['"'] + gap + [':'] + rest, 0) == 1 + KeyPatternCount(rest, 0)
  {
    var s := ['"'] + name + ['"'] + gap + [':'] + rest;
    var j := |name| + 1;
    var e := j + 1 + |gap|;
    assert forall k :: 1 <= k < j ==> s[k] == name[k - 1];
    IndexOfIs(s, '"', 1, j);
    assert forall k :: j + 1 <= k < e ==> s[k] == gap[k - j - 1];
    SpaceEndIs(s, j + 1, e);
    assert KeyPatternEnd(s, 0) == Some(e + 1);
    CountFromShift(s, e + 1, rest);
  }

  /** Counting from `k` in `s` is counting `s[k..]` from its start. */
  lemma {:induction false} CountFromShift(s: string, k: nat, rest: string)
    requires k <= |s| && s[k..] == rest
    ensures KeyPatternCount(s, k) == KeyPatternCount(rest, 0)
    decreases |s| - k
  {
    CountFromShiftAt(s, k, rest, 0);
  }

  lemma {:induction false} CountFromShiftAt(s: string, k: nat, rest: string, m: nat)
    requires k <= |s| && s[k..] == rest && m <= |rest|
    ensures KeyPatternCount(s, k + m) == KeyPatternCount(rest, m)
    decreases |rest| - m
  {
    if m < |rest| {
      KeyPatternStepShift(s, k, rest, m);
      CountFromShiftAt(s, k, rest, KeyPatternStep(rest, m).1);
    }
  }

  lemma KeyPatternStepShift(s: string, k: nat, rest: string, m: nat)
    requires k <= |s| && s[k..] == rest && m < |rest|
    ensures KeyPatternStep(s, k + m) == (KeyPatternStep(rest, m).0, k + KeyPatternStep(rest, m).1)
  {
    assert s[k + m] == rest[m];
    KeyPatternEndShift(s, k, rest, m);
  }

  lemma KeyPatternEndShift(s: string, k: nat, rest: string, m: nat)
    requires k <= |s| && s[k..] == rest && m < |rest|
    ensures KeyPatternEnd(s, k + m) == if KeyPatternEnd(rest, m).Some? then Some(k + KeyPatternEnd(rest, m).value) else None
  {
    IndexOfShift(s, k, rest, m + 1);
    var j := IndexOf(rest, '"', m + 1);
    if j < |rest| {
      SpaceEndShift(s, k, rest, j + 1);
    }
  }

  lemma {:induction false} IndexOfShift(s: string, k: nat, rest: string, m: nat)
    requires k <= |s| && s[k..] == rest && m <= |rest|
    ensures IndexOf(s, '"', k + m) == k + IndexOf(rest, '"', m)
    decreases |rest| - m
  {
    if m < |rest| {
      assert s[k + m] == rest[m];
      IndexOfShift(s, k, rest, m + 1);
    }
  }

  lemma {:induction false} SpaceEndShift(s: string, k: nat, rest: string, m: nat)
    requires k <= |s| && s[k..] == rest && m <= |rest|
    ensures SpaceEnd(s, k + m) == k + SpaceEnd(rest, m)
    decreases |rest| - m
  {
    if m < |rest| {
      assert s[k + m] == rest[m];
      SpaceEndShift(s, k, rest, m + 1);
    }
  }

  // ---------------------------------------------------------------------
  // calculateStatistics

  /** `Math.round(x * 100) / 100`: to hundredths, half-way cases up. */
  function RoundHundredths(x: real): (r: real)
    ensures x - 0.005 < r <= x + 0.005
  {
    ((x * 100.0 + 0.5).Floor as real) / 100.0
  }

  /** The size saved, as a percentage of the input size, to hundredths;
      0 for an empty input. */
  function CompressionRatio(inputSize: nat, outputSize: nat): (r: real)
    ensures inputSize == 0 ==> r == 0.0
    ensures outputSize == inputSize ==> r == 0.0
    ensures outputSize <= inputSize ==> 0.0 <= r <= 100.0
    ensures inputSize > 0 && outputSize > 2 * inputSize ==> r < -99.99
  {
    if inputSize > 0 then
      var ratio := ((inputSize - outputSize) as real / inputSize as real) * 100.0;
      RatioBounds(inputSize, outputSize);
      RoundHundredths(ratio)
    else RoundHundredths(0.0)
  }

  lemma RatioBounds(a: nat, b: nat)
    requires a > 0
    ensures b == a ==> ((a - b) as real / a as real) * 100.0 == 0.0
    ensures b <= a ==> 0.0 <= ((a - b) as real / a as real) * 100.0 <= 100.0
    ensures b > 2 * a ==> ((a - b) as real / a as real) * 100.0 < -100.0
  {
    var q := (a - b) as real / a as real;
    assert q * (a as real) == (a - b) as real;
    if b <= a {
      assert 0.0 <= q <= 1.0;
    }
    if b > 2 * a {
      assert q < -1.0;
    }
  }

  /** `calculateStatistics` with the native parser `parse`. Sizes are
      UTF-8 byte lengths (what a `Blob` holds). */
  function CalculateStatistics(input: string, output: string, processingTime: real, parse: NativeParse): (r: Statistics)
    ensures r.inputSize == Utf8Length(input) && r.outputSize == Utf8Length(output)
    ensures r.lineCount == Count(output, '\n') + 1
    ensures r.compressionRatio == CompressionRatio(r.inputSize, r.outputSize)
    ensures r.processingTime == processingTime
    ensures parse(output).Err? ==> r.depthLevel == 0 && r.keyCount == KeyPatternCount(output, 0)
    ensures parse(output).Ok? ==> r.keyCount == CountKeys(parse(output).value) && r.depthLevel == Depth(parse(output).value, 0)
  {
    SplitPieces(output, '\n');
    var inputSize := Utf8Length(input);
    var outputSize := Utf8Length(output);
    var lineCount := |Split(output, '\n')|;
    var ratio := CompressionRatio(inputSize, outputSize);
    match parse(output)
    case Ok(v) =>
      Statistics(inputSize, outputSize, lineCount, CountKeys(v), Depth(v, 0), processingTime, ratio)
    case Err(_) =>
      Statistics(inputSize, outputSize, lineCount, KeyPatternCount(output, 0), 0, processingTime, ratio)
  }

  // ---------------------------------------------------------------------
  // validatePerformanceRequirements

  datatype Rating = Excellent | Good | Acceptable | Poor

  datatype PerformanceCheck = PerformanceCheck(meetsTarget: bool, meetsMaximum: bool, rating: Rating)

  /** The target time for a file size, in milliseconds: below 1 KiB, below
      1 MiB, and above. */
  function TargetTime(fileSize: int): (t: int)
    ensures t == 100 || t == 1000 || t == 5000
  {
    if fileSize < 1024 then 100 else if fileSize < 1024 * 1024 then 1000 else 5000
  }

  /** The maximum time for a file size. */
  function MaximumTime(fileSize: int): (t: int)
    ensures t == 200 || t == 2000 || t == 10000
  {
    if fileSize < 1024 then 200 else if fileSize < 1024 * 1024 then 2000 else 10000
  }

  /** The maximum is twice the target, and neither shrinks as files grow. */
  lemma ThresholdsGrow(a: int, b: int)
    requires a <= b
    ensures MaximumTime(a) == 2 * TargetTime(a)
    ensures TargetTime(a) <= TargetTime(b) && MaximumTime(a) <= MaximumTime(b)
  {
  }

  /** `validatePerformanceRequirements`. */
  function CheckPerformance(processingTime: real, fileSize: int): (r: PerformanceCheck)
    ensures r.meetsTarget ==> r.meetsMaximum
    ensures r.rating == Excellent <==> r.meetsTarget
    ensures r.rating == Poor <==> !r.meetsMaximum
  {
    var target := TargetTime(fileSize) as real;
    var maximum := MaximumTime(fileSize) as real;
    PerformanceCheck(
      processingTime < target,
      processingTime < maximum,
      if processingTime < target then Excellent
      else if processingTime < target * 1.5 then Good
      else if processingTime < maximum then Acceptable
      else Poor)
  }

  function Rank(r: Rating): nat {
    match r
    case Excellent => 0
    case Good => 1
    case Acceptable => 2
    case Poor => 3
  }

  /** A slower run never rates better, and a larger file never rates
      worse for the same time. */
  lemma RatingMonotone(t1: real, t2: real, a: int, b: int)
    requires t1 <= t2 && a <= b
    ensures Rank(CheckPerformance(t1, a).rating) <= Rank(CheckPerformance(t2, a).rating)
    ensures Rank(CheckPerformance(t1, b).rating) <= Rank(CheckPerformance(t1, a).rating)
  {
    ThresholdsGrow(a, b);
  }
}
