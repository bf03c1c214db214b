/** `flattenJSON`, `flattenObject`, `unflattenJSON`, `unflattenObject` and
    `setNestedValue` of `utils/jsonFormatter.ts`.

    Flattening walks a parsed value and assigns each leaf (a primitive, an
    empty array or an empty object) into a fresh record under its path text.
    Unflattening splits each key of a record on `.` and writes the value
    along that path, creating an array when the next part is all digits and
    an object otherwise. The objects it builds are modelled by `Node`, which
    also covers arrays with holes and named properties. */
module Flatten {
  import opened Wrappers
  import opened Chars
  import opened JsonValue
  import opened Serializer
  import opened Formatter

  // ---------------------------------------------------------------------
  // Property assignment on an ordinary object

  /** `rec[key] = value`: an existing key keeps its place and takes the new
      value, a new key goes last. */
  function Assign<T>(rec: seq<(string, T)>, key: string, value: T): (r: seq<(string, T)>)
    ensures |r| >= 1
    decreases |rec|
  {
    if |rec| == 0 then [(key, value)]
    else if rec[0].0 == key then [(key, value)] + rec[1..]
    else [rec[0]] + Assign(rec[1..], key, value)
  }

  /** After the assignment, `key` reads the new value and every other key
      reads as before. */
  lemma {:induction false} AssignLookup<T>(rec: seq<(string, T)>, key: string, value: T, k: string)
    ensures Lookup(Assign(rec, key, value), k) == if k == key then Some(value) else Lookup(rec, k)
    decreases |rec|
  {
    if |rec| > 0 && rec[0].0 != key {
      AssignLookup(rec[1..], key, value, k);
      assert ([rec[0]] + Assign(rec[1..], key, value))[1..] == Assign(rec[1..], key, value);
    }
  }

  /** Assigning to a new key appends it. */
  lemma {:induction false} AssignNew<T>(rec: seq<(string, T)>, key: string, value: T)
    requires key !in KeysOf(rec)
    ensures Assign(rec, key, value) == rec + [(key, value)]
    decreases |rec|
  {
    if |rec| > 0 {
      assert KeysOf(rec) == [rec[0].0] + KeysOf(rec[1..]);
      AssignNew(rec[1..], key, value);
      assert [rec[0]] + (rec[1..] + [(key, value)]) == rec + [(key, value)];
    }
  }

  /** Assigning to an existing key changes no key and no position. */
  lemma AssignInPlace<T>(rec: seq<(string, T)>, key: string, value: T)
    requires key in KeysOf(rec)
    ensures KeysOf(Assign(rec, key, value)) == KeysOf(rec)
  {
    var at :| 0 <= at < |rec| && KeysOf(rec)[at] == key;
    AssignKeysAt(rec, key, value, at);
  }

  /** Position by position: the key at `at` is the one assigned. */
  lemma {:induction false} AssignKeysAt<T>(rec: seq<(string, T)>, key: string, value: T, at: nat)
    requires at < |rec| && rec[at].0 == key
    ensures |Assign(rec, key, value)| == |rec|
    ensures forall i :: 0 <= i < |rec| ==> Assign(rec, key, value)[i].0 == rec[i].0
    decreases |rec|
  {
    if rec[0].0 != key {
      AssignKeysAt(rec[1..], key, value, at - 1);
    }
  }

  /** The assignments of `es`, in order, starting from `rec`. */
  function AssignAll<T>(rec: seq<(string, T)>, es: seq<(string, T)>): seq<(string, T)>
    decreases |es|
  {
    if |es| == 0 then rec else AssignAll(Assign(rec, es[0].0, es[0].1), es[1..])
  }

  lemma {:induction false} AssignAllAppend<T>(rec: seq<(string, T)>, a: seq<(string, T)>, b: seq<(string, T)>)
    ensures AssignAll(rec, a + b) == AssignAll(AssignAll(rec, a), b)
    decreases |a|
  {
    if |a| == 0 {
      assert a + b == b;
    } else {
      assert (a + b)[1..] == a[1..] + b;
      AssignAllAppend(Assign(rec, a[0].0, a[0].1), a[1..], b);
    }
  }

  /** When no key repeats, the assignments simply append. */
  lemma {:induction false} AssignAllDistinct<T>(rec: seq<(string, T)>, es: seq<(string, T)>)
    requires DistinctKeys(rec + es)
    ensures AssignAll(rec, es) == rec + es
    decreases |es|
  {
    if |es| > 0 {
      assert es[0].0 !in KeysOf(rec) by {
        forall i | 0 <= i < |rec|
          ensures rec[i].0 != es[0].0
        {
          assert (rec + es)[i] == rec[i] && (rec + es)[|rec|] == es[0];
        }
      }
      var next := rec + [es[0]];
      AssignNew(rec, es[0].0, es[0].1);
      assert rec + es == next + es[1..];
      AssignAllDistinct(next, es[1..]);
    }
  }

  // ---------------------------------------------------------------------
  // flattenObject

  /** The key of member `key` under `prefix`: joined with a dot, except at
      the top where the prefix is empty. */
  function MemberPath(prefix: string, key: string): string {
    if prefix == "" then key else prefix + "." + key
  }

  /** The key of element `i` under `prefix`: `[i]` appended, no dot. */
  function IndexPath(prefix: string, i: nat): string {
    prefix + "[" + NatToString(i) + "]"
  }

  /** `flattenObject(prefix, v, result)`: the record after the call, when it
      held `acc` before. */
  function Flat(prefix: string, v: Json, acc: seq<(string, Json)>): seq<(string, Json)>
    decreases v, 1, 0
  {
    match v
    case Arr(items) =>
      if |items| == 0 then Assign(acc, prefix, Arr([])) else FlatItems(prefix, v, 0, acc)
    case Obj(fs) =>
      if |fs| == 0 then Assign(acc, prefix, Obj([])) else FlatMembers(prefix, v, 0, acc)
    case _ => Assign(acc, prefix, v)
  }

  /** The `forEach` over the elements `k..`. */
  function FlatItems(prefix: string, v: Json, k: nat, acc: seq<(string, Json)>): seq<(string, Json)>
    requires v.Arr? && k <= |v.items|
    decreases v, 0, |v.items| - k
  {
    if k == |v.items| then acc
    else FlatItems(prefix, v, k + 1, Flat(IndexPath(prefix, k), v.items[k], acc))
  }

  /** The `forEach` over the keys `k..`. */
  function FlatMembers(prefix: string, v: Json, k: nat, acc: seq<(string, Json)>): seq<(string, Json)>
    requires v.Obj? && k <= |v.fields|
    decreases v, 0, |v.fields| - k
  {
    if k == |v.fields| then acc
    else FlatMembers(prefix, v, k + 1, Flat(MemberPath(prefix, v.fields[k].0), v.fields[k].1, acc))
  }

  // ---------------------------------------------------------------------
  // The leaves of a value, as an independent reference

  /** One step of a path into a value. */
  datatype Step = Key(name: string) | Index(i: nat)

  /** A value `flattenObject` stores as it is. */
  predicate IsLeaf(v: Json) {
    match v
    case Arr(items) => |items| == 0
    case Obj(fs) => |fs| == 0
    case _ => true
  }

  /** The value reached by following `p` from `v`, if the path exists. */
  function At(v: Json, p: seq<Step>): Option<Json>
    decreases |p|
  {
    if |p| == 0 then Some(v)
    else match p[0]
      case Index(i) => if v.Arr? && i < |v.items| then At(v.items[i], p[1..]) else None
      case Key(k) =>
        if v.Obj? then
          match Lookup(v.fields, k)
          case Some(w) => At(w, p[1..])
          case None => None
        else None
  }

  /** Paths `ls` seen from one step further up. */
  function Under(s: Step, ls: seq<(seq<Step>, Json)>): (r: seq<(seq<Step>, Json)>)
    ensures |r| == |ls|
    ensures forall i :: 0 <= i < |r| ==> r[i] == ([s] + ls[i].0, ls[i].1)
  {
    seq(|ls|, i requires 0 <= i < |ls| => ([s] + ls[i].0, ls[i].1))
  }

  /** Every leaf of `v` with its path, left to right. */
  function Leaves(v: Json): (ls: seq<(seq<Step>, Json)>)
    ensures |ls| >= 1
    decreases v, 1
  {
    if IsLeaf(v) then [([], v)]
    else if v.Arr? then LeavesItems(v, 0)
    else LeavesMembers(v, 0)
  }

  function LeavesItems(v: Json, k: nat): (ls: seq<(seq<Step>, Json)>)
    requires v.Arr? && k <= |v.items|
    ensures k < |v.items| ==> |ls| >= 1
    decreases v, 0, |v.items| - k
  {
    if k == |v.items| then [] else Under(Index(k), Leaves(v.items[k])) + LeavesItems(v, k + 1)
  }

  function LeavesMembers(v: Json, k: nat): (ls: seq<(seq<Step>, Json)>)
    requires v.Obj? && k <= |v.fields|
    ensures k < |v.fields| ==> |ls| >= 1
    decreases v, 0, |v.fields| - k
  {
    if k == |v.fields| then [] else Under(Key(v.fields[k].0), Leaves(v.fields[k].1)) + LeavesMembers(v, k + 1)
  }

  /** With distinct keys, the first match of a key is its only one. */
  lemma {:induction false} LookupDistinct<T>(fs: seq<(string, T)>, j: nat)
    requires DistinctKeys(fs) && j < |fs|
    ensures Lookup(fs, fs[j].0) == Some(fs[j].1)
    decreases |fs|
  {
    if j > 0 {
      assert fs[0].0 != fs[j].0;
      LookupDistinct(fs[1..], j - 1);
    }
  }

  /** Every listed leaf is a leaf, and its path leads to it. */
  lemma {:induction false} LeavesAreReached(v: Json)
    requires UniqueKeys(v)
    ensures forall i :: 0 <= i < |Leaves(v)| ==> IsLeaf(Leaves(v)[i].1) && At(v, Leaves(v)[i].0) == Some(Leaves(v)[i].1)
    decreases v, 1
  {
    if !IsLeaf(v) {
      if v.Arr? {
        LeavesItemsAreReached(v, 0);
      } else {
        LeavesMembersAreReached(v, 0);
      }
    }
  }

  lemma {:induction false} LeavesItemsAreReached(v: Json, k: nat)
    requires v.Arr? && k <= |v.items| && UniqueKeys(v)
    ensures forall i :: 0 <= i < |LeavesItems(v, k)| ==>
              IsLeaf(LeavesItems(v, k)[i].1) && At(v, LeavesItems(v, k)[i].0) == Some(LeavesItems(v, k)[i].1)
    decreases v, 0, |v.items| - k
  {
    if k < |v.items| {
      var w := v.items[k];
      var here := Under(Index(k), Leaves(w));
      LeavesAreReached(w);
      LeavesItemsAreReached(v, k + 1);
      forall i | 0 <= i < |here|
        ensures At(v, here[i].0) == Some(here[i].1)
      {
        assert here[i].0[1..] == Leaves(w)[i].0;
      }
    }
  }

  lemma {:induction false} LeavesMembersAreReached(v: Json, k: nat)
    requires v.Obj? && k <= |v.fields| && UniqueKeys(v)
    ensures forall i :: 0 <= i < |LeavesMembers(v, k)| ==>
              IsLeaf(LeavesMembers(v, k)[i].1) && At(v, LeavesMembers(v, k)[i].0) == Some(LeavesMembers(v, k)[i].1)
    decreases v, 0, |v.fields| - k
  {
    if k < |v.fields| {
      var w := v.fields[k].1;
      var here := Under(Key(v.fields[k].0), Leaves(w));
      LeavesAreReached(w);
      LeavesMembersAreReached(v, k + 1);
      LookupDistinct(v.fields, k);
      forall i | 0 <= i < |here|
        ensures At(v, here[i].0) == Some(here[i].1)
      {
        assert here[i].0[1..] == Leaves(w)[i].0;
      }
    }
  }

  lemma {:induction false} InLeavesItems(v: Json, k: nat, i: nat, e: (seq<Step>, Json))
    requires v.Arr? && k <= i < |v.items|
    requires e in Under(Index(i), Leaves(v.items[i]))
    ensures e in LeavesItems(v, k)
    decreases i - k
  {
    if k < i {
      InLeavesItems(v, k + 1, i, e);
    }
  }

  lemma {:induction false} InLeavesMembers(v: Json, k: nat, j: nat, e: (seq<Step>, Json))
    requires v.Obj? && k <= j < |v.fields|
    requires e in Under(Key(v.fields[j].0), Leaves(v.fields[j].1))
    ensures e in LeavesMembers(v, k)
    decreases j - k
  {
    if k < j {
      InLeavesMembers(v, k + 1, j, e);
    }
  }

  /** Every path that leads to a leaf is listed. */
  lemma {:induction false} ReachedAreLeaves(v: Json, p: seq<Step>, x: Json)
    requires At(v, p) == Some(x) && IsLeaf(x)
    ensures (p, x) in Leaves(v)
    decreases |p|
  {
    if |p| == 0 {
      assert Leaves(v) == [([], v)];
    } else {
      match p[0]
      case Index(i) =>
        ReachedAreLeaves(v.items[i], p[1..], x);
        assert p == [Index(i)] + p[1..];
        ReachedThroughItem(v, i, p[1..], x);
      case Key(k) =>
        var w := Lookup(v.fields, k).value;
        var j :| 0 <= j < |v.fields| && v.fields[j] == (k, w);
        ReachedAreLeaves(w, p[1..], x);
        assert p == [Key(k)] + p[1..];
        ReachedThroughMember(v, j, p[1..], x);
    }
  }

  /** A leaf of an element is a leaf of the array one step further down. */
  lemma ReachedThroughItem(v: Json, i: nat, q: seq<Step>, x: Json)
    requires v.Arr? && i < |v.items| && (q, x) in Leaves(v.items[i])
    ensures ([Index(i)] + q, x) in Leaves(v)
  {
    var j :| 0 <= j < |Leaves(v.items[i])| && Leaves(v.items[i])[j] == (q, x);
    assert Under(Index(i), Leaves(v.items[i]))[j] == ([Index(i)] + q, x);
    InLeavesItems(v, 0, i, ([Index(i)] + q, x));
  }

  /** A leaf of a member's value is a leaf of the object one step further
      down. */
  lemma ReachedThroughMember(v: Json, j: nat, q: seq<Step>, x: Json)
    requires v.Obj? && j < |v.fields| && (q, x) in Leaves(v.fields[j].1)
    ensures ([Key(v.fields[j].0)] + q, x) in Leaves(v)
  {
    var w := v.fields[j].1;
    var m :| 0 <= m < |Leaves(w)| && Leaves(w)[m] == (q, x);
    assert Under(Key(v.fields[j].0), Leaves(w))[m] == ([Key(v.fields[j].0)] + q, x);
    InLeavesMembers(v, 0, j, ([Key(v.fields[j].0)] + q, x));
  }

  /** The leaves of a value, as listed, are exactly the pairs of a path and
      the leaf it leads to. */
  lemma LeavesExactly(v: Json, p: seq<Step>, x: Json)
    requires UniqueKeys(v)
    ensures (p, x) in Leaves(v) <==> At(v, p) == Some(x) && IsLeaf(x)
  {
    LeavesAreReached(v);
    if At(v, p) == Some(x) && IsLeaf(x) {
      ReachedAreLeaves(v, p, x);
    }
  }

  /** The key text of a path below `prefix`. */
  function PathText(prefix: string, p: seq<Step>): string
    decreases |p|
  {
    if |p| == 0 then prefix
    else
      var next := match p[0] case Key(k) => MemberPath(prefix, k) case Index(i) => IndexPath(prefix, i);
      PathText(next, p[1..])
  }

  /** Leaves with their paths written as key text. */
  function Rendered(prefix: string, ls: seq<(seq<Step>, Json)>): (r: seq<(string, Json)>)
    ensures |r| == |ls|
    ensures forall i :: 0 <= i < |r| ==> r[i] == (PathText(prefix, ls[i].0), ls[i].1)
  {
    seq(|ls|, i requires 0 <= i < |ls| => (PathText(prefix, ls[i].0), ls[i].1))
  }

  lemma RenderedAppend(prefix: string, a: seq<(seq<Step>, Json)>, b: seq<(seq<Step>, Json)>)
    ensures Rendered(prefix, a + b) == Rendered(prefix, a) + Rendered(prefix, b)
  {
  }

  lemma RenderedUnder(prefix: string, s: Step, ls: seq<(seq<Step>, Json)>)
    ensures Rendered(prefix, Under(s, ls))
         == Rendered(match s case Key(k) => MemberPath(prefix, k) case Index(i) => IndexPath(prefix, i), ls)
  {
    forall i | 0 <= i < |ls|
      ensures PathText(prefix, ([s] + ls[i].0)) == PathText(match s case Key(k) => MemberPath(prefix, k) case Index(i) => IndexPath(prefix, i), ls[i].0)
    {
      assert ([s] + ls[i].0)[1..] == ls[i].0;
    }
  }

  /** `flattenObject` is the assignment, in order, of every leaf under its
      path text. */
  lemma {:induction false} FlatIsLeafAssignment(prefix: string, v: Json, acc: seq<(string, Json)>)
    ensures Flat(prefix, v, acc) == AssignAll(acc, Rendered(prefix, Leaves(v)))
    decreases v, 1, 0
  {
    match v
    case Arr(items) =>
      if |items| > 0 {
        FlatItemsIsLeafAssignment(prefix, v, 0, acc);
      }
    case Obj(fs) =>
      if |fs| > 0 {
        FlatMembersIsLeafAssignment(prefix, v, 0, acc);
      }
    case _ =>
  }

  lemma {:induction false} FlatItemsIsLeafAssignment(prefix: string, v: Json, k: nat, acc: seq<(string, Json)>)
    requires v.Arr? && k <= |v.items|
    ensures FlatItems(prefix, v, k, acc) == AssignAll(acc, Rendered(prefix, LeavesItems(v, k)))
    decreases v, 0, |v.items| - k
  {
    if k < |v.items| {
      var here := IndexPath(prefix, k);
      var mid := Flat(here, v.items[k], acc);
      FlatIsLeafAssignment(here, v.items[k], acc);
      FlatItemsIsLeafAssignment(prefix, v, k + 1, mid);
      var a := Under(Index(k), Leaves(v.items[k]));
      var b := LeavesItems(v, k + 1);
      RenderedAppend(prefix, a, b);
      RenderedUnder(prefix, Index(k), Leaves(v.items[k]));
      AssignAllAppend(acc, Rendered(prefix, a), Rendered(prefix, b));
    }
  }

  lemma {:induction false} FlatMembersIsLeafAssignment(prefix: string, v: Json, k: nat, acc: seq<(string, Json)>)
    requires v.Obj? && k <= |v.fields|
    ensures FlatMembers(prefix, v, k, acc) == AssignAll(acc, Rendered(prefix, LeavesMembers(v, k)))
    decreases v, 0, |v.fields| - k
  {
    if k < |v.fields| {
      var here := MemberPath(prefix, v.fields[k].0);
      var mid := Flat(here, v.fields[k].1, acc);
      FlatIsLeafAssignment(here, v.fields[k].1, acc);
      FlatMembersIsLeafAssignment(prefix, v, k + 1, mid);
      var a := Under(Key(v.fields[k].0), Leaves(v.fields[k].1));
      var b := LeavesMembers(v, k + 1);
      RenderedAppend(prefix, a, b);
      RenderedUnder(prefix, Key(v.fields[k].0), Leaves(v.fields[k].1));
      AssignAllAppend(acc, Rendered(prefix, a), Rendered(prefix, b));
    }
  }

  /** With pairwise different path texts, the flattened record holds each
      leaf exactly once, under its path, in left-to-right order. */
  lemma FlattenedEntries(v: Json)
    requires DistinctKeys(Rendered("", Leaves(v)))
    ensures Flat("", v, []) == Rendered("", Leaves(v))
  {
    FlatIsLeafAssignment("", v, []);
    assert [] + Rendered("", Leaves(v)) == Rendered("", Leaves(v));
    AssignAllDistinct([], Rendered("", Leaves(v)));
  }

  // ---------------------------------------------------------------------
  // flattenJSON

  /** `flattenJSON`: the input itself when it is blank or does not parse,
      otherwise the flattened record with a two-space indent. */
  function FlattenJson(s: string, parse: NativeParse): (r: string)
    ensures IsBlank(s) || parse(s).Err? ==> r == s
    ensures !IsBlank(s) && parse(s).Ok? ==> ReadDocument(r) == Some(Obj(Flat("", parse(s).value, [])))
  {
    if IsBlank(s) then s
    else match parse(s)
      case Err(_) => s
      case Ok(v) =>
        var out := Obj(Flat("", v, []));
        StringifyRoundTrip(out, SpaceCount(2));
        Stringify(out, SpaceCount(2))
  }

  // ---------------------------------------------------------------------
  // The objects unflattenObject builds

  /** A primitive, an ordinary object, or an array whose slots may be holes
      and which may carry named properties besides its elements. */
  datatype Node =
    | Prim(value: Json)
    | ObjN(members: seq<(string, Node)>)
    | ArrN(elems: seq<Option<Node>>, props: seq<(string, Node)>)

  /** The objects `JSON.parse` returns, as nodes. */
  function FromJson(v: Json): (n: Node)
    ensures n.Prim? <==> !IsComposite(v)
    decreases v
  {
    match v
    case Arr(items) => ArrN(seq(|items|, i requires 0 <= i < |items| => Some(FromJson(items[i]))), [])
    case Obj(fs) => ObjN(seq(|fs|, i requires 0 <= i < |fs| => (fs[i].0, FromJson(fs[i].1))))
    case _ => Prim(v)
  }

  /** What `JSON.stringify` sees of a node: holes read as `null` and the
      named properties of arrays are dropped. */
  function ToJson(n: Node): Json
    decreases n
  {
    match n
    case Prim(v) => v
    case ObjN(ms) => Obj(seq(|ms|, i requires 0 <= i < |ms| => (ms[i].0, ToJson(ms[i].1))))
    case ArrN(es, _) =>
      Arr(seq(|es|, i requires 0 <= i < |es| => if es[i].Some? then ToJson(es[i].value) else Null))
  }

  /** Parsed values survive the round trip through nodes. */
  lemma {:induction false} ToJsonFromJson(v: Json)
    ensures ToJson(FromJson(v)) == v
    decreases v
  {
    match v
    case Arr(items) =>
      forall i | 0 <= i < |items|
        ensures ToJson(FromJson(items[i])) == items[i]
      {
        ToJsonFromJson(items[i]);
      }
    case Obj(fs) =>
      forall i | 0 <= i < |fs|
        ensures ToJson(FromJson(fs[i].1)) == fs[i].1
      {
        ToJsonFromJson(fs[i].1);
      }
    case _ =>
  }

  /** The largest array index, 2^32 - 2. */
  const MaxArrayIndex: nat := 4294967294

  /** The element a property name denotes on an array: a decimal numeral
      without leading zeros (so that it reads back as itself) below
      2^32 - 1. */
  function ArrayIndex(part: string): (r: Option<nat>)
    ensures r.Some? ==> part == NatToString(r.value) && r.value <= MaxArrayIndex
  {
    if |part| > 0 && AllDigits(part) && DigitsValue(part) <= MaxArrayIndex
       && NatToString(DigitsValue(part)) == part
    then Some(DigitsValue(part))
    else None
  }

  /** Every numeral of an index up to the bound names that index. */
  lemma ArrayIndexOfNumeral(n: nat)
    requires n <= MaxArrayIndex
    ensures ArrayIndex(NatToString(n)) == Some(n)
  {
    DigitsValueOfNatToString(n);
  }

  /** `current[part]` on an object or array, `None` for `undefined`. */
  function Get(cur: Node, part: string): Option<Node>
    requires !cur.Prim?
  {
    match cur
    case ObjN(ms) => Lookup(ms, part)
    case ArrN(es, ps) =>
      match ArrayIndex(part)
      case Some(i) => if i < |es| then es[i] else None
      case None => if part == "length" then Some(Prim(Num(|es|))) else Lookup(ps, part)
  }

  /** Slot `i` set to `x`, with holes filling any gap. */
  function SetSlot(es: seq<Option<Node>>, i: nat, x: Node): (r: seq<Option<Node>>)
    ensures |r| == if i < |es| then |es| else i + 1
    ensures r[i] == Some(x)
    ensures forall j :: 0 <= j < |r| && j != i ==> r[j] == if j < |es| then es[j] else None
  {
    if i < |es| then es[i := Some(x)] else es + seq(i - |es|, _ => None) + [Some(x)]
  }

  /** `current[part] = x` on an object, or on an array for any name other
      than `length`. */
  function Put(cur: Node, part: string, x: Node): (r: Node)
    requires cur.ObjN? || (cur.ArrN? && part != "length")
    ensures r.ObjN? == cur.ObjN? && r.ArrN? == cur.ArrN?
  {
    match cur
    case ObjN(ms) => ObjN(Assign(ms, part, x))
    case ArrN(es, ps) =>
      match ArrayIndex(part)
      case Some(i) => ArrN(SetSlot(es, i, x), ps)
      case None => ArrN(es, Assign(ps, part, x))
  }

  /** A write is read back, and every other name reads as before (on an
      array, `length` may grow). */
  lemma PutGet(cur: Node, part: string, x: Node, other: string)
    requires cur.ObjN? || (cur.ArrN? && part != "length")
    ensures Get(Put(cur, part, x), part) == Some(x)
    ensures other != part && (cur.ObjN? || other != "length") ==> Get(Put(cur, part, x), other) == Get(cur, other)
  {
    match cur
    case ObjN(ms) =>
      PutGetMember(ms, part, x, other);
    case ArrN(es, ps) =>
      if ArrayIndex(part).Some? {
        PutGetSlot(es, ps, part, x, other);
      } else {
        PutGetProperty(es, ps, part, x, other);
      }
  }

  /** `PutGet` for a write to an object. */
  lemma PutGetMember(ms: seq<(string, Node)>, part: string, x: Node, other: string)
    ensures Get(ObjN(Assign(ms, part, x)), part) == Some(x)
    ensures other != part ==> Get(ObjN(Assign(ms, part, x)), other) == Get(ObjN(ms), other)
  {
    AssignLookup(ms, part, x, part);
    AssignLookup(ms, part, x, other);
  }

  /** `PutGet` for a write to a named property of an array. */
  lemma PutGetProperty(es: seq<Option<Node>>, ps: seq<(string, Node)>, part: string, x: Node, other: string)
    requires ArrayIndex(part).None? && part != "length"
    ensures Get(ArrN(es, Assign(ps, part, x)), part) == Some(x)
    ensures other != part ==> Get(ArrN(es, Assign(ps, part, x)), other) == Get(ArrN(es, ps), other)
  {
    AssignLookup(ps, part, x, part);
    if ArrayIndex(other).None? && other != "length" {
      AssignLookup(ps, part, x, other);
    }
  }

  /** `PutGet` for a write to an element of an array. */
  lemma PutGetSlot(es: seq<Option<Node>>, ps: seq<(string, Node)>, part: string, x: Node, other: string)
    requires ArrayIndex(part).Some?
    ensures Get(ArrN(SetSlot(es, ArrayIndex(part).value, x), ps), part) == Some(x)
    ensures other != part && other != "length" ==>
      Get(ArrN(SetSlot(es, ArrayIndex(part).value, x), ps), other) == Get(ArrN(es, ps), other)
  {
    var i := ArrayIndex(part).value;
    if other != part && ArrayIndex(other).Some? {
      assert i != ArrayIndex(other).value;
    }
  }

  /** The container `setNestedValue` creates for a missing step: an array
      when the next part is a non-empty run of digits, an object otherwise. */
  function Fresh(nextPart: string): (n: Node)
    ensures n.ArrN? <==> |nextPart| > 0 && AllDigits(nextPart)
    ensures n.ArrN? ==> n == ArrN([], [])
    ensures n.ObjN? ==> n == ObjN([])
  {
    if |nextPart| > 0 && AllDigits(nextPart) then ArrN([], []) else ObjN([])
  }

  /** `setNestedValue(cur, path, value)`. `None` is the `TypeError` strict
      code raises when the walk reaches a primitive (reading from `null`, or
      writing to any primitive), and also a write or walk through an array's
      `length`, which the model does not follow. */
  function SetPath(cur: Node, path: seq<string>, value: Node): (r: Option<Node>)
    requires |path| >= 1
    ensures cur.Prim? ==> r.None?
    ensures r.Some? ==> r.value.ObjN? == cur.ObjN? && r.value.ArrN? == cur.ArrN?
    decreases |path|
  {
    if cur.Prim? || (cur.ArrN? && path[0] == "length") then None
    else if |path| == 1 then Some(Put(cur, path[0], value))
    else
      var next := match Get(cur, path[0]) case Some(n) => n case None => Fresh(path[1]);
      match SetPath(next, path[1..], value)
      case None => None
      case Some(child) => Some(Put(cur, path[0], child))
  }

  /** The node reached by reading `path` from `n`. */
  function GetPath(n: Node, path: seq<string>): Option<Node>
    decreases |path|
  {
    if |path| == 0 then Some(n)
    else if n.Prim? then None
    else match Get(n, path[0])
      case None => None
      case Some(c) => GetPath(c, path[1..])
  }

  /** After a successful `setNestedValue`, the path reads back the value,
      and the names beside the first step are untouched. */
  lemma {:induction false} SetPathThenGet(cur: Node, path: seq<string>, value: Node, other: string)
    requires |path| >= 1
    requires SetPath(cur, path, value).Some?
    ensures GetPath(SetPath(cur, path, value).value, path) == Some(value)
    ensures other != path[0] && (cur.ObjN? || other != "length")
            ==> Get(SetPath(cur, path, value).value, other) == Get(cur, other)
    decreases |path|
  {
    var r := SetPath(cur, path, value).value;
    if |path| == 1 {
      PutGet(cur, path[0], value, other);
      assert GetPath(value, path[1..]) == Some(value);
    } else {
      var next := match Get(cur, path[0]) case Some(n) => n case None => Fresh(path[1]);
      var child := SetPath(next, path[1..], value).value;
      SetPathThenGet(next, path[1..], value, other);
      PutGet(cur, path[0], child, other);
    }
  }

  // ---------------------------------------------------------------------
  // unflattenObject and unflattenJSON

  /** `Object.entries` of a parsed value: the members of an object, the
      indexed elements of an array, the indexed characters of a string, and
      nothing for a number or boolean. `null` has no entries: the call
      throws. */
  function Entries(v: Json): (r: Option<seq<(string, Json)>>)
    ensures r.None? <==> v.Null?
    ensures v.Obj? ==> r == Some(v.fields)
  {
    match v
    case Null => None
    case Bool(_) => Some([])
    case Num(_) => Some([])
    case Str(s) => Some(seq(|s|, i requires 0 <= i < |s| => (NatToString(i), Str([s[i]]))))
    case Arr(items) => Some(seq(|items|, i requires 0 <= i < |items| => (NatToString(i), items[i])))
    case Obj(fs) => Some(fs)
  }

  /** The loop of `unflattenObject` from entry `0` on. */
  function Unfold(root: Node, es: seq<(string, Json)>): Option<Node>
    decreases |es|
  {
    if |es| == 0 then Some(root)
    else match SetPath(root, Split(es[0].0, '.'), FromJson(es[0].1))
      case None => None
      case Some(next) => Unfold(next, es[1..])
  }

  /** `unflattenObject`: every entry written, along its dotted key, into a
      fresh object; `None` when a write throws. */
  function Unflatten(flattened: Json): (r: Option<Node>)
    ensures flattened.Null? ==> r.None?
    ensures r.Some? ==> r.value.ObjN?
  {
    match Entries(flattened)
    case None => None
    case Some(es) => UnfoldKeepsObject(ObjN([]), es); Unfold(ObjN([]), es)
  }

  lemma {:induction false} UnfoldKeepsObject(root: Node, es: seq<(string, Json)>)
    requires root.ObjN?
    ensures Unfold(root, es).Some? ==> Unfold(root, es).value.ObjN?
    decreases |es|
  {
    if |es| > 0 {
      match SetPath(root, Split(es[0].0, '.'), FromJson(es[0].1))
      case None =>
      case Some(next) => UnfoldKeepsObject(next, es[1..]);
    }
  }

  /** `unflattenJSON`: the input itself when it is blank, does not parse,
      or a write throws; otherwise the rebuilt value with a two-space
      indent. */
  function UnflattenJson(s: string, parse: NativeParse): (r: string)
    ensures IsBlank(s) || parse(s).Err? ==> r == s
    ensures !IsBlank(s) && parse(s).Ok? && Unflatten(parse(s).value).None? ==> r == s
    ensures !IsBlank(s) && parse(s).Ok? && Unflatten(parse(s).value).Some?
            ==> ReadDocument(r) == Some(ToJson(Unflatten(parse(s).value).value))
  {
    if IsBlank(s) then s
    else match parse(s)
      case Err(_) => s
      case Ok(v) =>
        match Unflatten(v)
        case None => s
        case Some(n) =>
          StringifyRoundTrip(ToJson(n), SpaceCount(2));
          Stringify(ToJson(n), SpaceCount(2))
  }
}
