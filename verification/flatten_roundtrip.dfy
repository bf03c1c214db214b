/** When flattening can be undone. For a non-empty object without non-empty
    arrays, whose keys are non-empty, dot-free, not all digits and distinct
    within each object, `unflattenObject` rebuilds exactly what
    `flattenObject` took apart. Outside that domain the two are not inverse:
    array paths such as `a[0]` come back as literal keys, a digit key turns
    its parent into an array, and a dotted key is split. */
module FlattenRoundTrip {
  import opened Wrappers
  import opened Chars
  import opened JsonValue
  import opened Flatten

  /** A key that survives the dotted encoding and that `setNestedValue`
      does not take for an array position. */
  predicate PlainKey(k: string) {
    |k| > 0 && '.' !in k && !AllDigits(k)
  }

  /** No non-empty array anywhere, and in every object distinct plain keys. */
  predicate PlainTree(v: Json)
    decreases v
  {
    match v
    case Arr(items) => |items| == 0
    case Obj(fs) => DistinctKeys(fs) && forall i :: 0 <= i < |fs| ==> PlainKey(fs[i].0) && PlainTree(fs[i].1)
    case _ => true
  }

  /** The key names along a path (only member steps occur here). */
  function Names(p: seq<Step>): (ns: seq<string>)
    ensures |ns| == |p|
  {
    seq(|p|, i requires 0 <= i < |p| => if p[i].Key? then p[i].name else "")
  }

  /** A path of member steps whose names are plain keys. */
  predicate KeyPath(p: seq<Step>) {
    forall i :: 0 <= i < |p| ==> p[i].Key? && PlainKey(p[i].name)
  }

  /** Leaves as the split paths and the nodes `unflattenObject` writes. */
  function Writes(ls: seq<(seq<Step>, Json)>): (ws: seq<(seq<string>, Node)>)
    ensures |ws| == |ls|
    ensures forall i :: 0 <= i < |ws| ==> ws[i] == (Names(ls[i].0), FromJson(ls[i].1))
  {
    seq(|ls|, i requires 0 <= i < |ls| => (Names(ls[i].0), FromJson(ls[i].1)))
  }

  /** Writes `ws` in order from `root`, each along an already split path. */
  function UnfoldPaths(root: Node, ws: seq<(seq<string>, Node)>): Option<Node>
    requires forall i :: 0 <= i < |ws| ==> |ws[i].0| >= 1
    decreases |ws|
  {
    if |ws| == 0 then Some(root)
    else match SetPath(root, ws[0].0, ws[0].1)
      case None => None
      case Some(next) => UnfoldPaths(next, ws[1..])
  }

  lemma {:induction false} UnfoldPathsAppend(root: Node, a: seq<(seq<string>, Node)>, b: seq<(seq<string>, Node)>)
    requires forall i :: 0 <= i < |a| ==> |a[i].0| >= 1
    requires forall i :: 0 <= i < |b| ==> |b[i].0| >= 1
    ensures forall i :: 0 <= i < |a + b| ==> |(a + b)[i].0| >= 1
    ensures UnfoldPaths(root, a + b)
         == match UnfoldPaths(root, a) case None => None case Some(mid) => UnfoldPaths(mid, b)
    decreases |a|
  {
    assert forall i :: 0 <= i < |a + b| ==> (a + b)[i] == if i < |a| then a[i] else b[i - |a|];
    if |a| > 0 {
      assert (a + b)[1..] == a[1..] + b;
      match SetPath(root, a[0].0, a[0].1)
      case None =>
      case Some(next) => UnfoldPathsAppend(next, a[1..], b);
    } else {
      assert a + b == b;
    }
  }

  /** Writes below member `a`. */
  function Below(a: string, ws: seq<(seq<string>, Node)>): (r: seq<(seq<string>, Node)>)
    ensures |r| == |ws|
    ensures forall i :: 0 <= i < |r| ==> r[i] == ([a] + ws[i].0, ws[i].1)
  {
    seq(|ws|, i requires 0 <= i < |ws| => ([a] + ws[i].0, ws[i].1))
  }

  lemma {:induction false} AssignTwice<T>(rec: seq<(string, T)>, key: string, x: T, y: T)
    ensures Assign(Assign(rec, key, x), key, y) == Assign(rec, key, y)
    decreases |rec|
  {
    if |rec| > 0 && rec[0].0 != key {
      AssignTwice(rec[1..], key, x, y);
      assert ([rec[0]] + Assign(rec[1..], key, x))[1..] == Assign(rec[1..], key, x);
    } else if |rec| > 0 {
      assert ([(key, x)] + rec[1..])[1..] == rec[1..];
    }
  }

  /** The node the first write below `a` starts from. */
  function Start(t: Node, a: string, first: string): Node
    requires t.ObjN?
  {
    match Get(t, a) case Some(n) => n case None => Fresh(first)
  }

  /** Writes that all go below member `a` of an object act on that member
      alone: it is rebuilt from its old node (or a fresh container) by the
      writes with `a` removed, then stored back. */
  lemma {:induction false} Descend(t: Node, a: string, ws: seq<(seq<string>, Node)>)
    requires t.ObjN? && |ws| >= 1
    requires forall i :: 0 <= i < |ws| ==> |ws[i].0| >= 1
    ensures forall i :: 0 <= i < |Below(a, ws)| ==> |Below(a, ws)[i].0| >= 1
    ensures UnfoldPaths(t, Below(a, ws))
         == match UnfoldPaths(Start(t, a, ws[0].0[0]), ws) case None => None case Some(c) => Some(Put(t, a, c))
    decreases |ws|
  {
    var b := Below(a, ws);
    var start := Start(t, a, ws[0].0[0]);
    assert b[0].0[1..] == ws[0].0 && b[0].0[0] == a && b[0].0[1] == ws[0].0[0];
    match SetPath(start, ws[0].0, ws[0].1)
    case None =>
    case Some(c1) =>
      var t1 := Put(t, a, c1);
      assert SetPath(t, b[0].0, ws[0].1) == Some(t1);
      if |ws| > 1 {
        var rest := ws[1..];
        assert b[1..] == Below(a, rest);
        Descend(t1, a, rest);
        AssignLookup(t.members, a, c1, a);
        assert Start(t1, a, rest[0].0[0]) == c1;
        match UnfoldPaths(c1, rest)
        case None =>
        case Some(c) =>
          AssignTwice(t.members, a, c1, c);
      }
  }

  // ---------------------------------------------------------------------
  // The shape of the leaves of a plain tree

  /** No path occurs twice. */
  predicate DistinctPaths(ls: seq<(seq<Step>, Json)>) {
    forall i, j :: 0 <= i < j < |ls| ==> ls[i].0 != ls[j].0
  }

  /** Every leaf path of a plain tree is made of plain member steps, and
      below the top it is not empty. */
  lemma {:induction false} PlainLeaves(v: Json)
    requires PlainTree(v)
    ensures forall i :: 0 <= i < |Leaves(v)| ==> KeyPath(Leaves(v)[i].0)
    ensures !IsLeaf(v) ==> forall i :: 0 <= i < |Leaves(v)| ==> |Leaves(v)[i].0| >= 1
    decreases v, 1
  {
    if !IsLeaf(v) {
      LeavesMembersShape(v, 0);
    }
  }

  /** The paths listed for members `k..` start with one of their keys. */
  lemma {:induction false} LeavesMembersShape(v: Json, k: nat)
    requires v.Obj? && PlainTree(v) && k <= |v.fields|
    ensures forall i :: 0 <= i < |LeavesMembers(v, k)| ==>
              KeyPath(LeavesMembers(v, k)[i].0) && |LeavesMembers(v, k)[i].0| >= 1
              && LeavesMembers(v, k)[i].0[0].name in KeysOf(v.fields[k..])
    decreases v, 0, |v.fields| - k
  {
    if k < |v.fields| {
      var a := v.fields[k].0;
      var w := v.fields[k].1;
      var here := Under(Key(a), Leaves(w));
      var rest := LeavesMembers(v, k + 1);
      PlainLeaves(w);
      LeavesMembersShape(v, k + 1);
      assert KeysOf(v.fields[k..]) == [a] + KeysOf(v.fields[k + 1..]);
      forall i | 0 <= i < |here|
        ensures KeyPath(here[i].0) && here[i].0[0].name == a
      {
        assert here[i].0 == [Key(a)] + Leaves(w)[i].0;
      }
      assert LeavesMembers(v, k) == here + rest;
    }
  }

  /** Distinct keys in every object give distinct leaf paths. */
  lemma {:induction false} LeavesDistinct(v: Json)
    requires PlainTree(v)
    ensures DistinctPaths(Leaves(v))
    decreases v, 1
  {
    if !IsLeaf(v) {
      LeavesMembersDistinct(v, 0);
    }
  }

  lemma {:induction false} LeavesMembersDistinct(v: Json, k: nat)
    requires v.Obj? && PlainTree(v) && k <= |v.fields|
    ensures DistinctPaths(LeavesMembers(v, k))
    decreases v, 0, |v.fields| - k
  {
    if k < |v.fields| {
      var a := v.fields[k].0;
      var w := v.fields[k].1;
      var here := Under(Key(a), Leaves(w));
      var rest := LeavesMembers(v, k + 1);
      var all := LeavesMembers(v, k);
      assert all == here + rest;
      LeavesDistinct(w);
      LeavesMembersDistinct(v, k + 1);
      LeavesMembersShape(v, k + 1);
      var tail := v.fields[k + 1..];
      assert a !in KeysOf(tail) by {
        forall m | 0 <= m < |tail|
          ensures KeysOf(tail)[m] != a
        {
          assert tail[m] == v.fields[k + 1 + m];
        }
      }
      forall i, j | 0 <= i < j < |all|
        ensures all[i].0 != all[j].0
      {
        if j < |here| {
          assert here[i].0[1..] == Leaves(w)[i].0;
          assert here[j].0[1..] == Leaves(w)[j].0;
        } else if i >= |here| {
          assert all[i] == rest[i - |here|] && all[j] == rest[j - |here|];
        } else {
          assert all[i].0[0] == Key(a);
          assert all[j] == rest[j - |here|];
        }
      }
    }
  }

  // ---------------------------------------------------------------------
  // Path texts of member paths

  lemma JoinHead(a: string, b: string, rest: seq<string>, sep: string)
    ensures Join([a + sep + b] + rest, sep) == a + sep + Join([b] + rest, sep)
  {
    assert ([a + sep + b] + rest)[1..] == rest;
    assert ([b] + rest)[1..] == rest;
  }

  lemma NamesCons(p: seq<Step>)
    requires |p| >= 1 && p[0].Key?
    ensures Names(p) == [p[0].name] + Names(p[1..])
  {
  }

  /** Below a non-empty prefix, a member path is written as its names
      joined by dots. */
  lemma {:induction false} PathTextJoin(prefix: string, p: seq<Step>)
    requires prefix != "" && KeyPath(p)
    ensures PathText(prefix, p) == Join([prefix] + Names(p), ".")
    decreases |p|
  {
    if |p| == 0 {
      assert [prefix] + Names(p) == [prefix];
    } else {
      var n := p[0].name;
      assert KeyPath(p[1..]) by {
        forall i | 0 <= i < |p[1..]|
          ensures p[1..][i].Key? && PlainKey(p[1..][i].name)
        {
          assert p[1..][i] == p[i + 1];
        }
      }
      PathTextJoin(prefix + "." + n, p[1..]);
      NamesCons(p);
      JoinHead(prefix, n, Names(p[1..]), ".");
      assert ([prefix] + Names(p))[1..] == Names(p);
    }
  }

  /** The key `flattenObject` writes for a member path, split on dots, gives
      back the names along the path. */
  lemma SplitKeyText(p: seq<Step>)
    requires KeyPath(p) && |p| >= 1
    ensures Split(PathText("", p), '.') == Names(p)
  {
    var n := p[0].name;
    assert KeyPath(p[1..]) by {
      forall i | 0 <= i < |p[1..]|
        ensures p[1..][i].Key? && PlainKey(p[1..][i].name)
      {
        assert p[1..][i] == p[i + 1];
      }
    }
    assert PathText("", p) == PathText(n, p[1..]);
    PathTextJoin(n, p[1..]);
    NamesCons(p);
    assert forall i :: 0 <= i < |Names(p)| ==> '.' !in Names(p)[i];
    SplitJoin(Names(p), '.');
  }

  /** Member paths are determined by their names. */
  lemma NamesInjective(p: seq<Step>, q: seq<Step>)
    requires KeyPath(p) && KeyPath(q) && Names(p) == Names(q)
    ensures p == q
  {
    assert forall i :: 0 <= i < |p| ==> p[i] == Key(Names(p)[i]);
    assert forall i :: 0 <= i < |q| ==> q[i] == Key(Names(q)[i]);
  }

  /** Distinct member paths are written as distinct keys. */
  lemma RenderedDistinct(ls: seq<(seq<Step>, Json)>)
    requires DistinctPaths(ls)
    requires forall i :: 0 <= i < |ls| ==> KeyPath(ls[i].0) && |ls[i].0| >= 1
    ensures DistinctKeys(Rendered("", ls))
  {
    var r := Rendered("", ls);
    forall i, j | 0 <= i < j < |r|
      ensures r[i].0 != r[j].0
    {
      SplitKeyText(ls[i].0);
      SplitKeyText(ls[j].0);
      if r[i].0 == r[j].0 {
        NamesInjective(ls[i].0, ls[j].0);
      }
    }
  }

  // ---------------------------------------------------------------------
  // Unfolding the flattened leaves

  lemma WritesAppend(a: seq<(seq<Step>, Json)>, b: seq<(seq<Step>, Json)>)
    ensures Writes(a + b) == Writes(a) + Writes(b)
  {
  }

  lemma WritesUnder(a: string, ls: seq<(seq<Step>, Json)>)
    ensures Writes(Under(Key(a), ls)) == Below(a, Writes(ls))
  {
    forall i | 0 <= i < |ls|
      ensures Names([Key(a)] + ls[i].0) == [a] + Names(ls[i].0)
    {
      NamesCons([Key(a)] + ls[i].0);
      assert ([Key(a)] + ls[i].0)[1..] == ls[i].0;
    }
  }

  /** Unfolding the rendered member leaves performs the split writes. */
  lemma {:induction false} UnfoldRendered(root: Node, ls: seq<(seq<Step>, Json)>)
    requires forall i :: 0 <= i < |ls| ==> KeyPath(ls[i].0) && |ls[i].0| >= 1
    ensures forall i :: 0 <= i < |Writes(ls)| ==> |Writes(ls)[i].0| >= 1
    ensures Unfold(root, Rendered("", ls)) == UnfoldPaths(root, Writes(ls))
    decreases |ls|
  {
    if |ls| > 0 {
      SplitKeyText(ls[0].0);
      assert Rendered("", ls)[1..] == Rendered("", ls[1..]);
      assert Writes(ls)[1..] == Writes(ls[1..]);
      match SetPath(root, Names(ls[0].0), FromJson(ls[0].1))
      case None =>
      case Some(next) => UnfoldRendered(next, ls[1..]);
    }
  }

  /** Writing the leaves of member `a` into an object without that key adds
      the member, rebuilt, at the end. */
  lemma {:induction false} MemberWrites(gs: seq<(string, Node)>, a: string, w: Json)
    requires PlainTree(w) && PlainKey(a) && a !in KeysOf(gs)
    ensures forall i :: 0 <= i < |Writes(Under(Key(a), Leaves(w)))| ==> |Writes(Under(Key(a), Leaves(w)))[i].0| >= 1
    ensures UnfoldPaths(ObjN(gs), Writes(Under(Key(a), Leaves(w)))) == Some(ObjN(gs + [(a, FromJson(w))]))
    decreases w, 1
  {
    var x := FromJson(w);
    AssignNew(gs, a, x);
    if IsLeaf(w) {
      assert Leaves(w) == [([], w)];
      assert Under(Key(a), Leaves(w))[0].0 == [Key(a)];
      assert Names([Key(a)]) == [a];
      assert Writes(Under(Key(a), Leaves(w))) == [([a], x)];
    } else {
      var ws := Writes(Leaves(w));
      PlainLeaves(w);
      BuildMembers(w, 0, []);
      assert [] + x.members[0..] == x.members;
      WritesUnder(a, Leaves(w));
      Descend(ObjN(gs), a, ws);
      assert Start(ObjN(gs), a, ws[0].0[0]) == ObjN([]) by {
        assert ws[0].0[0] == Leaves(w)[0].0[0].name;
      }
    }
  }

  lemma ExtendMembers(gs: seq<(string, Node)>, ms: seq<(string, Node)>, k: nat)
    requires k < |ms|
    ensures gs + [ms[k]] + ms[k + 1..] == gs + ms[k..]
  {
    assert ms[k..] == [ms[k]] + ms[k + 1..];
  }

  /** Writing the leaves of members `k..` into an object holding none of
      their keys appends those members, rebuilt, in order. */
  lemma {:induction false} BuildMembers(v: Json, k: nat, gs: seq<(string, Node)>)
    requires v.Obj? && PlainTree(v) && k <= |v.fields|
    requires forall j :: k <= j < |v.fields| ==> v.fields[j].0 !in KeysOf(gs)
    ensures forall i :: 0 <= i < |Writes(LeavesMembers(v, k))| ==> |Writes(LeavesMembers(v, k))[i].0| >= 1
    ensures UnfoldPaths(ObjN(gs), Writes(LeavesMembers(v, k))) == Some(ObjN(gs + FromJson(v).members[k..]))
    decreases v, 0, |v.fields| - k
  {
    var fs := v.fields;
    LeavesMembersShape(v, k);
    if k == |fs| {
      assert gs + FromJson(v).members[k..] == gs;
    } else {
      var a := fs[k].0;
      var w := fs[k].1;
      var x := FromJson(w);
      var here := Under(Key(a), Leaves(w));
      var rest := LeavesMembers(v, k + 1);
      assert LeavesMembers(v, k) == here + rest;
      WritesAppend(here, rest);
      MemberWrites(gs, a, w);
      var next := gs + [(a, x)];
      forall j | k + 1 <= j < |fs|
        ensures fs[j].0 !in KeysOf(next)
      {
        assert KeysOf(next) == KeysOf(gs) + [a];
      }
      BuildMembers(v, k + 1, next);
      UnfoldPathsAppend(ObjN(gs), Writes(here), Writes(rest));
      var ms := FromJson(v).members;
      assert ms[k] == (a, x);
      ExtendMembers(gs, ms, k);
    }
  }

  /** For a non-empty plain object, `unflattenObject` undoes
      `flattenObject`: it rebuilds the very object that was flattened. */
  lemma RoundTrip(v: Json)
    requires v.Obj? && |v.fields| > 0 && PlainTree(v)
    ensures Unflatten(Obj(Flat("", v, []))) == Some(FromJson(v))
    ensures ToJson(Unflatten(Obj(Flat("", v, []))).value) == v
  {
    var ls := Leaves(v);
    assert ls == LeavesMembers(v, 0);
    PlainLeaves(v);
    LeavesDistinct(v);
    RenderedDistinct(ls);
    FlattenedEntries(v);
    UnfoldRendered(ObjN([]), ls);
    BuildMembers(v, 0, []);
    assert [] + FromJson(v).members[0..] == FromJson(v).members;
    ToJsonFromJson(v);
  }
}
