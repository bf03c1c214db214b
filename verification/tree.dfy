/** `utils/treeViewBuilder.ts`: the tree projection of a parsed value and
    the immutable operations on the resulting forest. Node ids come from a
    counter threaded through the build (the source draws random UUIDs; all
    that matters is that they are distinct), and the `parent`
    back-reference is not modelled. */
module TreeView {
  import opened Wrappers
  import opened Chars
  import opened JsonValue
  import opened Types
  import Serializer

  /** `TreeNode`. An absent `children` array is `hasChildren == false`
      with `children == []`. */
  datatype TreeNode = TreeNode(
    id: nat,
    key: string,
    value: Json,
    kind: NodeType,
    depth: nat,
    expanded: bool,
    hasChildren: bool,
    children: seq<TreeNode>,
    path: seq<string>,
    size: Option<nat>)

  /** `getValueType`. */
  function ValueType(v: Json): (t: NodeType)
    ensures t == ObjectNode || t == ArrayNode <==> IsComposite(v)
    ensures t == StringNode <==> v.Str?
  {
    match v
    case Null => NullNode
    case Arr(_) => ArrayNode
    case Str(_) => StringNode
    case Num(_) => NumberNode
    case Bool(_) => BooleanNode
    case Obj(_) => ObjectNode
  }

  /** The key of the `i`-th element of an array: `[i]`. */
  function ArrayKey(i: nat): string {
    "[" + NatToString(i) + "]"
  }

  /** The number of elements or members of a container. */
  function Length(v: Json): nat
    requires IsComposite(v)
  {
    if v.Arr? then |v.items| else |v.fields|
  }

  /** The (key, child) pairs a container contributes, in order. */
  function Entries(v: Json): (es: seq<(string, Json)>)
    requires IsComposite(v)
    ensures |es| == Length(v)
  {
    if v.Arr? then seq(|v.items|, i requires 0 <= i < |v.items| => (ArrayKey(i), v.items[i]))
    else v.fields
  }

  // ---------------------------------------------------------------------
  // buildTreeView

  /** A node for a scalar (or for a value shown without children) at
      `path`. */
  function Leaf(id: nat, key: string, v: Json, path: seq<string>): TreeNode {
    TreeNode(id, key, v, ValueType(v), |path|, true, false, [], path, None)
  }

  /** `buildTreeView(v, path)` with ids drawn from `next` upwards; also
      returns the first unused id. A container yields one node per entry,
      a scalar a single node with an empty key. */
  function Build(v: Json, path: seq<string>, next: nat): (r: (seq<TreeNode>, nat))
    ensures r.1 >= next
    decreases v, 2
  {
    match v
    case Arr(_) => BuildItems(v, path, 0, next)
    case Obj(_) => BuildFields(v, path, 0, next)
    case _ => ([Leaf(next, "", v, path)], next + 1)
  }

  /** The node for the entry `key` of a container at `path`: a container
      child starts collapsed and holds its own tree, a scalar child is an
      expanded leaf. */
  function Child(key: string, child: Json, path: seq<string>, next: nat): (r: (TreeNode, nat))
    ensures r.1 > next
    decreases child, 3
  {
    var p := path + [key];
    if IsComposite(child) then
      var (cs, after) := Build(child, p, next + 1);
      (TreeNode(next, key, child, ValueType(child), |p|, false, true, cs, p, Some(Length(child))), after)
    else (Leaf(next, key, child, p), next + 1)
  }

  function BuildItems(v: Json, path: seq<string>, k: nat, next: nat): (r: (seq<TreeNode>, nat))
    requires v.Arr? && k <= |v.items|
    ensures r.1 >= next && |r.0| == |v.items| - k
    decreases v, 1, |v.items| - k
  {
    if k == |v.items| then ([], next)
    else
      var (n, mid) := Child(ArrayKey(k), v.items[k], path, next);
      var (rest, after) := BuildItems(v, path, k + 1, mid);
      ([n] + rest, after)
  }

  function BuildFields(v: Json, path: seq<string>, k: nat, next: nat): (r: (seq<TreeNode>, nat))
    requires v.Obj? && k <= |v.fields|
    ensures r.1 >= next && |r.0| == |v.fields| - k
    decreases v, 1, |v.fields| - k
  {
    if k == |v.fields| then ([], next)
    else
      var (n, mid) := Child(v.fields[k].0, v.fields[k].1, path, next);
      var (rest, after) := BuildFields(v, path, k + 1, mid);
      ([n] + rest, after)
  }

  /** The node `n` shows the entry `key`/`val` of a container at `path`. */
  predicate Describes(n: TreeNode, key: string, val: Json, path: seq<string>) {
    && n.key == key && n.value == val && n.kind == ValueType(val)
    && n.path == path + [key] && n.depth == |path| + 1
    && (n.expanded <==> !IsComposite(val))
    && (n.hasChildren <==> IsComposite(val))
    && (IsComposite(val) ==> n.size == Some(Length(val)) && n.children == Build(val, n.path, n.id + 1).0)
    && (!IsComposite(val) ==> n.size == None && n.children == [])
  }

  /** Every node describes the entry at the same index. */
  predicate DescribesAll(ns: seq<TreeNode>, es: seq<(string, Json)>, path: seq<string>) {
    |ns| == |es| && forall i :: 0 <= i < |ns| ==> Describes(ns[i], es[i].0, es[i].1, path)
  }

  lemma ChildDescribes(key: string, child: Json, path: seq<string>, next: nat)
    ensures Describes(Child(key, child, path, next).0, key, child, path)
    ensures Child(key, child, path, next).0.id == next
  {
  }

  lemma DescribesCons(n: TreeNode, ns: seq<TreeNode>, e: (string, Json), es: seq<(string, Json)>, path: seq<string>)
    requires Describes(n, e.0, e.1, path) && DescribesAll(ns, es, path)
    ensures DescribesAll([n] + ns, [e] + es, path)
  {
  }

  lemma {:induction false} BuildItemsDescribe(v: Json, path: seq<string>, k: nat, next: nat)
    requires v.Arr? && k <= |v.items|
    ensures DescribesAll(BuildItems(v, path, k, next).0, Entries(v)[k..], path)
    decreases |v.items| - k
  {
    if k < |v.items| {
      var (n, mid) := Child(ArrayKey(k), v.items[k], path, next);
      ChildDescribes(ArrayKey(k), v.items[k], path, next);
      BuildItemsDescribe(v, path, k + 1, mid);
      assert Entries(v)[k..] == [Entries(v)[k]] + Entries(v)[k + 1..];
      DescribesCons(n, BuildItems(v, path, k + 1, mid).0, Entries(v)[k], Entries(v)[k + 1..], path);
    }
  }

  lemma {:induction false} BuildFieldsDescribe(v: Json, path: seq<string>, k: nat, next: nat)
    requires v.Obj? && k <= |v.fields|
    ensures DescribesAll(BuildFields(v, path, k, next).0, Entries(v)[k..], path)
    decreases |v.fields| - k
  {
    if k < |v.fields| {
      var (n, mid) := Child(v.fields[k].0, v.fields[k].1, path, next);
      ChildDescribes(v.fields[k].0, v.fields[k].1, path, next);
      BuildFieldsDescribe(v, path, k + 1, mid);
      assert Entries(v)[k..] == [Entries(v)[k]] + Entries(v)[k + 1..];
      DescribesCons(n, BuildFields(v, path, k + 1, mid).0, Entries(v)[k], Entries(v)[k + 1..], path);
    }
  }

  /** A container yields one node per element or member, in order: array
      keys are `[i]`, each node's path extends `path` by its key and its
      depth is one more than `|path|`; a container child starts collapsed
      with its size and its own tree, a scalar child is an expanded leaf.
      An empty container yields no node, and a scalar yields one expanded
      node with an empty key at `path`. */
  lemma BuildShape(v: Json, path: seq<string>, next: nat)
    ensures IsComposite(v) ==> DescribesAll(Build(v, path, next).0, Entries(v), path)
    ensures IsComposite(v) && Length(v) == 0 ==> Build(v, path, next).0 == []
    ensures !IsComposite(v) ==> |Build(v, path, next).0| == 1
    ensures !IsComposite(v) ==> var n := Build(v, path, next).0[0];
      n.key == "" && n.value == v && n.path == path && n.depth == |path| && n.expanded && !n.hasChildren
  {
    if v.Arr? {
      BuildItemsDescribe(v, path, 0, next);
    } else if v.Obj? {
      BuildFieldsDescribe(v, path, 0, next);
    }
  }

  // ---------------------------------------------------------------------
  // The whole forest in preorder, and the ids of a build

  /** Every node of the forest in preorder, collapsed or not: the
      reference the traversals below are compared with. */
  function All(ns: seq<TreeNode>): seq<TreeNode> {
    if ns == [] then [] else AllOf(ns[0]) + All(ns[1..])
  }

  function AllOf(n: TreeNode): seq<TreeNode> {
    [n] + (if n.hasChildren then All(n.children) else [])
  }

  lemma AllCons(n: TreeNode, ns: seq<TreeNode>)
    ensures All([n] + ns) == AllOf(n) + All(ns)
  {
    assert ([n] + ns)[0] == n && ([n] + ns)[1..] == ns;
  }

  function Ids(xs: seq<TreeNode>): (r: seq<nat>)
    ensures |r| == |xs|
  {
    seq(|xs|, i requires 0 <= i < |xs| => xs[i].id)
  }

  /** The ids `a`, `a + 1`, ..., `b - 1`. */
  function Range(a: nat, b: nat): (r: seq<nat>)
    requires a <= b
    ensures |r| == b - a
  {
    seq(b - a, i requires 0 <= i < b - a => a + i)
  }

  lemma IdsAppend(a: seq<TreeNode>, b: seq<TreeNode>)
    ensures Ids(a + b) == Ids(a) + Ids(b)
  {
  }

  lemma RangeAppend(a: nat, b: nat, c: nat)
    requires a <= b <= c
    ensures Range(a, b) + Range(b, c) == Range(a, c)
  {
  }

  lemma {:induction false} BuildIds(v: Json, path: seq<string>, next: nat)
    ensures Ids(All(Build(v, path, next).0)) == Range(next, Build(v, path, next).1)
    decreases v, 2
  {
    match v
    case Arr(_) => BuildItemsIds(v, path, 0, next);
    case Obj(_) => BuildFieldsIds(v, path, 0, next);
    case _ =>
      var n := Leaf(next, "", v, path);
      AllCons(n, []);
      assert Ids(All([n])) == [next];
  }

  lemma {:induction false} ChildIds(key: string, child: Json, path: seq<string>, next: nat)
    ensures Ids(AllOf(Child(key, child, path, next).0)) == Range(next, Child(key, child, path, next).1)
    decreases child, 3
  {
    var p := path + [key];
    var (n, after) := Child(key, child, path, next);
    if IsComposite(child) {
      BuildIds(child, p, next + 1);
      IdsAppend([n], All(n.children));
      RangeAppend(next, next + 1, after);
    }
  }

  lemma {:induction false} BuildItemsIds(v: Json, path: seq<string>, k: nat, next: nat)
    requires v.Arr? && k <= |v.items|
    ensures Ids(All(BuildItems(v, path, k, next).0)) == Range(next, BuildItems(v, path, k, next).1)
    decreases v, 1, |v.items| - k
  {
    if k < |v.items| {
      var (n, mid) := Child(ArrayKey(k), v.items[k], path, next);
      var (rest, after) := BuildItems(v, path, k + 1, mid);
      ChildIds(ArrayKey(k), v.items[k], path, next);
      BuildItemsIds(v, path, k + 1, mid);
      AllCons(n, rest);
      IdsAppend(AllOf(n), All(rest));
      RangeAppend(next, mid, after);
    }
  }

  lemma {:induction false} BuildFieldsIds(v: Json, path: seq<string>, k: nat, next: nat)
    requires v.Obj? && k <= |v.fields|
    ensures Ids(All(BuildFields(v, path, k, next).0)) == Range(next, BuildFields(v, path, k, next).1)
    decreases v, 1, |v.fields| - k
  {
    if k < |v.fields| {
      var (n, mid) := Child(v.fields[k].0, v.fields[k].1, path, next);
      var (rest, after) := BuildFields(v, path, k + 1, mid);
      ChildIds(v.fields[k].0, v.fields[k].1, path, next);
      BuildFieldsIds(v, path, k + 1, mid);
      AllCons(n, rest);
      IdsAppend(AllOf(n), All(rest));
      RangeAppend(next, mid, after);
    }
  }

  /** No two ids in a sequence are the same. */
  predicate DistinctIds(xs: seq<TreeNode>) {
    forall i, j :: 0 <= i < j < |xs| ==> xs[i].id != xs[j].id
  }

  /** The nodes of a build, in preorder, carry the consecutive ids the
      counter handed out, so no two nodes share an id. */
  lemma BuildDistinct(v: Json, path: seq<string>, next: nat)
    ensures DistinctIds(All(Build(v, path, next).0))
    ensures |All(Build(v, path, next).0)| == Build(v, path, next).1 - next
  {
    var xs := All(Build(v, path, next).0);
    BuildIds(v, path, next);
    assert forall i :: 0 <= i < |xs| ==> xs[i].id == Ids(xs)[i] == next + i;
  }

  // ---------------------------------------------------------------------
  // countNodes

  /** `countNodes`: the nodes of this level plus, for each node that has
      a children array, the count below it. */
  function CountNodes(ns: seq<TreeNode>): nat
    decreases ns, 1
  {
    |ns| + ChildCounts(ns)
  }

  function ChildCounts(ns: seq<TreeNode>): nat
    decreases ns, 0
  {
    if ns == [] then 0 else CountBelow(ns[0]) + ChildCounts(ns[1..])
  }

  function CountBelow(n: TreeNode): nat
    decreases n, 2
  {
    if n.hasChildren then CountNodes(n.children) else 0
  }

  /** `countNodes` counts every node of the forest once. */
  lemma {:induction false} CountNodesAll(ns: seq<TreeNode>)
    ensures CountNodes(ns) == |All(ns)|
    decreases ns, 1
  {
    ChildCountsAll(ns);
  }

  lemma {:induction false} ChildCountsAll(ns: seq<TreeNode>)
    ensures |ns| + ChildCounts(ns) == |All(ns)|
    decreases ns, 0
  {
    if ns != [] {
      CountBelowAll(ns[0]);
      ChildCountsAll(ns[1..]);
    }
  }

  lemma {:induction false} CountBelowAll(n: TreeNode)
    ensures 1 + CountBelow(n) == |AllOf(n)|
    decreases n, 2
  {
    if n.hasChildren {
      CountNodesAll(n.children);
    }
  }

  // ---------------------------------------------------------------------
  // flattenTreeView

  /** `flattenTreeView`: preorder, descending only into expanded nodes. */
  function Flatten(ns: seq<TreeNode>): seq<TreeNode> {
    if ns == [] then [] else FlattenOf(ns[0]) + Flatten(ns[1..])
  }

  function FlattenOf(n: TreeNode): seq<TreeNode> {
    [n] + (if n.expanded && n.hasChildren then Flatten(n.children) else [])
  }

  /** A forest none of whose top nodes shows children flattens to itself. */
  lemma {:induction false} FlattenShallow(ns: seq<TreeNode>)
    requires forall i :: 0 <= i < |ns| ==> !(ns[i].expanded && ns[i].hasChildren)
    ensures Flatten(ns) == ns
    decreases |ns|
  {
    if ns != [] {
      FlattenShallow(ns[1..]);
      assert ns == [ns[0]] + ns[1..];
    }
  }

  // ---------------------------------------------------------------------
  // expandAll / collapseAll

  /** Every node, at every depth, gets `expanded == flag`; children arrays
      stay present or absent as they were. */
  function SetExpanded(ns: seq<TreeNode>, flag: bool): (r: seq<TreeNode>)
    ensures |r| == |ns|
  {
    if ns == [] then [] else [SetOf(ns[0], flag)] + SetExpanded(ns[1..], flag)
  }

  function SetOf(n: TreeNode, flag: bool): TreeNode {
    n.(expanded := flag, children := if n.hasChildren then SetExpanded(n.children, flag) else n.children)
  }

  /** `expandAll`. */
  function ExpandAll(ns: seq<TreeNode>): seq<TreeNode> {
    SetExpanded(ns, true)
  }

  /** `collapseAll`. */
  function CollapseAll(ns: seq<TreeNode>): seq<TreeNode> {
    SetExpanded(ns, false)
  }

  /** Setting the flags twice is setting them once to the second value:
      both operations are idempotent and each undoes the other. */
  lemma {:induction false} SetExpandedTwice(ns: seq<TreeNode>, f: bool, g: bool)
    ensures SetExpanded(SetExpanded(ns, f), g) == SetExpanded(ns, g)
    decreases ns, 1
  {
    if ns != [] {
      SetOfTwice(ns[0], f, g);
      SetExpandedTwice(ns[1..], f, g);
      assert SetExpanded(ns, f)[1..] == SetExpanded(ns[1..], f);
    }
  }

  lemma {:induction false} SetOfTwice(n: TreeNode, f: bool, g: bool)
    ensures SetOf(SetOf(n, f), g) == SetOf(n, g)
    decreases n, 0
  {
    if n.hasChildren {
      SetExpandedTwice(n.children, f, g);
    }
  }

  /** Every node of the sequence has `expanded == flag`. */
  predicate AllFlagged(xs: seq<TreeNode>, flag: bool) {
    forall i :: 0 <= i < |xs| ==> xs[i].expanded == flag
  }

  /** Setting the flags keeps the forest's ids in preorder (so its shape
      and `countNodes`) and reaches every node. */
  lemma {:induction false} SetExpandedShape(ns: seq<TreeNode>, flag: bool)
    ensures Ids(All(SetExpanded(ns, flag))) == Ids(All(ns))
    ensures AllFlagged(All(SetExpanded(ns, flag)), flag)
    decreases ns, 1
  {
    if ns != [] {
      var r := SetExpanded(ns, flag);
      SetOfShape(ns[0], flag);
      SetExpandedShape(ns[1..], flag);
      AllCons(r[0], r[1..]);
      assert r == [r[0]] + r[1..];
      IdsAppend(AllOf(r[0]), All(r[1..]));
      IdsAppend(AllOf(ns[0]), All(ns[1..]));
    }
  }

  lemma {:induction false} SetOfShape(n: TreeNode, flag: bool)
    ensures Ids(AllOf(SetOf(n, flag))) == Ids(AllOf(n))
    ensures AllFlagged(AllOf(SetOf(n, flag)), flag)
    decreases n, 0
  {
    var m := SetOf(n, flag);
    if n.hasChildren {
      SetExpandedShape(n.children, flag);
      IdsAppend([m], All(m.children));
      IdsAppend([n], All(n.children));
    }
  }

  /** Both operations keep `countNodes`. */
  lemma SetExpandedCount(ns: seq<TreeNode>, flag: bool)
    ensures CountNodes(SetExpanded(ns, flag)) == CountNodes(ns)
  {
    SetExpandedShape(ns, flag);
    CountNodesAll(ns);
    CountNodesAll(SetExpanded(ns, flag));
  }

  /** After `collapseAll` the visible list is the top level. */
  lemma FlattenCollapsed(ns: seq<TreeNode>)
    ensures Flatten(CollapseAll(ns)) == CollapseAll(ns)
  {
    var r := CollapseAll(ns);
    forall i | 0 <= i < |r|
      ensures !r[i].expanded
    {
      SetExpandedShape(ns, false);
      SetExpandedTop(ns, false, i);
    }
    FlattenShallow(r);
  }

  lemma {:induction false} SetExpandedTop(ns: seq<TreeNode>, flag: bool, i: nat)
    requires i < |ns|
    ensures SetExpanded(ns, flag)[i] == SetOf(ns[i], flag)
    decreases |ns|
  {
    if i > 0 {
      SetExpandedTop(ns[1..], flag, i - 1);
    }
  }

  /** After `expandAll` the visible list is the whole forest, so its
      length is `countNodes`. */
  lemma {:induction false} FlattenExpanded(ns: seq<TreeNode>)
    ensures Flatten(ExpandAll(ns)) == All(ExpandAll(ns))
    ensures |Flatten(ExpandAll(ns))| == CountNodes(ns)
    decreases ns, 1
  {
    FlattenAllExpanded(ns);
    SetExpandedCount(ns, true);
    CountNodesAll(ExpandAll(ns));
  }

  lemma {:induction false} FlattenAllExpanded(ns: seq<TreeNode>)
    ensures Flatten(SetExpanded(ns, true)) == All(SetExpanded(ns, true))
    decreases ns, 1
  {
    if ns != [] {
      var r := SetExpanded(ns, true);
      FlattenOfExpanded(ns[0]);
      FlattenAllExpanded(ns[1..]);
      assert r[0] == SetOf(ns[0], true) && r[1..] == SetExpanded(ns[1..], true);
    }
  }

  lemma {:induction false} FlattenOfExpanded(n: TreeNode)
    ensures FlattenOf(SetOf(n, true)) == AllOf(SetOf(n, true))
    decreases n, 0
  {
    if n.hasChildren {
      FlattenAllExpanded(n.children);
    }
  }

  // ---------------------------------------------------------------------
  // toggleNode

  /** `toggleNode`: a node with the id flips its flag (and is not looked
      into); any other node with a children array is looked into. */
  function Toggle(ns: seq<TreeNode>, id: nat): (r: seq<TreeNode>)
    ensures |r| == |ns|
  {
    if ns == [] then [] else [ToggleOf(ns[0], id)] + Toggle(ns[1..], id)
  }

  function ToggleOf(n: TreeNode, id: nat): TreeNode {
    if n.id == id then n.(expanded := !n.expanded)
    else if n.hasChildren then n.(children := Toggle(n.children, id))
    else n
  }

  /** Toggling the same id twice restores the forest. */
  lemma {:induction false} ToggleTwice(ns: seq<TreeNode>, id: nat)
    ensures Toggle(Toggle(ns, id), id) == ns
    decreases ns, 1
  {
    if ns != [] {
      ToggleOfTwice(ns[0], id);
      ToggleTwice(ns[1..], id);
      assert Toggle(ns, id)[1..] == Toggle(ns[1..], id);
    }
  }

  lemma {:induction false} ToggleOfTwice(n: TreeNode, id: nat)
    ensures ToggleOf(ToggleOf(n, id), id) == n
    decreases n, 0
  {
    if n.id != id && n.hasChildren {
      ToggleTwice(n.children, id);
    }
  }

  /** `b` is `a` with exactly the nodes carrying `id` flipped: the same
      ids, keys and values at the same preorder positions. */
  predicate FlipsAt(a: seq<TreeNode>, b: seq<TreeNode>, id: nat) {
    && |a| == |b|
    && forall i :: 0 <= i < |a| ==>
      && b[i].id == a[i].id && b[i].key == a[i].key && b[i].value == a[i].value
      && (b[i].expanded <==> (a[i].expanded != (a[i].id == id)))
  }

  lemma FlipsAtAppend(a: seq<TreeNode>, b: seq<TreeNode>, c: seq<TreeNode>, d: seq<TreeNode>, id: nat)
    requires FlipsAt(a, b, id) && FlipsAt(c, d, id)
    ensures FlipsAt(a + c, b + d, id)
  {
  }

  /** The id does not occur anywhere in the forest. */
  predicate Absent(xs: seq<TreeNode>, id: nat) {
    forall i :: 0 <= i < |xs| ==> xs[i].id != id
  }

  /** Toggling an id the forest does not hold changes nothing. */
  lemma {:induction false} ToggleAbsent(ns: seq<TreeNode>, id: nat)
    requires Absent(All(ns), id)
    ensures Toggle(ns, id) == ns
    decreases ns, 1
  {
    if ns != [] {
      AbsentSplit(AllOf(ns[0]), All(ns[1..]), id);
      ToggleOfAbsent(ns[0], id);
      ToggleAbsent(ns[1..], id);
      assert ns == [ns[0]] + ns[1..];
    }
  }

  lemma {:induction false} ToggleOfAbsent(n: TreeNode, id: nat)
    requires Absent(AllOf(n), id)
    ensures ToggleOf(n, id) == n
    decreases n, 0
  {
    assert AllOf(n)[0] == n;
    if n.hasChildren {
      AbsentSplit([n], All(n.children), id);
      ToggleAbsent(n.children, id);
    }
  }

  /** On a forest whose ids are distinct (every built forest), toggling
      flips exactly the node with the id, wherever it is, and keeps every
      node in its preorder position. */
  lemma {:induction false} ToggleFlips(ns: seq<TreeNode>, id: nat)
    requires DistinctIds(All(ns))
    ensures FlipsAt(All(ns), All(Toggle(ns, id)), id)
    decreases ns, 1
  {
    if ns != [] {
      var r := Toggle(ns, id);
      assert All(ns) == AllOf(ns[0]) + All(ns[1..]);
      DistinctSplit(AllOf(ns[0]), All(ns[1..]));
      ToggleOfFlips(ns[0], id);
      ToggleFlips(ns[1..], id);
      assert r == [r[0]] + r[1..];
      AllCons(r[0], r[1..]);
      FlipsAtAppend(AllOf(ns[0]), AllOf(r[0]), All(ns[1..]), All(r[1..]), id);
    }
  }

  lemma {:induction false} ToggleOfFlips(n: TreeNode, id: nat)
    requires DistinctIds(AllOf(n))
    ensures FlipsAt(AllOf(n), AllOf(ToggleOf(n, id)), id)
    decreases n, 0
  {
    var m := ToggleOf(n, id);
    if n.hasChildren {
      DistinctSplit([n], All(n.children));
      if n.id == id {
        assert Absent(All(n.children), id) by {
          forall i | 0 <= i < |All(n.children)|
            ensures All(n.children)[i].id != id
          {
            assert AllOf(n)[0] == n && AllOf(n)[i + 1] == All(n.children)[i];
          }
        }
        FlipsAtSame(All(n.children), id);
      } else {
        ToggleFlips(n.children, id);
      }
      FlipsAtAppend([n], [m], All(n.children), All(m.children), id);
    }
  }

  lemma FlipsAtSame(xs: seq<TreeNode>, id: nat)
    requires Absent(xs, id)
    ensures FlipsAt(xs, xs, id)
  {
    forall i | 0 <= i < |xs|
      ensures xs[i].expanded <==> (xs[i].expanded != (xs[i].id == id))
    {
      assert xs[i].id != id;
    }
  }

  lemma AbsentSplit(a: seq<TreeNode>, b: seq<TreeNode>, id: nat)
    requires Absent(a + b, id)
    ensures Absent(a, id) && Absent(b, id)
  {
    forall i | 0 <= i < |a|
      ensures a[i].id != id
    {
      assert (a + b)[i] == a[i];
    }
    forall i | 0 <= i < |b|
      ensures b[i].id != id
    {
      assert (a + b)[|a| + i] == b[i];
    }
  }

  lemma DistinctSplit(a: seq<TreeNode>, b: seq<TreeNode>)
    requires DistinctIds(a + b)
    ensures DistinctIds(a) && DistinctIds(b)
  {
    forall i, j | 0 <= i < j < |a|
      ensures a[i].id != a[j].id
    {
      assert (a + b)[i] == a[i] && (a + b)[j] == a[j];
    }
    forall i, j | 0 <= i < j < |b|
      ensures b[i].id != b[j].id
    {
      assert (a + b)[|a| + i] == b[i] && (a + b)[|a| + j] == b[j];
    }
  }

  /** Toggling keeps the preorder ids, so the shape and `countNodes`. */
  lemma {:induction false} ToggleShape(ns: seq<TreeNode>, id: nat)
    ensures Ids(All(Toggle(ns, id))) == Ids(All(ns))
    ensures CountNodes(Toggle(ns, id)) == CountNodes(ns)
    decreases ns, 1
  {
    ToggleIds(ns, id);
    CountNodesAll(ns);
    CountNodesAll(Toggle(ns, id));
  }

  lemma {:induction false} ToggleIds(ns: seq<TreeNode>, id: nat)
    ensures Ids(All(Toggle(ns, id))) == Ids(All(ns))
    decreases ns, 1
  {
    if ns != [] {
      var r := Toggle(ns, id);
      ToggleOfIds(ns[0], id);
      ToggleIds(ns[1..], id);
      assert r == [r[0]] + r[1..];
      AllCons(r[0], r[1..]);
      IdsAppend(AllOf(r[0]), All(r[1..]));
      IdsAppend(AllOf(ns[0]), All(ns[1..]));
    }
  }

  lemma {:induction false} ToggleOfIds(n: TreeNode, id: nat)
    ensures Ids(AllOf(ToggleOf(n, id))) == Ids(AllOf(n))
    decreases n, 0
  {
    var m := ToggleOf(n, id);
    if n.hasChildren {
      if n.id != id {
        ToggleIds(n.children, id);
      }
      IdsAppend([m], All(m.children));
      IdsAppend([n], All(n.children));
    }
  }

  // ---------------------------------------------------------------------
  // findNodeById

  /** `findNodeById`: depth first, a node before its children, children
      before later siblings. */
  function FindById(ns: seq<TreeNode>, id: nat): Option<TreeNode> {
    if ns == [] then None
    else if ns[0].id == id then Some(ns[0])
    else
      var below := FindBelow(ns[0], id);
      if below.Some? then below else FindById(ns[1..], id)
  }

  function FindBelow(n: TreeNode, id: nat): Option<TreeNode> {
    if n.hasChildren then FindById(n.children, id) else None
  }

  /** The first node with the id in a sequence: the reference search. */
  function First(xs: seq<TreeNode>, id: nat): (r: Option<TreeNode>)
    ensures r.Some? <==> exists i :: 0 <= i < |xs| && xs[i].id == id
    ensures r.Some? ==> r.value.id == id && r.value in xs
  {
    if xs == [] then None
    else if xs[0].id == id then Some(xs[0])
    else
      var r := First(xs[1..], id);
      assert forall i :: 1 <= i < |xs| ==> xs[i] == xs[1..][i - 1];
      r
  }

  lemma {:induction false} FirstAppend(a: seq<TreeNode>, b: seq<TreeNode>, id: nat)
    ensures First(a + b, id) == if First(a, id).Some? then First(a, id) else First(b, id)
    decreases |a|
  {
    if a != [] {
      assert (a + b)[0] == a[0] && (a + b)[1..] == a[1..] + b;
      FirstAppend(a[1..], b, id);
    } else {
      assert a + b == b;
    }
  }

  /** `findNodeById` returns the first node in preorder with the id, and
      finds one exactly when the forest holds the id. */
  lemma {:induction false} FindByIdFirst(ns: seq<TreeNode>, id: nat)
    ensures FindById(ns, id) == First(All(ns), id)
    decreases ns, 1
  {
    if ns != [] {
      FindBelowFirst(ns[0], id);
      FindByIdFirst(ns[1..], id);
      FirstAppend(AllOf(ns[0]), All(ns[1..]), id);
    }
  }

  lemma {:induction false} FindBelowFirst(n: TreeNode, id: nat)
    ensures First(AllOf(n), id) == if n.id == id then Some(n) else FindBelow(n, id)
    decreases n, 0
  {
    FirstAppend([n], if n.hasChildren then All(n.children) else [], id);
    if n.hasChildren {
      FindByIdFirst(n.children, id);
    }
  }

  /** `getNodeDepth`: the depth of the node the search finds, 0 when
      there is none: the first node with the id in preorder. */
  function NodeDepth(ns: seq<TreeNode>, id: nat): (r: nat)
    ensures (forall n :: n in All(ns) ==> n.id != id) ==> r == 0
    ensures First(All(ns), id).Some? ==> r == First(All(ns), id).value.depth
  {
    FindByIdFirst(ns, id);
    var n := FindById(ns, id);
    if n.Some? then n.value.depth else 0
  }

  /** `getNodePathString`: "(root)" for the empty path, otherwise the
      segments joined with an arrow; every segment shows. */
  function PathString(n: TreeNode): (r: string)
    ensures |n.path| == 0 ==> r == "(root)"
    ensures |n.path| == 1 ==> r == n.path[0]
    ensures forall k :: 0 <= k < |n.path| ==> Contains(r, n.path[k])
  {
    if |n.path| == 0 then "(root)"
    else
      var r := Join(n.path, " → ");
      assert forall k :: 0 <= k < |n.path| ==> Contains(r, n.path[k]) by {
        forall k | 0 <= k < |n.path|
          ensures Contains(r, n.path[k])
        {
          JoinContains(n.path, " → ", k);
        }
      }
      r
  }

  // ---------------------------------------------------------------------
  // getMaxDepth

  function Max(a: nat, b: nat): nat {
    if a >= b then a else b
  }

  /** `getMaxDepth`: the loop's running maximum starts at 0, takes each
      node's depth and then the maximum below it. */
  function MaxDepth(ns: seq<TreeNode>): nat
    decreases ns, 2
  {
    MaxDepthLoop(ns, 0)
  }

  function MaxDepthLoop(ns: seq<TreeNode>, acc: nat): nat
    decreases ns, 1
  {
    if ns == [] then acc else MaxDepthLoop(ns[1..], MaxDepthStep(ns[0], acc))
  }

  function MaxDepthStep(n: TreeNode, acc: nat): nat
    decreases n, 0
  {
    Max(Max(acc, n.depth), if n.hasChildren then MaxDepth(n.children) else 0)
  }

  /** The largest depth in a sequence, 0 when it is empty. */
  function DepthsMax(xs: seq<TreeNode>): (r: nat)
    ensures forall i :: 0 <= i < |xs| ==> xs[i].depth <= r
    ensures r == 0 || exists i :: 0 <= i < |xs| && xs[i].depth == r
  {
    if xs == [] then 0
    else
      var r := DepthsMax(xs[1..]);
      assert forall i :: 1 <= i < |xs| ==> xs[i] == xs[1..][i - 1];
      Max(xs[0].depth, r)
  }

  lemma {:induction false} DepthsMaxAppend(a: seq<TreeNode>, b: seq<TreeNode>)
    ensures DepthsMax(a + b) == Max(DepthsMax(a), DepthsMax(b))
    decreases |a|
  {
    if a != [] {
      assert (a + b)[0] == a[0] && (a + b)[1..] == a[1..] + b;
      DepthsMaxAppend(a[1..], b);
    } else {
      assert a + b == b;
    }
  }

  /** `getMaxDepth` is the largest depth of any node of the forest, 0 for
      an empty forest. */
  lemma {:induction false} MaxDepthAll(ns: seq<TreeNode>)
    ensures MaxDepth(ns) == DepthsMax(All(ns))
    decreases ns, 2
  {
    MaxDepthLoopAll(ns, 0);
  }

  lemma {:induction false} MaxDepthLoopAll(ns: seq<TreeNode>, acc: nat)
    ensures MaxDepthLoop(ns, acc) == Max(acc, DepthsMax(All(ns)))
    decreases ns, 1
  {
    if ns != [] {
      MaxDepthStepAll(ns[0], acc);
      MaxDepthLoopAll(ns[1..], MaxDepthStep(ns[0], acc));
      DepthsMaxAppend(AllOf(ns[0]), All(ns[1..]));
    }
  }

  lemma {:induction false} MaxDepthStepAll(n: TreeNode, acc: nat)
    ensures MaxDepthStep(n, acc) == Max(acc, DepthsMax(AllOf(n)))
    decreases n, 0
  {
    DepthsMaxAppend([n], if n.hasChildren then All(n.children) else []);
    if n.hasChildren {
      MaxDepthAll(n.children);
    }
  }

  // ---------------------------------------------------------------------
  // searchNodes

  /** A node matches the lower-cased term when its lower-cased key, or
      its string value lower-cased, contains the term. */
  predicate Matches(n: TreeNode, term: string) {
    Contains(LowerStr(n.key), term) || (n.value.Str? && Contains(LowerStr(n.value.s), term))
  }

  /** `searchNodes`: every node, collapsed or not, is visited in
      preorder. */
  function SearchNodes(ns: seq<TreeNode>, searchTerm: string): seq<TreeNode> {
    SearchList(ns, LowerStr(searchTerm))
  }

  function SearchList(ns: seq<TreeNode>, term: string): seq<TreeNode> {
    if ns == [] then [] else SearchOf(ns[0], term) + SearchList(ns[1..], term)
  }

  function SearchOf(n: TreeNode, term: string): seq<TreeNode> {
    (if Matches(n, term) then [n] else []) + (if n.hasChildren then SearchList(n.children, term) else [])
  }

  /** The matching nodes of a sequence, in order. */
  function Filter(xs: seq<TreeNode>, term: string): seq<TreeNode> {
    if xs == [] then [] else (if Matches(xs[0], term) then [xs[0]] else []) + Filter(xs[1..], term)
  }

  lemma {:induction false} FilterAppend(a: seq<TreeNode>, b: seq<TreeNode>, term: string)
    ensures Filter(a + b, term) == Filter(a, term) + Filter(b, term)
    decreases |a|
  {
    if a != [] {
      assert (a + b)[0] == a[0] && (a + b)[1..] == a[1..] + b;
      FilterAppend(a[1..], b, term);
    } else {
      assert a + b == b;
    }
  }

  /** `searchNodes` returns the matching nodes of the whole forest in
      preorder. */
  lemma {:induction false} SearchAll(ns: seq<TreeNode>, term: string)
    ensures SearchList(ns, term) == Filter(All(ns), term)
    decreases ns, 1
  {
    if ns != [] {
      SearchOfAll(ns[0], term);
      SearchAll(ns[1..], term);
      FilterAppend(AllOf(ns[0]), All(ns[1..]), term);
    }
  }

  lemma {:induction false} SearchOfAll(n: TreeNode, term: string)
    ensures SearchOf(n, term) == Filter(AllOf(n), term)
    decreases n, 0
  {
    var below := if n.hasChildren then All(n.children) else [];
    FilterAppend([n], below, term);
    assert Filter([n], term) == if Matches(n, term) then [n] else [] by {
      assert [n][1..] == [];
    }
    if n.hasChildren {
      SearchAll(n.children, term);
    }
  }

  lemma {:induction false} FilterEverything(xs: seq<TreeNode>)
    ensures Filter(xs, "") == xs
    decreases |xs|
  {
    if xs != [] {
      assert OccursAt(LowerStr(xs[0].key), "", 0);
      FilterEverything(xs[1..]);
      assert xs == [xs[0]] + xs[1..];
    }
  }

  /** The empty term matches every node: the search returns the whole
      forest in preorder, `countNodes` many. */
  lemma SearchEmpty(ns: seq<TreeNode>)
    ensures SearchNodes(ns, "") == All(ns)
    ensures |SearchNodes(ns, "")| == CountNodes(ns)
  {
    assert LowerStr("") == "";
    SearchAll(ns, "");
    FilterEverything(All(ns));
    CountNodesAll(ns);
  }

  // ---------------------------------------------------------------------
  // getTreeStatistics

  datatype TreeStatistics = TreeStatistics(
    totalNodes: nat,
    objectCount: nat,
    arrayCount: nat,
    stringCount: nat,
    numberCount: nat,
    booleanCount: nat,
    nullCount: nat,
    maxDepth: nat)

  const NoStatistics := TreeStatistics(0, 0, 0, 0, 0, 0, 0, 0)

  /** The counters after visiting one node. */
  function Visit(n: TreeNode, s: TreeStatistics): TreeStatistics {
    var s := s.(totalNodes := s.totalNodes + 1);
    var s := match n.kind
      case ObjectNode => s.(objectCount := s.objectCount + 1)
      case ArrayNode => s.(arrayCount := s.arrayCount + 1)
      case StringNode => s.(stringCount := s.stringCount + 1)
      case NumberNode => s.(numberCount := s.numberCount + 1)
      case BooleanNode => s.(booleanCount := s.booleanCount + 1)
      case NullNode => s.(nullCount := s.nullCount + 1);
    if n.depth > s.maxDepth then s.(maxDepth := n.depth) else s
  }

  /** `getTreeStatistics`: the recursive traversal of every node. */
  function GetTreeStatistics(ns: seq<TreeNode>): TreeStatistics {
    StatsLoop(ns, NoStatistics)
  }

  function StatsLoop(ns: seq<TreeNode>, s: TreeStatistics): TreeStatistics {
    if ns == [] then s else StatsLoop(ns[1..], StatsOf(ns[0], s))
  }

  function StatsOf(n: TreeNode, s: TreeStatistics): TreeStatistics {
    if n.hasChildren then StatsLoop(n.children, Visit(n, s)) else Visit(n, s)
  }

  /** Visiting the nodes of a sequence in order. */
  function VisitAll(xs: seq<TreeNode>, s: TreeStatistics): TreeStatistics {
    if xs == [] then s else VisitAll(xs[1..], Visit(xs[0], s))
  }

  lemma {:induction false} VisitAllAppend(a: seq<TreeNode>, b: seq<TreeNode>, s: TreeStatistics)
    ensures VisitAll(a + b, s) == VisitAll(b, VisitAll(a, s))
    decreases |a|
  {
    if a != [] {
      assert (a + b)[0] == a[0] && (a + b)[1..] == a[1..] + b;
      VisitAllAppend(a[1..], b, Visit(a[0], s));
    } else {
      assert a + b == b;
    }
  }

  lemma {:induction false} StatsLoopAll(ns: seq<TreeNode>, s: TreeStatistics)
    ensures StatsLoop(ns, s) == VisitAll(All(ns), s)
    decreases ns, 1
  {
    if ns != [] {
      StatsOfAll(ns[0], s);
      StatsLoopAll(ns[1..], StatsOf(ns[0], s));
      VisitAllAppend(AllOf(ns[0]), All(ns[1..]), s);
    }
  }

  lemma {:induction false} StatsOfAll(n: TreeNode, s: TreeStatistics)
    ensures StatsOf(n, s) == VisitAll(AllOf(n), s)
    decreases n, 0
  {
    var below := if n.hasChildren then All(n.children) else [];
    VisitAllAppend([n], below, s);
    assert VisitAll([n], s) == Visit(n, s) by {
      assert [n][1..] == [];
    }
    if n.hasChildren {
      StatsLoopAll(n.children, Visit(n, s));
    }
  }

  /** The six type counters add up to the total. */
  predicate Balanced(s: TreeStatistics) {
    s.objectCount + s.arrayCount + s.stringCount + s.numberCount + s.booleanCount + s.nullCount == s.totalNodes
  }

  lemma {:induction false} VisitAllCounts(xs: seq<TreeNode>, s: TreeStatistics)
    requires Balanced(s)
    ensures Balanced(VisitAll(xs, s))
    ensures VisitAll(xs, s).totalNodes == s.totalNodes + |xs|
    ensures VisitAll(xs, s).maxDepth == Max(s.maxDepth, DepthsMax(xs))
    decreases |xs|
  {
    if xs != [] {
      VisitCounts(xs[0], s);
      VisitAllCounts(xs[1..], Visit(xs[0], s));
    }
  }

  lemma VisitCounts(n: TreeNode, s: TreeStatistics)
    requires Balanced(s)
    ensures Balanced(Visit(n, s))
    ensures Visit(n, s).totalNodes == s.totalNodes + 1
    ensures Visit(n, s).maxDepth == Max(s.maxDepth, n.depth)
  {
  }

  /** In `getTreeStatistics` the type counters add up to `totalNodes`,
      which is `countNodes`, and `maxDepth` is `getMaxDepth`. */
  lemma TreeStatisticsAgree(ns: seq<TreeNode>)
    ensures Balanced(GetTreeStatistics(ns))
    ensures GetTreeStatistics(ns).totalNodes == CountNodes(ns)
    ensures GetTreeStatistics(ns).maxDepth == MaxDepth(ns)
  {
    StatsLoopAll(ns, NoStatistics);
    VisitAllCounts(All(ns), NoStatistics);
    CountNodesAll(ns);
    MaxDepthAll(ns);
  }

  // ---------------------------------------------------------------------
  // formatNodeValue

  /** JavaScript's `String(value)` (also what a template literal shows)
      for a parsed value: an array joins its elements with commas, showing
      `null` as nothing; an object shows `[object Object]`. */
  function JsString(v: Json): string
    decreases v, 1
  {
    match v
    case Null => "null"
    case Bool(b) => if b then "true" else "false"
    case Num(n) => IntToString(n)
    case Str(s) => s
    case Arr(_) => Join(ElementStrings(v, 0), ",")
    case Obj(_) => "[object Object]"
  }

  function ElementStrings(v: Json, k: nat): (r: seq<string>)
    requires v.Arr? && k <= |v.items|
    ensures |r| == |v.items| - k
    decreases v, 0, |v.items| - k
  {
    if k == |v.items| then []
    else [if v.items[k].Null? then "" else JsString(v.items[k])] + ElementStrings(v, k + 1)
  }

  /** `formatNodeValue`: a string in double quotes (not escaped), a
      number or boolean as `String` shows it, and a container by its type
      name. */
  function FormatNodeValue(n: TreeNode): string {
    match n.kind
    case StringNode => "\"" + JsString(n.value) + "\""
    case NumberNode => JsString(n.value)
    case BooleanNode => JsString(n.value)
    case NullNode => "null"
    case _ => NodeTypeName(n.kind)
  }

  /** For a node whose type tag describes its value (every built node): a
      string is its characters between two double quotes, unescaped; null,
      a boolean and a number are shown as `JSON.stringify` writes them, and
      so is a string holding nothing that needs escaping; a container is
      shown by its type name. */
  lemma FormatAsStringify(n: TreeNode)
    requires n.kind == ValueType(n.value)
    ensures n.value.Str? ==> FormatNodeValue(n) == "\"" + n.value.s + "\""
    ensures !IsComposite(n.value) && !n.value.Str? ==> FormatNodeValue(n) == Serializer.Ser(n.value, "", "")
    ensures !IsComposite(n.value) && (n.value.Str? ==> forall i :: 0 <= i < |n.value.s| ==> Serializer.Plain(n.value.s[i]))
      ==> FormatNodeValue(n) == Serializer.Ser(n.value, "", "")
    ensures IsComposite(n.value) ==> FormatNodeValue(n) == NodeTypeName(n.kind)
  {
    if n.value.Str? && forall i :: 0 <= i < |n.value.s| ==> Serializer.Plain(n.value.s[i]) {
      Serializer.EscapePlain(n.value.s);
    }
  }

  /** A string holding a double quote is not shown as `JSON.stringify`
      writes it: the node for `a"b` shows `"a"b"`, not `"a\"b"`. */
  lemma FormatQuoteUnescaped(n: TreeNode)
    requires n.kind == ValueType(n.value) && n.value == Str("a\"b")
    ensures FormatNodeValue(n) == "\"a\"b\""
    ensures FormatNodeValue(n) != Serializer.Ser(n.value, "", "")
  {
    FormatAsStringify(n);
    assert Serializer.Ser(n.value, "", "")[2] == '\\';
  }
}
