/** The binary search tree of basic/STL/mymap.h: insertion that links parent pointers in place,
    and iteration that climbs them. */
module BstMap {

  class TreeNode {
    const key: int
    const value: int
    var left: TreeNode?
    var right: TreeNode?
    var parent: TreeNode?

    constructor (k: int, v: int)
      ensures key == k && value == v && left == null && right == null && parent == null
    {
      key, value := k, v;
      left, right, parent := null, null, null;
    }
  }

  /** The shape of a tree over its nodes. */
  datatype Shape = Leaf | Node(left: Shape, node: TreeNode, right: Shape)

  ghost function InOrder(s: Shape): seq<TreeNode> {
    match s
    case Leaf => []
    case Node(l, n, r) => InOrder(l) + [n] + InOrder(r)
  }

  ghost function Nodes(s: Shape): set<TreeNode> {
    match s
    case Leaf => {}
    case Node(l, n, r) => Nodes(l) + {n} + Nodes(r)
  }

  ghost function Root(s: Shape): TreeNode? {
    if s.Leaf? then null else s.node
  }

  /** The heap holds this shape: child and parent links agree with it. */
  ghost predicate Linked(s: Shape, parent: TreeNode?)
    reads Nodes(s)
  {
    match s
    case Leaf => true
    case Node(l, n, r) =>
      && n.parent == parent && n.left == Root(l) && n.right == Root(r)
      && Linked(l, n) && Linked(r, n)
  }

  ghost predicate Distinct(s: Shape) {
    match s
    case Leaf => true
    case Node(l, n, r) =>
      Distinct(l) && Distinct(r) && Nodes(l) !! Nodes(r) && n !in Nodes(l) && n !in Nodes(r)
  }

  lemma {:induction false} NodesAreAllocated(s: Shape)
    ensures forall n | n in Nodes(s) :: allocated(n)
  {
    if s.Node? {
      NodesAreAllocated(s.left);
      NodesAreAllocated(s.right);
    }
  }

  lemma {:induction false} InOrderHasNodes(s: Shape)
    ensures forall i | 0 <= i < |InOrder(s)| :: InOrder(s)[i] in Nodes(s)
    ensures forall n | n in Nodes(s) :: n in InOrder(s)
  {
    if s.Node? {
      InOrderHasNodes(s.left);
      InOrderHasNodes(s.right);
      var a, b := InOrder(s.left), InOrder(s.right);
      forall i | 0 <= i < |InOrder(s)| ensures InOrder(s)[i] in Nodes(s) {
        assert InOrder(s)[i] == if i < |a| then a[i] else if i == |a| then s.node else b[i - |a| - 1];
      }
    }
  }

  ghost predicate NoDuplicates(ns: seq<TreeNode>) {
    forall i, j | 0 <= i < j < |ns| :: ns[i] != ns[j]
  }

  lemma {:induction false} InOrderIsDistinct(s: Shape)
    requires Distinct(s)
    ensures NoDuplicates(InOrder(s))
  {
    if s.Node? {
      InOrderIsDistinct(s.left);
      InOrderIsDistinct(s.right);
      InOrderHasNodes(s.left);
      InOrderHasNodes(s.right);
      var all, a, b := InOrder(s), InOrder(s.left), InOrder(s.right);
      forall i, j | 0 <= i < j < |all| ensures all[i] != all[j] {
        assert i < |a| ==> all[i] == a[i] && a[i] in Nodes(s.left);
        assert j > |a| ==> all[j] == b[j - |a| - 1] && b[j - |a| - 1] in Nodes(s.right);
      }
    }
  }

  // ---------- Insertion on shapes ----------

  ghost function Inserted(s: Shape, n: TreeNode): Shape {
    match s
    case Leaf => Node(Leaf, n, Leaf)
    case Node(l, m, r) =>
      if n.key < m.key then Node(Inserted(l, n), m, r) else Node(l, m, Inserted(r, n))
  }

  datatype Entry = Entry(key: int, value: int)

  ghost function Entries(ns: seq<TreeNode>): seq<Entry> {
    seq(|ns|, i requires 0 <= i < |ns| => Entry(ns[i].key, ns[i].value))
  }

  predicate Sorted(es: seq<Entry>) {
    forall i, j | 0 <= i < j < |es| :: es[i].key <= es[j].key
  }

  /** Where a new entry goes in a sorted sequence: right after all entries with key <= k. */
  function Slot(es: seq<Entry>, k: int): (i: nat)
    ensures i <= |es|
  {
    if es == [] || k < es[0].key then 0 else 1 + Slot(es[1..], k)
  }

  lemma {:induction false} SlotSplits(es: seq<Entry>, k: int)
    requires Sorted(es)
    ensures forall i | 0 <= i < |es| :: es[i].key <= k <==> i < Slot(es, k)
    decreases |es|
  {
    if es != [] && es[0].key <= k {
      SlotSplits(es[1..], k);
      forall i | 0 <= i < |es| ensures es[i].key <= k <==> i < Slot(es, k) {
        if i > 0 {
          assert es[i] == es[1..][i - 1];
        }
      }
    }
  }

  function InsertSorted(es: seq<Entry>, e: Entry): seq<Entry> {
    var i := Slot(es, e.key);
    es[..i] + [e] + es[i..]
  }

  lemma InsertSortedIsSorted(es: seq<Entry>, e: Entry)
    requires Sorted(es)
    ensures Sorted(InsertSorted(es, e))
  {
    SlotSplits(es, e.key);
  }

  /** Entries of one key keep the order in which they were inserted. */
  function OfKey(es: seq<Entry>, k: int): seq<Entry> {
    if es == [] then [] else (if es[0].key == k then [es[0]] else []) + OfKey(es[1..], k)
  }

  lemma {:induction false} OfKeyAppend(xs: seq<Entry>, ys: seq<Entry>, k: int)
    ensures OfKey(xs + ys, k) == OfKey(xs, k) + OfKey(ys, k)
    decreases |xs|
  {
    if xs == [] {
      assert xs + ys == ys;
    } else {
      var head := if xs[0].key == k then [xs[0]] else [];
      OfKeyAppend(xs[1..], ys, k);
      assert (xs + ys)[0] == xs[0] && (xs + ys)[1..] == xs[1..] + ys;
      assert head + OfKey(xs[1..], k) + OfKey(ys, k) == head + (OfKey(xs[1..], k) + OfKey(ys, k));
    }
  }

  lemma {:induction false} OfKeyNone(es: seq<Entry>, k: int)
    requires forall e | e in es :: e.key != k
    ensures OfKey(es, k) == []
    decreases |es|
  {
    if es != [] {
      OfKeyNone(es[1..], k);
    }
  }

  lemma OfKeyOne(e: Entry, k: int)
    ensures OfKey([e], k) == if e.key == k then [e] else []
  {
    assert OfKey([e], k) == (if e.key == k then [e] else []) + OfKey([], k);
  }

  lemma OfKeyBetween(a: seq<Entry>, b: seq<Entry>, e: Entry, k: int)
    requires e.key == k ==> OfKey(b, k) == []
    ensures OfKey(a + [e] + b, k) == OfKey(a + b, k) + if e.key == k then [e] else []
  {
    hide OfKey;
    OfKeyAppend(a + [e], b, k);
    OfKeyAppend(a, [e], k);
    OfKeyAppend(a, b, k);
    OfKeyOne(e, k);
  }

  lemma InsertSortedIsStable(es: seq<Entry>, e: Entry, k: int)
    requires Sorted(es)
    ensures OfKey(InsertSorted(es, e), k) == OfKey(es, k) + if e.key == k then [e] else []
  {
    hide OfKey, Slot;
    var i := Slot(es, e.key);
    if e.key == k {
      SlotSplits(es, k);
      OfKeyNone(es[i..], k);
    }
    assert es[..i] + es[i..] == es;
    OfKeyBetween(es[..i], es[i..], e, k);
  }

  lemma {:induction false} SlotOfConcat(xs: seq<Entry>, ys: seq<Entry>, k: int)
    requires Sorted(xs + ys)
    ensures Slot(xs + ys, k) == if Slot(xs, k) < |xs| then Slot(xs, k) else |xs| + Slot(ys, k)
    decreases |xs|
  {
    if xs == [] {
      assert xs + ys == ys;
    } else {
      assert (xs + ys)[1..] == xs[1..] + ys;
      SlotOfConcat(xs[1..], ys, k);
    }
  }

  lemma InsertSortedLeft(l: seq<Entry>, m: Entry, r: seq<Entry>, e: Entry)
    requires Sorted(l + [m] + r) && e.key < m.key
    ensures InsertSorted(l + [m] + r, e) == InsertSorted(l, e) + [m] + r
  {
    assert l + [m] + r == l + ([m] + r);
    SlotOfConcat(l, [m] + r, e.key);
    var i := Slot(l, e.key);
    assert (l + [m] + r)[..i] == l[..i] && (l + [m] + r)[i..] == l[i..] + [m] + r;
  }

  lemma InsertSortedRight(l: seq<Entry>, m: Entry, r: seq<Entry>, e: Entry)
    requires Sorted(l + [m] + r) && m.key <= e.key
    ensures InsertSorted(l + [m] + r, e) == l + [m] + InsertSorted(r, e)
  {
    hide Slot, Sorted;
    var all, i := l + [m] + r, Slot(r, e.key);
    SlotRight(l, m, r, e.key);
    assert all[..|l| + 1 + i] == l + [m] + r[..i];
    assert all[|l| + 1 + i..] == r[i..];
  }

  lemma SlotRight(l: seq<Entry>, m: Entry, r: seq<Entry>, k: int)
    requires Sorted(l + [m] + r) && m.key <= k
    ensures Slot(l + [m] + r, k) == |l| + 1 + Slot(r, k)
  {
    SortedParts(l, m, r);
    SlotSplits(l, k);
    assert l != [] ==> l[|l| - 1] in l;
    var tail := [m] + r;
    assert l + [m] + r == l + tail && tail[1..] == r;
    SlotOfConcat(l, tail, k);
  }

  lemma EntriesOfNode(s: Shape)
    requires s.Node?
    ensures Entries(InOrder(s))
            == Entries(InOrder(s.left)) + [Entry(s.node.key, s.node.value)] + Entries(InOrder(s.right))
  {
    EntriesJoin(InOrder(s.left), s.node, InOrder(s.right));
  }

  lemma EntriesJoin(a: seq<TreeNode>, n: TreeNode, b: seq<TreeNode>)
    ensures Entries(a + [n] + b) == Entries(a) + [Entry(n.key, n.value)] + Entries(b)
  {
  }

  /** Insertion into the tree is insertion into its in-order sequence. */
  lemma {:induction false} InsertedInOrder(s: Shape, n: TreeNode)
    requires Sorted(Entries(InOrder(s)))
    ensures Entries(InOrder(Inserted(s, n))) == InsertSorted(Entries(InOrder(s)), Entry(n.key, n.value))
  {
    if s.Node? {
      var l, m, r := Entries(InOrder(s.left)), Entry(s.node.key, s.node.value), Entries(InOrder(s.right));
      EntriesOfNode(s);
      EntriesOfNode(Inserted(s, n));
      SortedParts(l, m, r);
      if n.key < m.key {
        InsertedInOrder(s.left, n);
        InsertSortedLeft(l, m, r, Entry(n.key, n.value));
      } else {
        InsertedInOrder(s.right, n);
        InsertSortedRight(l, m, r, Entry(n.key, n.value));
      }
    }
  }

  lemma SortedParts(l: seq<Entry>, m: Entry, r: seq<Entry>)
    requires Sorted(l + [m] + r)
    ensures Sorted(l) && Sorted(r) && forall e | e in l :: e.key <= m.key
  {
    var all := l + [m] + r;
    assert all[|l|] == m;
    forall i, j | 0 <= i < j < |l| ensures l[i].key <= l[j].key {
      assert all[i] == l[i] && all[j] == l[j];
    }
    forall i, j | 0 <= i < j < |r| ensures r[i].key <= r[j].key {
      assert all[|l| + 1 + i] == r[i] && all[|l| + 1 + j] == r[j];
    }
    forall e | e in l ensures e.key <= m.key {
      var i :| 0 <= i < |l| && l[i] == e;
      assert all[i] == e;
    }
  }

  /** The shape after insertions of `ns`, in this order, into an empty map. */
  ghost function Built(ns: seq<TreeNode>): Shape {
    if ns == [] then Leaf else Inserted(Built(ns[..|ns| - 1]), ns[|ns| - 1])
  }

  /** Over every run of insertions: a stable sort. In order, the entries are sorted, as many as were
      inserted, and those of one key are the ones inserted under it, in the order of insertion. */
  lemma {:induction false} RunIsStableSort(ns: seq<TreeNode>, k: int)
    ensures var es := Entries(InOrder(Built(ns)));
            Sorted(es) && |es| == |ns| && OfKey(es, k) == OfKey(Entries(ns), k)
    decreases |ns|
  {
    hide OfKey, Sorted;
    if ns == [] {
      NothingBuilt(k);
    } else {
      var before, n := ns[..|ns| - 1], ns[|ns| - 1];
      var es, e := Entries(InOrder(Built(before))), Entry(n.key, n.value);
      RunIsStableSort(before, k);
      InsertedInOrder(Built(before), n);
      InsertSortedIsSorted(es, e);
      InsertSortedIsStable(es, e, k);
      assert Entries(ns) == Entries(before) + [e];
      OfKeyAppend(Entries(before), [e], k);
      OfKeyOne(e, k);
    }
  }

  lemma NothingBuilt(k: int)
    ensures Entries(InOrder(Built([]))) == [] && Sorted([]) && OfKey([], k) == []
  {
  }

  // ---------- Places in a shape ----------

  /** A shape with a hole: the way from a subtree up to the root. */
  datatype Context =
    | Top
    | InLeft(up: Context, node: TreeNode, right: Shape)
    | InRight(up: Context, left: Shape, node: TreeNode)

  ghost function Plug(c: Context, s: Shape): Shape {
    match c
    case Top => s
    case InLeft(up, n, r) => Plug(up, Node(s, n, r))
    case InRight(up, l, n) => Plug(up, Node(l, n, s))
  }

  ghost function Above(c: Context): TreeNode? {
    if c.Top? then null else c.node
  }

  ghost function Before(c: Context): seq<TreeNode> {
    match c
    case Top => []
    case InLeft(up, _, _) => Before(up)
    case InRight(up, l, n) => Before(up) + InOrder(l) + [n]
  }

  ghost function After(c: Context): seq<TreeNode> {
    match c
    case Top => []
    case InLeft(up, n, r) => [n] + InOrder(r) + After(up)
    case InRight(up, _, _) => After(up)
  }

  /** From a right child to its parent, which comes before it. */
  lemma StepUp(c: Context, s: Shape)
    requires c.InRight?
    ensures Plug(c.up, Node(c.left, c.node, s)) == Plug(c, s)
    ensures |Before(c.up)| + |InOrder(Node(c.left, c.node, s))| == |Before(c)| + |InOrder(s)|
  {
  }

  lemma AtTop(s: Shape)
    ensures Plug(Top, s) == s && Before(Top) == []
  {
  }

  lemma BelowIsNext(c: Context, s: Shape, i: nat)
    requires s.Node? && s.right.Node? && |Before(c)| + |InOrder(s.left)| == i
    ensures var all := InOrder(Plug(c, s)); i + 1 < |all| && all[i + 1] == InOrder(s.right)[0]
  {
    PlugInOrder(c, s);
  }

  lemma AboveIsNext(c: Context, s: Shape, i: nat)
    requires !c.InRight? && |Before(c)| + |InOrder(s)| == i + 1
    ensures var all := InOrder(Plug(c, s)); Above(c) == if i + 1 < |all| then all[i + 1] else null
  {
    PlugInOrder(c, s);
  }

  lemma {:induction false} PlugInOrder(c: Context, s: Shape)
    ensures InOrder(Plug(c, s)) == Before(c) + InOrder(s) + After(c)
    decreases c
  {
    match c
    case Top =>
    case InLeft(up, n, r) =>
      PlugInOrder(up, Node(s, n, r));
      Regroup(Before(up), InOrder(s), [n], InOrder(r), After(up));
    case InRight(up, l, n) =>
      PlugInOrder(up, Node(l, n, s));
      Regroup(Before(up), InOrder(l), [n], InOrder(s), After(up));
  }

  lemma Regroup(a: seq<TreeNode>, b: seq<TreeNode>, c: seq<TreeNode>, d: seq<TreeNode>, e: seq<TreeNode>)
    ensures a + (b + c + d) + e == a + b + (c + d + e) == (a + b + c) + d + e
  {
  }

  /** A subtree of a linked, duplicate-free tree is one, and hangs where its context says. */
  lemma {:induction false} PlugLinked(c: Context, s: Shape)
    requires Linked(Plug(c, s), null) && Distinct(Plug(c, s))
    ensures Linked(s, Above(c)) && Distinct(s)
    ensures c.InLeft? ==> c.node.left == Root(s) && c.node.right == Root(c.right)
                          && c.node.parent == Above(c.up) && Nodes(s) !! Nodes(c.right)
    ensures c.InRight? ==> c.node.right == Root(s) && c.node.parent == Above(c.up)
    decreases c
  {
    match c
    case Top =>
    case InLeft(up, n, r) => PlugLinked(up, Node(s, n, r));
    case InRight(up, l, n) => PlugLinked(up, Node(l, n, s));
  }

  /** The place of the i-th node in order. */
  lemma {:induction false} Locate(c: Context, s: Shape, i: nat) returns (c': Context, s': Shape)
    requires i < |InOrder(s)|
    ensures Plug(c', s') == Plug(c, s) && s'.Node? && s'.node == InOrder(s)[i]
    ensures |Before(c')| + |InOrder(s'.left)| == |Before(c)| + i
    decreases s
  {
    var k := |InOrder(s.left)|;
    if i < k {
      c', s' := Locate(InLeft(c, s.node, s.right), s.left, i);
    } else if i == k {
      c', s' := c, s;
    } else {
      c', s' := Locate(InRight(c, s.left, s.node), s.right, i - k - 1);
    }
  }

  // ---------- mymap ----------

  class MyMap {
    var root: TreeNode?
    ghost var shape: Shape

    ghost predicate Valid()
      reads this, Nodes(shape)
    {
      root == Root(shape) && Linked(shape, null) && Distinct(shape) && Sorted(Entries(InOrder(shape)))
    }

    constructor ()
      ensures Valid() && InOrder(shape) == []
    {
      root, shape := null, Leaf;
    }

    /** `helper1` below a node: hang a new node under a null link on the search path. */
    method Helper1(node: TreeNode, ghost s: Shape, ghost parent: TreeNode?, k: int, v: int) returns (n: TreeNode)
      requires s.Node? && s.node == node && Linked(s, parent) && Distinct(s)
      modifies Nodes(s)
      ensures fresh(n) && n.key == k && n.value == v
      ensures Linked(Inserted(s, n), parent) && Distinct(Inserted(s, n))
      ensures Nodes(Inserted(s, n)) == Nodes(s) + {n}
      decreases s
    {
      NodesAreAllocated(s);
      if k < node.key {
        if node.left == null {
          assert s.left == Leaf;
          n := new TreeNode(k, v);
          node.left := n;
          n.parent := node;
        } else {
          n := Helper1(node.left, s.left, node, k, v);
        }
      } else {
        if node.right == null {
          assert s.right == Leaf;
          n := new TreeNode(k, v);
          node.right := n;
          n.parent := node;
        } else {
          n := Helper1(node.right, s.right, node, k, v);
        }
      }
    }

    /** `insert`: one fresh node, in order right after all entries with key <= k. */
    method Insert(k: int, v: int)
      requires Valid()
      modifies this, Nodes(shape)
      ensures Valid() && fresh(Nodes(shape) - old(Nodes(shape)))
      ensures Entries(InOrder(shape)) == InsertSorted(old(Entries(InOrder(shape))), Entry(k, v))
    {
      ghost var before := shape;
      var n;
      if root == null {
        n := new TreeNode(k, v);
        root := n;
      } else {
        n := Helper1(root, shape, null, k, v);
      }
      shape := Inserted(before, n);
      InsertedInOrder(before, n);
      InsertSortedIsSorted(Entries(InOrder(before)), Entry(k, v));
    }

    /** `minn`: the first node in order of the tree at `node`. */
    method Minn(node: TreeNode, ghost s: Shape, ghost parent: TreeNode?) returns (m: TreeNode)
      requires s.Node? && s.node == node && Linked(s, parent)
      ensures m == InOrder(s)[0]
    {
      m := node;
      ghost var t, p := s, parent;
      while m.left != null
        invariant t.Node? && t.node == m && Linked(t, p) && InOrder(t)[0] == InOrder(s)[0]
        decreases t
      {
        p := m;
        t := t.left;
        m := m.left;
      }
      assert t.left == Leaf;
    }

    /** `successor`: the next node in order, null after the last. */
    method Successor(start: TreeNode, ghost i: nat) returns (next: TreeNode?)
      requires Valid() && i < |InOrder(shape)| && InOrder(shape)[i] == start
      ensures next == if i + 1 < |InOrder(shape)| then InOrder(shape)[i + 1] else null
    {
      hide Plug, Before, After;
      AtTop(shape);
      ghost var c, s := Locate(Top, shape, i);
      PlugLinked(c, s);
      if start.right != null {
        BelowIsNext(c, s, i);
        next := Minn(start.right, s.right, start);
        return;
      }
      assert s.right == Leaf;
      var node := start;
      next := node.parent;
      while next != null && node == next.right
        invariant Valid() && Plug(c, s) == shape
        invariant s.Node? && s.node == node && next == Above(c)
        invariant |Before(c)| + |InOrder(s)| == i + 1
        decreases c
      {
        PlugLinked(c, s);
        StepUp(c, s);
        c, s := c.up, Node(c.left, c.node, s);
        node := next;
        next := next.parent;
      }
      PlugLinked(c, s);
      AboveIsNext(c, s, i);
    }
  }

  /** `mymap::Iterator`. `pos` counts the steps taken. */
  class Iterator {
    const map_: MyMap
    var cur: TreeNode?
    ghost var pos: nat

    ghost predicate Valid()
      reads this, map_, Nodes(map_.shape)
    {
      && map_.Valid() && pos <= |InOrder(map_.shape)|
      && cur == if pos < |InOrder(map_.shape)| then InOrder(map_.shape)[pos] else null
    }

    /** `begin()`, which dereferences the root. */
    constructor Begin(m: MyMap)
      requires m.Valid() && m.root != null
      ensures Valid() && map_ == m && pos == 0
    {
      NodesAreAllocated(m.shape);
      var first := m.Minn(m.root, m.shape, null);
      map_, cur, pos := m, first, 0;
    }

    /** `operator++`; it stays at the end. */
    method Increment()
      requires Valid()
      modifies this
      ensures Valid() && pos == old(if cur == null then pos else pos + 1)
    {
      NodesAreAllocated(map_.shape);
      if cur != null {
        var next := map_.Successor(cur, pos);
        cur := next;
        pos := pos + 1;
      }
    }
  }

  /** The loop from `begin()` to `end()`: every node once, in order, whatever was inserted. */
  method Traverse(m: MyMap) returns (visited: seq<TreeNode>)
    requires m.Valid() && m.root != null
    ensures visited == InOrder(m.shape)
    ensures NoDuplicates(visited)
    ensures forall n | n in Nodes(m.shape) :: n in visited
  {
    var it := new Iterator.Begin(m);
    visited := [];
    while it.cur != null
      invariant it.Valid() && it.map_ == m && visited == InOrder(m.shape)[..it.pos]
      decreases |InOrder(m.shape)| - it.pos
    {
      visited := visited + [it.cur];
      it.Increment();
    }
    InOrderIsDistinct(m.shape);
    InOrderHasNodes(m.shape);
  }
}
