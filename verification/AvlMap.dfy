/** `AVLmap` over heap nodes: the rotations and `insert` relink them in place, and refine the
    functions on trees. */
module AvlMap {
  import opened Options
  import opened AvlTree

  class AVLNode {
    const key: int
    var value: int
    var height: int
    var left: AVLNode?
    var right: AVLNode?

    constructor (key: int, value: int)
      ensures this.key == key && this.value == value && height == 1 && left == null && right == null
    {
      this.key, this.value, height := key, value, 1;
      left, right := null, null;
    }
  }

  datatype Shape = Nil | Fork(left: Shape, node: AVLNode, right: Shape)

  ghost function Root(s: Shape): AVLNode? {
    if s.Nil? then null else s.node
  }

  ghost function Nodes(s: Shape): set<AVLNode> {
    if s.Nil? then {} else Nodes(s.left) + {s.node} + Nodes(s.right)
  }

  ghost predicate Distinct(s: Shape) {
    s.Fork? ==>
      && Distinct(s.left) && Distinct(s.right) && Nodes(s.left) !! Nodes(s.right)
      && s.node !in Nodes(s.left) && s.node !in Nodes(s.right)
  }

  ghost predicate Linked(s: Shape)
    reads Nodes(s)
  {
    s.Fork? ==>
      s.node.left == Root(s.left) && s.node.right == Root(s.right) && Linked(s.left) && Linked(s.right)
  }

  /** The tree that the nodes of a shape hold. */
  ghost function Held(s: Shape): Tree
    reads Nodes(s)
  {
    if s.Nil? then Leaf else Node(Held(s.left), s.node.key, s.node.value, s.node.height, Held(s.right))
  }

  ghost predicate Sound(s: Shape)
    reads Nodes(s)
  {
    Linked(s) && Distinct(s)
  }

  lemma {:induction false} NodesAreAllocated(s: Shape)
    ensures forall n | n in Nodes(s) :: allocated(n)
    ensures s.Fork? ==> forall n | n in Nodes(s.left) :: allocated(n)
    ensures s.Fork? ==> forall n | n in Nodes(s.right) :: allocated(n)
  {
    if s.Fork? {
      NodesAreAllocated(s.left);
      NodesAreAllocated(s.right);
    }
  }

  /** The parts `((a x b) y c)` or `(a x (b y c))` of a shape keep clear of each other. */
  ghost predicate Apart(a: Shape, x: AVLNode, b: Shape, y: AVLNode, c: Shape) {
    && Distinct(a) && Distinct(b) && Distinct(c) && x != y
    && Nodes(a) !! Nodes(b) && Nodes(a) !! Nodes(c) && Nodes(b) !! Nodes(c)
    && x !in Nodes(a) && x !in Nodes(b) && x !in Nodes(c)
    && y !in Nodes(a) && y !in Nodes(b) && y !in Nodes(c)
  }

  lemma ApartIsDistinct(a: Shape, x: AVLNode, b: Shape, y: AVLNode, c: Shape)
    ensures Distinct(Fork(Fork(a, x, b), y, c)) <==> Apart(a, x, b, y, c)
    ensures Distinct(Fork(a, x, Fork(b, y, c))) <==> Apart(a, x, b, y, c)
    ensures Nodes(Fork(Fork(a, x, b), y, c)) == Nodes(Fork(a, x, Fork(b, y, c)))
  {
    var l, r := Fork(a, x, b), Fork(b, y, c);
    assert Nodes(l) == Nodes(a) + {x} + Nodes(b) && Nodes(r) == Nodes(b) + {y} + Nodes(c);
    assert Distinct(l) <==> Distinct(a) && Distinct(b) && Nodes(a) !! Nodes(b) && x !in Nodes(a) && x !in Nodes(b);
    assert Distinct(r) <==> Distinct(b) && Distinct(c) && Nodes(b) !! Nodes(c) && y !in Nodes(b) && y !in Nodes(c);
  }

  method GetHeight(node: AVLNode?, ghost s: Shape) returns (h: int)
    requires node == Root(s)
    ensures h == H(Held(s))
  {
    h := if node == null then 0 else node.height;
  }

  method GetBalance(node: AVLNode, ghost s: Shape) returns (b: int)
    requires node == Root(s) && Linked(s)
    ensures b == Balance(Held(s))
  {
    var l := GetHeight(node.left, s.left);
    var r := GetHeight(node.right, s.right);
    b := l - r;
  }

  method UpdateHeight(node: AVLNode, ghost s: Shape)
    requires node == Root(s) && Sound(s)
    modifies node`height
    ensures Sound(s) && Held(s) == WithHeight(old(Held(s)))
  {
    NodesAreAllocated(s);
    var l := GetHeight(node.left, s.left);
    var r := GetHeight(node.right, s.right);
    node.height := 1 + if l < r then r else l;
    assert Held(s.left) == old(Held(s.left)) && Held(s.right) == old(Held(s.right));
  }

  method RightRotate(y: AVLNode, ghost s: Shape) returns (x: AVLNode, ghost s': Shape)
    requires y == Root(s) && Sound(s) && s.left.Fork?
    modifies y, y.left
    ensures old(Held(s)).Node? && old(Held(s)).left.Node?
    ensures s' == Fork(s.left.left, s.left.node, Fork(s.left.right, y, s.right))
    ensures x == Root(s') && Sound(s') && Nodes(s') == Nodes(s)
    ensures Held(s') == RotateRight(old(Held(s)))
  {
    NodesAreAllocated(s);
    NodesAreAllocated(s.left);
    ghost var a, b, c := s.left.left, s.left.right, s.right;
    assert Linked(s.left) && Linked(a) && Linked(b) && Linked(c);
    ApartIsDistinct(a, y.left, b, y, c);
    x := y.left;
    var T2 := x.right;
    x.right := y;
    y.left := T2;
    ghost var lower := Fork(b, y, c);
    s' := Fork(a, x, lower);
    assert Linked(a) && Linked(b) && Linked(c);
    assert Held(a) == old(Held(a)) && Held(b) == old(Held(b)) && Held(c) == old(Held(c));
    UpdateHeight(y, lower);
    assert Linked(a) && Held(a) == old(Held(a));
    UpdateHeight(x, s');
  }

  method LeftRotate(x: AVLNode, ghost s: Shape) returns (y: AVLNode, ghost s': Shape)
    requires x == Root(s) && Sound(s) && s.right.Fork?
    modifies x, x.right
    ensures old(Held(s)).Node? && old(Held(s)).right.Node?
    ensures s' == Fork(Fork(s.left, x, s.right.left), s.right.node, s.right.right)
    ensures y == Root(s') && Sound(s') && Nodes(s') == Nodes(s)
    ensures Held(s') == RotateLeft(old(Held(s)))
  {
    NodesAreAllocated(s);
    NodesAreAllocated(s.right);
    ghost var a, b, c := s.left, s.right.left, s.right.right;
    assert Linked(s.right) && Linked(a) && Linked(b) && Linked(c);
    ApartIsDistinct(a, x, b, x.right, c);
    y := x.right;
    var T2 := y.left;
    y.left := x;
    x.right := T2;
    ghost var lower := Fork(a, x, b);
    s' := Fork(lower, y, c);
    assert Linked(a) && Linked(b) && Linked(c);
    assert Held(a) == old(Held(a)) && Held(b) == old(Held(b)) && Held(c) == old(Held(c));
    UpdateHeight(x, lower);
    assert Linked(c) && Held(c) == old(Held(c));
    UpdateHeight(y, s');
  }

  /** The four tests at the end of `insert`; `crashed` if one of them, or the rotation it asks for,
      follows a null link. */
  method RebalanceNode(node: AVLNode, ghost s: Shape, k: int) returns (crashed: bool, res: AVLNode, ghost s': Shape)
    requires node == Root(s) && Sound(s)
    modifies Nodes(s)
    ensures old(Held(s)).Node? && (crashed <==> !Rotatable(old(Held(s)), k))
    ensures !crashed ==> res == Root(s') && Sound(s') && Nodes(s') == Nodes(s)
    ensures !crashed ==> Held(s') == Rebalance(old(Held(s)), k)
  {
    NodesAreAllocated(s);
    crashed, res, s' := false, node, s;
    assert s.left.Fork? ==> Held(s).left == Held(s.left) && Held(s).left.right == Held(s.left.right);
    assert s.right.Fork? ==> Held(s).right == Held(s.right) && Held(s).right.left == Held(s.right.left);
    assert Linked(s.left) && Linked(s.right);
    var balance := GetBalance(node, s);
    if (balance > 1 && node.left == null) || (balance < -1 && node.right == null) {
      crashed := true;
    } else if balance > 1 && k < node.left.key {
      res, s' := RightRotate(node, s);
    } else if balance < -1 && k > node.right.key {
      res, s' := LeftRotate(node, s);
    } else if balance < -1 && k < node.right.key {
      if node.right.left == null {
        crashed := true;
      } else {
        res, s' := DoubleLeft(node, s);
      }
    } else if balance > 1 && k > node.left.key {
      if node.left.right == null {
        crashed := true;
      } else {
        res, s' := DoubleRight(node, s);
      }
    }
  }

  method DoubleLeft(node: AVLNode, ghost s: Shape) returns (res: AVLNode, ghost s': Shape)
    requires node == Root(s) && Sound(s) && s.right.Fork? && s.right.left.Fork?
    modifies Nodes(s)
    ensures res == Root(s') && Sound(s') && Nodes(s') == Nodes(s)
    ensures var t := old(Held(s));
            t.Node? && t.right.Node? && t.right.left.Node?
            && Held(s') == RotateLeft(t.(right := RotateRight(t.right)))
  {
    NodesAreAllocated(s);
    assert Linked(s.right) && s.right.left.node in Nodes(s.right) && s.right.node in Nodes(s.right);
    var r, inner := RightRotate(node.right, s.right);
    node.right := r;
    ghost var mid := Fork(s.left, node, inner);
    assert Linked(s.left) && Held(s.left) == old(Held(s.left));
    assert Linked(inner) && Held(inner) == RotateRight(old(Held(s.right)));
    res, s' := LeftRotate(node, mid);
  }

  method DoubleRight(node: AVLNode, ghost s: Shape) returns (res: AVLNode, ghost s': Shape)
    requires node == Root(s) && Sound(s) && s.left.Fork? && s.left.right.Fork?
    modifies Nodes(s)
    ensures res == Root(s') && Sound(s') && Nodes(s') == Nodes(s)
    ensures var t := old(Held(s));
            t.Node? && t.left.Node? && t.left.right.Node?
            && Held(s') == RotateRight(t.(left := RotateLeft(t.left)))
  {
    NodesAreAllocated(s);
    assert Linked(s.left) && s.left.right.node in Nodes(s.left) && s.left.node in Nodes(s.left);
    var l, inner := LeftRotate(node.left, s.left);
    node.left := l;
    ghost var mid := Fork(inner, node, s.right);
    assert Linked(s.right) && Held(s.right) == old(Held(s.right));
    assert Linked(inner) && Held(inner) == RotateLeft(old(Held(s.left)));
    res, s' := RightRotate(node, mid);
  }

  ghost predicate AtMostOne(ns: set<AVLNode>) {
    |ns| <= 1
  }

  method SetLeft(node: AVLNode, child: AVLNode, ghost inner: Shape, ghost right: Shape) returns (ghost s': Shape)
    requires child == Root(inner) && node.right == Root(right) && Linked(inner) && Linked(right)
    requires Distinct(Fork(inner, node, right))
    modifies node`left
    ensures s' == Fork(inner, node, right) && Sound(s')
    ensures Held(s') == Node(old(Held(inner)), node.key, node.value, node.height, old(Held(right)))
  {
    NodesAreAllocated(inner);
    NodesAreAllocated(right);
    node.left := child;
    s' := Fork(inner, node, right);
    assert Held(inner) == old(Held(inner)) && Held(right) == old(Held(right));
  }

  method InsertLeft(elseIf: bool, node: AVLNode, ghost s: Shape, k: int, v: int)
    returns (crashed: bool, ghost s': Shape, ghost added: set<AVLNode>)
    requires node == Root(s) && Sound(s) && k < node.key
    modifies Nodes(s)
    ensures old(Held(s)).Node? && (crashed <==> Insert(elseIf, old(Held(s)).left, k, v) == None)
    ensures !crashed ==> node == Root(s') && Sound(s')
    ensures !crashed ==> Nodes(s') == Nodes(s) + added && fresh(added) && AtMostOne(added)
    ensures !crashed ==> Held(s') == (var t := old(Held(s)); t.(left := Insert(elseIf, t.left, k, v).value))
    decreases s, 0
  {
    hide Insert, AtMostOne;
    NodesAreAllocated(s);
    var l;
    ghost var inner;
    crashed, l, inner, added := InsertNode(elseIf, node.left, s.left, k, v);
    s' := s;
    if !crashed {
      s' := SetLeft(node, l, inner, s.right);
    }
  }

  method SetRight(node: AVLNode, child: AVLNode, ghost inner: Shape, ghost left: Shape) returns (ghost s': Shape)
    requires child == Root(inner) && node.left == Root(left) && Linked(inner) && Linked(left)
    requires Distinct(Fork(left, node, inner))
    modifies node`right
    ensures s' == Fork(left, node, inner) && Sound(s')
    ensures Held(s') == Node(old(Held(left)), node.key, node.value, node.height, old(Held(inner)))
  {
    NodesAreAllocated(inner);
    NodesAreAllocated(left);
    node.right := child;
    s' := Fork(left, node, inner);
    assert Held(inner) == old(Held(inner)) && Held(left) == old(Held(left));
  }

  method InsertRight(elseIf: bool, node: AVLNode, ghost s: Shape, k: int, v: int)
    returns (crashed: bool, ghost s': Shape, ghost added: set<AVLNode>)
    requires node == Root(s) && Sound(s) && k > node.key
    modifies Nodes(s)
    ensures old(Held(s)).Node? && (crashed <==> Insert(elseIf, old(Held(s)).right, k, v) == None)
    ensures !crashed ==> node == Root(s') && Sound(s')
    ensures !crashed ==> Nodes(s') == Nodes(s) + added && fresh(added) && AtMostOne(added)
    ensures !crashed ==> Held(s') == (var t := old(Held(s)); t.(right := Insert(elseIf, t.right, k, v).value))
    decreases s, 0
  {
    hide Insert, AtMostOne;
    NodesAreAllocated(s);
    var r;
    ghost var inner;
    crashed, r, inner, added := InsertNode(elseIf, node.right, s.right, k, v);
    s' := s;
    if !crashed {
      s' := SetRight(node, r, inner, s.left);
    }
  }

  method Overwrite(node: AVLNode, ghost s: Shape, v: int)
    requires node == Root(s) && Sound(s)
    modifies node`value
    ensures Sound(s) && old(Held(s)).Node? && Held(s) == old(Held(s)).(value := v)
  {
    NodesAreAllocated(s);
    node.value := v;
    assert Held(s.left) == old(Held(s.left)) && Held(s.right) == old(Held(s.right));
  }

  /** `insert`, with `elseIf` or as the file has it, on any tree of nodes; `crashed` if it follows a
      null link. */
  method InsertNode(elseIf: bool, node: AVLNode?, ghost s: Shape, k: int, v: int)
    returns (crashed: bool, res: AVLNode, ghost s': Shape, ghost added: set<AVLNode>)
    requires node == Root(s) && Sound(s)
    modifies Nodes(s)
    ensures crashed <==> Insert(elseIf, old(Held(s)), k, v) == None
    ensures !crashed ==> res == Root(s') && Sound(s')
    ensures !crashed ==> Nodes(s') == Nodes(s) + added && fresh(added) && AtMostOne(added)
    ensures !crashed ==> Some(Held(s')) == Insert(elseIf, old(Held(s)), k, v)
    decreases s, 1
  {
    hide Rebalance, Rotatable;
    crashed := false;
    if node == null {
      res := new AVLNode(k, v);
      s', added := Fork(Nil, res, Nil), {res};
      return;
    }
    res, s', added := node, s, {};
    if k < node.key {
      crashed, s', added := InsertLeft(elseIf, node, s, k, v);
      if crashed {
        return;
      }
    }
    if k > node.key {
      crashed, s', added := InsertRight(elseIf, node, s, k, v);
      if crashed {
        return;
      }
    } else if !(elseIf && k < node.key) {
      Overwrite(node, s', v);
      return;
    }
    UpdateHeight(node, s');
    crashed, res, s' := RebalanceNode(node, s', k);
  }

  /** What is known of an insertion into the tree of a valid map. */
  lemma PutFacts(elseIf: bool, t: Tree, k: int, v: int)
    requires Ordered(t) && Positive(t) && (elseIf ==> Avl(t))
    ensures Insert(elseIf, t, k, v) == None <==> !elseIf && Crashes(t, k)
    ensures Insert(elseIf, t, k, v).Some? ==>
              var r := Insert(elseIf, t, k, v).value;
              && Ordered(r) && Positive(r) && (elseIf ==> Avl(r))
              && (ToMap(r) == ToMap(t)[k := v] <==> elseIf || LeftTurnsHold(t, k, v))
  {
    if elseIf {
      InsertKeepsValid(t, k, v);
    } else {
      WrittenCrashesIff(t, k, v);
    }
    if Insert(elseIf, t, k, v).Some? {
      InsertKeepsOrder(elseIf, t, k, v);
      InsertUpdatesMapIff(elseIf, t, k, v);
    }
  }

  class AVLmap {
    /** How line 80 of the file is read. */
    const elseIf: bool
    var root: AVLNode?
    ghost var shape: Shape

    ghost predicate Valid()
      reads this, Nodes(shape)
    {
      && root == Root(shape) && Sound(shape)
      && Ordered(Held(shape)) && Positive(Held(shape)) && (elseIf ==> Avl(Held(shape)))
    }

    constructor (elseIf: bool)
      ensures Valid() && Held(shape) == Leaf && this.elseIf == elseIf
    {
      this.elseIf, root, shape := elseIf, null, Nil;
    }

    /** `put`: an update of the map that keeps the balance, with `else if`; as the file has it, a
        crash or an update, each under its exact condition. */
    method Put(k: int, v: int) returns (crashed: bool)
      requires Valid()
      modifies this, Nodes(shape)
      ensures crashed <==> !elseIf && Crashes(old(Held(shape)), k)
      ensures !crashed ==> Valid() && fresh(Nodes(shape) - old(Nodes(shape)))
      ensures !crashed ==> old(Nodes(shape)) <= Nodes(shape) && AtMostOne(Nodes(shape) - old(Nodes(shape)))
      ensures !crashed ==> Some(Held(shape)) == Insert(elseIf, old(Held(shape)), k, v)
      ensures !crashed ==> (ToMap(Held(shape)) == old(ToMap(Held(shape)))[k := v]
                            <==> elseIf || LeftTurnsHold(old(Held(shape)), k, v))
    {
      hide Insert, Crashes, LeftTurnsHold, ToMap, Ordered, Positive, Avl, Held, Linked, Distinct, Nodes, Sound, Root,
        AtMostOne;
      PutFacts(elseIf, Held(shape), k, v);
      var r;
      ghost var s, added;
      NodesAreAllocated(shape);
      crashed, r, s, added := InsertNode(elseIf, root, shape, k, v);
      if !crashed {
        assert Nodes(s) - Nodes(shape) == added;
        root, shape := r, s;
      }
    }

    /** `serchNode` from the root. */
    method Get(k: int) returns (v: Option<int>)
      requires Valid()
      ensures v == if k in ToMap(Held(shape)) then Some(ToMap(Held(shape))[k]) else None
    {
      SearchIsLookup(Held(shape), k);
      var node := root;
      ghost var s := shape;
      while node != null
        invariant node == Root(s) && Linked(s) && Search(Held(s), k) == Search(Held(shape), k)
        decreases s
      {
        if k < node.key {
          node, s := node.left, s.left;
        } else if k > node.key {
          node, s := node.right, s.right;
        } else {
          return Some(node.value);
        }
      }
      v := None;
    }

    method Inorderh(node: AVLNode?, ghost s: Shape, a: seq<(int, int)>) returns (a': seq<(int, int)>)
      requires node == Root(s) && Linked(s)
      ensures a' == a + Pairs(Held(s))
      decreases s
    {
      NodesAreAllocated(s);
      a' := a;
      if node != null {
        a' := Inorderh(node.left, s.left, a');
        a' := a' + [(node.key, node.value)];
        a' := Inorderh(node.right, s.right, a');
      }
    }

    /** `inorder`: the map as a list with strictly ascending keys. */
    method Inorder() returns (result: seq<(int, int)>)
      requires Valid()
      ensures Ascending(result)
      ensures forall k, v :: (k, v) in result <==> k in ToMap(Held(shape)) && ToMap(Held(shape))[k] == v
    {
      NodesAreAllocated(shape);
      result := Inorderh(root, shape, []);
      PairsAreTheMap(Held(shape));
      forall k, v ensures (k, v) in result <==> k in ToMap(Held(shape)) && ToMap(Held(shape))[k] == v {
        assert ListsEntry(Held(shape), k, v);
      }
    }
  }
}
