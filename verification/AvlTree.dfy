/** The AVL tree of basic/STL/AVLmap.h as a value: rotations and insertion with cached heights. */
module AvlTree {
  import opened Options

  datatype Tree = Leaf | Node(left: Tree, key: int, value: int, height: int, right: Tree)

  function Max(a: int, b: int): int {
    if a < b then b else a
  }

  /** `getheight`: the cached height. */
  function H(t: Tree): int {
    if t.Leaf? then 0 else t.height
  }

  function Balance(t: Tree): int
    requires t.Node?
  {
    H(t.left) - H(t.right)
  }

  function WithHeight(t: Tree): Tree
    requires t.Node?
  {
    t.(height := 1 + Max(H(t.left), H(t.right)))
  }

  function RotateRight(y: Tree): Tree
    requires y.Node? && y.left.Node?
  {
    var x := y.left;
    WithHeight(x.(right := WithHeight(y.(left := x.right))))
  }

  function RotateLeft(x: Tree): Tree
    requires x.Node? && x.right.Node?
  {
    var y := x.right;
    WithHeight(y.(left := WithHeight(x.(right := y.left))))
  }

  // ---------- What a tree holds ----------

  function Keys(t: Tree): set<int> {
    if t.Leaf? then {} else Keys(t.left) + {t.key} + Keys(t.right)
  }

  function ToMap(t: Tree): map<int, int> {
    if t.Leaf? then map[] else ToMap(t.left) + ToMap(t.right) + map[t.key := t.value]
  }

  /** `inorderh`. */
  function Pairs(t: Tree): seq<(int, int)> {
    if t.Leaf? then [] else Pairs(t.left) + [(t.key, t.value)] + Pairs(t.right)
  }

  ghost predicate Ordered(t: Tree) {
    t.Node? ==>
      && Ordered(t.left) && Ordered(t.right)
      && (forall k | k in Keys(t.left) :: k < t.key)
      && (forall k | k in Keys(t.right) :: t.key < k)
  }

  /** Cached heights are at least 1, so that a null child is never the higher one. */
  ghost predicate Positive(t: Tree) {
    t.Node? ==> t.height >= 1 && Positive(t.left) && Positive(t.right)
  }

  ghost predicate HeightsRight(t: Tree) {
    t.Node? ==> HeightsRight(t.left) && HeightsRight(t.right) && t == WithHeight(t)
  }

  ghost predicate Balanced(t: Tree) {
    t.Node? ==> Balanced(t.left) && Balanced(t.right) && -1 <= Balance(t) <= 1
  }

  ghost predicate Avl(t: Tree) {
    HeightsRight(t) && Balanced(t)
  }

  ghost predicate Valid(t: Tree) {
    Ordered(t) && Avl(t)
  }

  lemma {:induction false} HeightsArePositive(t: Tree)
    requires HeightsRight(t)
    ensures Positive(t) && H(t) >= 0
  {
    if t.Node? {
      HeightsArePositive(t.left);
      HeightsArePositive(t.right);
    }
  }

  /** Balance at a node and below it. */
  lemma AvlParts(t: Tree)
    requires t.Node?
    ensures Avl(t) <==> Avl(t.left) && Avl(t.right) && t == WithHeight(t) && -1 <= Balance(t) <= 1
    ensures Avl(t) ==> H(t.left) >= 0 && H(t.right) >= 0
  {
    if Avl(t) {
      HeightsArePositive(t.left);
      HeightsArePositive(t.right);
    }
  }

  /** A way down from the root: left where `turns` says so, right elsewhere. It ends at a node. */
  predicate IsPath(t: Tree, turns: seq<bool>) {
    t.Node? && (turns == [] || IsPath(if turns[0] then t.left else t.right, turns[1..]))
  }

  /** Right heights are the numbers of nodes on the longest ways down. */
  lemma {:induction false} HeightIsDepth(t: Tree) returns (longest: seq<bool>)
    requires HeightsRight(t)
    ensures H(t) == if t.Leaf? then 0 else |longest| + 1
    ensures t.Node? ==> IsPath(t, longest)
    ensures forall turns | IsPath(t, turns) :: |turns| < H(t)
  {
    longest := [];
    if t.Node? {
      var l := HeightIsDepth(t.left);
      var r := HeightIsDepth(t.right);
      if t.left.Node? && H(t.left) >= H(t.right) {
        longest := [true] + l;
        assert longest[1..] == l;
      } else if t.right.Node? {
        longest := [false] + r;
        assert longest[1..] == r;
      }
      forall turns | IsPath(t, turns) ensures |turns| < H(t) {
        if turns != [] {
          assert IsPath(if turns[0] then t.left else t.right, turns[1..]);
        }
      }
    }
  }

  lemma {:induction false} MapKeys(t: Tree)
    ensures ToMap(t).Keys == Keys(t)
  {
    if t.Node? {
      MapKeys(t.left);
      MapKeys(t.right);
    }
  }

  // ---------- Rotations ----------

  /** The two shapes that a rotation turns into each other: `((a x b) y c)` and `(a x (b y c))`. */
  lemma RegroupPairs(a: seq<(int, int)>, x: (int, int), b: seq<(int, int)>, y: (int, int), c: seq<(int, int)>)
    ensures (a + [x] + b) + [y] + c == a + [x] + (b + [y] + c)
  {
  }

  lemma RegroupMaps(a: map<int, int>, x: int, vx: int, b: map<int, int>, y: int, vy: int, c: map<int, int>)
    requires a.Keys !! b.Keys && a.Keys !! c.Keys && b.Keys !! c.Keys && x != y
    requires {x, y} !! a.Keys && {x, y} !! b.Keys && {x, y} !! c.Keys
    ensures (a + b + map[x := vx]) + c + map[y := vy] == a + (b + c + map[y := vy]) + map[x := vx]
  {
  }

  lemma RegroupOrder(a: Tree, x: Tree, b: Tree, y: Tree, c: Tree)
    requires x.Node? && y.Node?
    ensures Ordered(y.(left := x.(left := a, right := b), right := c))
            <==> Ordered(x.(left := a, right := y.(left := b, right := c)))
  {
    var l, r := x.(left := a, right := b), y.(left := b, right := c);
    var top, side := y.(left := l, right := c), x.(left := a, right := r);
    if Ordered(top) {
      assert Ordered(l) && x.key in Keys(l);
      forall k | k in Keys(r) ensures x.key < k {
        assert k in Keys(l.right) || k == y.key || k in Keys(c);
      }
      forall k | k in Keys(b) ensures k < y.key {
        assert k in Keys(l);
      }
    }
    if Ordered(side) {
      assert Ordered(r) && y.key in Keys(r);
      forall k | k in Keys(l) ensures k < y.key {
        assert k in Keys(a) || k == x.key || k in Keys(r.left);
      }
      forall k | k in Keys(b) ensures x.key < k {
        assert k in Keys(r);
      }
    }
  }

  lemma HeightIsNotOrder(t: Tree, h: int)
    requires t.Node?
    ensures Ordered(t.(height := h)) == Ordered(t) && Keys(t.(height := h)) == Keys(t)
    ensures ToMap(t.(height := h)) == ToMap(t) && Pairs(t.(height := h)) == Pairs(t)
  {
  }

  lemma SubtreesAreDisjoint(t: Tree)
    requires Ordered(t) && t.Node?
    ensures ToMap(t.left).Keys !! ToMap(t.right).Keys
    ensures t.key !in ToMap(t.left) && t.key !in ToMap(t.right)
    ensures ToMap(t.left).Keys == Keys(t.left) && ToMap(t.right).Keys == Keys(t.right)
    ensures Ordered(t.left) && Ordered(t.right)
  {
    hide ToMap;
    MapKeys(t.left);
    MapKeys(t.right);
    forall k | k in Keys(t.left) ensures k !in Keys(t.right) {
    }
  }

  /** A rotation keeps the in-order sequence. */
  lemma RotateRightKeepsPairs(y: Tree)
    requires y.Node? && y.left.Node?
    ensures Pairs(RotateRight(y)) == Pairs(y) && Keys(RotateRight(y)) == Keys(y)
  {
    var x := y.left;
    RegroupPairs(Pairs(x.left), (x.key, x.value), Pairs(x.right), (y.key, y.value), Pairs(y.right));
  }

  lemma RotateLeftKeepsPairs(x: Tree)
    requires x.Node? && x.right.Node?
    ensures Pairs(RotateLeft(x)) == Pairs(x) && Keys(RotateLeft(x)) == Keys(x)
  {
    var y := x.right;
    RegroupPairs(Pairs(x.left), (x.key, x.value), Pairs(y.left), (y.key, y.value), Pairs(y.right));
  }

  /** The three subtrees of two nodes, and the keys of the nodes, keep clear of each other. */
  lemma PartsAreApart(a: Tree, x: Tree, b: Tree, y: Tree, c: Tree)
    requires x.Node? && y.Node? && Ordered(y.(left := x.(left := a, right := b), right := c))
    ensures var p, q, r := ToMap(a).Keys, ToMap(b).Keys, ToMap(c).Keys;
            && p !! q && p !! r && q !! r && x.key != y.key
            && {x.key, y.key} !! p && {x.key, y.key} !! q && {x.key, y.key} !! r
  {
    hide ToMap;
    var l := x.(left := a, right := b);
    SubtreesAreDisjoint(y.(left := l, right := c));
    SubtreesAreDisjoint(l);
    assert Keys(l) == Keys(a) + {x.key} + Keys(b);
  }

  lemma RegroupMap(a: Tree, x: Tree, b: Tree, y: Tree, c: Tree)
    requires x.Node? && y.Node? && Ordered(y.(left := x.(left := a, right := b), right := c))
    ensures ToMap(y.(left := x.(left := a, right := b), right := c))
            == ToMap(x.(left := a, right := y.(left := b, right := c)))
  {
    hide Ordered, Keys;
    PartsAreApart(a, x, b, y, c);
    RegroupMaps(ToMap(a), x.key, x.value, ToMap(b), y.key, y.value, ToMap(c));
  }

  /** Nor do the heights of a node and of its children matter. */
  lemma HeightsAreNotOrder(t: Tree, s: Tree)
    requires t.Node? && s.Node?
    ensures Ordered(WithHeight(t.(left := WithHeight(s)))) == Ordered(t.(left := s))
    ensures ToMap(WithHeight(t.(left := WithHeight(s)))) == ToMap(t.(left := s))
    ensures Ordered(WithHeight(t.(right := WithHeight(s)))) == Ordered(t.(right := s))
    ensures ToMap(WithHeight(t.(right := WithHeight(s)))) == ToMap(t.(right := s))
  {
    HeightIsNotOrder(s, WithHeight(s).height);
  }

  /** A rotation keeps the search order and the map. */
  lemma RotateRightKeepsMap(y: Tree)
    requires y.Node? && y.left.Node? && Ordered(y)
    ensures Ordered(RotateRight(y)) && ToMap(RotateRight(y)) == ToMap(y)
  {
    hide Ordered, ToMap, Keys;
    var x := y.left;
    RegroupOrder(x.left, x, x.right, y, y.right);
    RegroupMap(x.left, x, x.right, y, y.right);
    HeightsAreNotOrder(x, y.(left := x.right));
  }

  lemma RotateLeftKeepsMap(x: Tree)
    requires x.Node? && x.right.Node? && Ordered(x)
    ensures Ordered(RotateLeft(x)) && ToMap(RotateLeft(x)) == ToMap(x)
  {
    hide Ordered, ToMap, Keys;
    var y := x.right;
    RegroupOrder(x.left, x, y.left, y, y.right);
    RegroupMap(x.left, x, y.left, y, y.right);
    HeightsAreNotOrder(y, x.(right := y.left));
  }

  /** It leaves the cached heights right if they were right below it. */
  lemma RotateRightKeepsHeights(y: Tree)
    requires y.Node? && y.left.Node?
    requires HeightsRight(y.left.left) && HeightsRight(y.left.right) && HeightsRight(y.right)
    ensures HeightsRight(RotateRight(y))
  {
  }

  lemma RotateLeftKeepsHeights(x: Tree)
    requires x.Node? && x.right.Node?
    requires HeightsRight(x.left) && HeightsRight(x.right.left) && HeightsRight(x.right.right)
    ensures HeightsRight(RotateLeft(x))
  {
  }

  // ---------- insert ----------

  /** No rotation that `Rebalance` asks for meets a null link. */
  predicate Rotatable(t: Tree, k: int)
    requires t.Node?
  {
    && (Balance(t) > 1 ==> t.left.Node? && (k > t.left.key ==> t.left.right.Node?))
    && (Balance(t) < -1 ==> t.right.Node? && (k < t.right.key ==> t.right.left.Node?))
  }

  /** The four rebalancing tests at the end of `insert`. */
  function Rebalance(t: Tree, k: int): Tree
    requires t.Node? && Rotatable(t, k)
  {
    if Balance(t) > 1 && k < t.left.key then RotateRight(t)
    else if Balance(t) < -1 && k > t.right.key then RotateLeft(t)
    else if Balance(t) < -1 && k < t.right.key then RotateLeft(t.(right := RotateRight(t.right)))
    else if Balance(t) > 1 && k > t.left.key then RotateRight(t.(left := RotateLeft(t.left)))
    else t
  }

  /** Everything but the heights is the same. */
  ghost predicate SameContents(t: Tree, u: Tree) {
    && Pairs(u) == Pairs(t) && Keys(u) == Keys(t)
    && (Ordered(t) ==> Ordered(u) && ToMap(u) == ToMap(t))
    && (Positive(t) ==> Positive(u))
  }

  lemma RotateRightKeeps(y: Tree)
    requires y.Node? && y.left.Node?
    ensures SameContents(y, RotateRight(y))
  {
    hide Ordered, ToMap, Pairs, Keys;
    RotateRightKeepsPairs(y);
    if Positive(y) {
      assert Positive(y.left);
      assert Positive(y.left.left) && Positive(y.left.right);
      assert Positive(RotateRight(y).right);
    }
    if Ordered(y) {
      RotateRightKeepsMap(y);
    }
  }

  lemma RotateLeftKeeps(x: Tree)
    requires x.Node? && x.right.Node?
    ensures SameContents(x, RotateLeft(x))
  {
    hide Ordered, ToMap, Pairs, Keys;
    RotateLeftKeepsPairs(x);
    if Positive(x) {
      assert Positive(x.right);
      assert Positive(x.right.left) && Positive(x.right.right);
      assert Positive(RotateLeft(x).left);
    }
    if Ordered(x) {
      RotateLeftKeepsMap(x);
    }
  }

  lemma SubtreeKeeps(t: Tree, l: Tree, r: Tree)
    requires t.Node? && SameContents(t.left, l) && SameContents(t.right, r)
    ensures SameContents(t, t.(left := l, right := r))
  {
  }

  lemma RebalanceKeeps(t: Tree, k: int)
    requires t.Node? && Rotatable(t, k)
    ensures Rebalance(t, k).Node? && SameContents(t, Rebalance(t, k))
  {
    hide Ordered, ToMap, Pairs, Keys, Positive;
    if Balance(t) > 1 && k < t.left.key {
      RotateRightKeeps(t);
    } else if Balance(t) < -1 && k > t.right.key {
      RotateLeftKeeps(t);
    } else if Balance(t) < -1 && k < t.right.key {
      var u := t.(right := RotateRight(t.right));
      RotateRightKeeps(t.right);
      SubtreeKeeps(t, t.left, u.right);
      RotateLeftKeeps(u);
    } else if Balance(t) > 1 && k > t.left.key {
      var u := t.(left := RotateLeft(t.left));
      RotateLeftKeeps(t.left);
      SubtreeKeeps(t, u.left, t.right);
      RotateRightKeeps(u);
    }
  }

  /** The insertion side is the high side: `t` has grown by one through `k`. */
  ghost predicate LeansTo(t: Tree, k: int) {
    t.Node? && k != t.key && Balance(t) == if k < t.key then 1 else -1
  }

  lemma RebalanceLeft(t: Tree, k: int)
    requires t.Node? && Avl(t.left) && Avl(t.right) && t == WithHeight(t)
    requires Balance(t) == 2 && LeansTo(t.left, k) && Rotatable(t, k)
    ensures Avl(Rebalance(t, k)) && H(Rebalance(t, k)) == H(t.left)
  {
    HeightsArePositive(t.right);
    if k > t.left.key {
      var m := t.left.right;
      assert Avl(m);
    }
  }

  lemma RebalanceRight(t: Tree, k: int)
    requires t.Node? && Avl(t.left) && Avl(t.right) && t == WithHeight(t)
    requires Balance(t) == -2 && LeansTo(t.right, k) && Rotatable(t, k)
    ensures Avl(Rebalance(t, k)) && H(Rebalance(t, k)) == H(t.right)
  {
    HeightsArePositive(t.left);
    if k < t.right.key {
      var m := t.right.left;
      assert Avl(m);
    }
  }

  lemma NothingToTurn(t: Tree, k: int)
    requires t.Node? && -1 <= Balance(t) <= 1
    ensures Rotatable(t, k) && Rebalance(t, k) == t
  {
  }

  /** The same tests in the source, which dereference what they rotate. */
  function Rebalanced(t: Tree, k: int): Option<Tree>
    requires t.Node?
  {
    if Rotatable(t, k) then Some(Rebalance(t, k)) else None
  }

  function Single(k: int, v: int): Tree {
    Node(Leaf, k, v, 1, Leaf)
  }

  /** `insert` on any tree; nothing if it follows a null link. With `elseIf` the second test reads
      `else if (k > node->key)`; as the file has it, a smaller key also falls into the overwriting
      branch, which returns without setting the height or rebalancing. */
  function Insert(elseIf: bool, t: Tree, k: int, v: int): Option<Tree> {
    if t.Leaf? then Some(Single(k, v))
    else if k > t.key then
      match Insert(elseIf, t.right, k, v)
      case None => None
      case Some(right) => Rebalanced(WithHeight(t.(right := right)), k)
    else if k < t.key then
      match Insert(elseIf, t.left, k, v)
      case None => None
      case Some(left) =>
        if elseIf then Rebalanced(WithHeight(t.(left := left)), k) else Some(t.(left := left, value := v))
    else Some(t.(value := v))
  }

  lemma OrderedRight(t: Tree, right: Tree, k: int)
    requires t.Node? && Ordered(t) && k > t.key && Ordered(right) && Keys(right) == Keys(t.right) + {k}
    ensures Ordered(t.(right := right)) && Keys(t.(right := right)) == Keys(t) + {k}
  {
  }

  lemma OrderedLeft(t: Tree, left: Tree, k: int)
    requires t.Node? && Ordered(t) && k < t.key && Ordered(left) && Keys(left) == Keys(t.left) + {k}
    ensures Ordered(t.(left := left)) && Keys(t.(left := left)) == Keys(t) + {k}
  {
  }

  lemma Settles(t: Tree, k: int)
    requires t.Node? && Ordered(t) && Rotatable(WithHeight(t), k)
    ensures var r := Rebalance(WithHeight(t), k);
            && r.Node? && Ordered(r) && Keys(r) == Keys(t) && ToMap(r) == ToMap(t)
            && (Positive(t.left) && Positive(t.right) ==> Positive(r))
  {
    hide Ordered, Keys, ToMap, Pairs, Rebalance;
    HeightIsNotOrder(t, WithHeight(t).height);
    RebalanceKeeps(WithHeight(t), k);
    if Positive(t.left) && Positive(t.right) {
      PositiveAbove(t);
    }
  }

  lemma PositiveAbove(t: Tree)
    requires t.Node? && Positive(t.left) && Positive(t.right)
    ensures Positive(WithHeight(t))
  {
  }

  /** Wherever insertion does not crash it keeps the search order and adds the key, in either
      reading and whatever the cached heights. */
  lemma {:induction false} InsertKeepsOrder(elseIf: bool, t: Tree, k: int, v: int)
    requires Ordered(t) && Insert(elseIf, t, k, v).Some?
    ensures var r := Insert(elseIf, t, k, v).value; r.Node? && Ordered(r) && Keys(r) == Keys(t) + {k}
    ensures Positive(t) ==> Positive(Insert(elseIf, t, k, v).value)
    decreases t
  {
    if t.Node? && k > t.key {
      var right := Insert(elseIf, t.right, k, v).value;
      InsertKeepsOrder(elseIf, t.right, k, v);
      OrderedRight(t, right, k);
      Settles(t.(right := right), k);
    } else if t.Node? && k < t.key {
      var left := Insert(elseIf, t.left, k, v).value;
      InsertKeepsOrder(elseIf, t.left, k, v);
      OrderedLeft(t, left, k);
      if elseIf {
        Settles(t.(left := left), k);
      }
    }
  }

  // ---------- insert on a balanced tree ----------

  lemma RightRotatable(t: Tree, right: Tree, k: int)
    requires t.Node? && Valid(t) && k > t.key
    requires right.Node? && Ordered(right) && Positive(right) && Keys(right) == Keys(t.right) + {k}
    requires H(t.right) <= H(right) <= H(t.right) + 1
    requires t.right.Node? && H(right) > H(t.right) ==> LeansTo(right, k) && Avl(right)
    requires t.right.Leaf? ==> Avl(right)
    ensures Rotatable(WithHeight(t.(right := right)), k)
  {
    HeightsArePositive(t);
    HeightsArePositive(t.left);
  }

  /** What it does to the heights. */
  lemma RightHeights(t: Tree, right: Tree, k: int)
    requires t.Node? && Avl(t) && k > t.key && right.Node? && right.height >= 1
    requires H(t.right) <= H(right) <= H(t.right) + 1
    requires t.right.Node? && H(right) > H(t.right) ==> LeansTo(right, k) && Avl(right)
    requires t.right.Leaf? ==> Avl(right)
    requires Rotatable(WithHeight(t.(right := right)), k)
    ensures var u := WithHeight(t.(right := right)); var r := Rebalance(u, k);
            && H(t) <= H(r) <= H(t) + 1
            && (H(r) > H(t) <==> H(right) > H(t.right) && Balance(t) == 0)
            && (H(r) > H(t) ==> LeansTo(r, k) && Avl(r))
            && (Avl(right) ==> Avl(r))
            && (H(right) == H(t.right) ==> r == t.(right := right))
  {
    hide Avl, HeightsRight, Balanced, Rotatable, Rebalance;
    var u := WithHeight(t.(right := right));
    AvlParts(t);
    AvlParts(u);
    if Balance(u) == -2 {
      RebalanceRight(u, k);
    } else {
      NothingToTurn(u, k);
    }
  }

  /** One side of a valid node has been replaced by the result of an insertion into it. */
  lemma GrownRight(t: Tree, right: Tree, k: int)
    requires t.Node? && Valid(t) && k > t.key
    requires right.Node? && Ordered(right) && Positive(right) && Keys(right) == Keys(t.right) + {k}
    requires H(t.right) <= H(right) <= H(t.right) + 1
    requires t.right.Node? && H(right) > H(t.right) ==> LeansTo(right, k) && Avl(right)
    requires t.right.Leaf? ==> Avl(right)
    ensures var u := WithHeight(t.(right := right));
            && Rotatable(u, k) && (var r := Rebalance(u, k);
            && r.Node? && Ordered(r) && Positive(r) && Keys(r) == Keys(t) + {k}
            && H(t) <= H(r) <= H(t) + 1
            && (H(r) > H(t) ==> LeansTo(r, k) && Avl(r))
            && (Avl(right) ==> Avl(r))
            && (H(right) == H(t.right) ==> r == t.(right := right)))
  {
    hide ToMap, Pairs, Keys, Balance, LeansTo, Ordered, Balanced, Rotatable, Rebalance;
    HeightsArePositive(t);
    RightRotatable(t, right, k);
    OrderedRight(t, right, k);
    Settles(t.(right := right), k);
    RightHeights(t, right, k);
  }

  lemma LeftRotatable(t: Tree, left: Tree, k: int)
    requires t.Node? && Valid(t) && k < t.key
    requires left.Node? && Ordered(left) && Positive(left) && Keys(left) == Keys(t.left) + {k}
    requires H(t.left) <= H(left) <= H(t.left) + 1
    requires t.left.Node? && H(left) > H(t.left) ==> LeansTo(left, k) && Avl(left)
    requires t.left.Leaf? ==> Avl(left)
    ensures Rotatable(WithHeight(t.(left := left)), k)
  {
    HeightsArePositive(t);
    HeightsArePositive(t.right);
  }

  /** What it does to the heights. */
  lemma LeftHeights(t: Tree, left: Tree, k: int)
    requires t.Node? && Avl(t) && k < t.key && left.Node? && left.height >= 1
    requires H(t.left) <= H(left) <= H(t.left) + 1
    requires t.left.Node? && H(left) > H(t.left) ==> LeansTo(left, k) && Avl(left)
    requires t.left.Leaf? ==> Avl(left)
    requires Rotatable(WithHeight(t.(left := left)), k)
    ensures var u := WithHeight(t.(left := left)); var r := Rebalance(u, k);
            && H(t) <= H(r) <= H(t) + 1
            && (H(r) > H(t) <==> H(left) > H(t.left) && Balance(t) == 0)
            && (H(r) > H(t) ==> LeansTo(r, k) && Avl(r))
            && (Avl(left) ==> Avl(r))
  {
    hide Avl, HeightsRight, Balanced, Rotatable, Rebalance;
    var u := WithHeight(t.(left := left));
    AvlParts(t);
    AvlParts(u);
    if Balance(u) == 2 {
      RebalanceLeft(u, k);
    } else {
      NothingToTurn(u, k);
    }
  }

  lemma GrownLeft(t: Tree, left: Tree, k: int)
    requires t.Node? && Valid(t) && k < t.key
    requires left.Node? && Ordered(left) && Positive(left) && Keys(left) == Keys(t.left) + {k}
    requires H(t.left) <= H(left) <= H(t.left) + 1
    requires t.left.Node? && H(left) > H(t.left) ==> LeansTo(left, k) && Avl(left)
    requires t.left.Leaf? ==> Avl(left)
    ensures Ordered(t.(left := left)) && Keys(t.(left := left)) == Keys(t) + {k} && Positive(t.(left := left))
    ensures var u := WithHeight(t.(left := left));
            && Rotatable(u, k) && (var r := Rebalance(u, k);
            && r.Node? && Ordered(r) && Positive(r) && Keys(r) == Keys(t) + {k}
            && H(t) <= H(r) <= H(t) + 1
            && (H(r) > H(t) ==> LeansTo(r, k) && Avl(r))
            && (Avl(left) ==> Avl(r)))
  {
    hide ToMap, Pairs, Keys, Balance, LeansTo, Ordered, Balanced, Rotatable, Rebalance;
    HeightsArePositive(t);
    LeftRotatable(t, left, k);
    OrderedLeft(t, left, k);
    Settles(t.(left := left), k);
    LeftHeights(t, left, k);
  }

  /** On a balanced tree with right heights neither reading crashes. The height grows by at most
      one, and only towards `k`. */
  lemma {:induction false} InsertIntoValid(elseIf: bool, t: Tree, k: int, v: int)
    requires Valid(t)
    ensures Insert(elseIf, t, k, v).Some?
    ensures var r := Insert(elseIf, t, k, v).value;
            && r.Node? && Ordered(r) && Positive(r) && Keys(r) == Keys(t) + {k}
            && H(t) <= H(r) <= H(t) + 1
            && (t.Node? && H(r) > H(t) ==> LeansTo(r, k) && Avl(r))
            && (t.Leaf? || elseIf ==> Avl(r))
    decreases t
  {
    HeightsArePositive(t);
    if t.Node? && k > t.key {
      InsertIntoValid(elseIf, t.right, k, v);
      GrownRight(t, Insert(elseIf, t.right, k, v).value, k);
    } else if t.Node? && k < t.key {
      InsertIntoValid(elseIf, t.left, k, v);
      GrownLeft(t, Insert(elseIf, t.left, k, v).value, k);
    }
  }

  function Inserted(elseIf: bool, t: Tree, k: int, v: int): (r: Tree)
    requires Valid(t)
    ensures Insert(elseIf, t, k, v) == Some(r) && (elseIf ==> Valid(r))
  {
    InsertIntoValid(elseIf, t, k, v);
    Insert(elseIf, t, k, v).value
  }

  // ---------- insert as a map update ----------

  lemma RightUpdate(l: map<int, int>, r: map<int, int>, r': map<int, int>, x: int, val: int, k: int, v: int)
    requires r'.Keys == r.Keys + {k} && k !in l && k != x && l.Keys !! r.Keys && x !in r
    ensures l + r' + map[x := val] == (l + r + map[x := val])[k := v] <==> r' == r[k := v]
  {
    var m, m' := (l + r + map[x := val])[k := v], l + r' + map[x := val];
    if m' == m {
      forall q | q in r' ensures r'[q] == r[k := v][q] {
        assert m'[q] == m[q];
      }
    }
  }

  lemma LeftUpdate(l: map<int, int>, l': map<int, int>, r: map<int, int>, x: int, val: int, val': int, k: int, v: int)
    requires l'.Keys == l.Keys + {k} && k !in r && k != x && l.Keys !! r.Keys && x !in l
    ensures l' + r + map[x := val'] == (l + r + map[x := val])[k := v] <==> val' == val && l' == l[k := v]
  {
    var m, m' := (l + r + map[x := val])[k := v], l' + r + map[x := val'];
    if m' == m {
      assert m'[x] == m[x];
      forall q | q in l' ensures l'[q] == l[k := v][q] {
        assert m'[q] == m[q];
      }
    }
  }

  /** Every node where the search for `k` turns left holds `v` already. */
  predicate LeftTurnsHold(t: Tree, k: int, v: int) {
    t.Node? && k != t.key ==>
      if k < t.key then t.value == v && LeftTurnsHold(t.left, k, v) else LeftTurnsHold(t.right, k, v)
  }

  /** On every search tree on which insertion does not crash, the map is updated at `k` and nowhere
      else: always with `else if`; as the file has it, exactly when no overwriting on the way
      shows. */
  lemma {:induction false} InsertUpdatesMapIff(elseIf: bool, t: Tree, k: int, v: int)
    requires Ordered(t) && Insert(elseIf, t, k, v).Some?
    ensures ToMap(Insert(elseIf, t, k, v).value) == ToMap(t)[k := v] <==> elseIf || LeftTurnsHold(t, k, v)
    decreases t
  {
    hide ToMap, Insert;
    if t.Leaf? || k == t.key {
      InsertHere(elseIf, t, k, v);
    } else if k > t.key {
      InsertUnder(elseIf, t, k, v);
      InsertUpdatesMapIff(elseIf, t.right, k, v);
      InsertRightMap(elseIf, t, k, v);
    } else {
      InsertUnder(elseIf, t, k, v);
      InsertUpdatesMapIff(elseIf, t.left, k, v);
      InsertLeftMap(elseIf, t, k, v);
    }
  }

  lemma InsertHere(elseIf: bool, t: Tree, k: int, v: int)
    requires Ordered(t) && (t.Leaf? || k == t.key)
    ensures Insert(elseIf, t, k, v).Some? && ToMap(Insert(elseIf, t, k, v).value) == ToMap(t)[k := v]
  {
  }

  lemma InsertUnder(elseIf: bool, t: Tree, k: int, v: int)
    requires t.Node? && k != t.key && Insert(elseIf, t, k, v).Some?
    ensures Insert(elseIf, if k < t.key then t.left else t.right, k, v).Some?
  {
  }

  lemma InsertRightMap(elseIf: bool, t: Tree, k: int, v: int)
    requires Ordered(t) && t.Node? && k > t.key && Insert(elseIf, t, k, v).Some?
    ensures ToMap(Insert(elseIf, t, k, v).value) == ToMap(t)[k := v]
            <==> ToMap(Insert(elseIf, t.right, k, v).value) == ToMap(t.right)[k := v]
  {
    hide Ordered, Keys, Rebalance, Rotatable;
    var right := Insert(elseIf, t.right, k, v).value;
    SubtreesAreDisjoint(t);
    InsertKeepsOrder(elseIf, t.right, k, v);
    OrderedRight(t, right, k);
    Settles(t.(right := right), k);
    MapKeys(right);
    KeySides(t, k);
    RightUpdate(ToMap(t.left), ToMap(t.right), ToMap(right), t.key, t.value, k, v);
  }

  lemma InsertLeftMap(elseIf: bool, t: Tree, k: int, v: int)
    requires Ordered(t) && t.Node? && k < t.key && Insert(elseIf, t, k, v).Some?
    ensures ToMap(Insert(elseIf, t, k, v).value) == ToMap(t)[k := v]
            <==> (elseIf || t.value == v) && ToMap(Insert(elseIf, t.left, k, v).value) == ToMap(t.left)[k := v]
  {
    hide Ordered, Keys, Rebalance, Rotatable;
    var left := Insert(elseIf, t.left, k, v).value;
    SubtreesAreDisjoint(t);
    InsertKeepsOrder(elseIf, t.left, k, v);
    OrderedLeft(t, left, k);
    if elseIf {
      Settles(t.(left := left), k);
    }
    MapKeys(left);
    KeySides(t, k);
    LeftUpdate(ToMap(t.left), ToMap(left), ToMap(t.right), t.key, t.value, if elseIf then t.value else v, k, v);
  }

  lemma KeySides(t: Tree, k: int)
    requires Ordered(t) && t.Node?
    ensures k > t.key ==> k !in Keys(t.left)
    ensures k < t.key ==> k !in Keys(t.right)
  {
  }

  /** With `else if`, insertion keeps the tree an ordered, balanced one with right heights. */
  lemma InsertKeepsValid(t: Tree, k: int, v: int)
    requires Valid(t)
    ensures Insert(true, t, k, v).Some? && Valid(Insert(true, t, k, v).value)
    ensures ToMap(Insert(true, t, k, v).value) == ToMap(t)[k := v]
  {
    InsertIntoValid(true, t, k, v);
    InsertUpdatesMapIff(true, t, k, v);
  }

  // ---------- insert as the file has it: null links ----------

  /** On which side of a key `k` lies. */
  datatype Side = Below | At | Above

  function SideOf(k: int, key: int): Side {
    if k < key then Below else if k == key then At else Above
  }

  /** A node as its parent's tests see it: the side of `k`, its height, its children's heights. */
  datatype Top = Top(side: Side, h: int, left: int, right: int)

  /** The root of a subtree, and its left child. */
  datatype View = View(top: Top, inner: Top)

  function TopOf(t: Tree, k: int): Top {
    if t.Leaf? then Top(At, 0, 0, 0) else Top(SideOf(k, t.key), t.height, H(t.left), H(t.right))
  }

  function ViewOf(t: Tree, k: int): View {
    View(TopOf(t, k), if t.Leaf? then TopOf(Leaf, k) else TopOf(t.left, k))
  }

  function Raised(side: Side, left: int, right: int): Top {
    Top(side, 1 + Max(left, right), left, right)
  }

  function Over(side: Side, left: Top, right: int): View {
    View(Raised(side, left.h, right), left)
  }

  /** The view of `t` once the subtree on its right, where `k` went, has the view `y`. */
  function Joined(t: Tree, y: View, k: int): View
    requires t.Node?
  {
    var l, b := t.left, H(t.left) - y.top.h;
    if b > 1 && l.Node? && l.right.Node? then
      Over(Above, Raised(Above, H(l.left), H(l.right.left)), 1 + Max(H(l.right.right), y.top.h))
    else if b < -1 && y.top.side == Above then
      Over(Above, Raised(Above, H(l), y.top.left), y.top.right)
    else if b < -1 && y.top.side == Below then
      Over(y.inner.side, Raised(Above, H(l), y.inner.left), 1 + Max(y.inner.right, y.top.right))
    else Over(Above, TopOf(l, k), y.top.h)
  }

  /** The view of a tree after the insertion of `k` as the file has it, from the heights that stand
      on the search path before it. */
  function After(t: Tree, k: int): View {
    if t.Leaf? then View(Top(At, 1, 0, 0), TopOf(Leaf, k))
    else if k == t.key then ViewOf(t, k)
    else if k > t.key then Joined(t, After(t.right, k), k)
    else
      var left := After(t.left, k).top;
      View(Top(Below, t.height, left.h, H(t.right)), left)
  }

  /** At some right turn of the search, the left child is higher by two or more than the right side
      will be, and has no right child that a double rotation could bring up. */
  predicate Crashes(t: Tree, k: int) {
    t.Node? && k != t.key
    && if k < t.key then Crashes(t.left, k)
       else Crashes(t.right, k)
            || (t.left.Node? && t.left.right.Leaf? && H(t.left) > 1 + After(t.right, k).top.h)
  }

  /** As the file has it, insertion into a search tree follows a null link exactly when it does so
      at such a turn; otherwise its result looks as foreseen. */
  lemma {:induction false} WrittenCrashesIff(t: Tree, k: int, v: int)
    requires Ordered(t) && Positive(t)
    ensures Insert(false, t, k, v) == None <==> Crashes(t, k)
    ensures Insert(false, t, k, v).Some? ==> ViewOf(Insert(false, t, k, v).value, k) == After(t, k)
    decreases t
  {
    if t.Node? && k > t.key {
      WrittenCrashesIff(t.right, k, v);
      if Insert(false, t.right, k, v).Some? {
        InsertKeepsOrder(false, t.right, k, v);
        JoinedIsSeen(t, Insert(false, t.right, k, v).value, k);
      }
    } else if t.Node? && k < t.key {
      WrittenCrashesIff(t.left, k, v);
    }
  }

  /** One right turn: `y` is the right subtree with `k` in it. */
  lemma JoinedIsSeen(t: Tree, y: Tree, k: int)
    requires t.Node? && k > t.key && Ordered(t) && Positive(t)
    requires y.Node? && Ordered(y) && Positive(y) && Keys(y) == Keys(t.right) + {k}
    ensures var r, b := Rebalanced(WithHeight(t.(right := y)), k), H(t.left) - H(y);
            && (r == None <==> t.left.Node? && t.left.right.Leaf? && b > 1)
            && (r.Some? ==> ViewOf(r.value, k) == Joined(t, ViewOf(y, k), k))
  {
    hide Ordered, Keys, Positive;
    RightTurnKeys(t, y, k);
  }

  lemma RightTurnKeys(t: Tree, y: Tree, k: int)
    requires t.Node? && k > t.key && Ordered(t)
    requires y.Node? && Ordered(y) && Positive(y) && Keys(y) == Keys(t.right) + {k}
    ensures H(y) >= 1
    ensures t.left.Node? ==> t.left.key < k && (t.left.right.Node? ==> t.left.right.key < k)
    ensures t.key < y.key && (y.left.Node? ==> t.key < y.left.key) && (k < y.key ==> y.left.Node?)
  {
    assert t.left.Node? ==> t.left.key in Keys(t.left);
    assert t.left.Node? && t.left.right.Node? ==> t.left.right.key in Keys(t.left);
    assert k in Keys(y) && y.key in Keys(y);
    assert k < y.key ==> k in Keys(y.left);
    assert y.left.Node? ==> y.left.key in Keys(y);
  }

  // ---------- insert as the file has it: the heights ----------

  predicate TurnsLeft(t: Tree, k: int) {
    t.Node? && k != t.key && (k < t.key || TurnsLeft(t.right, k))
  }

  /** The tree would grow, read with `else if`: the key is new, and every node on its way is in
      perfect balance. */
  predicate Grows(t: Tree, k: int) {
    t.Node? ==> k != t.key && Balance(t) == 0 && Grows(if k < t.key then t.left else t.right, k)
  }

  /** At every left turn of the search, the subtree below does not outgrow its sibling. */
  predicate Quiet(t: Tree, k: int) {
    t.Node? && k != t.key ==>
      if k < t.key then Quiet(t.left, k) && (Grows(t.left, k) ==> H(t.left) < H(t.right))
      else Quiet(t.right, k)
  }

  lemma {:induction false} GrowsIff(t: Tree, k: int, v: int)
    requires Valid(t)
    ensures H(Inserted(true, t, k, v)) > H(t) <==> Grows(t, k)
    decreases t
  {
    HeightsArePositive(t);
    if t.Node? && k > t.key {
      GrowsIff(t.right, k, v);
      InsertIntoValid(true, t.right, k, v);
      RightGrowsIff(t, Inserted(true, t.right, k, v), k);
    } else if t.Node? && k < t.key {
      GrowsIff(t.left, k, v);
      InsertIntoValid(true, t.left, k, v);
      LeftGrowsIff(t, Inserted(true, t.left, k, v), k);
    }
  }

  lemma RightGrowsIff(t: Tree, right: Tree, k: int)
    requires t.Node? && Valid(t) && k > t.key && right.Node? && Ordered(right) && Positive(right) && Avl(right)
    requires Keys(right) == Keys(t.right) + {k} && H(t.right) <= H(right) <= H(t.right) + 1
    requires t.right.Node? && H(right) > H(t.right) ==> LeansTo(right, k)
    ensures var u := WithHeight(t.(right := right));
            Rotatable(u, k) && (H(Rebalance(u, k)) > H(t) <==> H(right) > H(t.right) && Balance(t) == 0)
  {
    RightRotatable(t, right, k);
    hide *;
    RightHeights(t, right, k);
  }

  lemma LeftGrowsIff(t: Tree, left: Tree, k: int)
    requires t.Node? && Valid(t) && k < t.key && left.Node? && Ordered(left) && Positive(left) && Avl(left)
    requires Keys(left) == Keys(t.left) + {k} && H(t.left) <= H(left) <= H(t.left) + 1
    requires t.left.Node? && H(left) > H(t.left) ==> LeansTo(left, k)
    ensures var u := WithHeight(t.(left := left));
            Rotatable(u, k) && (H(Rebalance(u, k)) > H(t) <==> H(left) > H(t.left) && Balance(t) == 0)
  {
    LeftRotatable(t, left, k);
    hide *;
    LeftHeights(t, left, k);
  }

  /** As the file has it, a tree whose search turns left keeps its height; one whose search does not
      is treated as intended. */
  lemma {:induction false} WrittenTurns(t: Tree, k: int, v: int)
    requires Valid(t)
    ensures TurnsLeft(t, k) ==> H(Inserted(false, t, k, v)) == H(t)
    ensures !TurnsLeft(t, k) ==> Inserted(false, t, k, v) == Inserted(true, t, k, v)
    decreases t
  {
    if t.Node? && k > t.key {
      WrittenTurns(t.right, k, v);
      InsertIntoValid(false, t.right, k, v);
      GrownRight(t, Inserted(false, t.right, k, v), k);
    }
  }

  lemma {:induction false} QuietTurnsDoNotGrow(t: Tree, k: int)
    requires Avl(t) && TurnsLeft(t, k) && Quiet(t, k)
    ensures !Grows(t, k)
    decreases t
  {
    if k > t.key {
      QuietTurnsDoNotGrow(t.right, k);
    }
  }

  /** As the file has it, insertion leaves a valid tree valid exactly when every left turn is
      quiet: the nodes where it turned left keep their old height and are not rebalanced. */
  lemma {:induction false} WrittenKeepsAvlIff(t: Tree, k: int, v: int)
    requires Valid(t)
    ensures Avl(Inserted(false, t, k, v)) <==> Quiet(t, k)
    decreases t
  {
    if t.Node? && k > t.key {
      WrittenKeepsAvlIff(t.right, k, v);
      WrittenRight(t, k, v);
    } else if t.Node? && k < t.key {
      WrittenKeepsAvlIff(t.left, k, v);
      WrittenLeft(t, k, v);
    }
  }

  lemma WrittenRight(t: Tree, k: int, v: int)
    requires Valid(t) && t.Node? && k > t.key
    ensures Avl(Inserted(false, t, k, v)) <==> Avl(Inserted(false, t.right, k, v))
  {
    WrittenTurns(t.right, k, v);
    InsertIntoValid(false, t.right, k, v);
    GrownRight(t, Inserted(false, t.right, k, v), k);
    if TurnsLeft(t.right, k) {
      assert H(Inserted(false, t.right, k, v)) == H(t.right);
    } else {
      InsertIntoValid(true, t.right, k, v);
    }
  }

  lemma WrittenLeft(t: Tree, k: int, v: int)
    requires Valid(t) && t.Node? && k < t.key && (Avl(Inserted(false, t.left, k, v)) <==> Quiet(t.left, k))
    ensures Avl(Inserted(false, t, k, v)) <==> Quiet(t, k)
  {
    WrittenTurns(t.left, k, v);
    GrowsIff(t.left, k, v);
    InsertIntoValid(true, t.left, k, v);
    if TurnsLeft(t.left, k) && Quiet(t.left, k) {
      QuietTurnsDoNotGrow(t.left, k);
    }
  }

  /** Any two keys put in descending order, as in `put(2, 20); put(1, 10)`: the first key's value
      is overwritten and its node keeps height 1. */
  lemma WrittenGoesWrong(k: int, v: int, k': int, v': int)
    requires k' < k && v' != v
    ensures Insert(false, Leaf, k, v) == Some(Single(k, v)) && Valid(Single(k, v))
    ensures var t := Node(Single(k', v'), k, v', 1, Leaf);
            Insert(false, Single(k, v), k', v') == Some(t)
            && !HeightsRight(t) && ToMap(t) != ToMap(Single(k, v))[k' := v']
  {
    var t := Node(Single(k', v'), k, v', 1, Leaf);
    assert Insert(false, Leaf, k', v') == Some(Single(k', v'));
    assert ToMap(t)[k] == v';
  }

  // ---------- Height and size ----------

  function Size(t: Tree): nat {
    if t.Leaf? then 0 else Size(t.left) + 1 + Size(t.right)
  }

  function Fib(n: nat): nat {
    if n < 2 then n else Fib(n - 1) + Fib(n - 2)
  }

  lemma {:induction false} FibGrows(m: nat, n: nat)
    requires m <= n
    ensures Fib(m) <= Fib(n)
  {
    if n >= 2 && m < n {
      FibGrows(if m < n - 1 then m else n - 1, n - 1);
    }
  }

  /** A tree of height h has at least Fib(h + 2) - 1 nodes: the height is logarithmic. */
  lemma {:induction false} AvlIsDense(t: Tree)
    requires Avl(t)
    ensures H(t) >= 0 && Size(t) + 1 >= Fib(H(t) + 2)
  {
    hide Avl, HeightsRight, Balanced, Fib;
    FibStep(0);
    if t.Node? {
      AvlParts(t);
      AvlIsDense(t.left);
      AvlIsDense(t.right);
      var h := H(t);
      FibStep(h);
      FibGrows(h, H(t.left) + 2);
      FibGrows(h, H(t.right) + 2);
    }
  }

  lemma FibStep(n: nat)
    ensures Fib(0) == 0 && Fib(1) == 1 && Fib(n + 2) == Fib(n + 1) + Fib(n)
  {
  }

  // ---------- Runs of puts ----------

  /** All trees that `put` can build from the empty one, up to a crash. */
  function PutAll(elseIf: bool, entries: seq<(int, int)>): Option<Tree>
    decreases |entries|
  {
    if entries == [] then Some(Leaf) else
    var last := entries[|entries| - 1];
    match PutAll(elseIf, entries[..|entries| - 1])
    case None => None
    case Some(t) => Insert(elseIf, t, last.0, last.1)
  }

  function MapOf(entries: seq<(int, int)>): map<int, int>
    decreases |entries|
  {
    if entries == [] then map[] else
    var last := entries[|entries| - 1];
    MapOf(entries[..|entries| - 1])[last.0 := last.1]
  }

  /** With `else if` no run crashes, and each builds a balanced search tree that holds its map. */
  lemma {:induction false} PutAllIsMap(entries: seq<(int, int)>)
    ensures PutAll(true, entries).Some?
    ensures var t := PutAll(true, entries).value;
            Valid(t) && ToMap(t) == MapOf(entries) && H(t) >= 0 && Size(t) + 1 >= Fib(H(t) + 2)
    decreases |entries|
  {
    if entries != [] {
      var last := entries[|entries| - 1];
      PutAllIsMap(entries[..|entries| - 1]);
      InsertKeepsValid(PutAll(true, entries[..|entries| - 1]).value, last.0, last.1);
    }
    AvlIsDense(PutAll(true, entries).value);
  }

  /** In either reading, over every run that does not crash: a search tree with the keys put. */
  lemma {:induction false} RunsKeepOrder(elseIf: bool, entries: seq<(int, int)>)
    requires PutAll(elseIf, entries).Some?
    ensures var t := PutAll(elseIf, entries).value; Ordered(t) && Positive(t) && Keys(t) == MapOf(entries).Keys
    decreases |entries|
  {
    if entries != [] {
      var last := entries[|entries| - 1];
      RunsKeepOrder(elseIf, entries[..|entries| - 1]);
      InsertKeepsOrder(elseIf, PutAll(elseIf, entries[..|entries| - 1]).value, last.0, last.1);
    }
  }

  /** As the file has it, a run without a crash holds its map at every moment exactly when no put
      overwrites a value visibly on its way. */
  lemma {:induction false} WrittenRunIsMapIff(entries: seq<(int, int)>)
    requires PutAll(false, entries).Some?
    ensures WrittenRunHolds(entries) <==> WrittenRunIsKind(entries)
    decreases |entries|
  {
    if entries != [] {
      var n, last := |entries| - 1, entries[|entries| - 1];
      var t := PutAll(false, entries[..n]).value;
      WrittenRunIsMapIff(entries[..n]);
      RunsKeepOrder(false, entries[..n]);
      InsertUpdatesMapIff(false, t, last.0, last.1);
    }
  }

  predicate WrittenRunHolds(entries: seq<(int, int)>)
    requires PutAll(false, entries).Some?
    decreases |entries|
  {
    && ToMap(PutAll(false, entries).value) == MapOf(entries)
    && (entries == [] || WrittenRunHolds(entries[..|entries| - 1]))
  }

  predicate WrittenRunIsKind(entries: seq<(int, int)>)
    requires PutAll(false, entries).Some?
    decreases |entries|
  {
    entries == []
    || (var n := |entries| - 1;
        LeftTurnsHold(PutAll(false, entries[..n]).value, entries[n].0, entries[n].1) && WrittenRunIsKind(entries[..n]))
  }

  /** As the file has it, a run without a crash and then one more put. */
  lemma PutNext(elseIf: bool, entries: seq<(int, int)>, k: int, v: int)
    requires PutAll(elseIf, entries).Some?
    ensures PutAll(elseIf, entries + [(k, v)]) == Insert(elseIf, PutAll(elseIf, entries).value, k, v)
  {
    assert (entries + [(k, v)])[..|entries|] == entries;
  }

  /** As the file has it, a run crashes with its last put exactly when the tree before it says so. */
  lemma WrittenRunCrashesIff(entries: seq<(int, int)>, k: int, v: int)
    requires PutAll(false, entries).Some?
    ensures PutAll(false, entries + [(k, v)]) == None <==> Crashes(PutAll(false, entries).value, k)
  {
    PutNext(false, entries, k, v);
    RunsKeepOrder(false, entries);
    WrittenCrashesIff(PutAll(false, entries).value, k, v);
  }

  /** Four puts, and then three more. */
  const FOUR_PUTS: seq<(int, int)> := [(5, 0), (0, 0), (3, 0), (1, 0)]
  const SEVEN_PUTS: seq<(int, int)> := FOUR_PUTS + [(2, 0)] + [(4, 0)] + [(6, 0)]

  function OneTwo(): Tree {
    Node(Leaf, 1, 0, 2, Single(2, 0))
  }

  /** The first key put stays at the root with its first height while everything goes to its left. */
  function UnderFive(left: Tree): Tree {
    Node(left, 5, 0, 1, Leaf)
  }

  /** What the seven puts leave behind: on the left of the root, a node of height 4 without a right
      child; on its right, height 2. */
  function LeftHeavy(): Tree {
    Node(Node(Node(Leaf, 0, 0, 3, OneTwo()), 3, 0, 4, Leaf), 4, 0, 5, Node(Leaf, 5, 0, 2, Single(6, 0)))
  }

  /** As the file has it, `put` of 5, 0, 3, 1, 2, 4, 6 works and `put` of 7 after it follows a null
      link; read with `else if` no run does. */
  lemma EightPutsCrash(v: int)
    ensures PutAll(false, SEVEN_PUTS) == Some(LeftHeavy())
    ensures PutAll(false, SEVEN_PUTS + [(7, v)]) == None && PutAll(true, SEVEN_PUTS + [(7, v)]).Some?
  {
    SevenPuts();
    assert Crashes(LeftHeavy(), 7);
    WrittenRunCrashesIff(SEVEN_PUTS, 7, v);
    PutAllIsMap(SEVEN_PUTS + [(7, v)]);
  }

  lemma SevenPuts()
    ensures PutAll(false, SEVEN_PUTS) == Some(LeftHeavy())
  {
    hide Insert, PutAll;
    FourPuts();
    FifthAndSixthPut();
    SeventhPut();
    PutNext(false, FOUR_PUTS, 2, 0);
    PutNext(false, FOUR_PUTS + [(2, 0)], 4, 0);
    PutNext(false, FOUR_PUTS + [(2, 0)] + [(4, 0)], 6, 0);
  }

  lemma FourPuts()
    ensures PutAll(false, FOUR_PUTS) == Some(UnderFive(Node(Leaf, 0, 0, 2, Node(Single(1, 0), 3, 0, 1, Leaf))))
  {
    var one, two, three := [(5, 0)], [(5, 0), (0, 0)], [(5, 0), (0, 0), (3, 0)];
    assert [] + [(5, 0)] == one && one + [(0, 0)] == two && two + [(3, 0)] == three && three + [(1, 0)] == FOUR_PUTS;
    assert Insert(false, Single(3, 0), 1, 0) == Some(Node(Single(1, 0), 3, 0, 1, Leaf));
    PutNext(false, [], 5, 0);
    PutNext(false, one, 0, 0);
    PutNext(false, two, 3, 0);
    PutNext(false, three, 1, 0);
  }

  lemma FifthAndSixthPut()
    ensures Insert(false, UnderFive(Node(Leaf, 0, 0, 2, Node(Single(1, 0), 3, 0, 1, Leaf))), 2, 0)
            == Some(UnderFive(Node(Leaf, 0, 0, 2, Node(OneTwo(), 3, 0, 1, Leaf))))
    ensures Insert(false, UnderFive(Node(Leaf, 0, 0, 2, Node(OneTwo(), 3, 0, 1, Leaf))), 4, 0)
            == Some(UnderFive(Node(Node(Leaf, 0, 0, 3, OneTwo()), 3, 0, 4, Single(4, 0))))
  {
    assert Insert(false, Single(1, 0), 2, 0) == Some(OneTwo());
    assert Insert(false, Node(Single(1, 0), 3, 0, 1, Leaf), 2, 0) == Some(Node(OneTwo(), 3, 0, 1, Leaf));
    assert Insert(false, Node(OneTwo(), 3, 0, 1, Leaf), 4, 0) == Some(Node(OneTwo(), 3, 0, 3, Single(4, 0)));
    assert Insert(false, Node(Leaf, 0, 0, 2, Node(OneTwo(), 3, 0, 1, Leaf)), 4, 0)
           == Some(Node(Node(Leaf, 0, 0, 3, OneTwo()), 3, 0, 4, Single(4, 0)));
  }

  lemma SeventhPut()
    ensures Insert(false, UnderFive(Node(Node(Leaf, 0, 0, 3, OneTwo()), 3, 0, 4, Single(4, 0))), 6, 0)
            == Some(LeftHeavy())
  {
    var t := UnderFive(Node(Node(Leaf, 0, 0, 3, OneTwo()), 3, 0, 4, Single(4, 0)));
    assert Insert(false, Leaf, 6, 0) == Some(Single(6, 0));
    var u := WithHeight(t.(right := Single(6, 0)));
    assert Balance(u) == 3 && Rotatable(u, 6);
    assert RotateLeft(u.left) == Node(Node(Node(Leaf, 0, 0, 3, OneTwo()), 3, 0, 4, Leaf), 4, 0, 5, Leaf);
    assert Rebalance(u, 6) == LeftHeavy();
  }

  ghost predicate WrittenRunIsAvl(entries: seq<(int, int)>)
    decreases |entries|
  {
    PutAll(false, entries).Some? && Avl(PutAll(false, entries).value)
    && (entries == [] || WrittenRunIsAvl(entries[..|entries| - 1]))
  }

  predicate WrittenRunIsQuiet(entries: seq<(int, int)>)
    decreases |entries|
  {
    entries == []
    || (var n := |entries| - 1;
        WrittenRunIsQuiet(entries[..n]) && PutAll(false, entries[..n]).Some?
        && Quiet(PutAll(false, entries[..n]).value, entries[n].0))
  }

  /** As the file has it, the tree is balanced with right heights at every moment of a run exactly
      when every put is quiet. */
  lemma {:induction false} WrittenRunIsAvlIff(entries: seq<(int, int)>)
    ensures WrittenRunIsAvl(entries) <==> WrittenRunIsQuiet(entries)
    decreases |entries|
  {
    if entries != [] {
      var n, last := |entries| - 1, entries[|entries| - 1];
      WrittenRunIsAvlIff(entries[..n]);
      if WrittenRunIsAvl(entries[..n]) {
        RunsKeepOrder(false, entries[..n]);
        WrittenKeepsAvlIff(PutAll(false, entries[..n]).value, last.0, last.1);
      }
    }
  }

  // ---------- Lookup ----------

  /** `serchNode`. */
  function Search(t: Tree, k: int): Option<int> {
    if t.Leaf? then None
    else if k < t.key then Search(t.left, k)
    else if k > t.key then Search(t.right, k)
    else Some(t.value)
  }

  lemma {:induction false} SearchIsLookup(t: Tree, k: int)
    requires Ordered(t)
    ensures Search(t, k) == if k in ToMap(t) then Some(ToMap(t)[k]) else None
  {
    if t.Node? {
      SearchIsLookup(t.left, k);
      SearchIsLookup(t.right, k);
      SubtreesAreDisjoint(t);
    }
  }

  ghost predicate Ascending(ps: seq<(int, int)>) {
    forall i, j | 0 <= i < j < |ps| :: ps[i].0 < ps[j].0
  }

  lemma AscendingJoin(a: seq<(int, int)>, p: (int, int), b: seq<(int, int)>)
    requires Ascending(a) && Ascending(b)
    requires (forall q | q in a :: q.0 < p.0) && (forall q | q in b :: p.0 < q.0)
    ensures Ascending(a + [p] + b)
  {
    var all := a + [p] + b;
    forall i, j | 0 <= i < j < |all| ensures all[i].0 < all[j].0 {
      assert i < |a| ==> all[i] == a[i] && a[i] in a;
      assert j > |a| ==> all[j] == b[j - |a| - 1] && b[j - |a| - 1] in b;
    }
  }

  ghost predicate ListsEntry(t: Tree, k: int, v: int) {
    (k, v) in Pairs(t) <==> k in ToMap(t) && ToMap(t)[k] == v
  }

  /** The in-order sequence is the map, in ascending order of its keys. */
  lemma {:induction false} PairsAreTheMap(t: Tree)
    requires Ordered(t)
    ensures Ascending(Pairs(t))
    ensures forall k, v :: ListsEntry(t, k, v)
  {
    if t.Node? {
      PairsAreTheMap(t.left);
      PairsAreTheMap(t.right);
      SubtreesAreDisjoint(t);
      var a, p, b := Pairs(t.left), (t.key, t.value), Pairs(t.right);
      forall q | q in a ensures q.0 < p.0 {
        assert ListsEntry(t.left, q.0, q.1);
      }
      forall q | q in b ensures p.0 < q.0 {
        assert ListsEntry(t.right, q.0, q.1);
      }
      AscendingJoin(a, p, b);
      forall k, v ensures ListsEntry(t, k, v) {
        NodeListsEntry(t, k, v);
      }
    }
  }

  lemma NodeListsEntry(t: Tree, k: int, v: int)
    requires t.Node? && Ordered(t) && ListsEntry(t.left, k, v) && ListsEntry(t.right, k, v)
    ensures ListsEntry(t, k, v)
  {
    SubtreesAreDisjoint(t);
    var a, b := Pairs(t.left), Pairs(t.right);
    assert (k, v) in Pairs(t) <==> (k, v) in a || (k, v) == (t.key, t.value) || (k, v) in b;
  }
}
