/** The doubly linked list of basic/STL/myList.h between its two sentinels, and iterators into it. */
module LinkedList {

  class Node {
    const data: int
    var next: Node?
    var prev: Node?

    constructor (data: int)
      ensures this.data == data && next == null && prev == null
    {
      this.data, next, prev := data, null, null;
    }
  }

  ghost predicate Adjacent(a: Node, b: Node)
    reads a, b
  {
    a.next == b && b.prev == a
  }

  ghost predicate Distinct(ns: seq<Node>) {
    forall i, j | 0 <= i < j < |ns| :: ns[i] != ns[j]
  }

  /** All nodes from the first sentinel to the last: `next` and `prev` are inverse to each other. */
  ghost predicate Chain(ns: seq<Node>)
    reads set i | 0 <= i < |ns| :: ns[i]
  {
    && |ns| >= 2 && Distinct(ns) && ns[0].prev == null && ns[|ns| - 1].next == null
    && forall i | 0 <= i < |ns| - 1 :: Adjacent(ns[i], ns[i + 1])
  }

  function Inserted<T>(s: seq<T>, p: nat, x: T): (r: seq<T>)
    requires p <= |s|
    ensures |r| == |s| + 1
  {
    s[..p] + [x] + s[p..]
  }

  function Erased<T>(s: seq<T>, p: nat): (r: seq<T>)
    requires p < |s|
    ensures |r| == |s| - 1
  {
    s[..p] + s[p + 1..]
  }

  ghost function Data(ns: seq<Node>): (s: seq<int>)
    ensures |s| == |ns| && forall i | 0 <= i < |ns| :: s[i] == ns[i].data
  {
    seq(|ns|, i requires 0 <= i < |ns| => ns[i].data)
  }

  /** What the nodes between the sentinels hold. */
  ghost function Inner(ns: seq<Node>): seq<int>
    requires |ns| >= 2
  {
    Data(ns)[1..|ns| - 1]
  }

  lemma InnerOfInserted(ns: seq<Node>, p: nat, n: Node)
    requires 0 < p < |ns|
    ensures Inner(Inserted(ns, p, n)) == Inserted(Inner(ns), p - 1, n.data)
  {
    var s := Data(ns);
    assert Data(Inserted(ns, p, n)) == Inserted(s, p, n.data);
    assert s[1..|s| - 1][..p - 1] == s[1..p] && s[1..|s| - 1][p - 1..] == s[p..|s| - 1];
    assert Inserted(s, p, n.data)[1..|s|] == s[1..p] + [n.data] + s[p..|s| - 1];
  }

  lemma InnerOfErased(ns: seq<Node>, p: nat)
    requires 0 < p < |ns| - 1
    ensures Inner(Erased(ns, p)) == Erased(Inner(ns), p - 1)
  {
    var s := Data(ns);
    assert Data(Erased(ns, p)) == Erased(s, p);
    assert s[1..|s| - 1][..p - 1] == s[1..p] && s[1..|s| - 1][p..] == s[p + 1..|s| - 1];
    assert Erased(s, p)[1..|s| - 2] == s[1..p] + s[p + 1..|s| - 1];
  }

  /** Where an iterator at `nodes[i]` is after an insertion before `nodes[p]`: at the same node. */
  lemma InsertedKeepsOthers<T>(s: seq<T>, p: nat, x: T, i: nat)
    requires p <= |s| && i < |s|
    ensures Inserted(s, p, x)[if i < p then i else i + 1] == s[i]
    ensures Erased(Inserted(s, p, x), p) == s
  {
  }

  /** After an erasure every other iterator is at the same node. */
  lemma ErasedKeepsOthers<T>(s: seq<T>, p: nat, i: nat)
    requires p < |s| && i < |s| && i != p
    ensures Erased(s, p)[if i < p then i else i - 1] == s[i]
    ensures Inserted(Erased(s, p), p, s[p]) == s
  {
  }

  /** The relinking in `insert`. */
  method LinkBefore(ghost ns: seq<Node>, ghost p: nat, place: Node, val: int) returns (newp: Node)
    requires Chain(ns) && 0 < p < |ns| && ns[p] == place
    modifies place`prev, {ns[p - 1]}`next
    ensures fresh(newp) && newp.data == val && Chain(Inserted(ns, p, newp))
  {
    assert Adjacent(ns[p - 1], ns[p]);
    var oldPrev := place.prev;
    newp := new Node(val);
    oldPrev.next := newp;
    newp.prev := oldPrev;
    newp.next := place;
    place.prev := newp;
    ghost var after := Inserted(ns, p, newp);
    forall i | 0 <= i < |after| - 1 ensures Adjacent(after[i], after[i + 1]) {
      if i < p - 1 {
        assert old(Adjacent(ns[i], ns[i + 1]));
      } else if i > p {
        assert old(Adjacent(ns[i - 1], ns[i]));
      }
    }
  }

  /** The relinking in `erase`. */
  method Unlink(ghost ns: seq<Node>, ghost p: nat, cur: Node) returns (next: Node)
    requires Chain(ns) && 0 < p < |ns| - 1 && ns[p] == cur
    modifies {ns[p - 1]}`next, {ns[p + 1]}`prev
    ensures Chain(Erased(ns, p)) && next == Erased(ns, p)[p]
  {
    assert Adjacent(ns[p - 1], ns[p]) && Adjacent(ns[p], ns[p + 1]);
    var prev := cur.prev;
    next := cur.next;
    prev.next := next;
    next.prev := prev;
    ghost var after := Erased(ns, p);
    forall i | 0 <= i < |after| - 1 ensures Adjacent(after[i], after[i + 1]) {
      if i < p - 1 {
        assert old(Adjacent(ns[i], ns[i + 1]));
      } else if i >= p {
        assert old(Adjacent(ns[i + 1], ns[i + 2]));
      }
    }
  }

  class Iterator {
    var node: Node

    constructor (node: Node)
      ensures this.node == node
    {
      this.node := node;
    }

    /** `++`: one node on, but not past the last sentinel. */
    method Increment(ghost ns: seq<Node>, ghost p: nat)
      requires Chain(ns) && p < |ns| && node == ns[p]
      modifies this
      ensures node == ns[if p + 1 < |ns| then p + 1 else p]
    {
      assert p + 1 < |ns| ==> Adjacent(ns[p], ns[p + 1]);
      if node.next != null {
        node := node.next;
      }
    }

    /** `--`: one node back, but not past the first sentinel. */
    method Decrement(ghost ns: seq<Node>, ghost p: nat)
      requires Chain(ns) && p < |ns| && node == ns[p]
      modifies this
      ensures node == ns[if p > 0 then p - 1 else 0]
    {
      assert p > 0 ==> Adjacent(ns[p - 1], ns[p]);
      if node.prev != null {
        node := node.prev;
      }
    }

    method PostIncrement(ghost ns: seq<Node>, ghost p: nat) returns (temp: Iterator)
      requires Chain(ns) && p < |ns| && node == ns[p]
      modifies this
      ensures fresh(temp) && temp.node == ns[p] && node == ns[if p + 1 < |ns| then p + 1 else p]
    {
      temp := new Iterator(node);
      Increment(ns, p);
    }
  }

  class List {
    const head: Node
    const tail: Node
    ghost var nodes: seq<Node>

    ghost predicate Valid()
      reads this, set i | 0 <= i < |nodes| :: nodes[i]
    {
      Chain(nodes) && nodes[0] == head && nodes[|nodes| - 1] == tail
    }

    /** What the list holds. */
    ghost function Contents(): seq<int>
      reads this
      requires |nodes| >= 2
    {
      Inner(nodes)
    }

    constructor ()
      ensures Valid() && Contents() == [] && fresh(head) && fresh(tail) && nodes == [head, tail]
    {
      var h := new Node(0);
      var t := new Node(0);
      h.next := t;
      t.prev := h;
      head, tail, nodes := h, t, [h, t];
    }

    method Begin() returns (it: Iterator)
      requires Valid()
      ensures fresh(it) && it.node == nodes[1]
    {
      assert Adjacent(nodes[0], nodes[1]);
      it := new Iterator(head.next);
    }

    method End() returns (it: Iterator)
      requires Valid()
      ensures fresh(it) && it.node == nodes[|nodes| - 1]
    {
      it := new Iterator(tail);
    }

    /** `insert` before an iterator, which must not be at the first sentinel. */
    method Insert(it: Iterator, val: int, ghost p: nat) returns (r: Iterator)
      requires Valid() && 0 < p < |nodes| && it.node == nodes[p]
      modifies this, {nodes[p]}`prev, {nodes[p - 1]}`next
      ensures Valid() && fresh(r) && fresh(r.node) && r.node.data == val
      ensures nodes == Inserted(old(nodes), p, r.node) && Contents() == Inserted(old(Contents()), p - 1, val)
    {
      hide Data, Inner, Inserted, Adjacent;
      var newp := LinkBefore(nodes, p, it.node, val);
      InsertedKeepsOthers(nodes, p, newp, 0);
      InsertedKeepsOthers(nodes, p, newp, |nodes| - 1);
      InnerOfInserted(nodes, p, newp);
      nodes := Inserted(nodes, p, newp);
      r := new Iterator(newp);
    }

    /** `erase`, which leaves the sentinels alone and then returns the end. */
    method Erase(pos: Iterator, ghost p: nat) returns (r: Iterator)
      requires Valid() && p < |nodes| && pos.node == nodes[p]
      modifies this, nodes
      ensures Valid() && fresh(r)
      ensures p == 0 || p == |old(nodes)| - 1 ==> nodes == old(nodes) && r.node == tail && Contents() == old(Contents())
      ensures 0 < p < |old(nodes)| - 1 ==>
                nodes == Erased(old(nodes), p) && r.node == nodes[p] && Contents() == Erased(old(Contents()), p - 1)
    {
      hide Data, Inner, Erased, Adjacent;
      var cur := pos.node;
      if cur == head || cur == tail {
        assert p == 0 || p == |nodes| - 1;
        return new Iterator(tail);
      }
      ErasedKeepsOthers(nodes, p, 0);
      ErasedKeepsOthers(nodes, p, |nodes| - 1);
      var next := Unlink(nodes, p, cur);
      InnerOfErased(nodes, p);
      nodes := Erased(nodes, p);
      r := new Iterator(next);
    }

    method PushFront(val: int)
      requires Valid()
      modifies this, nodes
      ensures Valid() && Contents() == [val] + old(Contents())
    {
      var it := Begin();
      var _ := Insert(it, val, 1);
    }

    method PushBack(val: int)
      requires Valid()
      modifies this, nodes
      ensures Valid() && Contents() == old(Contents()) + [val]
    {
      var it := End();
      var _ := Insert(it, val, |nodes| - 1);
    }

    method Empty() returns (b: bool)
      requires Valid()
      ensures b <==> Contents() == []
    {
      assert Adjacent(nodes[0], nodes[1]);
      b := head.next == tail;
    }

    /** Does nothing on an empty list. */
    method PopFront()
      requires Valid()
      modifies this, nodes
      ensures Valid() && Contents() == if old(Contents()) == [] then [] else old(Contents())[1..]
    {
      var empty := Empty();
      if !empty {
        var it := Begin();
        var _ := Erase(it, 1);
      }
    }

    method PopBack()
      requires Valid()
      modifies this, nodes
      ensures Valid() && Contents() == if old(Contents()) == [] then [] else old(Contents())[..|old(Contents())| - 1]
    {
      var empty := Empty();
      if !empty {
        var temp := End();
        temp.Decrement(nodes, |nodes| - 1);
        var _ := Erase(temp, |nodes| - 2);
      }
    }

    method Front() returns (x: int)
      requires Valid() && Contents() != []
      ensures x == Contents()[0]
    {
      assert Adjacent(nodes[0], nodes[1]);
      x := head.next.data;
    }

    method Back() returns (x: int)
      requires Valid() && Contents() != []
      ensures x == Contents()[|Contents()| - 1]
    {
      assert Adjacent(nodes[|nodes| - 2], nodes[|nodes| - 1]);
      x := tail.prev.data;
    }

    /** `clear`: frees every node between the sentinels once. */
    method Clear() returns (ghost freed: seq<Node>)
      requires Valid()
      modifies this, head`next, tail`prev
      ensures Valid() && nodes == [head, tail] && Contents() == [] && freed == old(nodes)[1..|old(nodes)| - 1]
    {
      assert Adjacent(nodes[0], nodes[1]);
      var cur := head.next;
      freed := [];
      while cur != tail
        invariant |freed| + 1 < |nodes| && cur == nodes[|freed| + 1] && freed == nodes[1..|freed| + 1]
        decreases |nodes| - |freed|
      {
        assert Adjacent(nodes[|freed| + 1], nodes[|freed| + 2]);
        var next := cur.next;
        freed := freed + [cur];
        cur := next;
      }
      head.next := tail;
      tail.prev := head;
      nodes := [head, tail];
    }

    /** The traversal in `print`. */
    method Print() returns (out: seq<int>)
      requires Valid()
      ensures out == Contents()
    {
      assert Adjacent(nodes[0], nodes[1]);
      var cur := head.next;
      out := [];
      while cur != tail
        invariant |out| + 1 < |nodes| && cur == nodes[|out| + 1] && out == Contents()[..|out|]
        decreases |nodes| - |out|
      {
        assert Adjacent(nodes[|out| + 1], nodes[|out| + 2]);
        out := out + [cur.data];
        cur := cur.next;
      }
    }
  }
}
