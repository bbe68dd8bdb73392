/** `hashmap` over its bucket array and chains of nodes. */
module HashMap {
  import opened Options
  import opened Sequences
  import opened HashTable

  class HashNode {
    const key: int
    var value: int
    var next: HashNode?
    /** Where the node hangs: a number for its bucket, and its place in the chain. */
    ghost var slot: nat
    ghost var pos: nat

    constructor (key: int, value: int, ghost slot: nat, ghost pos: nat)
      ensures this.key == key && this.value == value && next == null && this.slot == slot && this.pos == pos
    {
      this.key, this.value, next := key, value, null;
      this.slot, this.pos := slot, pos;
    }
  }

  type Nodes = seq<HashNode>

  ghost function At(c: Nodes, j: nat): HashNode? {
    if j < |c| then c[j] else null
  }

  ghost predicate Holds(n: HashNode, slot: nat, pos: nat, e: Entry, next: HashNode?)
    reads n
  {
    n.slot == slot && n.pos == pos && n.key == e.key && n.value == e.value && n.next == next
  }

  /** The nodes `c[from..]` are a chain, numbered `slot`, of the entries `es`. */
  ghost predicate Linked(c: Nodes, from: nat, slot: nat, es: Chain)
    reads set j | 0 <= j < |c| :: c[j]
  {
    |c| == |es| && forall j | from <= j < |c| :: Holds(c[j], slot, j, es[j], At(c, j + 1))
  }

  /** A bucket array with its chains, numbered from `base` on, of the entries of a table. */
  ghost predicate Buckets(bucket: array<HashNode?>, chains: seq<Nodes>, nodes: set<HashNode>, base: nat,
                          table: seq<Chain>)
    reads bucket, nodes
  {
    && bucket.Length == |chains| == |table|
    && (forall i, j | 0 <= i < |chains| && 0 <= j < |chains[i]| :: chains[i][j] in nodes)
    && (forall i | 0 <= i < |chains| :: bucket[i] == At(chains[i], 0))
    && (forall i | 0 <= i < |chains| :: Linked(chains[i], 0, base + i, table[i]))
  }

  /** Overwriting the value of a chain's node. */
  method SetValue(ghost c: Nodes, ghost slot: nat, ghost es: Chain, ghost j: nat, cur: HashNode, v: int)
    requires Linked(c, 0, slot, es) && j < |c| && cur == c[j]
    modifies cur`value
    ensures Linked(c, 0, slot, es[j := Entry(cur.key, v)])
  {
    assert Holds(cur, slot, j, es[j], At(c, j + 1));
    ghost var es' := es[j := Entry(cur.key, v)];
    cur.value := v;
    forall x | 0 <= x < |c| ensures Holds(c[x], slot, x, es'[x], At(c, x + 1)) {
      assert old(Holds(c[x], slot, x, es[x], At(c, x + 1)));
    }
  }

  /** A new node after a chain's last node, if it has one. */
  method LinkNew(ghost c: Nodes, ghost slot: nat, ghost es: Chain, last: HashNode?, k: int, v: int)
    returns (n: HashNode)
    requires Linked(c, 0, slot, es) && if c == [] then last == null else last == c[|c| - 1]
    modifies if last == null then {} else {last}
    ensures (last != null ==> last.slot == old(last.slot)) && fresh(n) && n.slot == slot
    ensures Linked(c + [n], 0, slot, es + [Entry(k, v)])
  {
    assert c != [] ==> Holds(c[|c| - 1], slot, |c| - 1, es[|c| - 1], null);
    n := new HashNode(k, v, slot, |c|);
    if last != null {
      last.next := n;
    }
    ghost var c', es' := c + [n], es + [Entry(k, v)];
    forall x | 0 <= x < |c'| ensures Holds(c'[x], slot, x, es'[x], At(c', x + 1)) {
      if x < |c| {
        assert old(Holds(c[x], slot, x, es[x], At(c, x + 1)));
      }
    }
  }

  /** A node of another chain put before a chain's first node. */
  method LinkFirst(t: HashNode, head: HashNode?, ghost c: Nodes, ghost slot: nat, ghost es: Chain, ghost e: Entry)
    requires Linked(c, 0, slot, es) && head == At(c, 0) && t.slot != slot && t.key == e.key && t.value == e.value
    modifies t`next, t`slot, t`pos, (set x | 0 <= x < |c| :: c[x])`pos
    ensures t.slot == slot && Linked([t] + c, 0, slot, [e] + es)
  {
    forall x | 0 <= x < |c| ensures c[x] != t && c[x].pos == x {
      assert Holds(c[x], slot, x, es[x], At(c, x + 1));
    }
    t.next := head;
    forall x | 0 <= x < |c| {
      c[x].pos := x + 1;
    }
    t.slot, t.pos := slot, 0;
    ghost var c', es' := [t] + c, [e] + es;
    forall x | 0 <= x < |c'| ensures Holds(c'[x], slot, x, es'[x], At(c', x + 1)) {
      if x > 0 {
        assert old(Holds(c[x - 1], slot, x - 1, es[x - 1], At(c, x)));
      }
    }
  }

  lemma SlotsAre(bucket: array<HashNode?>, chains: seq<Nodes>, nodes: set<HashNode>, base: nat, table: seq<Chain>)
    requires Buckets(bucket, chains, nodes, base, table)
    ensures forall i | 0 <= i < |chains| ::
              Linked(chains[i], 0, base + i, table[i]) && |chains[i]| == |table[i]| && bucket[i] == At(chains[i], 0)
    ensures forall i, x | 0 <= i < |chains| && 0 <= x < |chains[i]| ::
              chains[i][x] in nodes && chains[i][x].slot == base + i
  {
    forall i, x | 0 <= i < |chains| && 0 <= x < |chains[i]| ensures chains[i][x].slot == base + i {
      assert Holds(chains[i][x], base + i, x, table[i][x], At(chains[i], x + 1));
    }
  }

  /** One chain replaced, the others as they were. */
  lemma Replaced(bucket: array<HashNode?>, chains: seq<Nodes>, nodes: set<HashNode>, base: nat, table: seq<Chain>,
                 location: nat, c: Nodes, es: Chain)
    requires bucket.Length == |chains| == |table| && location < |chains|
    requires forall i | 0 <= i < |chains| && i != location ::
               Linked(chains[i], 0, base + i, table[i]) && bucket[i] == At(chains[i], 0)
    requires forall i, x | 0 <= i < |chains| && 0 <= x < |chains[i]| :: chains[i][x] in nodes
    requires Linked(c, 0, base + location, es) && bucket[location] == At(c, 0)
    requires forall x | 0 <= x < |c| :: c[x] in nodes
    ensures Buckets(bucket, chains[location := c], nodes, base, table[location := es])
  {
    hide Linked, At;
  }

  class HashMap {
    const hash: Hash
    const compareLast: bool
    var bucket: array<HashNode?>
    var bucketCount: nat
    var elementCount: nat
    ghost var chains: seq<Nodes>
    ghost var nodes: set<HashNode>
    ghost var base: nat
    ghost var model: Map

    ghost predicate Shape()
      reads this, bucket, nodes
    {
      bucketCount == bucket.Length && Buckets(bucket, chains, nodes, base, model.table)
    }

    ghost predicate Valid()
      reads this, bucket, nodes
    {
      Shape() && elementCount == model.count && Sound(hash, model)
    }

    constructor (hash: Hash, initialCapacity: nat, compareLast: bool)
      requires initialCapacity > 0
      ensures Valid() && fresh(bucket) && nodes == {} && this.hash == hash && this.compareLast == compareLast
      ensures model == Map(EmptyTable(initialCapacity), 0)
    {
      this.hash, this.compareLast := hash, compareLast;
      bucket := new HashNode?[initialCapacity](_ => null);
      bucketCount, elementCount := initialCapacity, 0;
      chains, nodes, base := seq(initialCapacity, _ => []), {}, 0;
      model := Map(EmptyTable(initialCapacity), 0);
      FlattenEmpty(initialCapacity);
    }

    method Find(key: int) returns (r: Option<int>)
      requires Valid()
      ensures r == HashTable.Find(hash, model.table, key)
    {
      hide Sound, Buckets, FindIn;
      SizesAgree();
      BucketAt(hash(key) % bucketCount);
      var location := hash(key) % bucketCount;
      var t := bucket[location];
      ghost var c, es, j := chains[location], model.table[location], 0;
      while t != null
        invariant j <= |c| && t == At(c, j)
        invariant forall x | 0 <= x < j :: es[x].key != key
        decreases |c| - j
      {
        assert Holds(c[j], base + location, j, es[j], At(c, j + 1));
        if t.key == key {
          FindInStops(es, key, j);
          return Some(t.value);
        }
        t := t.next;
        j := j + 1;
      }
      FindInStops(es, key, j);
      r := None;
    }

    lemma BucketAt(i: nat)
      requires Shape() && (i < bucketCount || i < |chains|)
      ensures bucketCount == |chains| == |model.table| == bucket.Length
      ensures bucket[i] == At(chains[i], 0) && |chains[i]| == |model.table[i]|
      ensures Linked(chains[i], 0, base + i, model.table[i]) && forall n | n in chains[i] :: n in nodes
    {
    }

    lemma SizesAgree()
      requires Shape()
      ensures bucketCount == |chains| == |model.table| == bucket.Length
    {
    }

    lemma ShapeIs()
      ensures Shape() <==> bucketCount == bucket.Length && Buckets(bucket, chains, nodes, base, model.table)
    {
    }

    /** What `bucket[i]` tells about its chain. */
    lemma FirstOf(i: nat)
      requires Shape() && i < |chains|
      ensures bucket[i] == null ==> Before(i + 1) == Before(i)
      ensures bucket[i] != null ==> |chains[i]| > 0 && chains[i][0] == bucket[i]
      ensures bucket[i] != null ==> bucket[i] in nodes && bucket[i].pos == 0
    {
      BucketAt(i);
      BeforeStep(i);
      if bucket[i] != null {
        SlotIsBucket(i, 0);
      }
    }

    lemma SlotIsBucket(i: nat, j: nat)
      requires Shape() && i < |chains| && j < |chains[i]|
      ensures chains[i][j].slot == base + i && chains[i][j].pos == j && chains[i][j] in nodes
      ensures chains[i][j].next == At(chains[i], j + 1)
    {
      assert Holds(chains[i][j], base + i, j, model.table[i][j], At(chains[i], j + 1));
    }

    lemma WaitingAtFirst()
      requires Shape()
      ensures Waiting(0) && bucketCount == bucket.Length == |model.table|
    {
      forall a, m | 0 <= a < |chains| && m in chains[a] ensures m in nodes && m.slot == base + a {
        BucketAt(a);
        var x :| 0 <= x < |chains[a]| && chains[a][x] == m;
        assert Holds(chains[a][x], base + a, x, model.table[a][x], At(chains[a], x + 1));
      }
    }

    /** The walk in `insert`: it looks for the key in all nodes, or in all but the last. */
    method Walk(location: nat, k: int) returns (cur: HashNode, found: bool, ghost j: nat)
      requires Shape() && location < |chains| && chains[location] != []
      ensures var c, es := chains[location], model.table[location];
              && j < |c| && cur == c[j] && (forall x | 0 <= x < j :: es[x].key != k)
              && (if found then cur.key == es[j].key == k && j < Compared(compareLast, es)
                  else j + 1 == |c| && (compareLast ==> es[j].key != k))
    {
      cur, j := bucket[location], 0;
      ghost var c, es := chains[location], model.table[location];
      assert Holds(c[0], base + location, 0, es[0], At(c, 1));
      while cur.next != null
        invariant j < |c| && cur == c[j] && cur.next == At(c, j + 1) && cur.key == es[j].key
        invariant forall x | 0 <= x < j :: es[x].key != k
        decreases |c| - j
      {
        if cur.key == k {
          return cur, true, j;
        }
        cur := cur.next;
        j := j + 1;
        assert Holds(c[j], base + location, j, es[j], At(c, j + 1));
      }
      found := compareLast && cur.key == k;
    }

    /** `insert` up to the check of the load. */
    method Store(k: int, v: int) returns (grown: bool)
      requires Shape() && elementCount == model.count && bucketCount > 0
      modifies this, bucket, nodes
      ensures Shape() && elementCount == model.count && fresh(nodes - old(nodes)) && bucket == old(bucket)
      ensures model == Stored(compareLast, hash, old(model), k, v)
      ensures grown <==> Appends(compareLast, old(model).table[Slot(hash, |old(model).table|, k)], k)
    {
      hide Buckets, Holds, Linked;
      BucketAt(hash(k) % bucketCount);
      var location := hash(k) % bucketCount;
      ghost var es := model.table[location];
      var cur := bucket[location];
      if cur != null {
        var found;
        ghost var j;
        cur, found, j := Walk(location, k);
        if found {
          FirstIs(es, k, j);
          Overwrite(location, j, cur, v);
          return false;
        }
        if es[j].key == k {
          FirstIs(es, k, j);
        } else {
          FirstIs(es, k, j + 1);
        }
      }
      Append(location, cur, k, v);
      grown := true;
    }

    /** `insert`: as the file has it, the key of a chain's last node is never compared. */
    method Insert(k: int, v: int)
      requires Valid()
      modifies this, bucket, nodes
      ensures Valid() && fresh(nodes - old(nodes)) && (bucket == old(bucket) || fresh(bucket))
      ensures model == HashTable.Insert(compareLast, hash, old(model), k, v)
    {
      InsertKeepsSound(compareLast, hash, model, k, v);
      hide Sound, Buckets, Stored, Rehashed, Appends;
      StoredCounts(compareLast, hash, model, k, v);
      var grown := Store(k, v);
      if grown && 4 * elementCount > 3 * bucketCount {
        Rehash();
      }
    }

    method Overwrite(location: nat, ghost j: nat, cur: HashNode, v: int)
      requires Shape() && location < |chains| && j < |chains[location]| && cur == chains[location][j]
      modifies this`model, cur`value
      ensures Shape()
      ensures var es := old(model.table[location])[j := Entry(cur.key, v)];
              model == old(model).(table := old(model.table)[location := es])
    {
      hide Holds, Linked;
      SlotsAre(bucket, chains, nodes, base, model.table);
      ghost var es := model.table[location];
      SetValue(chains[location], base + location, es, j, cur, v);
      model := model.(table := model.table[location := es[j := Entry(cur.key, v)]]);
      forall i | 0 <= i < |chains| && i != location ensures Linked(chains[i], 0, base + i, model.table[i]) {
        assert old(Linked(chains[i], 0, base + i, model.table[i]));
      }
    }

    /** A new node at the end of a chain: after its last node, or in its empty bucket. */
    method Append(location: nat, last: HashNode?, k: int, v: int)
      requires Shape() && location < |chains| && elementCount == model.count
      requires var c := chains[location]; if c == [] then last == null else last == c[|c| - 1]
      modifies this, bucket, nodes
      ensures Shape() && fresh(nodes - old(nodes)) && bucket == old(bucket) && elementCount == model.count
      ensures var es := old(model.table[location]) + [Entry(k, v)];
              model == Map(old(model.table)[location := es], old(model.count) + 1)
    {
      hide Holds, Linked, Buckets;
      SizesAgree();
      SlotsAre(bucket, chains, nodes, base, model.table);
      ghost var c, es := chains[location], model.table[location];
      var n := LinkNew(c, base + location, es, last, k, v);
      if last == null {
        bucket[location] := n;
      }
      elementCount := elementCount + 1;
      Replaced(bucket, chains, nodes + {n}, base, model.table, location, c + [n], es + [Entry(k, v)]);
      chains, nodes := chains[location := c + [n]], nodes + {n};
      model := Map(model.table[location := es + [Entry(k, v)]], model.count + 1);
    }

    /** The body of the inner loop of `rehash`. */
    method MoveNode(t: HashNode, ghost e: Entry, nre: array<HashNode?>, ghost nc: seq<Nodes>, ghost from: nat,
                    ghost table: Table)
      returns (ghost nc': seq<Nodes>)
      requires Buckets(nre, nc, nodes, from, table) && t in nodes && t.slot < from
      requires t.key == e.key && t.value == e.value
      modifies nre, t`next, t`slot, t`pos, (set m | m in nodes && m.slot >= from)`pos
      ensures Buckets(nre, nc', nodes, from, Moved(hash, table, e))
      ensures forall m | m in nodes && m != t :: m.slot == old(m.slot) && (m.slot < from ==> unchanged(m))
      ensures t.slot >= from
    {
      hide Holds, Linked;
      SlotsAre(nre, nc, nodes, from, table);
      var newL := hash(t.key) % nre.Length;
      LinkFirst(t, nre[newL], nc[newL], from + newL, table[newL], e);
      nre[newL] := t;
      nc' := nc[newL := [t] + nc[newL]];
      forall b | 0 <= b < |nc| && b != newL ensures Linked(nc[b], 0, from + b, table[b]) {
        assert old(Linked(nc[b], 0, from + b, table[b]));
      }
    }

    /** The inner loop of `rehash`: one old chain, numbered `slot`, node after node. */
    method MoveChain(head: HashNode?, ghost c: Nodes, ghost slot: nat, ghost es: Chain, nre: array<HashNode?>,
                     ghost nc: seq<Nodes>, ghost from: nat, ghost table: Table)
      returns (ghost nc': seq<Nodes>)
      requires Buckets(nre, nc, nodes, from, table) && slot < from
      requires Linked(c, 0, slot, es) && head == At(c, 0) && forall n | n in c :: n in nodes
      modifies nre, (set m | m in nodes && (m.slot == slot || m.slot >= from))
      ensures Buckets(nre, nc', nodes, from, MoveAll(hash, table, es))
      ensures forall m | m in nodes && old(m.slot) != slot && old(m.slot) < from :: unchanged(m)
    {
      var t := head;
      ghost var j, u := 0, table;
      nc' := nc;
      assert es[..0] == [];
      while t != null
        invariant j <= |c| == |es| && t == At(c, j)
        invariant forall x | j <= x < |c| :: Holds(c[x], slot, x, es[x], At(c, x + 1))
        invariant u == MoveAll(hash, table, es[..j]) && Buckets(nre, nc', nodes, from, u)
        invariant forall m | m in nodes :: m.slot == old(m.slot) || m.slot >= from
        invariant forall m | m in nodes && old(m.slot) != slot && old(m.slot) < from :: unchanged(m)
        decreases |c| - j
      {
        hide Buckets, MoveAll;
        label Next:
        assert Holds(c[j], slot, j, es[j], At(c, j + 1));
        var back := t.next;
        MoveAllStep(hash, table, es, j);
        nc' := MoveNode(t, es[j], nre, nc', from, u);
        u := Moved(hash, u, es[j]);
        forall x | j < x < |c| ensures Holds(c[x], slot, x, es[x], At(c, x + 1)) {
          assert old@Next(Holds(c[x], slot, x, es[x], At(c, x + 1)));
        }
        t := back;
        j := j + 1;
      }
      assert es[..|es|] == es;
    }

    static ghost method EmptyBuckets(nre: array<HashNode?>, nodes: set<HashNode>, from: nat) returns (nc: seq<Nodes>)
      requires nre.Length > 0 && forall x | 0 <= x < nre.Length :: nre[x] == null
      ensures Buckets(nre, nc, nodes, from, EmptyTable(nre.Length))
    {
      nc := seq(nre.Length, _ => []);
    }

    /** The chains from bucket `i` on are as they were. */
    ghost predicate Waiting(i: nat)
      reads this, bucket, nodes
    {
      && bucketCount == bucket.Length == |chains| == |model.table|
      && (forall a, m | i <= a < |chains| && m in chains[a] :: m in nodes && m.slot == base + a)
      && (forall a | i <= a < |chains| ::
            bucket[a] == At(chains[a], 0) && Linked(chains[a], 0, base + a, model.table[a]))
    }

    /** One round of the outer loop of `rehash`. */
    method RelinkChain(i: nat, nre: array<HashNode?>, ghost nc: seq<Nodes>, ghost u: Table)
      returns (ghost nc': seq<Nodes>)
      requires Waiting(i) && i < bucketCount && nre != bucket
      requires Buckets(nre, nc, nodes, base + |chains|, u)
      modifies nre, nodes
      ensures Waiting(i + 1) && Buckets(nre, nc', nodes, base + |chains|, MoveAll(hash, u, model.table[i]))
    {
      hide Buckets, MoveAll, Linked;
      nc' := MoveChain(bucket[i], chains[i], base + i, model.table[i], nre, nc, base + |chains|, u);
    }

    /** The outer loop of `rehash`: every chain, bucket after bucket. */
    method Relink(nre: array<HashNode?>) returns (ghost nc: seq<Nodes>)
      requires Shape() && bucketCount > 0 && nre != bucket && nre.Length == 2 * bucketCount
      requires forall x | 0 <= x < nre.Length :: nre[x] == null
      modifies nre, nodes
      ensures Buckets(nre, nc, nodes, base + |chains|, Rehashed(hash, model.table))
    {
      hide *;
      ghost var tab, empty := model.table, EmptyTable(nre.Length);
      ghost var u := empty;
      nc := EmptyBuckets(nre, nodes, base + |chains|);
      WaitingAtFirst();
      NothingMoved(hash, empty);
      assert tab[..0] == [];
      for i := 0 to bucket.Length
        invariant Waiting(i)
        invariant u == MoveAll(hash, empty, Flatten(tab[..i])) && Buckets(nre, nc, nodes, base + |chains|, u)
      {
        nc := RelinkChain(i, nre, nc, u);
        MoveAllChain(hash, empty, tab, i);
        u := MoveAll(hash, u, tab[i]);
      }
      assert tab[..|tab|] == tab;
      RehashedIsMoved(hash, tab);
    }

    /** `rehash`: relinks every node, at the head of its chain among twice as many buckets. */
    method Rehash()
      requires Shape() && bucketCount > 0
      modifies this, nodes
      ensures Shape() && fresh(bucket) && nodes == old(nodes) && elementCount == old(elementCount)
      ensures model == old(model).(table := Rehashed(hash, old(model.table)))
    {
      hide Rehashed;
      var newBuck := bucketCount * 2;
      var nre := new HashNode?[newBuck](_ => null);
      ghost var nc := Relink(nre);
      bucket, bucketCount := nre, newBuck;
      chains, base := nc, base + |chains|;
      model := model.(table := Rehashed(hash, model.table));
    }

    // ---------- Iteration ----------

    /** The nodes of the first `i` buckets. */
    ghost function Before(i: nat): Nodes
      reads this
    {
      if i <= |chains| then Flatten(chains[..i]) else []
    }

    lemma BeforeStep(i: nat)
      requires i < |chains|
      ensures Before(i + 1) == Before(i) + chains[i]
    {
      FlattenTake(chains, i);
    }

    lemma BeforeEnds()
      ensures Before(0) == [] && Before(|chains|) == Flatten(chains)
    {
      assert chains[..|chains|] == chains;
    }

    /** The nodes in the order in which the iterator visits them: each of them once, holding the
        table's entries bucket after bucket. */
    lemma OrderIsEntries(p: nat)
      requires Shape()
      ensures |Flatten(chains)| == |Flatten(model.table)|
      ensures p < |Flatten(chains)| ==>
                var n := Flatten(chains)[p]; n in nodes && Flatten(model.table)[p] == Entry(n.key, n.value)
    {
      FlattenLengths(chains, model.table);
      if p < |Flatten(chains)| {
        var i, j := FlattenFrom(chains, p);
        assert Holds(chains[i][j], base + i, j, model.table[i][j], At(chains[i], j + 1));
        forall x | 0 <= x < i ensures |chains[..i][x]| == |model.table[..i][x]| {
          assert |chains[x]| == |model.table[x]|;
        }
        FlattenLengths(chains[..i], model.table[..i]);
        FlattenAt(model.table, i, j);
      }
    }

    lemma OrderHasNoRepeats(p: nat, q: nat)
      requires Shape() && p < q < |Flatten(chains)|
      ensures Flatten(chains)[p] != Flatten(chains)[q]
    {
      var i, j := FlattenFrom(chains, p);
      var a, b := FlattenFrom(chains, q);
      assert Holds(chains[i][j], base + i, j, model.table[i][j], At(chains[i], j + 1));
      assert Holds(chains[a][b], base + a, b, model.table[a][b], At(chains[a], b + 1));
    }

    /** An iterator at node `n` of bucket `i` has `p` nodes behind it. */
    ghost predicate Reaches(i: nat, n: HashNode?, p: nat)
      reads this, nodes
    {
      if n == null then
        i == bucketCount && p == |Flatten(chains)|
      else
        && i < bucketCount == |chains| && n in nodes && n.pos < |chains[i]| && chains[i][n.pos] == n
        && p == |Before(i)| + n.pos
    }

    lemma NextReaches(i: nat, n: HashNode?, p: nat)
      requires Shape() && Reaches(i, n, p)
      ensures i <= bucketCount && (n == null ==> i == bucketCount)
      ensures n != null && n.next != null ==> Reaches(i, n.next, p + 1)
      ensures n != null && n.next == null ==> i < bucketCount && p + 1 == |Before(i + 1)|
    {
      if n != null {
        SlotIsBucket(i, n.pos);
        BeforeStep(i);
        if n.next != null {
          SlotIsBucket(i, n.pos + 1);
        }
      }
    }

    method Begin() returns (it: Iterator)
      requires Shape()
      ensures fresh(it) && it.owner == this && it.Stands(0)
    {
      BeforeEnds();
      for i := 0 to bucketCount
        invariant Before(i) == []
      {
        BucketAt(i);
        if bucket[i] != null {
          assert Holds(chains[i][0], base + i, 0, model.table[i][0], At(chains[i], 1));
          return new Iterator(this, i, bucket[i]);
        }
        BeforeStep(i);
      }
      it := End();
    }

    method End() returns (it: Iterator)
      requires Shape()
      ensures fresh(it) && it.owner == this && it.Stands(|Flatten(chains)|)
    {
      it := new Iterator(this, bucketCount, null);
    }

    /** A range `for` loop over the owner. */
    method Entries() returns (es: Chain, ghost visited: Nodes)
      requires Shape()
      ensures es == Flatten(model.table) && visited == Flatten(chains)
    {
      hide *;
      es, visited := [], [];
      OrderIsEntries(0);
      ghost var order := Flatten(chains);
      var it := Begin();
      var last := End();
      var done := it.Equals(last, 0, |order|);
      while !done
        invariant fresh(it) && it.owner == this && last.owner == this && last != it
        invariant |visited| <= |order| && visited == order[..|visited|] && it.Stands(|visited|) && last.Stands(|order|)
        invariant |order| == |Flatten(model.table)| && es == Flatten(model.table)[..|visited|]
        invariant done <==> |visited| == |order|
        decreases |order| - |visited|
      {
        OrderIsEntries(|visited|);
        it.StandsIsAt(|visited|);
        es := es + [Entry(it.curr.key, it.curr.value)];
        visited := visited + [it.curr];
        it.Advance(|visited| - 1);
        done := it.Equals(last, |visited|, |order|);
      }
    }

    /** One round of the loop of `clear`. */
    method FreeBucket(i: nat) returns (ghost freed: Nodes)
      requires Waiting(i) && i < bucketCount
      modifies bucket
      ensures Waiting(i + 1) && freed == chains[i] && bucket[..] == old(bucket[..])[i := null]
    {
      hide Linked;
      freed := FreeChain(bucket[i], chains[i], base + i, model.table[i]);
      bucket[i] := null;
    }

    /** The loop of `clear`. */
    method FreeAll() returns (ghost freed: Nodes)
      requires Shape()
      modifies bucket
      ensures freed == Flatten(chains) && forall a | 0 <= a < bucket.Length :: bucket[a] == null
    {
      WaitingAtFirst();
      SizesAgree();
      BeforeEnds();
      hide *;
      freed := [];
      for i := 0 to bucket.Length
        invariant Waiting(i) && freed == Before(i)
        invariant forall a | 0 <= a < i :: bucket[..][a] == null
      {
        BeforeStep(i);
        ghost var more := FreeBucket(i);
        freed := freed + more;
      }
    }

    /** `clear`: frees every node, once. */
    method Clear() returns (ghost freed: Nodes)
      requires Shape()
      modifies this, bucket
      ensures Shape() && bucket == old(bucket) && nodes == {} && freed == Flatten(old(chains))
      ensures elementCount == 0 && model == Map(EmptyTable(|old(model).table|), 0)
    {
      SizesAgree();
      hide *;
      freed := FreeAll();
      elementCount := 0;
      ghost var empty := EmptyBuckets(bucket, {}, base);
      chains, nodes, model := empty, {}, Map(EmptyTable(bucketCount), 0);
      ShapeIs();
    }
  }

  method FreeChain(head: HashNode?, ghost c: Nodes, ghost slot: nat, ghost es: Chain) returns (ghost freed: Nodes)
    requires Linked(c, 0, slot, es) && head == At(c, 0)
    ensures freed == c
  {
    freed := [];
    var cur := head;
    while cur != null
      invariant |freed| <= |c| && cur == At(c, |freed|) && freed == c[..|freed|]
      decreases |c| - |freed|
    {
      assert Holds(c[|freed|], slot, |freed|, es[|freed|], At(c, |freed| + 1));
      freed := freed + [cur];
      cur := cur.next;
    }
  }

  class Iterator {
    const owner: HashMap
    var bucketIndex: nat
    var curr: HashNode?

    constructor (owner: HashMap, bucketIndex: nat, curr: HashNode?)
      ensures this.owner == owner && this.bucketIndex == bucketIndex && this.curr == curr
    {
      this.owner, this.bucketIndex, this.curr := owner, bucketIndex, curr;
    }

    ghost predicate Stands(p: nat)
      reads this, owner, owner.bucket, owner.nodes
    {
      owner.Shape() && owner.Reaches(bucketIndex, curr, p)
    }

    lemma StandsIsAt(p: nat)
      requires Stands(p)
      ensures p <= |Flatten(owner.chains)| && (curr != null <==> p < |Flatten(owner.chains)|)
      ensures curr != null ==> curr == Flatten(owner.chains)[p]
    {
      if curr != null {
        FlattenAt(owner.chains, bucketIndex, curr.pos);
      }
    }

    /** Two iterators of one map are equal exactly when they stand at the same place. */
    method Equals(other: Iterator, ghost p: nat, ghost q: nat) returns (same: bool)
      requires owner == other.owner && Stands(p) && other.Stands(q)
      ensures same <==> p == q
    {
      StandsIsAt(p);
      other.StandsIsAt(q);
      if p < q < |Flatten(owner.chains)| {
        owner.OrderHasNoRepeats(p, q);
      } else if q < p < |Flatten(owner.chains)| {
        owner.OrderHasNoRepeats(q, p);
      } else if p == q && curr != null {
        owner.SlotIsBucket(bucketIndex, curr.pos);
        owner.SlotIsBucket(other.bucketIndex, other.curr.pos);
      }
      same := owner == other.owner && bucketIndex == other.bucketIndex && curr == other.curr;
    }

    method Advance(ghost p: nat)
      requires Stands(p)
      modifies this
      ensures Stands(if p < |Flatten(owner.chains)| then p + 1 else p)
    {
      StandsIsAt(p);
      hide HashMap.Shape, HashMap.Reaches, HashMap.Before, Flatten;
      owner.NextReaches(bucketIndex, curr, p);
      if curr != null {
        curr := curr.next;
      }
      Skip(if p < |Flatten(owner.chains)| then p + 1 else p);
    }

    /** The iterator stands at `p`, or will at the head of the next bucket with a node. */
    ghost predicate Heads(p: nat)
      reads this, owner, owner.bucket, owner.nodes
    {
      && owner.Shape() && bucketIndex <= owner.bucketCount
      && if curr != null || bucketIndex == owner.bucketCount then Stands(p) else p == |owner.Before(bucketIndex + 1)|
    }

    lemma AtBucket(p: nat)
      requires owner.Shape() && bucketIndex <= owner.bucketCount && p == |owner.Before(bucketIndex)|
      requires curr == if bucketIndex == owner.bucketCount then null else owner.bucket[bucketIndex]
      ensures Heads(p)
    {
      owner.SizesAgree();
      owner.BeforeEnds();
      if bucketIndex < owner.bucketCount {
        owner.FirstOf(bucketIndex);
      }
    }

    /** The loop in `advance`: on to the next bucket with a node. */
    method Skip(ghost p: nat)
      requires Heads(p)
      modifies this
      ensures Stands(p)
    {
      owner.SizesAgree();
      hide HashMap.Shape, HashMap.Before, Stands;
      while curr == null && bucketIndex < owner.bucketCount
        invariant Heads(p)
        decreases owner.bucketCount - bucketIndex
      {
        bucketIndex := bucketIndex + 1;
        curr := if bucketIndex == owner.bucketCount then null else owner.bucket[bucketIndex];
        AtBucket(p);
      }
    }
  }
}
