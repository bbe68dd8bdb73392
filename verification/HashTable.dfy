/** The chained hash table of basic/STL/hashmap.h as a value: its chains of entries, insertion,
    rehashing, and lookup. `compareLast` says whether the walk in `insert` compares the key of a
    chain's last node: the file's does not. */
module HashTable {
  import opened Options
  import opened Sequences

  datatype Entry = Entry(key: int, value: int)

  /** `hash_func_`: any function from keys to sizes. */
  type Hash = int -> nat

  type Chain = seq<Entry>

  /** The buckets; their number is `bucket_count_`. */
  type Table = t: seq<Chain> | |t| > 0 witness [[]]

  function Slot(h: Hash, n: nat, k: int): (i: nat)
    requires n > 0
    ensures i < n
  {
    h(k) % n
  }

  // ---------- Lookup ----------

  /** The first entry with key `k`, as `find` walks a chain. */
  function FindIn(c: Chain, k: int): Option<int> {
    if c == [] then None else if c[0].key == k then Some(c[0].value) else FindIn(c[1..], k)
  }

  function Find(h: Hash, t: Table, k: int): Option<int> {
    FindIn(t[Slot(h, |t|, k)], k)
  }

  function FindLast(c: Chain, k: int): Option<int> {
    if c == [] then None else
    var e := c[|c| - 1];
    if e.key == k then Some(e.value) else FindLast(c[..|c| - 1], k)
  }

  // ---------- Insertion into a chain ----------

  /** The first place of `k`, or the length. */
  function FirstAt(c: Chain, k: int): (j: nat)
    ensures j <= |c| && (j < |c| ==> c[j].key == k)
    ensures forall x | 0 <= x < j :: c[x].key != k
  {
    if c == [] || c[0].key == k then 0 else 1 + FirstAt(c[1..], k)
  }

  /** How many nodes the walk in `insert` compares. */
  function Compared(compareLast: bool, c: Chain): nat {
    if compareLast || c == [] then |c| else |c| - 1
  }

  predicate Appends(compareLast: bool, c: Chain, k: int) {
    FirstAt(c, k) >= Compared(compareLast, c)
  }

  /** `insert` on a chain: the first node found with the key is overwritten, or one is appended. */
  function InsertIn(compareLast: bool, c: Chain, e: Entry): (r: Chain)
    ensures |r| == |c| + if Appends(compareLast, c, e.key) then 1 else 0
  {
    if Appends(compareLast, c, e.key) then c + [e] else c[FirstAt(c, e.key) := e]
  }

  predicate NoRepeats(c: Chain) {
    forall i, j | 0 <= i < j < |c| :: c[i].key != c[j].key
  }

  predicate Has(c: Chain, k: int) {
    exists e | e in c :: e.key == k
  }

  predicate IsLast(c: Chain, k: int) {
    c != [] && c[|c| - 1].key == k
  }

  /** The key sits only where the walk does not look. */
  predicate IsOnlyLast(c: Chain, k: int) {
    FirstAt(c, k) + 1 == |c|
  }

  lemma {:induction false} FindInHas(c: Chain, k: int)
    ensures FindIn(c, k).Some? <==> Has(c, k)
    ensures FindLast(c, k).Some? <==> Has(c, k)
    decreases |c|
  {
    if c != [] {
      FindInHas(c[1..], k);
      FindInHas(c[..|c| - 1], k);
      assert forall e :: e in c <==> e == c[0] || e in c[1..];
      assert forall e :: e in c <==> e == c[|c| - 1] || e in c[..|c| - 1];
    }
  }

  lemma {:induction false} FindInStops(c: Chain, k: int, j: nat)
    requires j <= |c| && (forall x | 0 <= x < j :: c[x].key != k) && (j < |c| ==> c[j].key == k)
    ensures FindIn(c, k) == if j < |c| then Some(c[j].value) else None
    decreases j
  {
    if j > 0 {
      assert j < |c| ==> c[1..][j - 1] == c[j];
      FindInStops(c[1..], k, j - 1);
    }
  }

  lemma FirstIs(c: Chain, k: int, j: nat)
    requires j <= |c| && (forall x | 0 <= x < j :: c[x].key != k) && (j < |c| ==> c[j].key == k)
    ensures FirstAt(c, k) == j
  {
  }

  /** Lookup in any chain after an insertion into it: another key is not affected; the inserted key
      finds the old value if the walk missed its only place. An appended entry is the last one. */
  lemma FindAfterInsertIn(compareLast: bool, c: Chain, e: Entry, k: int)
    ensures FindIn(InsertIn(compareLast, c, e), k)
            == if k != e.key then FindIn(c, k)
               else if !compareLast && IsOnlyLast(c, k) then Some(c[|c| - 1].value)
               else Some(e.value)
    ensures Appends(compareLast, c, e.key) ==>
              FindLast(InsertIn(compareLast, c, e), k) == if k != e.key then FindLast(c, k) else Some(e.value)
  {
    var r, j := InsertIn(compareLast, c, e), FirstAt(c, k);
    FindInStops(c, k, j);
    if Appends(compareLast, c, e.key) {
      assert r[..|r| - 1] == c;
      FindInStops(r, k, if k != e.key && j == |c| then |r| else j);
    } else {
      FindInStops(r, k, j);
    }
  }

  lemma {:induction false} FindLastSplit(a: Chain, b: Chain, k: int)
    ensures FindLast(a + b, k) == if FindLast(b, k).Some? then FindLast(b, k) else FindLast(a, k)
    decreases |b|
  {
    if b == [] {
      assert a + b == a;
    } else {
      FindLastSplit(a, b[..|b| - 1], k);
      assert (a + b)[..|a + b| - 1] == a + b[..|b| - 1];
    }
  }

  lemma NoLaterRepeat(c: Chain, k: int)
    requires NoRepeats(c) && c != [] && c[0].key == k
    ensures FindLast(c[1..], k) == None && FindIn(c[1..], k) == None && (|c| > 1 ==> !IsLast(c, k))
  {
    FindInHas(c[1..], k);
    forall e | e in c[1..] ensures e.key != k {
      var i :| 0 <= i < |c[1..]| && c[1..][i] == e;
      assert c[i + 1] == e;
    }
  }

  lemma {:induction false} NoRepeatsFindsTheSame(c: Chain, k: int)
    requires NoRepeats(c)
    ensures FindLast(c, k) == FindIn(c, k)
    decreases |c|
  {
    if c != [] {
      FindLastSplit(c[..1], c[1..], k);
      assert c[..1] + c[1..] == c && c[..1][..0] == [];
      if c[0].key == k {
        NoLaterRepeat(c, k);
      } else {
        NoRepeatsFindsTheSame(c[1..], k);
      }
    }
  }

  lemma HasSplit(a: Chain, b: Chain, k: int)
    ensures Has(a + b, k) <==> Has(a, k) || Has(b, k)
  {
    if e :| e in a && e.key == k {
      assert e in a + b;
    }
    if e :| e in b && e.key == k {
      assert e in a + b;
    }
  }

  lemma HasOne(e: Entry, k: int)
    ensures Has([e], k) <==> k == e.key
  {
    assert e in [e];
  }

  lemma NoRepeatsCons(e: Entry, c: Chain)
    ensures NoRepeats([e] + c) <==> NoRepeats(c) && !Has(c, e.key)
  {
    var all := [e] + c;
    if NoRepeats(all) {
      assert all[1..] == c;
      forall i, j | 0 <= i < j < |c| ensures c[i].key != c[j].key {
        assert all[i + 1] == c[i] && all[j + 1] == c[j];
      }
      forall x | x in c ensures x.key != e.key {
        var i :| 0 <= i < |c| && c[i] == x;
        assert all[0] == e && all[i + 1] == x;
      }
    } else {
      var i, j :| 0 <= i < j < |all| && all[i].key == all[j].key;
      if i > 0 {
        assert c[i - 1].key == c[j - 1].key;
      } else {
        assert c[j - 1] in c;
      }
    }
  }

  lemma NoRepeatsJoin(a: Chain, b: Chain)
    ensures NoRepeats(a + b) <==> NoRepeats(a) && NoRepeats(b) && forall e | e in a :: !Has(b, e.key)
  {
    var all := a + b;
    assert forall i | 0 <= i < |a| :: all[i] == a[i];
    assert forall j | 0 <= j < |b| :: all[|a| + j] == b[j];
    if NoRepeats(all) {
      forall e | e in a ensures !Has(b, e.key) {
        var i :| 0 <= i < |a| && a[i] == e;
        forall x | x in b ensures x.key != e.key {
          var j :| 0 <= j < |b| && b[j] == x;
          assert all[i].key != all[|a| + j].key;
        }
      }
      forall i, j | 0 <= i < j < |b| ensures b[i].key != b[j].key {
        assert all[|a| + i].key != all[|a| + j].key;
      }
    } else {
      var i, j :| 0 <= i < j < |all| && all[i].key == all[j].key;
      if i < |a| <= j {
        assert a[i] in a && b[j - |a|] in b;
      } else if i >= |a| {
        assert b[i - |a|].key == b[j - |a|].key;
      }
    }
  }

  lemma NoRepeatsSnoc(c: Chain, e: Entry)
    ensures NoRepeats(c + [e]) <==> NoRepeats(c) && !Has(c, e.key)
  {
    NoRepeatsJoin(c, [e]);
    forall x | x in c ensures Has([e], x.key) <==> x.key == e.key {
      HasOne(e, x.key);
    }
  }

  /** An insertion leaves the chain without repeated keys exactly when the walk compares the last
      node, or the key was not there. */
  lemma InsertInRepeatsIff(compareLast: bool, c: Chain, e: Entry)
    requires NoRepeats(c)
    ensures NoRepeats(InsertIn(compareLast, c, e)) <==> compareLast || !IsLast(c, e.key)
  {
    var j := FirstAt(c, e.key);
    if Appends(compareLast, c, e.key) {
      NoRepeatsSnoc(c, e);
      if j < |c| {
        assert c[j] in c;
      } else {
        forall x | x in c ensures x.key != e.key {
        }
      }
    }
  }

  // ---------- Tables ----------

  /** Every entry is in the bucket its key hashes to. */
  ghost predicate Placed(h: Hash, t: Table) {
    forall i, e | 0 <= i < |t| && e in t[i] :: h(e.key) % |t| == i
  }

  ghost predicate DistinctKeys(t: Table) {
    forall i | 0 <= i < |t| :: NoRepeats(t[i])
  }

  /** Pushing one node at the head of its new chain. */
  function Moved(h: Hash, t: Table, e: Entry): Table {
    var i := Slot(h, |t|, e.key);
    t[i := [e] + t[i]]
  }

  function MoveAll(h: Hash, t: Table, es: Chain): Table
    decreases |es|
  {
    if es == [] then t else Moved(h, MoveAll(h, t, es[..|es| - 1]), es[|es| - 1])
  }

  function EmptyTable(n: nat): Table
    requires n > 0
  {
    seq(n, _ => [])
  }

  /** `rehash`: all nodes, bucket after bucket, into twice as many buckets. */
  function Rehashed(h: Hash, t: Table): Table {
    MoveAll(h, EmptyTable(2 * |t|), Flatten(t))
  }

  lemma {:induction false} MoveAllSize(h: Hash, t: Table, es: Chain)
    ensures |MoveAll(h, t, es)| == |t|
    decreases |es|
  {
    if es != [] {
      MoveAllSize(h, t, es[..|es| - 1]);
    }
  }

  lemma MoveAllStep(h: Hash, t: Table, es: Chain, j: nat)
    requires j < |es|
    ensures MoveAll(h, t, es[..j + 1]) == Moved(h, MoveAll(h, t, es[..j]), es[j])
  {
    assert es[..j + 1][..j] == es[..j];
  }

  lemma {:induction false} MoveAllAppend(h: Hash, t: Table, a: Chain, b: Chain)
    ensures MoveAll(h, t, a + b) == MoveAll(h, MoveAll(h, t, a), b)
    decreases |b|
  {
    if b == [] {
      assert a + b == a;
    } else {
      assert (a + b)[..|a + b| - 1] == a + b[..|b| - 1];
      MoveAllAppend(h, t, a, b[..|b| - 1]);
    }
  }

  lemma RehashedIsMoved(h: Hash, t: Table)
    ensures Rehashed(h, t) == MoveAll(h, EmptyTable(2 * |t|), Flatten(t))
  {
  }

  lemma NothingMoved(h: Hash, u: Table)
    ensures MoveAll(h, u, Flatten([])) == u
  {
  }

  lemma MoveAllChain(h: Hash, u: Table, t: seq<Chain>, i: nat)
    requires i < |t|
    ensures MoveAll(h, u, Flatten(t[..i + 1])) == MoveAll(h, MoveAll(h, u, Flatten(t[..i])), t[i])
  {
    FlattenTake(t, i);
    MoveAllAppend(h, u, Flatten(t[..i]), t[i]);
  }

  /** Rehashing loses no entry and invents none. */
  lemma {:induction false} MoveAllKeepsEntries(h: Hash, t: Table, es: Chain)
    ensures multiset(Flatten(MoveAll(h, t, es))) == multiset(Flatten(t)) + multiset(es)
    decreases |es|
  {
    hide Flatten, Slot;
    if es != [] {
      var n := |es| - 1;
      MoveAllKeepsEntries(h, t, es[..n]);
      var u := MoveAll(h, t, es[..n]);
      FlattenPush(u, Slot(h, |u|, es[n].key), es[n]);
      assert es == es[..n] + [es[n]];
    }
  }

  lemma {:induction false} FlattenPush(t: seq<Chain>, i: nat, e: Entry)
    requires i < |t|
    ensures multiset(Flatten(t[i := [e] + t[i]])) == multiset(Flatten(t)) + multiset{e}
    decreases |t|
  {
    var u := t[i := [e] + t[i]];
    if i == 0 {
      assert u[1..] == t[1..];
    } else {
      FlattenPush(t[1..], i - 1, e);
      assert u[1..] == t[1..][i - 1 := [e] + t[1..][i - 1]];
    }
  }

  lemma {:induction false} FlattenEmpty(n: nat)
    requires n > 0
    ensures Flatten(EmptyTable(n)) == []
    decreases n
  {
    if n > 1 {
      assert EmptyTable(n)[1..] == EmptyTable(n - 1);
      FlattenEmpty(n - 1);
    }
  }

  lemma RehashKeepsEntries(h: Hash, t: Table)
    ensures multiset(Flatten(Rehashed(h, t))) == multiset(Flatten(t)) && |Rehashed(h, t)| == 2 * |t|
  {
    FlattenEmpty(2 * |t|);
    MoveAllSize(h, EmptyTable(2 * |t|), Flatten(t));
    MoveAllKeepsEntries(h, EmptyTable(2 * |t|), Flatten(t));
  }

  lemma {:induction false} MoveAllIsPlaced(h: Hash, t: Table, es: Chain)
    requires Placed(h, t)
    ensures Placed(h, MoveAll(h, t, es))
    decreases |es|
  {
    MoveAllSize(h, t, es);
    if es != [] {
      MoveAllIsPlaced(h, t, es[..|es| - 1]);
    }
  }

  /** A moved chain is searched from its last arrival back. */
  lemma {:induction false} FindAfterMoveAll(h: Hash, t: Table, es: Chain, k: int)
    ensures Find(h, MoveAll(h, t, es), k) == if FindLast(es, k).Some? then FindLast(es, k) else Find(h, t, k)
    decreases |es|
  {
    MoveAllSize(h, t, es);
    if es != [] {
      var n := |es| - 1;
      MoveAllSize(h, t, es[..n]);
      FindAfterMoveAll(h, t, es[..n], k);
      var u := MoveAll(h, t, es[..n]);
      var i, j := Slot(h, |u|, es[n].key), Slot(h, |u|, k);
      assert ([es[n]] + u[i])[1..] == u[i];
    }
  }

  /** The table's last entry with a key is the last in that key's chain. */
  lemma {:induction false} FindLastInFlatten(t: seq<Chain>, i: nat, k: int)
    requires i < |t| && forall j | 0 <= j < |t| && j != i :: !Has(t[j], k)
    ensures FindLast(Flatten(t), k) == FindLast(t[i], k)
    decreases |t|
  {
    FindLastSplit(t[0], Flatten(t[1..]), k);
    if i == 0 {
      NowhereInFlatten(t[1..], k);
    } else {
      FindLastInFlatten(t[1..], i - 1, k);
      FindInHas(t[0], k);
    }
  }

  lemma {:induction false} NowhereInFlatten(t: seq<Chain>, k: int)
    requires forall j | 0 <= j < |t| :: !Has(t[j], k)
    ensures FindLast(Flatten(t), k) == None
    decreases |t|
  {
    if t != [] {
      FindLastSplit(t[0], Flatten(t[1..]), k);
      FindInHas(t[0], k);
      NowhereInFlatten(t[1..], k);
    }
  }

  /** Rehashing turns "first in the chain" into "last in the chain"; with distinct keys it changes
      no lookup. */
  lemma FindAfterRehash(h: Hash, t: Table, k: int)
    requires Placed(h, t)
    ensures Find(h, Rehashed(h, t), k) == FindLast(t[Slot(h, |t|, k)], k)
    ensures DistinctKeys(t) ==> Find(h, Rehashed(h, t), k) == Find(h, t, k)
  {
    var i := Slot(h, |t|, k);
    FindAfterMoveAll(h, EmptyTable(2 * |t|), Flatten(t), k);
    forall j | 0 <= j < |t| && j != i ensures !Has(t[j], k) {
    }
    FindLastInFlatten(t, i, k);
    if DistinctKeys(t) {
      NoRepeatsFindsTheSame(t[i], k);
    }
  }

  // ---------- insert ----------

  /** The hash map: its chains and `element_count_`. */
  datatype Map = Map(table: Table, count: nat)

  /** `load > max_load_factor_` with the default factor 0.75. */
  predicate Overloaded(m: Map) {
    4 * m.count > 3 * |m.table|
  }

  function Insert(compareLast: bool, h: Hash, m: Map, k: int, v: int): Map {
    var u := Stored(compareLast, h, m, k, v);
    if Rehashes(compareLast, h, m, k) then u.(table := Rehashed(h, u.table)) else u
  }

  /** Before the load is checked. */
  function Stored(compareLast: bool, h: Hash, m: Map, k: int, v: int): Map {
    var i := Slot(h, |m.table|, k);
    var c := InsertIn(compareLast, m.table[i], Entry(k, v));
    Map(m.table[i := c], m.count + (|c| - |m.table[i]|))
  }

  /** The insertion of `k` appends a node, and one too many for the load. */
  predicate Rehashes(compareLast: bool, h: Hash, m: Map, k: int) {
    Appends(compareLast, m.table[Slot(h, |m.table|, k)], k) && Overloaded(m.(count := m.count + 1))
  }

  lemma StoredCounts(compareLast: bool, h: Hash, m: Map, k: int, v: int)
    ensures var u := Stored(compareLast, h, m, k, v);
            && |u.table| == |m.table|
            && (Appends(compareLast, m.table[Slot(h, |m.table|, k)], k) ==> u.count == m.count + 1)
  {
  }

  /** The map's invariant: right buckets, a right count, and load at most 3/4. */
  ghost predicate Sound(h: Hash, m: Map) {
    Placed(h, m.table) && m.count == |Flatten(m.table)| && 4 * m.count <= 3 * |m.table|
  }

  lemma {:induction false} FlattenUpdate(t: seq<Chain>, i: nat, c: Chain)
    requires i < |t|
    ensures |Flatten(t[i := c])| == |Flatten(t)| + |c| - |t[i]|
    decreases |t|
  {
    if i == 0 {
      assert t[i := c][1..] == t[1..];
    } else {
      FlattenUpdate(t[1..], i - 1, c);
      assert t[i := c][1..] == t[1..][i - 1 := c];
    }
  }

  /** What holds before and after every insertion, repeated keys or not. */
  lemma InsertKeepsSound(compareLast: bool, h: Hash, m: Map, k: int, v: int)
    requires Sound(h, m)
    ensures Sound(h, Insert(compareLast, h, m, k, v))
  {
    var u := Stored(compareLast, h, m, k, v).table;
    StoredIsPlaced(compareLast, h, m, k, v);
    RehashKeepsEntries(h, u);
    assert |multiset(Flatten(Rehashed(h, u)))| == |Flatten(Rehashed(h, u))|;
    assert |multiset(Flatten(u))| == |Flatten(u)|;
    EmptyIsPlaced(h, 2 * |u|);
    MoveAllIsPlaced(h, EmptyTable(2 * |u|), Flatten(u));
  }

  lemma StoredIsPlaced(compareLast: bool, h: Hash, m: Map, k: int, v: int)
    requires Sound(h, m)
    ensures var u := Stored(compareLast, h, m, k, v); Placed(h, u.table) && u.count == |Flatten(u.table)|
  {
    var i, e := Slot(h, |m.table|, k), Entry(k, v);
    var c := InsertIn(compareLast, m.table[i], e);
    FlattenUpdate(m.table, i, c);
    assert forall x | x in c :: x == e || x in m.table[i];
  }

  lemma EmptyIsPlaced(h: Hash, n: nat)
    requires n > 0
    ensures Placed(h, EmptyTable(n))
  {
  }

  /** The buckets are doubled exactly when a node was added and there are now more than three for
      every four buckets. */
  lemma InsertDoublesIff(compareLast: bool, h: Hash, m: Map, k: int, v: int)
    requires Sound(h, m)
    ensures var r := Insert(compareLast, h, m, k, v);
            && m.count <= r.count <= m.count + 1
            && |r.table| == if r.count > m.count && 4 * r.count > 3 * |m.table| then 2 * |m.table| else |m.table|
  {
    StoredCounts(compareLast, h, m, k, v);
    RehashKeepsEntries(h, Stored(compareLast, h, m, k, v).table);
    hide Rehashed, Placed;
  }

  // ---------- insert as a map update ----------

  /** Every key but `k` has its first entry's value in its last entry too. */
  ghost predicate SettledBut(t: Table, k: int) {
    forall i, e | 0 <= i < |t| && e in t[i] && e.key != k :: FindIn(t[i], e.key) == FindLast(t[i], e.key)
  }

  /** The insertion will be a map update. With a rehash to follow, which turns the chains round, no
      other key may have an older value behind it. Without one, the walk must not miss the only
      place of the key while it holds another value. */
  ghost predicate WillUpdate(compareLast: bool, h: Hash, m: Map, k: int, v: int) {
    var c := m.table[Slot(h, |m.table|, k)];
    if Rehashes(compareLast, h, m, k) then SettledBut(m.table, k)
    else compareLast || !IsOnlyLast(c, k) || c[|c| - 1].value == v
  }

  /** On every sound table, repeated keys or not, one insertion updates the map and nothing else
      exactly under this condition. */
  lemma InsertUpdatesMapIff(compareLast: bool, h: Hash, m: Map, k: int, v: int)
    requires Sound(h, m)
    ensures (forall q :: Find(h, Insert(compareLast, h, m, k, v).table, q)
                         == if q == k then Some(v) else Find(h, m.table, q))
            <==> WillUpdate(compareLast, h, m, k, v)
  {
    var t := Insert(compareLast, h, m, k, v).table;
    forall q ensures Find(h, t, q) == Foreseen(compareLast, h, m, k, v, q) {
      FindAfterInsert(compareLast, h, m, k, v, q);
    }
    hide Insert, Appends, IsOnlyLast;
    if Rehashes(compareLast, h, m, k) {
      SettledIff(h, m.table, k);
    } else {
      assert Find(h, t, k) == Foreseen(compareLast, h, m, k, v, k);
    }
  }

  lemma SettledIff(h: Hash, t: Table, k: int)
    requires Placed(h, t)
    ensures SettledBut(t, k) <==>
            forall q | q != k :: FindLast(t[Slot(h, |t|, q)], q) == Find(h, t, q)
  {
    if SettledBut(t, k) {
      forall q | q != k ensures FindLast(t[Slot(h, |t|, q)], q) == Find(h, t, q) {
        FindInHas(t[Slot(h, |t|, q)], q);
      }
    }
    if forall q | q != k :: FindLast(t[Slot(h, |t|, q)], q) == Find(h, t, q) {
      forall i, e | 0 <= i < |t| && e in t[i] && e.key != k ensures FindIn(t[i], e.key) == FindLast(t[i], e.key) {
        assert Slot(h, |t|, e.key) == i;
      }
    }
  }

  /** What `find` gives for `q` after the insertion. */
  function Foreseen(compareLast: bool, h: Hash, m: Map, k: int, v: int, q: int): Option<int> {
    var c := m.table[Slot(h, |m.table|, q)];
    if Rehashes(compareLast, h, m, k) then if q == k then Some(v) else FindLast(c, q)
    else if q != k then FindIn(c, q)
    else if !compareLast && IsOnlyLast(c, k) then Some(c[|c| - 1].value)
    else Some(v)
  }

  /** Every lookup after an insertion, in terms of the table before it. */
  lemma FindAfterInsert(compareLast: bool, h: Hash, m: Map, k: int, v: int, q: int)
    requires Sound(h, m)
    ensures Find(h, Insert(compareLast, h, m, k, v).table, q) == Foreseen(compareLast, h, m, k, v, q)
  {
    var i, e, j := Slot(h, |m.table|, k), Entry(k, v), Slot(h, |m.table|, q);
    var u := Stored(compareLast, h, m, k, v);
    StoredIsPlaced(compareLast, h, m, k, v);
    FindAfterInsertIn(compareLast, m.table[i], e, q);
    hide FindIn, FindLast, InsertIn, Rehashed;
    assert u.table[j] == if i == j then InsertIn(compareLast, m.table[i], e) else m.table[j];
    if Rehashes(compareLast, h, m, k) {
      FindAfterRehash(h, u.table, q);
    }
  }

  lemma {:induction false} FlattenRepeatsIff(t: seq<Chain>)
    requires forall i, j, k | 0 <= i < j < |t| && Has(t[i], k) :: !Has(t[j], k)
    ensures NoRepeats(Flatten(t)) <==> forall i | 0 <= i < |t| :: NoRepeats(t[i])
    decreases |t|
  {
    if t != [] {
      FlattenRepeatsIff(t[1..]);
      NoRepeatsJoin(t[0], Flatten(t[1..]));
      forall e | e in t[0] ensures !Has(Flatten(t[1..]), e.key) {
        assert Has(t[0], e.key);
        NowhereInFlatten(t[1..], e.key);
        FindInHas(Flatten(t[1..]), e.key);
      }
    }
  }

  lemma EmptyIsDistinct(n: nat)
    requires n > 0
    ensures DistinctKeys(EmptyTable(n)) && NoRepeats([])
  {
  }

  /** A moved entry is in the chain its key hashes to. */
  lemma MoveAllHas(h: Hash, n: nat, es: Chain, k: int)
    requires n > 0
    ensures var u := MoveAll(h, EmptyTable(n), es); |u| == n && (Has(u[Slot(h, n, k)], k) <==> Has(es, k))
  {
    hide Has, FindLast, MoveAll, Slot;
    MoveAllSize(h, EmptyTable(n), es);
    FindAfterMoveAll(h, EmptyTable(n), es, k);
    FindInHas(MoveAll(h, EmptyTable(n), es)[Slot(h, n, k)], k);
    FindInHas(es, k);
  }

  lemma {:induction false} MoveAllRepeatsIff(h: Hash, n: nat, es: Chain)
    requires n > 0
    ensures DistinctKeys(MoveAll(h, EmptyTable(n), es)) <==> NoRepeats(es)
    decreases |es|
  {
    hide NoRepeats, Has, DistinctKeys, Slot;
    if es == [] {
      EmptyIsDistinct(n);
    } else {
      var before, e := es[..|es| - 1], es[|es| - 1];
      MoveAllRepeatsIff(h, n, before);
      MoveAllHas(h, n, before, e.key);
      NoRepeatsSnoc(before, e);
      assert es == before + [e];
      MovedRepeatsIff(MoveAll(h, EmptyTable(n), before), Slot(h, n, e.key), e);
    }
  }

  lemma MovedRepeatsIff(u: Table, i: nat, e: Entry)
    requires i < |u|
    ensures DistinctKeys(u[i := [e] + u[i]]) <==> DistinctKeys(u) && !Has(u[i], e.key)
  {
    var w := u[i := [e] + u[i]];
    NoRepeatsCons(e, u[i]);
    if DistinctKeys(w) {
      assert NoRepeats(w[i]);
      forall j | 0 <= j < |u| ensures NoRepeats(u[j]) {
        assert NoRepeats(w[j]);
      }
    }
  }

  /** Rehashing neither makes nor removes repeated keys. */
  lemma RehashRepeatsIff(h: Hash, t: Table)
    requires Placed(h, t)
    ensures DistinctKeys(Rehashed(h, t)) <==> DistinctKeys(t)
  {
    MoveAllRepeatsIff(h, 2 * |t|, Flatten(t));
    FlattenRepeatsIff(t);
  }

  /** Keys stay distinct exactly when the walk compares every node, or the inserted key was not last
      in its chain. */
  lemma InsertKeepsDistinctIff(compareLast: bool, h: Hash, m: Map, k: int, v: int)
    requires Sound(h, m) && DistinctKeys(m.table)
    ensures DistinctKeys(Insert(compareLast, h, m, k, v).table)
            <==> compareLast || !IsLast(m.table[Slot(h, |m.table|, k)], k)
  {
    var i, e := Slot(h, |m.table|, k), Entry(k, v);
    var u := Stored(compareLast, h, m, k, v);
    InsertInRepeatsIff(compareLast, m.table[i], e);
    StoredIsPlaced(compareLast, h, m, k, v);
    hide InsertIn, NoRepeats, Rehashed;
    assert u.table[i] == InsertIn(compareLast, m.table[i], e);
    assert DistinctKeys(u.table) <==> NoRepeats(u.table[i]);
    RehashRepeatsIff(h, u.table);
  }

  // ---------- Runs ----------

  function InsertAll(compareLast: bool, h: Hash, n: nat, es: Chain): Map
    requires n > 0
    decreases |es|
  {
    if es == [] then Map(EmptyTable(n), 0) else
    var e := es[|es| - 1];
    Insert(compareLast, h, InsertAll(compareLast, h, n, es[..|es| - 1]), e.key, e.value)
  }

  lemma {:induction false} InsertAllIsSound(compareLast: bool, h: Hash, n: nat, es: Chain)
    requires n > 0
    ensures Sound(h, InsertAll(compareLast, h, n, es))
    decreases |es|
  {
    if es == [] {
      FlattenEmpty(n);
    } else {
      var e := es[|es| - 1];
      InsertAllIsSound(compareLast, h, n, es[..|es| - 1]);
      InsertKeepsSound(compareLast, h, InsertAll(compareLast, h, n, es[..|es| - 1]), e.key, e.value);
    }
  }

  lemma InsertAddsKey(compareLast: bool, h: Hash, m: Map, k: int, v: int, q: int)
    requires Sound(h, m)
    ensures Find(h, Insert(compareLast, h, m, k, v).table, q).Some? <==> Find(h, m.table, q).Some? || q == k
  {
    FindAfterInsert(compareLast, h, m, k, v, q);
    FindInHas(m.table[Slot(h, |m.table|, q)], q);
  }

  /** In either reading, over every run of insertions: a key is found exactly when it was inserted. */
  lemma {:induction false} MembershipHolds(compareLast: bool, h: Hash, n: nat, es: Chain, k: int)
    requires n > 0
    ensures Find(h, InsertAll(compareLast, h, n, es).table, k).Some? <==> Has(es, k)
    decreases |es|
  {
    if es != [] {
      var before, e := es[..|es| - 1], es[|es| - 1];
      assert es == before + [e];
      HasSplit(before, [e], k);
      HasOne(e, k);
      InsertAllIsSound(compareLast, h, n, before);
      MembershipHolds(compareLast, h, n, before, k);
      InsertAddsKey(compareLast, h, InsertAll(compareLast, h, n, before), e.key, e.value, k);
    }
  }

  lemma DistinctIsSettled(t: Table, k: int)
    requires DistinctKeys(t)
    ensures SettledBut(t, k)
  {
    forall i, e | 0 <= i < |t| && e in t[i] && e.key != k ensures FindIn(t[i], e.key) == FindLast(t[i], e.key) {
      NoRepeatsFindsTheSame(t[i], e.key);
    }
  }

  /** When the walk compares every node, every run of insertions builds its map: a key finds the
      value last inserted under it. */
  lemma {:induction false} RunIsMap(h: Hash, n: nat, es: Chain, k: int)
    requires n > 0
    ensures DistinctKeys(InsertAll(true, h, n, es).table)
    ensures Find(h, InsertAll(true, h, n, es).table, k) == FindLast(es, k)
    decreases |es|
  {
    if es != [] {
      var before, e := es[..|es| - 1], es[|es| - 1];
      var m := InsertAll(true, h, n, before);
      InsertAllIsSound(true, h, n, before);
      RunIsMap(h, n, before, k);
      InsertKeepsDistinctIff(true, h, m, e.key, e.value);
      DistinctIsSettled(m.table, e.key);
      InsertUpdatesMapIff(true, h, m, e.key, e.value);
    }
  }

  /** As the file has it, the table holds the map of the run at every moment. */
  ghost predicate WrittenRunHolds(h: Hash, n: nat, es: Chain)
    requires n > 0
    decreases |es|
  {
    WrittenHoldsNow(h, n, es) && (es == [] || WrittenRunHolds(h, n, es[..|es| - 1]))
  }

  ghost predicate WrittenHoldsNow(h: Hash, n: nat, es: Chain)
    requires n > 0
  {
    forall k :: Find(h, InsertAll(false, h, n, es).table, k) == FindLast(es, k)
  }

  ghost predicate WrittenRunUpdates(h: Hash, n: nat, es: Chain)
    requires n > 0
    decreases |es|
  {
    es == []
    || (var before, e := es[..|es| - 1], es[|es| - 1];
        WillUpdate(false, h, InsertAll(false, h, n, before), e.key, e.value) && WrittenRunUpdates(h, n, before))
  }

  /** It does so exactly when the condition for one insertion holds at each. */
  lemma {:induction false} WrittenRunIsMapIff(h: Hash, n: nat, es: Chain)
    requires n > 0
    ensures WrittenRunHolds(h, n, es) <==> WrittenRunUpdates(h, n, es)
    decreases |es|
  {
    hide InsertAll, WillUpdate, WrittenHoldsNow;
    if es == [] {
      EmptyHolds(h, n);
    } else {
      WrittenRunIsMapIff(h, n, es[..|es| - 1]);
      if WrittenRunHolds(h, n, es[..|es| - 1]) {
        NextHoldsIff(h, n, es);
      }
    }
  }

  lemma EmptyHolds(h: Hash, n: nat)
    requires n > 0
    ensures WrittenHoldsNow(h, n, [])
  {
  }

  lemma NextHoldsIff(h: Hash, n: nat, es: Chain)
    requires n > 0 && es != [] && WrittenRunHolds(h, n, es[..|es| - 1])
    ensures var e := es[|es| - 1];
            WrittenHoldsNow(h, n, es) <==> WillUpdate(false, h, InsertAll(false, h, n, es[..|es| - 1]), e.key, e.value)
  {
    var before, e := es[..|es| - 1], es[|es| - 1];
    InsertAllIsSound(false, h, n, before);
    InsertUpdatesMapIff(false, h, InsertAll(false, h, n, before), e.key, e.value);
    hide Insert, WillUpdate, Find, Sound;
    var m := InsertAll(false, h, n, before);
    assert WrittenHoldsNow(h, n, before);
    forall q ensures FindLast(es, q) == if q == e.key then Some(e.value) else Find(h, m.table, q) {
      assert Find(h, m.table, q) == FindLast(before, q);
    }
  }

  /** A run that never inserts a key twice keeps the keys distinct and meets the condition. */
  lemma {:induction false} NewKeysUpdate(h: Hash, n: nat, es: Chain)
    requires n > 0 && NoRepeats(es)
    ensures DistinctKeys(InsertAll(false, h, n, es).table) && WrittenRunUpdates(h, n, es)
    decreases |es|
  {
    if es != [] {
      var before, e := es[..|es| - 1], es[|es| - 1];
      var m := InsertAll(false, h, n, before);
      assert es == before + [e];
      NewKeysUpdate(h, n, before);
      NoRepeatsSnoc(before, e);
      InsertAllIsSound(false, h, n, before);
      MembershipHolds(false, h, n, before, e.key);
      var c := m.table[Slot(h, |m.table|, e.key)];
      FindInHas(c, e.key);
      assert c != [] ==> c[|c| - 1] in c;
      InsertKeepsDistinctIff(false, h, m, e.key, e.value);
      DistinctIsSettled(m.table, e.key);
    }
  }

  // ---------- How the walk in the file goes wrong ----------

  function Same(k: int): nat {
    if k < 0 then 0 else k
  }

  const THREE: Chain := [Entry(0, 1), Entry(0, 2), Entry(2, 9)]

  /** Two insertions under key 0 leave both entries, the new one in front after a rehash; the
      insertion of key 1 then rehashes again, and key 0 has its old value back. */
  lemma AnOldValueComesBack(v: int)
    ensures var m := InsertAll(false, Same, 2, THREE);
            Find(Same, m.table, 0) == Some(2) && Find(Same, Insert(false, Same, m, 1, v).table, 0) == Some(1)
  {
    hide InsertAll, Insert, InsertIn, Sound, Rehashed;
    var m := InsertAll(false, Same, 2, THREE);
    ThreeInserted();
    InsertAllIsSound(false, Same, 2, THREE);
    FindAfterInsert(false, Same, m, 1, v, 0);
    var c := [Entry(0, 2), Entry(0, 1)];
    assert m.table[Slot(Same, 4, 0)] == c && m.table[Slot(Same, 4, 1)] == [];
    assert FindIn(c, 0) == Some(2) && FindLast(c, 0) == Some(1);
    assert FirstAt([], 1) == 0;
    assert Rehashes(false, Same, m, 1);
  }

  lemma ThreeInserted()
    ensures InsertAll(false, Same, 2, THREE) == Map([[Entry(0, 2), Entry(0, 1)], [], [Entry(2, 9)], []], 3)
  {
    var e1, e2, e3 := Entry(0, 1), Entry(0, 2), Entry(2, 9);
    hide Rehashed;
    TwoInserted();
    assert THREE[..2] == [e1, e2];
    assert InsertIn(false, [], e3) == [e3] && Slot(Same, 4, 2) == 2;
  }

  lemma TwoInserted()
    ensures InsertAll(false, Same, 2, [Entry(0, 1), Entry(0, 2)]) == Map([[Entry(0, 2), Entry(0, 1)], [], [], []], 2)
  {
    var e1, e2 := Entry(0, 1), Entry(0, 2);
    hide Rehashed;
    assert [e1, e2][..1] == [e1] && [e1][..0] == [];
    assert InsertAll(false, Same, 2, []) == Map([[], []], 0);
    assert InsertIn(false, [], e1) == [e1] && InsertIn(false, [e1], e2) == [e1, e2];
    assert InsertAll(false, Same, 2, [e1]) == Map([[e1], []], 1);
    assert Stored(false, Same, Map([[e1], []], 1), 0, 2) == Map([[e1, e2], []], 2);
    TwoRehashed();
  }

  lemma FlattenTail(t: seq<Chain>)
    requires |t| == 2 && t[1] == []
    ensures Flatten(t) == t[0]
  {
    assert t[1..] == [t[1]] && [t[1]][1..] == [];
    assert Flatten([t[1]]) == t[1] + Flatten([t[1]][1..]);
  }

  lemma TwoRehashed()
    ensures var e1, e2 := Entry(0, 1), Entry(0, 2); Rehashed(Same, [[e1, e2], []]) == [[e2, e1], [], [], []]
  {
    var e1, e2 := Entry(0, 1), Entry(0, 2);
    var t: seq<Chain> := [[e1, e2], []];
    FlattenTail(t);
    var empty := EmptyTable(4);
    assert empty == [[], [], [], []];
    assert [e1, e2][..1] == [e1] && [e1][..0] == [];
    var one: seq<Chain> := [[e1], [], [], []];
    assert Slot(Same, 4, 0) == 0 && [e1] + [] == [e1] && [e2] + [e1] == [e2, e1];
    assert MoveAll(Same, empty, []) == empty;
    assert empty[0 := [e1] + empty[0]] == one;
    assert MoveAll(Same, empty, [e1]) == one;
    assert one[0 := [e2] + one[0]] == [[e2, e1], [], [], []];
    assert MoveAll(Same, empty, [e1, e2]) == [[e2, e1], [], [], []];
  }
}
