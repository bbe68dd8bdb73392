/** The ring buffer deque of basic/STL/mydeque.h. */
module Deque {

  /** Indices are of type `size_t` and wrap around; no buffer is larger than half its range. */
  const SIZE_RANGE: nat := 0x1_0000_0000_0000_0000
  const MAX_CAPACITY: nat := 0x8000_0000_0000_0000

  datatype Result<T> = Ok(value: T) | OutOfRange

  // ---------- The window on the ring ----------

  /** `(front_idx + i) % capacity`. */
  function Index(capacity: nat, front: nat, i: nat): (j: nat)
    requires front < capacity && i <= capacity
    ensures j < capacity && j == if front + i < capacity then front + i else front + i - capacity
  {
    Wrap(capacity, front + i);
    (front + i) % capacity
  }

  lemma Wrap(capacity: nat, x: nat)
    requires 0 < capacity && x < 2 * capacity
    ensures x % capacity == if x < capacity then x else x - capacity
  {
    if x >= capacity {
      assert x == (x - capacity) + 1 * capacity;
    }
  }

  lemma IndexTwice(capacity: nat, front: nat, i: nat, j: nat)
    requires front < capacity && i <= capacity && j <= capacity
    ensures Index(capacity, Index(capacity, front, i), j)
            == Index(capacity, front, if i + j <= capacity then i + j else i + j - capacity)
  {
  }

  /** `(front_idx - 1 + capacity) % capacity` in `size_t`, as `push_front` has it. */
  function BackOne(capacity: nat, front: nat): nat
    requires capacity > 0
  {
    ((front + SIZE_RANGE - 1) % SIZE_RANGE + capacity) % SIZE_RANGE % capacity
  }

  lemma StepBack(capacity: nat, front: nat)
    requires front < capacity <= MAX_CAPACITY
    ensures BackOne(capacity, front) == Index(capacity, front, capacity - 1)
  {
    Wrap(SIZE_RANGE, front + SIZE_RANGE - 1);
    if front > 0 {
      Wrap(capacity, front - 1 + capacity);
    } else {
      Wrap(SIZE_RANGE, SIZE_RANGE - 1 + capacity);
      Wrap(capacity, capacity - 1);
    }
  }

  /** The first `size` elements of a ring from `front` on. */
  function Window<T>(ring: seq<T>, front: nat, size: nat): (s: seq<T>)
    requires front < |ring| && size <= |ring|
    ensures |s| == size
  {
    seq(size, i requires 0 <= i < size => ring[Index(|ring|, front, i)])
  }

  lemma WindowPushBack<T>(ring: seq<T>, front: nat, size: nat, x: T)
    requires front < |ring| && size < |ring|
    ensures Window(ring[Index(|ring|, front, size) := x], front, size + 1) == Window(ring, front, size) + [x]
  {
    hide Index;
  }

  lemma WindowPushFront<T>(ring: seq<T>, front: nat, size: nat, x: T)
    requires front < |ring| && size < |ring|
    ensures var f := Index(|ring|, front, |ring| - 1);
            Window(ring[f := x], f, size + 1) == [x] + Window(ring, front, size)
  {
    hide Index;
    var f := Index(|ring|, front, |ring| - 1);
    var after, w := Window(ring[f := x], f, size + 1), Window(ring, front, size);
    forall i | 0 <= i <= size ensures after[i] == ([x] + w)[i] {
      if i > 0 {
        assert Index(|ring|, f, i) == Index(|ring|, front, i - 1);
      }
    }
  }

  lemma WindowPopFront<T>(ring: seq<T>, front: nat, size: nat)
    requires front < |ring| && 0 < size <= |ring|
    ensures Window(ring, Index(|ring|, front, 1), size - 1) == Window(ring, front, size)[1..]
  {
    hide Index;
    var f := Index(|ring|, front, 1);
    var after, tail := Window(ring, f, size - 1), Window(ring, front, size)[1..];
    forall i | 0 <= i < size - 1 ensures after[i] == tail[i] {
      assert Index(|ring|, f, i) == Index(|ring|, front, i + 1);
    }
  }

  lemma WindowPopBack<T>(ring: seq<T>, front: nat, size: nat)
    requires front < |ring| && 0 < size <= |ring|
    ensures Window(ring, front, size - 1) == Window(ring, front, size)[..size - 1]
  {
    hide Index;
  }

  // ---------- The cost of growing ----------

  datatype Op<T> = PushFront(x: T) | PushBack(x: T) | PopFront | PopBack

  /** What an operation does to the sequence that the deque stands for. */
  function Apply<T>(s: seq<T>, op: Op<T>): seq<T> {
    match op
    case PushFront(x) => [x] + s
    case PushBack(x) => s + [x]
    case PopFront => if s == [] then s else s[1..]
    case PopBack => if s == [] then s else s[..|s| - 1]
  }

  datatype Costs = Costs(capacity: nat, size: nat, copied: nat, pushes: nat)

  /** Capacity doubles when a push finds the ring full, and every element is then copied. */
  function Charge<T>(c: Costs, op: Op<T>): Costs {
    if op.PushFront? || op.PushBack? then
      var full := c.size == c.capacity;
      Costs(if full then 2 * c.capacity else c.capacity, c.size + 1,
            if full then c.copied + c.size else c.copied, c.pushes + 1)
    else
      c.(size := if c.size == 0 then 0 else c.size - 1)
  }

  function ApplyAll<T>(s: seq<T>, ops: seq<Op<T>>): seq<T>
    decreases |ops|
  {
    if ops == [] then s else Apply(ApplyAll(s, ops[..|ops| - 1]), ops[|ops| - 1])
  }

  function ChargeAll<T>(c: Costs, ops: seq<Op<T>>): Costs
    decreases |ops|
  {
    if ops == [] then c else Charge(ChargeAll(c, ops[..|ops| - 1]), ops[|ops| - 1])
  }

  /** Over any run from an empty deque, growing has copied exactly as many elements as it has added
      room for, and at most two per push. */
  lemma {:induction false} GrowthIsCheap<T>(initial: nat, ops: seq<Op<T>>)
    requires initial > 0
    ensures var c := ChargeAll(Costs(initial, 0, 0, 0), ops);
            && c.size == |ApplyAll([], ops)| <= c.capacity
            && c.copied == c.capacity - initial && c.copied <= 2 * c.pushes
            && c.size <= c.pushes && (c.capacity > initial ==> c.capacity <= 2 * c.pushes)
    decreases |ops|
  {
    if ops != [] {
      GrowthIsCheap(initial, ops[..|ops| - 1]);
    }
  }

  // ---------- The deque ----------

  class Deque<T(0)> {
    var buffer: array<T>
    var capacity: nat
    var count: nat
    var frontIdx: nat
    var backIdx: nat
    /** Elements copied by growing, and pushes. */
    ghost var copied: nat
    ghost var pushes: nat

    ghost predicate Valid()
      reads this
    {
      && buffer.Length == capacity && 0 < capacity <= MAX_CAPACITY
      && count <= capacity && frontIdx < capacity && backIdx == Index(capacity, frontIdx, count)
    }

    ghost function Contents(): (s: seq<T>)
      requires Valid()
      reads this, buffer
      ensures |s| == count
    {
      Window(buffer[..], frontIdx, count)
    }

    ghost function Spent(): Costs
      reads this
    {
      Costs(capacity, count, copied, pushes)
    }

    constructor (initialCapacity: nat)
      requires 0 < initialCapacity <= MAX_CAPACITY
      ensures Valid() && Contents() == [] && fresh(buffer) && Spent() == Costs(initialCapacity, 0, 0, 0)
    {
      capacity, count, frontIdx, backIdx := initialCapacity, 0, 0, 0;
      buffer := new T[initialCapacity];
      copied, pushes := 0, 0;
    }

    method Empty() returns (b: bool)
      requires Valid()
      ensures b <==> Contents() == []
    {
      b := count == 0;
    }

    method Size() returns (n: nat)
      requires Valid()
      ensures n == |Contents()|
    {
      n := count;
    }

    /** Moves the elements to the start of a buffer with room to spare. */
    method Resize(newCap: nat)
      requires Valid() && count < newCap <= MAX_CAPACITY
      modifies this
      ensures Valid() && Contents() == old(Contents()) && fresh(buffer) && frontIdx == 0
      ensures Spent() == old(Spent()).(capacity := newCap, copied := old(copied + count))
    {
      var nBuffer := new T[newCap];
      ghost var was := Contents();
      for i := 0 to count
        invariant unchanged(this) && unchanged(buffer)
        invariant forall k | 0 <= k < i :: nBuffer[k] == was[k]
      {
        Wrap(capacity, frontIdx + i);
        nBuffer[i] := buffer[(frontIdx + i) % capacity];
      }
      copied := copied + count;
      frontIdx := 0;
      backIdx := count;
      buffer := nBuffer;
      capacity := newCap;
    }

    method PushFront(val: T)
      requires Valid() && (count == capacity ==> 2 * capacity <= MAX_CAPACITY)
      modifies this, buffer
      ensures Valid() && (buffer == old(buffer) || fresh(buffer))
      ensures Contents() == [val] + old(Contents()) == Apply(old(Contents()), Op.PushFront(val))
      ensures Spent() == Charge(old(Spent()), Op.PushFront(val))
    {
      if count == capacity {
        Resize(capacity * 2);
      }
      PutFront(val);
      pushes := pushes + 1;
    }

    /** The part of `push_front` after the check of the capacity. */
    method PutFront(val: T)
      requires Valid() && count < capacity
      modifies this`frontIdx, this`count, buffer
      ensures Valid() && Contents() == [val] + old(Contents()) && count == old(count) + 1
    {
      hide Window, Index, BackOne;
      IndexTwice(capacity, frontIdx, capacity - 1, count + 1);
      WindowPushFront(buffer[..], frontIdx, count, val);
      StepBack(capacity, frontIdx);
      ghost var ring := buffer[..];
      frontIdx := BackOne(capacity, frontIdx);
      buffer[frontIdx] := val;
      count := count + 1;
      assert buffer[..] == ring[frontIdx := val];
    }

    method PushBack(val: T)
      requires Valid() && (count == capacity ==> 2 * capacity <= MAX_CAPACITY)
      modifies this, buffer
      ensures Valid() && (buffer == old(buffer) || fresh(buffer))
      ensures Contents() == old(Contents()) + [val] == Apply(old(Contents()), Op.PushBack(val))
      ensures Spent() == Charge(old(Spent()), Op.PushBack(val))
    {
      if count == capacity {
        Resize(capacity * 2);
      }
      WindowPushBack(buffer[..], frontIdx, count, val);
      Wrap(capacity, backIdx + 1);
      buffer[backIdx] := val;
      backIdx := (backIdx + 1) % capacity;
      count := count + 1;
      pushes := pushes + 1;
    }

    method PopFront() returns (r: Result<()>)
      requires Valid()
      modifies this
      ensures Valid() && buffer == old(buffer) && (r.OutOfRange? <==> old(Contents()) == [])
      ensures r.Ok? ==> Contents() == old(Contents())[1..] == Apply(old(Contents()), Op<T>.PopFront)
      ensures r.OutOfRange? ==> Contents() == old(Contents())
      ensures Spent() == Charge(old(Spent()), Op<T>.PopFront)
    {
      hide Window, Index;
      if count == 0 {
        return OutOfRange;
      }
      IndexTwice(capacity, frontIdx, 1, count - 1);
      WindowPopFront(buffer[..], frontIdx, count);
      Wrap(capacity, frontIdx + 1);
      frontIdx := (frontIdx + 1) % capacity;
      count := count - 1;
      r := Ok(());
    }

    method PopBack() returns (r: Result<()>)
      requires Valid()
      modifies this
      ensures Valid() && buffer == old(buffer) && (r.OutOfRange? <==> old(Contents()) == [])
      ensures r.Ok? ==> Contents() == old(Contents())[..|old(Contents())| - 1] == Apply(old(Contents()), Op<T>.PopBack)
      ensures r.OutOfRange? ==> Contents() == old(Contents())
      ensures Spent() == Charge(old(Spent()), Op<T>.PopBack)
    {
      if count == 0 {
        return OutOfRange;
      }
      WindowPopBack(buffer[..], frontIdx, count);
      backIdx := if backIdx == 0 then capacity - 1 else backIdx - 1;
      count := count - 1;
      r := Ok(());
    }

    method Back() returns (r: Result<T>)
      requires Valid()
      ensures r == if Contents() == [] then OutOfRange else Ok(Contents()[|Contents()| - 1])
    {
      if count == 0 {
        return OutOfRange;
      }
      var t := if backIdx == 0 then capacity - 1 else backIdx - 1;
      r := Ok(buffer[t]);
    }

    method Front() returns (r: Result<T>)
      requires Valid()
      ensures r == if Contents() == [] then OutOfRange else Ok(Contents()[0])
    {
      if count == 0 {
        return OutOfRange;
      }
      r := Ok(buffer[frontIdx]);
    }

    method Begin() returns (it: Iterator<T>)
      ensures fresh(it) && it.owner == this && it.pos == 0
    {
      it := new Iterator(this, 0);
    }

    method End() returns (it: Iterator<T>)
      ensures fresh(it) && it.owner == this && it.pos == count
    {
      it := new Iterator(this, count);
    }

    /** A range `for` loop over the deque. */
    method Elements() returns (s: seq<T>)
      requires Valid()
      ensures s == Contents()
    {
      s := [];
      var it := Begin();
      var last := End();
      var done := it.Equals(last);
      while !done
        invariant fresh(it) && it.owner == this && it != last && last.owner == this && last.pos == count
        invariant it.pos == |s| <= count && s == Contents()[..|s|] && (done <==> it.pos == count)
        decreases count - |s|
      {
        var x := it.Deref();
        s := s + [x];
        it.Increment();
        done := it.Equals(last);
      }
    }
  }

  class Iterator<T(0)> {
    const owner: Deque<T>
    var pos: nat

    constructor (owner: Deque<T>, pos: nat)
      ensures this.owner == owner && this.pos == pos
    {
      this.owner, this.pos := owner, pos;
    }

    method Deref() returns (x: T)
      requires owner.Valid() && pos < owner.count
      ensures x == owner.Contents()[pos]
    {
      Wrap(owner.capacity, owner.frontIdx + pos);
      var t := (owner.frontIdx + pos) % owner.capacity;
      x := owner.buffer[t];
    }

    method Increment()
      modifies this
      ensures pos == (old(pos) + 1) % SIZE_RANGE
    {
      pos := (pos + 1) % SIZE_RANGE;
    }

    method Decrement()
      modifies this
      ensures pos == (old(pos) + SIZE_RANGE - 1) % SIZE_RANGE
    {
      pos := (pos + SIZE_RANGE - 1) % SIZE_RANGE;
    }

    method Equals(other: Iterator<T>) returns (same: bool)
      ensures same <==> owner == other.owner && pos == other.pos
    {
      same := owner == other.owner && pos == other.pos;
    }
  }
}
