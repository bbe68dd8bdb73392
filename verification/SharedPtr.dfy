/** The reference counted pointer of basic/type_ptr/simpleSharedPtr.h: all handles, control blocks
    and freed objects of a program, over every run of its operations. */
module SharedPtr {
  import opened Options

  /** The fields `ptr` and `control`. */
  datatype Handle<+C, +P> = Handle(ptr: Option<P>, control: Option<C>)

  /** A pointer that is not null, with the control block made for it. */
  datatype Owned<+C, +P> = Owned(p: P, c: C)

  type Handles<H, C, P> = map<H, Handle<C, P>>

  /** The handles that exist, the `ref_count` of every control block, the objects freed so far, in
      order, and the objects ever put under a handle. */
  datatype State<H, C, P> = State(handles: Handles<H, C, P>, counts: map<C, int>, freed: seq<P>, adopted: set<P>)

  ghost function Holders<H, C, P>(m: Handles<H, C, P>, c: C): set<H> {
    set h | h in m && m[h].control == Some(c)
  }

  // ---------- Operations ----------

  /** A handle lets go: `release`, after which the handle is overwritten or gone. */
  ghost function Release<H, C, P>(s: State<H, C, P>, h: H): State<H, C, P>
    requires h in s.handles && (s.handles[h].control.Some? ==> s.handles[h].control.value in s.counts)
    requires s.handles[h].control.Some? ==> s.handles[h].ptr.Some?
  {
    var x := s.handles[h];
    var rest := s.handles - {h};
    if x.control == None then s.(handles := rest) else
    var c := x.control.value;
    if s.counts[c] - 1 == 0 then
      s.(handles := rest, counts := s.counts - {c}, freed := s.freed + [x.ptr.value])
    else
      s.(handles := rest, counts := s.counts[c := s.counts[c] - 1])
  }

  /** A handle takes a pointer, with a new control block unless the pointer is null. */
  ghost function Adopt<H, C, P>(s: State<H, C, P>, h: H, o: Option<Owned<C, P>>): State<H, C, P> {
    match o
    case None => s.(handles := s.handles[h := Handle(None, None)])
    case Some(Owned(p, c)) =>
      s.(handles := s.handles[h := Handle(Some(p), Some(c))], counts := s.counts[c := 1], adopted := s.adopted + {p})
  }

  /** A handle copies the fields of another and counts itself. */
  ghost function Share<H, C, P>(s: State<H, C, P>, h: H, x: Handle<C, P>): State<H, C, P>
    requires x.control.Some? ==> x.control.value in s.counts
  {
    var t := s.(handles := s.handles[h := x]);
    if x.control == None then t else
    var c := x.control.value;
    t.(counts := s.counts[c := s.counts[c] + 1])
  }

  /** A handle takes over the fields of another, which becomes null. */
  ghost function Take<H, C, P>(s: State<H, C, P>, h: H, from: H): State<H, C, P>
    requires from in s.handles
  {
    s.(handles := s.handles[h := s.handles[from]][from := Handle(None, None)])
  }

  datatype Op<H, C, P> =
    | Construct(h: H, o: Option<Owned<C, P>>)
    | CopyConstruct(h: H, from: H)
    | MoveConstruct(h: H, from: H)
    | CopyAssign(h: H, from: H)
    | MoveAssign(h: H, from: H)
    | Reset(h: H, o: Option<Owned<C, P>>)
    | Destroy(h: H)

  /** The pointer was never given to a handle, and its control block is new. */
  ghost predicate New<H, C, P>(s: State<H, C, P>, o: Option<Owned<C, P>>) {
    o.Some? ==> o.value.c !in s.counts && o.value.p !in s.adopted
  }

  /** New handles and control blocks have new names; other handles exist; a pointer given to a
      handle was never given to one before. */
  ghost predicate Allowed<H, C, P>(s: State<H, C, P>, op: Op<H, C, P>) {
    match op
    case Construct(h, o) => h !in s.handles && New(s, o)
    case CopyConstruct(h, from) => h !in s.handles && from in s.handles
    case MoveConstruct(h, from) => h !in s.handles && from in s.handles
    case CopyAssign(h, from) => h in s.handles && from in s.handles
    case MoveAssign(h, from) => h in s.handles && from in s.handles
    case Reset(h, o) => h in s.handles && New(s, o)
    case Destroy(h) => h in s.handles
  }

  // ---------- The invariant ----------

  ghost predicate NoRepeats<P>(ps: seq<P>) {
    forall i, j | 0 <= i < j < |ps| :: ps[i] != ps[j]
  }

  /** `p` is under some handle. */
  ghost predicate Held<H, C, P>(m: Handles<H, C, P>, p: P) {
    exists h | h in m :: m[h].ptr == Some(p)
  }

  /** A handle has a pointer exactly when it has a control block, the same pointer as another
      exactly when it has the same control block. */
  ghost predicate Paired<H, C, P>(m: Handles<H, C, P>) {
    && (forall h | h in m :: m[h].ptr.None? <==> m[h].control.None?)
    && (forall h, k | h in m && k in m && m[h].ptr.Some? :: m[h].ptr == m[k].ptr <==> m[h].control == m[k].control)
  }

  /** Every control block in use exists, and counts its handles. */
  ghost predicate Counted<H, C, P>(s: State<H, C, P>) {
    && (forall h | h in s.handles && s.handles[h].control.Some? :: s.handles[h].control.value in s.counts)
    && (forall c | c in s.counts :: s.counts[c] == |Holders(s.handles, c)| > 0)
  }

  /** Every object put under a handle still is, or has been freed, once. */
  ghost predicate Accounted<H, C, P>(s: State<H, C, P>) {
    && NoRepeats(s.freed)
    && (forall p | p in s.adopted :: Held(s.handles, p) || p in s.freed)
    && (forall h | h in s.handles && s.handles[h].ptr.Some? :: s.handles[h].ptr.value in s.adopted)
    && (forall p | p in s.freed :: p in s.adopted && !Held(s.handles, p))
  }

  ghost predicate Inv<H, C, P>(s: State<H, C, P>) {
    Paired(s.handles) && Counted(s) && Accounted(s)
  }

  lemma HoldersOfUpdate<H, C, P>(m: Handles<H, C, P>, h: H, x: Handle<C, P>, c: C)
    requires h !in m
    ensures Holders(m[h := x], c) == if x.control == Some(c) then Holders(m, c) + {h} else Holders(m, c)
    ensures |Holders(m[h := x], c)| == |Holders(m, c)| + if x.control == Some(c) then 1 else 0
  {
    assert h !in Holders(m, c);
    assert Holders(m[h := x], c) == if x.control == Some(c) then Holders(m, c) + {h} else Holders(m, c);
  }

  lemma HoldersOfRemoval<H, C, P>(m: Handles<H, C, P>, h: H, c: C)
    requires h in m
    ensures |Holders(m, c)| == |Holders(m - {h}, c)| + if m[h].control == Some(c) then 1 else 0
  {
    HoldersOfUpdate(m - {h}, h, m[h], c);
    assert (m - {h})[h := m[h]] == m;
  }

  lemma ReleaseKeepsCounted<H, C, P>(s: State<H, C, P>, h: H)
    requires Paired(s.handles) && Counted(s) && h in s.handles
    ensures Counted(Release(s, h))
  {
    var t, x := Release(s, h), s.handles[h];
    forall c | c in s.counts
      ensures |Holders(s.handles, c)| == |Holders(t.handles, c)| + if x.control == Some(c) then 1 else 0
    {
      HoldersOfRemoval(s.handles, h, c);
    }
    forall k | k in t.handles && t.handles[k].control.Some? ensures t.handles[k].control.value in t.counts {
      assert k in Holders(t.handles, t.handles[k].control.value);
    }
  }

  /** The object is freed exactly when its last handle lets go. */
  lemma LastReleaseFrees<H, C, P>(s: State<H, C, P>, h: H)
    requires Inv(s) && h in s.handles
    ensures var x, t := s.handles[h], Release(s, h);
            t.freed == if x.ptr.Some? && !Held(t.handles, x.ptr.value) then s.freed + [x.ptr.value] else s.freed
  {
    var x, t := s.handles[h], Release(s, h);
    if x.ptr.Some? {
      var c := x.control.value;
      HoldersOfRemoval(s.handles, h, c);
      var rest := s.handles - {h};
      assert forall k | k in rest :: k in Holders(rest, c) <==> rest[k].ptr == x.ptr;
      if s.counts[c] == 1 {
        assert Holders(rest, c) == {};
      } else {
        var k :| k in Holders(rest, c);
      }
    }
  }

  lemma ReleaseFields<H, C, P>(s: State<H, C, P>, h: H)
    requires Paired(s.handles) && Counted(s) && h in s.handles
    ensures s.handles[h].control.Some? ==> s.handles[h].control.value in s.counts && s.handles[h].ptr.Some?
    ensures Release(s, h).handles == s.handles - {h} && Release(s, h).adopted == s.adopted
    ensures forall c | c in Release(s, h).counts :: c in s.counts
  {
  }

  lemma HeldWithout<H, C, P>(m: Handles<H, C, P>, h: H, p: P)
    requires h in m
    ensures Held(m, p) <==> Held(m - {h}, p) || m[h].ptr == Some(p)
  {
    if k :| k in m && m[k].ptr == Some(p) {
      assert k == h || k in m - {h};
    }
    if k :| k in m - {h} && (m - {h})[k].ptr == Some(p) {
      assert k in m && m[k].ptr == Some(p);
    }
  }

  lemma ReleaseKeepsAccounted<H, C, P>(s: State<H, C, P>, h: H)
    requires Inv(s) && h in s.handles
    ensures Accounted(Release(s, h))
  {
    hide Release, Counted, Paired, Held;
    LastReleaseFrees(s, h);
    ReleaseFields(s, h);
    var x, t := s.handles[h], Release(s, h);
    forall p ensures Held(s.handles, p) <==> Held(t.handles, p) || x.ptr == Some(p) {
      HeldWithout(s.handles, h, p);
    }
    assert forall p | p in t.freed :: p in s.freed || x.ptr == Some(p);
  }

  lemma ReleaseKeepsInv<H, C, P>(s: State<H, C, P>, h: H)
    requires Inv(s) && h in s.handles
    ensures Inv(Release(s, h))
  {
    hide Counted, Accounted, Paired;
    ReleaseKeepsCounted(s, h);
    ReleaseKeepsAccounted(s, h);
    PairedRemoval(s.handles, h);
  }

  lemma PairedRemoval<H, C, P>(m: Handles<H, C, P>, h: H)
    requires Paired(m)
    ensures Paired(m - {h})
  {
  }

  // ---------- A new handle ----------

  /** Being accounted for depends on which objects are held, not on how many handles hold them. */
  lemma SameHeld<H, C, P>(s: State<H, C, P>, t: State<H, C, P>)
    requires Accounted(s) && t.freed == s.freed && t.adopted == s.adopted
    requires forall h | h in t.handles && t.handles[h].ptr.Some? :: Held(s.handles, t.handles[h].ptr.value)
    requires forall h | h in s.handles && s.handles[h].ptr.Some? :: Held(t.handles, s.handles[h].ptr.value)
    ensures Accounted(t)
  {
  }

  lemma ShareKeepsCounted<H, C, P>(s: State<H, C, P>, h: H, from: H)
    requires Counted(s) && h !in s.handles && from in s.handles
    ensures Counted(Share(s, h, s.handles[from]))
  {
    var x := s.handles[from];
    var t := Share(s, h, x);
    forall c | c in s.counts
      ensures |Holders(t.handles, c)| == |Holders(s.handles, c)| + if x.control == Some(c) then 1 else 0
    {
      HoldersOfUpdate(s.handles, h, x, c);
    }
  }

  lemma ShareKeepsHeld<H, C, P>(s: State<H, C, P>, h: H, from: H)
    requires Paired(s.handles) && Accounted(s) && h !in s.handles && from in s.handles
    requires s.handles[from].control.Some? ==> s.handles[from].control.value in s.counts
    ensures Accounted(Share(s, h, s.handles[from])) && Paired(Share(s, h, s.handles[from]).handles)
  {
    hide Counted, Paired, Accounted;
    PairedCopy(s.handles, h, from);
    var t := Share(s, h, s.handles[from]);
    forall k | k in t.handles && t.handles[k].ptr.Some? ensures Held(s.handles, t.handles[k].ptr.value) {
      assert t.handles[k] == s.handles[if k == h then from else k];
    }
    forall k | k in s.handles && s.handles[k].ptr.Some? ensures Held(t.handles, s.handles[k].ptr.value) {
      assert t.handles[k] == s.handles[k];
    }
    SameHeld(s, t);
  }

  lemma PairedCopy<H, C, P>(m: Handles<H, C, P>, h: H, from: H)
    requires Paired(m) && h !in m && from in m
    ensures Paired(m[h := m[from]])
  {
  }

  lemma ShareKeepsInv<H, C, P>(s: State<H, C, P>, h: H, from: H)
    requires Inv(s) && h !in s.handles && from in s.handles
    ensures s.handles[from].control.Some? ==> s.handles[from].control.value in s.counts
    ensures Inv(Share(s, h, s.handles[from]))
  {
    ShareKeepsCounted(s, h, from);
    ShareKeepsHeld(s, h, from);
  }

  lemma AdoptKeepsCounted<H, C, P>(s: State<H, C, P>, h: H, o: Option<Owned<C, P>>)
    requires Counted(s) && h !in s.handles && (o.Some? ==> o.value.c !in s.counts)
    ensures Counted(Adopt(s, h, o))
  {
    var t := Adopt(s, h, o);
    var x := t.handles[h];
    assert t.handles == s.handles[h := x];
    forall d | d in t.counts
      ensures |Holders(t.handles, d)| == |Holders(s.handles, d)| + if x.control == Some(d) then 1 else 0
    {
      HoldersOfUpdate(s.handles, h, x, d);
    }
    assert o.Some? ==> Holders(s.handles, o.value.c) == {};
  }

  lemma AdoptKeepsAccounted<H, C, P>(s: State<H, C, P>, h: H, o: Option<Owned<C, P>>)
    requires Accounted(s) && h !in s.handles && New(s, o)
    ensures Accounted(Adopt(s, h, o))
  {
    var t := Adopt(s, h, o);
    assert forall k | k in s.handles :: k in t.handles && t.handles[k] == s.handles[k];
    assert o.Some? ==> h in t.handles && t.handles[h].ptr == Some(o.value.p);
    forall q | q in t.adopted ensures Held(t.handles, q) || q in t.freed {
      if q in s.adopted && q !in s.freed {
        var k :| k in s.handles && s.handles[k].ptr == Some(q);
        assert t.handles[k].ptr == Some(q);
      }
    }
  }

  /** A null handle, or one with a new pointer and a new control block. */
  lemma AdoptKeepsInv<H, C, P>(s: State<H, C, P>, h: H, o: Option<Owned<C, P>>)
    requires Inv(s) && h !in s.handles && New(s, o)
    ensures Inv(Adopt(s, h, o))
  {
    hide Counted, Accounted;
    AdoptKeepsCounted(s, h, o);
    AdoptKeepsAccounted(s, h, o);
    AdoptKeepsPaired(s, h, o);
  }

  lemma AdoptKeepsPaired<H, C, P>(s: State<H, C, P>, h: H, o: Option<Owned<C, P>>)
    requires Inv(s) && h !in s.handles && New(s, o)
    ensures Paired(Adopt(s, h, o).handles)
  {
    hide NoRepeats, Held, Holders;
  }

  /** Giving a handle a pointer keeps the invariant exactly when no handle ever had the pointer. */
  lemma AdoptKeepsInvIff<H, C, P>(s: State<H, C, P>, h: H, p: P, c: C)
    requires Inv(s) && h !in s.handles && c !in s.counts
    ensures Inv(Adopt(s, h, Some(Owned(p, c)))) <==> p !in s.adopted
  {
    var t := Adopt(s, h, Some(Owned(p, c)));
    if p !in s.adopted {
      AdoptKeepsInv(s, h, Some(Owned(p, c)));
    } else if p in s.freed {
      assert h in t.handles && t.handles[h].ptr == Some(p);
    } else {
      var k :| k in s.handles && s.handles[k].ptr == Some(p);
      assert t.handles[k].control != t.handles[h].control;
    }
  }

  lemma TakeIs<H, C, P>(s: State<H, C, P>, h: H, from: H)
    requires h !in s.handles && from in s.handles
    ensures Take(s, h, from) == s.(handles := Take(s, h, from).handles)
    ensures s.handles == (s.handles - {from})[from := s.handles[from]]
    ensures Take(s, h, from).handles == (s.handles - {from})[h := s.handles[from]][from := Handle(None, None)]
  {
  }

  lemma TakeFields<H, C, P>(s: State<H, C, P>, h: H, from: H)
    requires h !in s.handles && from in s.handles
    ensures Take(s, h, from).counts == s.counts && Take(s, h, from).handles.Keys == s.handles.Keys + {h}
    ensures forall k | k in s.handles.Keys + {h} ::
              Take(s, h, from).handles[k]
              == if k == from then Handle(None, None) else s.handles[if k == h then from else k]
  {
  }

  lemma TakeKeepsCounted<H, C, P>(s: State<H, C, P>, h: H, from: H)
    requires Counted(s) && h !in s.handles && from in s.handles
    ensures Counted(Take(s, h, from))
  {
    var t, x, rest := Take(s, h, from), s.handles[from], s.handles - {from};
    TakeIs(s, h, from);
    hide Take, Holders;
    forall c | c in s.counts ensures |Holders(t.handles, c)| == |Holders(s.handles, c)| {
      HoldersOfUpdate(rest, from, x, c);
      HoldersOfUpdate(rest, h, x, c);
      HoldersOfUpdate(rest[h := x], from, Handle(None, None), c);
    }
  }

  lemma TakeKeepsHeld<H, C, P>(s: State<H, C, P>, h: H, from: H)
    requires Paired(s.handles) && Accounted(s) && h !in s.handles && from in s.handles
    ensures Accounted(Take(s, h, from)) && Paired(Take(s, h, from).handles)
  {
    var t := Take(s, h, from);
    forall k | k in t.handles && t.handles[k].ptr.Some? ensures Held(s.handles, t.handles[k].ptr.value) {
      assert t.handles[k] == s.handles[if k == h then from else k];
    }
    forall k | k in s.handles && s.handles[k].ptr.Some? ensures Held(t.handles, s.handles[k].ptr.value) {
      assert t.handles[if k == from then h else k] == s.handles[k];
    }
    SameHeld(s, t);
  }

  lemma TakeKeepsInv<H, C, P>(s: State<H, C, P>, h: H, from: H)
    requires Inv(s) && h !in s.handles && from in s.handles
    ensures Inv(Take(s, h, from))
  {
    TakeKeepsCounted(s, h, from);
    TakeKeepsHeld(s, h, from);
  }

  // ---------- Runs ----------

  lemma ReleaseLeavesOthers<H, C, P>(s: State<H, C, P>, h: H)
    requires Inv(s) && h in s.handles
    ensures Inv(Release(s, h)) && Release(s, h).handles == s.handles - {h} && Release(s, h).adopted == s.adopted
    ensures forall c | c in Release(s, h).counts :: c in s.counts
  {
    hide Release, Counted, Paired, Accounted;
    ReleaseFields(s, h);
    ReleaseKeepsInv(s, h);
  }

  /** What `release` does to the counts. */
  lemma ReleaseCounts<H, C, P>(s: State<H, C, P>, h: H)
    requires Inv(s) && h in s.handles
    ensures var x, t := s.handles[h], Release(s, h).counts;
            && (x.ptr.Some? <==> x.control.Some?)
            && if x.control == None then t == s.counts else
               && x.control.value in s.counts
               && t == if s.counts[x.control.value] == 1 then s.counts - {x.control.value}
                       else s.counts[x.control.value := s.counts[x.control.value] - 1]
  {
  }

  ghost function Step<H, C, P>(s: State<H, C, P>, op: Op<H, C, P>): (t: State<H, C, P>)
    requires Inv(s) && Allowed(s, op)
    ensures Inv(t)
  {
    match op
    case Construct(h, o) =>
      AdoptKeepsInv(s, h, o);
      Adopt(s, h, o)
    case CopyConstruct(h, from) =>
      ShareKeepsInv(s, h, from);
      Share(s, h, s.handles[from])
    case MoveConstruct(h, from) =>
      TakeKeepsInv(s, h, from);
      Take(s, h, from)
    case CopyAssign(h, from) =>
      if h == from then s else
      ReleaseLeavesOthers(s, h);
      ShareKeepsInv(Release(s, h), h, from);
      Share(Release(s, h), h, s.handles[from])
    case MoveAssign(h, from) =>
      if h == from then s else
      ReleaseLeavesOthers(s, h);
      TakeKeepsInv(Release(s, h), h, from);
      Take(Release(s, h), h, from)
    case Reset(h, o) =>
      ReleaseLeavesOthers(s, h);
      AdoptKeepsInv(Release(s, h), h, o);
      Adopt(Release(s, h), h, o)
    case Destroy(h) =>
      ReleaseLeavesOthers(s, h);
      Release(s, h)
  }

  predicate Touches<H(==), C, P>(op: Op<H, C, P>, k: H) {
    op.h == k || ((op.MoveConstruct? || op.MoveAssign?) && op.from == k)
  }

  /** What each operation does to the handles: where a pointer goes, which handles keep theirs, and
      that objects are only ever added to the freed ones, at most one at a time. */
  lemma StepMovesPointers<H, C, P>(s: State<H, C, P>, op: Op<H, C, P>)
    requires Inv(s) && Allowed(s, op)
    ensures var t := Step(s, op);
            && (forall k | k in s.handles && !Touches(op, k) :: k in t.handles && t.handles[k] == s.handles[k])
            && s.freed <= t.freed && |t.freed| <= |s.freed| + 1
            && match op
               case Construct(h, o) => h in t.handles && t.handles[h] == Owning(o) && t.freed == s.freed
               case CopyConstruct(h, from) => h in t.handles && t.handles[h] == s.handles[from] && t.freed == s.freed
               case MoveConstruct(h, from) =>
                 t.handles == s.handles[h := s.handles[from]][from := Owning(None)] && t.freed == s.freed
               case CopyAssign(h, from) => h in t.handles && t.handles[h] == s.handles[from]
               case MoveAssign(h, from) =>
                 if h == from then t == s else t.handles == s.handles[h := s.handles[from]][from := Owning(None)]
               case Reset(h, o) => h in t.handles && t.handles[h] == Owning(o)
               case Destroy(h) => h !in t.handles
  {
    hide Inv, Counted, Accounted, Paired, New;
    if op.h in s.handles {
      ReleaseFrees(s, op.h);
      ReleaseLeavesOthers(s, op.h);
    }
  }

  function Owning<C, P>(o: Option<Owned<C, P>>): Handle<C, P> {
    if o == None then Handle(None, None) else Handle(Some(o.value.p), Some(o.value.c))
  }

  lemma ReleaseFrees<H, C, P>(s: State<H, C, P>, h: H)
    requires Inv(s) && h in s.handles
    ensures s.freed <= Release(s, h).freed && |Release(s, h).freed| <= |s.freed| + 1
  {
  }

  /** No handles yet. */
  ghost function Start<H, C, P>(): (s: State<H, C, P>)
    ensures Inv(s)
  {
    State(map[], map[], [], {})
  }

  ghost predicate AllAllowed<H, C, P>(s: State<H, C, P>, ops: seq<Op<H, C, P>>)
    requires Inv(s)
    decreases |ops|
  {
    ops == [] || (Allowed(s, ops[0]) && AllAllowed(Step(s, ops[0]), ops[1..]))
  }

  ghost function Run<H, C, P>(s: State<H, C, P>, ops: seq<Op<H, C, P>>): (t: State<H, C, P>)
    requires Inv(s) && AllAllowed(s, ops)
    ensures Inv(t)
    decreases |ops|
  {
    if ops == [] then s else Run(Step(s, ops[0]), ops[1..])
  }

  /** After every run: a control block counts its handles, and an object that was ever under a handle
      has been freed, once, exactly if no handle is left on it. */
  lemma RunsAreSafe<H, C, P>(ops: seq<Op<H, C, P>>)
    requires AllAllowed(Start<H, C, P>(), ops)
    ensures var t := Run(Start<H, C, P>(), ops);
            && Counted(t) && Paired(t.handles) && NoRepeats(t.freed)
            && forall p | p in t.adopted :: p in t.freed <==> !Held(t.handles, p)
  {
  }

  /** When all handles are gone nothing is left: no control block, and every object freed. */
  lemma NothingLeaks<H, C, P>(ops: seq<Op<H, C, P>>)
    requires AllAllowed(Start<H, C, P>(), ops) && Run(Start<H, C, P>(), ops).handles == map[]
    ensures var t := Run(Start<H, C, P>(), ops);
            t.counts == map[] && NoRepeats(t.freed) && (set p | p in t.freed) == t.adopted
  {
    var t := Run(Start<H, C, P>(), ops);
    forall c ensures c !in t.counts {
      assert Holders(t.handles, c) == {};
    }
    forall p ensures p in t.adopted <==> p in t.freed {
      assert !Held(t.handles, p);
    }
  }
}
