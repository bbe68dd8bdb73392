/** `simpleSharedPtr` as objects: its constructors, assignments, `reset` and destructor take the
    steps of the state machine over all handles. */
module SimpleSharedPtr {
  import opened Options
  import opened SharedPtr

  class Payload {
    constructor () {}
  }

  class ControlBlock {
    var refCount: int

    constructor ()
      ensures refCount == 1
    {
      refCount := 1;
    }
  }

  type Fields = Handle<ControlBlock, Payload>
  type Block = Option<Owned<ControlBlock, Payload>>

  /** All handles of the program, as the state machine sees them. */
  class World {
    ghost var state: State<Pointer, ControlBlock, Payload>

    /** The heap agrees with the state. */
    ghost predicate Valid()
      reads this, state.handles.Keys, state.counts.Keys
    {
      && Inv(state)
      && (forall h | h in state.handles :: h.View() == state.handles[h])
      && (forall c | c in state.counts :: c.refCount == state.counts[c])
    }
  }

  class Pointer {
    var ptr: Payload?
    var control: ControlBlock?

    ghost function View(): Fields
      reads this
    {
      Handle(if ptr == null then None else Some(ptr), if control == null then None else Some(control))
    }

    ghost function Own(): Block
      reads this
    {
      if ptr == null || control == null then None else Some(Owned(ptr, control))
    }

    /** `release`; the handle counts as gone until it gets new fields. */
    method LetGo(ghost w: World)
      requires w.Valid() && this in w.state.handles
      modifies this, control, w
      ensures w.Valid() && w.state == Release(old(w.state), this)
    {
      hide Inv, Release;
      ReleaseLeavesOthers(w.state, this);
      ReleaseCounts(w.state, this);
      assert View() == w.state.handles[this];
      w.state := Release(w.state, this);
      if control != null {
        control.refCount := control.refCount - 1;
        if control.refCount == 0 {
          ptr := null;
          control := null;
        }
      }
    }

    /** Counts itself in, after it has taken the fields of another handle. */
    method CountIn(a: Pointer, ghost w: World)
      requires w.Valid() && this !in w.state.handles && a in w.state.handles && View() == a.View()
      modifies control, w
      ensures w.Valid() && w.state == Share(old(w.state), this, old(w.state).handles[a]) && View() == old(View())
    {
      hide Inv;
      ShareKeepsInv(w.state, this, a);
      if control != null {
        control.refCount := control.refCount + 1;
      }
      w.state := Share(w.state, this, w.state.handles[a]);
    }

    /** Takes over the fields of another handle. */
    method TakeOver(other: Pointer, ghost w: World)
      requires w.Valid() && this !in w.state.handles && other in w.state.handles
      modifies this, other, w
      ensures w.Valid() && w.state == Take(old(w.state), this, other)
    {
      hide Inv, Take;
      TakeKeepsInv(w.state, this, other);
      TakeFields(w.state, this, other);
      ptr, control := other.ptr, other.control;
      other.ptr, other.control := null, null;
      w.state := Take(w.state, this, other);
      forall h | h in w.state.handles ensures h.View() == w.state.handles[h] {
        if h != this {
          assert old(h.View()) == old(w.state).handles[h];
        }
      }
    }

    /** Takes a pointer, with a new control block unless it is null. */
    method TakeNew(p: Payload?, ghost w: World)
      requires w.Valid() && this !in w.state.handles && (p != null ==> p !in w.state.adopted)
      modifies this, w
      ensures w.Valid() && ptr == p && (control == null <==> p == null) && New(old(w.state), Own())
      ensures (control != null ==> fresh(control)) && w.state == Adopt(old(w.state), this, Own())
    {
      hide Inv;
      ptr := p;
      if p != null {
        var c := new ControlBlock();
        control := c;
      } else {
        control := null;
      }
      AdoptKeepsInv(w.state, this, Own());
      w.state := Adopt(w.state, this, Own());
    }

    constructor (p: Payload?, ghost w: World)
      requires w.Valid() && (p != null ==> p !in w.state.adopted)
      modifies w
      ensures w.Valid() && ptr == p && Allowed(old(w.state), Construct(this, Own()))
      ensures w.state == Step(old(w.state), Construct(this, Own()))
    {
      hide Inv, Adopt;
      ptr, control := null, null;
      new;
      TakeNew(p, w);
    }

    constructor Copy(a: Pointer, ghost w: World)
      requires w.Valid() && a in w.state.handles
      modifies a.control, w
      ensures w.Valid() && Allowed(old(w.state), CopyConstruct(this, a))
      ensures w.state == Step(old(w.state), CopyConstruct(this, a))
    {
      hide Inv, Share;
      ptr, control := a.ptr, a.control;
      new;
      CountIn(a, w);
    }

    constructor Move(other: Pointer, ghost w: World)
      requires w.Valid() && other in w.state.handles
      modifies other, w
      ensures w.Valid() && Allowed(old(w.state), MoveConstruct(this, other))
      ensures w.state == Step(old(w.state), MoveConstruct(this, other))
    {
      hide Inv, Take;
      ptr, control := null, null;
      new;
      TakeOver(other, w);
    }

    method Assign(a: Pointer, ghost w: World)
      requires w.Valid() && this in w.state.handles && a in w.state.handles
      modifies this, control, a.control, w
      ensures w.Valid() && w.state == Step(old(w.state), CopyAssign(this, a))
    {
      hide Inv, Release, Share;
      if this != a {
        ReleaseLeavesOthers(w.state, this);
        LetGo(w);
        ptr, control := a.ptr, a.control;
        CountIn(a, w);
      }
    }

    method AssignMove(other: Pointer, ghost w: World)
      requires w.Valid() && this in w.state.handles && other in w.state.handles
      modifies this, control, other, w
      ensures w.Valid() && w.state == Step(old(w.state), MoveAssign(this, other))
    {
      hide Inv, Release, Take;
      if this != other {
        ReleaseLeavesOthers(w.state, this);
        LetGo(w);
        TakeOver(other, w);
      }
    }

    method Reset(p: Payload?, ghost w: World)
      requires w.Valid() && this in w.state.handles && (p != null ==> p !in w.state.adopted)
      modifies this, control, w
      ensures w.Valid() && ptr == p && Allowed(old(w.state), Op.Reset(this, Own()))
      ensures w.state == Step(old(w.state), Op.Reset(this, Own()))
    {
      hide Inv, Release, Adopt;
      ReleaseLeavesOthers(w.state, this);
      LetGo(w);
      TakeNew(p, w);
    }

    /** The destructor. */
    method Destroy(ghost w: World)
      requires w.Valid() && this in w.state.handles
      modifies this, control, w
      ensures w.Valid() && Allowed(old(w.state), Op.Destroy(this))
      ensures w.state == Step(old(w.state), Op.Destroy(this))
    {
      hide Inv, Release, Adopt, Share, Take;
      ReleaseLeavesOthers(w.state, this);
      ReleaseCounts(w.state, this);
      assert View() == w.state.handles[this];
      if ptr != null {
        LetGo(w);
      } else {
        w.state := Release(w.state, this);
      }
    }

    method UseCount(ghost w: World) returns (n: int)
      requires w.Valid() && this in w.state.handles
      ensures n == if control == null then 0 else |Holders(w.state.handles, control)|
    {
      assert control != null ==> w.state.handles[this].control == Some(control);
      n := if control == null then 0 else control.refCount;
    }
  }
}
