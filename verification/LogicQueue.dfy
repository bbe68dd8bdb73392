/** `LogicSystem`: one queue of received messages, one worker thread, and a condition variable
    that is notified only when the queue's size becomes 1. The worker's loop is cut at the points
    where another thread can run or act; every interleaving is a run. */
module LogicQueue {
  import opened Wire

  /** `LogicNode`. */
  datatype Note = Note(session: nat, msg: Msg)

  const MSG_HELLO_WORD: short := 1001

  /** The ids in `_fun_callback`. */
  predicate Registered(n: Note) {
    n.msg.id == MSG_HELLO_WORD
  }

  /** Where `DealMsg` stands. In `Checking`, `Blocking`, `Deciding` and `Draining` it holds
      `_mutex`. `Blocking` is the moment between finding the wait condition true and being
      registered with the condition variable. */
  datatype Pc = Locking | Checking | Blocking | Asleep | Woken | Deciding | Draining | Finished

  /** `posted`, `consumed` and `called` are histories: what was pushed, popped, and passed to a
      callback. */
  datatype State = State(
    queue: seq<Note>, stop: bool, pc: Pc,
    posted: seq<Note>, consumed: seq<Note>, called: seq<Note>)

  const INIT := State([], false, Locking, [], [], [])

  datatype Event =
    | Post(note: Note)
    | Step
    | SpuriousWake
    | SetStop
    | NotifyStop

  predicate WorkerHoldsMutex(s: State) {
    s.pc in {Checking, Blocking, Deciding, Draining}
  }

  predicate Enabled(s: State, e: Event) {
    match e
    case Post(_) => !WorkerHoldsMutex(s)
    case Step => s.pc !in {Asleep, Finished} && (s.pc == Deciding ==> s.stop || s.queue != [])
    case SpuriousWake => s.pc == Asleep
    case SetStop => true
    case NotifyStop => s.stop
  }

  function Notify(s: State): State {
    if s.pc == Asleep then s.(pc := Woken) else s
  }

  /** Look up the callback of the front message, call it, pop the message. */
  function Process(s: State): State
    requires s.queue != []
  {
    var n := s.queue[0];
    s.(queue := s.queue[1..], consumed := s.consumed + [n],
       called := if Registered(n) then s.called + [n] else s.called)
  }

  function WorkerStep(s: State): State
    requires Enabled(s, Step)
  {
    match s.pc
    case Locking => s.(pc := Checking)
    case Checking => s.(pc := if s.queue == [] && !s.stop then Blocking else Deciding)
    case Blocking => s.(pc := Asleep)
    case Woken => s.(pc := Checking)
    case Deciding => if s.stop then s.(pc := Draining) else Process(s).(pc := Locking)
    case Draining => if s.queue == [] then s.(pc := Finished) else Process(s)
  }

  function Next(s: State, e: Event): State
    requires Enabled(s, e)
  {
    match e
    case Post(note) =>
      var t := s.(queue := s.queue + [note], posted := s.posted + [note]);
      if |t.queue| == 1 then Notify(t) else t
    case Step => WorkerStep(s)
    case SpuriousWake => s.(pc := Woken)
    case SetStop => s.(stop := true)
    case NotifyStop => Notify(s)
  }

  function Selected(ns: seq<Note>): seq<Note> {
    if ns == [] then [] else
    var last := ns[|ns| - 1];
    Selected(ns[..|ns| - 1]) + if Registered(last) then [last] else []
  }

  /** Safety, and the wake-up invariant: a worker asleep with no wake pending has nothing to do. */
  ghost predicate Inv(s: State) {
    && s.posted == s.consumed + s.queue
    && s.called == Selected(s.consumed)
    && (s.pc in {Blocking, Asleep} ==> s.queue == [])
    && (s.pc == Deciding ==> s.queue != [] || s.stop)
    && (s.pc in {Draining, Finished} ==> s.stop)
  }

  lemma NextKeepsInv(s: State, e: Event)
    requires Inv(s) && Enabled(s, e)
    ensures Inv(Next(s, e))
  {
    hide Selected;
    if e.Post? {
      assert s.consumed + (s.queue + [e.note]) == s.consumed + s.queue + [e.note];
    } else if e.Step? && s.pc in {Deciding, Draining} && s.queue != [] {
      var n := s.queue[0];
      SelectedOneMore(s.consumed, n);
      assert s.consumed + [n] + s.queue[1..] == s.consumed + s.queue;
    }
  }

  /** Callbacks are called for the messages with id 1001, in order. */
  lemma SelectedOneMore(ns: seq<Note>, n: Note)
    ensures Selected([]) == []
    ensures Selected(ns + [n]) == if n.msg.id == 1001 then Selected(ns) + [n] else Selected(ns)
  {
    assert (ns + [n])[..|ns|] == ns;
  }

  /** The worker never calls `front()` on an empty queue. */
  lemma WorkerIsNeverStuck(s: State)
    requires Inv(s)
    ensures Enabled(s, Step) <==> s.pc !in {Asleep, Finished}
  {
  }

  /** Between two messages the worker lets go of the mutex, so that sessions can post; once it has
      seen the stop flag it keeps it to the end. */
  lemma OneMessageAtATime(s: State, note: Note)
    requires Inv(s) && Enabled(s, Step) && s.pc in {Deciding, Draining}
    ensures var t := WorkerStep(s);
            if s.pc == Deciding && !s.stop then
              t.consumed == s.consumed + [s.queue[0]] && t.queue == s.queue[1..] && Enabled(t, Post(note))
            else if s.pc == Draining && s.queue != [] then
              t.consumed == s.consumed + [s.queue[0]] && t.queue == s.queue[1..] && !Enabled(t, Post(note))
            else t.consumed == s.consumed && t.queue == s.queue && (Enabled(t, Post(note)) <==> s.pc == Draining)
  {
    hide Selected;
  }

  ghost predicate IsRun(s: State, es: seq<Event>, t: State)
    decreases |es|
  {
    if es == [] then s == t else Enabled(s, es[0]) && IsRun(Next(s, es[0]), es[1..], t)
  }

  lemma {:induction false} RunsAreSafe(s: State, es: seq<Event>, t: State)
    requires Inv(s) && IsRun(s, es, t)
    ensures Inv(t)
    ensures t.posted == t.consumed + t.queue && t.called == Selected(t.consumed)
    ensures t.pc == Asleep ==> t.queue == []
    decreases |es|
  {
    if es != [] {
      NextKeepsInv(s, es[0]);
      RunsAreSafe(Next(s, es[0]), es[1..], t);
    }
  }

  /** The messages that sessions have posted. */
  function Posts(es: seq<Event>): seq<Note> {
    if es == [] then [] else (match es[0] case Post(note) => [note] case _ => []) + Posts(es[1..])
  }

  /** In every run what was consumed and what is queued are the messages posted, in order and as
      they were given. */
  lemma {:induction false} PostedArePosts(s: State, es: seq<Event>, t: State)
    requires IsRun(s, es, t)
    ensures t.posted == s.posted + Posts(es)
    ensures Inv(s) ==> t.consumed + t.queue == s.posted + Posts(es)
    decreases |es|
  {
    hide Next, Inv, Enabled;
    if es != [] {
      PostedByOne(s, es[0]);
      PostedArePosts(Next(s, es[0]), es[1..], t);
    }
    if Inv(s) {
      RunsAreSafe(s, es, t);
    }
  }

  lemma PostedByOne(s: State, e: Event)
    requires Enabled(s, e)
    ensures Next(s, e).posted == s.posted + match e case Post(note) => [note] case _ => []
  {
  }

  // ---------- What the worker reaches on its own ----------

  function WorkerRun(s: State, n: nat): State
    requires Inv(s)
    decreases n
  {
    if n == 0 || !Enabled(s, Step) then s else
    NextKeepsInv(s, Step);
    WorkerRun(WorkerStep(s), n - 1)
  }

  /** Every message in the queue is consumed by steps of the worker alone: posting never needs a
      second notification. */
  lemma {:induction false} QueueIsConsumed(s: State) returns (n: nat)
    requires Inv(s) && s.pc != Finished
    ensures var t := WorkerRun(s, n); t.queue == [] && t.consumed == s.posted == t.posted
    decreases |s.queue|, if s.pc == Deciding then 0 else if s.pc == Checking then 1 else 2
  {
    hide Selected;
    if s.queue == [] {
      n := 0;
    } else {
      NextKeepsInv(s, Step);
      var t := WorkerStep(s);
      if s.pc == Deciding && s.stop {
        var k := DrainFinishes(t);
        n := k + 1;
      } else {
        var k := QueueIsConsumed(t);
        n := k + 1;
      }
    }
  }

  lemma {:induction false} DrainFinishes(s: State) returns (n: nat)
    requires Inv(s) && s.pc == Draining
    ensures var t := WorkerRun(s, n); t.pc == Finished && t.queue == [] && t.consumed == s.posted == t.posted
    decreases |s.queue|
  {
    hide Selected;
    NextKeepsInv(s, Step);
    if s.queue == [] {
      n := 1;
      assert WorkerRun(s, 1) == WorkerRun(WorkerStep(s), 0);
    } else {
      var k := DrainFinishes(WorkerStep(s));
      n := k + 1;
    }
  }

  lemma {:induction false} StopFinishes(s: State) returns (n: nat)
    requires Inv(s) && s.stop && s.pc !in {Blocking, Asleep}
    ensures WorkerRun(s, n).pc == Finished
    decreases match s.pc case Finished => 0 case Draining => 1 case Deciding => 2 case Checking => 3 case _ => 4
  {
    hide Selected;
    if s.pc == Finished {
      n := 0;
    } else if s.pc == Draining {
      n := DrainFinishes(s);
    } else {
      NextKeepsInv(s, Step);
      var k := StopFinishes(WorkerStep(s));
      n := k + 1;
    }
  }

  ghost predicate WorkerFinishes(s: State)
    requires Inv(s)
  {
    exists n: nat :: WorkerRun(s, n).pc == Finished
  }

  /** `~LogicSystem` sets the flag and notifies without the mutex, then joins. The join returns,
      with no further event, exactly when the notification does not hit the moment between the
      worker's check and its wait. */
  lemma StopIsHeardIff(s: State)
    requires Inv(s) && s.stop
    ensures Inv(Next(s, NotifyStop))
    ensures WorkerFinishes(Next(s, NotifyStop)) <==> s.pc != Blocking
  {
    NextKeepsInv(s, NotifyStop);
    var t := Next(s, NotifyStop);
    if s.pc == Blocking {
      forall n: nat ensures WorkerRun(t, n).pc != Finished {
        BlockedStaysAsleep(t, n);
      }
    } else {
      var n := StopFinishes(t);
    }
  }

  lemma BlockedStaysAsleep(s: State, n: nat)
    requires Inv(s) && s.pc == Blocking
    ensures WorkerRun(s, n).pc == if n == 0 then Blocking else Asleep
  {
    NextKeepsInv(s, Step);
  }

  /** The unlucky moment is reachable: the worker has found the queue empty, the destructor sets
      the flag and notifies, the worker goes to sleep for good. */
  lemma StopCanBeLost()
    ensures exists es, s :: IsRun(INIT, es, s) && s.pc == Asleep && s.stop
                            && es == [Step, Step, SetStop, NotifyStop, Step]
  {
    var es := [Step, Step, SetStop, NotifyStop, Step];
    var s1 := INIT.(pc := Checking);
    var s2 := s1.(pc := Blocking);
    var s3 := s2.(stop := true);
    var s4 := s3.(pc := Asleep);
    assert es[1..] == [Step, SetStop, NotifyStop, Step];
    assert es[1..][1..] == [SetStop, NotifyStop, Step];
    assert es[1..][1..][1..] == [NotifyStop, Step];
    assert es[1..][1..][1..][1..] == [Step];
    assert IsRun(s3, [Step], s4);
    assert IsRun(s3, [NotifyStop, Step], s4);
    assert IsRun(s2, [SetStop, NotifyStop, Step], s4);
    assert IsRun(s1, [Step, SetStop, NotifyStop, Step], s4);
    assert IsRun(INIT, es, s4);
  }

  // ---------- The object ----------

  class LogicSystem {
    var msgQue: seq<Note>
    var bStop: bool
    var pc: Pc
    var called: seq<Note>
    ghost var posted: seq<Note>
    ghost var consumed: seq<Note>

    ghost function Now(): State
      reads this
    {
      State(msgQue, bStop, pc, posted, consumed, called)
    }

    constructor ()
      ensures Now() == INIT && Inv(Now())
    {
      msgQue, bStop, pc, called := [], false, Locking, [];
      posted, consumed := [], [];
    }

    method NotifyOne()
      modifies this`pc
      ensures Now() == Notify(old(Now()))
    {
      if pc == Asleep {
        pc := Woken;
      }
    }

    method PostMsgToQue(note: Note)
      requires Inv(Now()) && Enabled(Now(), Post(note))
      modifies this
      ensures Inv(Now()) && Now() == Next(old(Now()), Post(note))
    {
      NextKeepsInv(Now(), Post(note));
      msgQue, posted := msgQue + [note], posted + [note];
      if |msgQue| == 1 {
        NotifyOne();
      }
    }

    /** The destructor, up to its join: the flag, then the notification. */
    method SetStopFlag()
      requires Inv(Now())
      modifies this`bStop
      ensures Inv(Now()) && Now() == Next(old(Now()), SetStop)
    {
      bStop := true;
    }

    method NotifyStopped()
      requires Inv(Now()) && bStop
      modifies this`pc
      ensures Inv(Now()) && Now() == Next(old(Now()), NotifyStop)
    {
      NotifyOne();
    }

    method HandleFront()
      requires msgQue != []
      modifies this`msgQue, this`called, this`consumed
      ensures Now() == Process(old(Now()))
    {
      var note := msgQue[0];
      if note.msg.id == MSG_HELLO_WORD {
        called := called + [note];
      }
      msgQue, consumed := msgQue[1..], consumed + [note];
    }

    /** `DealMsg`, from one point where it can be interleaved to the next. */
    method DealMsgStep()
      requires Inv(Now()) && pc !in {Asleep, Finished}
      modifies this
      ensures Inv(Now()) && old(Enabled(Now(), Step)) && Now() == Next(old(Now()), Step)
    {
      NextKeepsInv(Now(), Step);
      match pc {
        case Locking => pc := Checking;
        case Checking =>
          if msgQue == [] && !bStop {
            pc := Blocking;
          } else {
            pc := Deciding;
          }
        case Blocking => pc := Asleep;
        case Woken => pc := Checking;
        case Deciding =>
          if bStop {
            pc := Draining;
          } else {
            HandleFront();
            pc := Locking;
          }
        case Draining =>
          if msgQue == [] {
            pc := Finished;
          } else {
            HandleFront();
          }
      }
    }
  }
}
