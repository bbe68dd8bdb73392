/** The asynchronous logger of basic/final1/log.h: producers push under a mutex and notify, one
    worker pops and writes, and shutdown lets it drain the queue. */
module LogQueue {
  import opened Sequences

  /** Where the worker stands. In `Checking`, `Blocking` and `Popping` it holds `mutex_`;
      `Blocking` is the moment before it is registered with the condition variable. */
  datatype Pc =
    | Locking
    | Checking
    | Blocking
    | Asleep
    | Woken
    | Popping
    | Writing(msg: string)
    | Finished

  /** `pushed` and `written` are histories; `exitAt` is how much had been pushed when the worker
      returned. */
  datatype State = State(
    queue: seq<string>, shutdown: bool, pc: Pc, pushed: seq<string>, written: seq<string>, exitAt: nat)

  const INIT := State([], false, Locking, [], [], 0)

  datatype Event = Push(msg: string) | Shutdown | Step | SpuriousWake

  predicate WorkerHoldsMutex(s: State) {
    s.pc in {Checking, Blocking, Popping}
  }

  predicate Enabled(s: State, e: Event) {
    match e
    case Push(_) => !WorkerHoldsMutex(s)
    case Shutdown => !WorkerHoldsMutex(s)
    case Step => s.pc !in {Asleep, Finished} && (s.pc == Popping ==> s.shutdown || s.queue != [])
    case SpuriousWake => s.pc == Asleep
  }

  function Notify(s: State): State {
    if s.pc == Asleep then s.(pc := Woken) else s
  }

  function WorkerStep(s: State): State
    requires Enabled(s, Step)
  {
    match s.pc
    case Locking => s.(pc := Checking)
    case Woken => s.(pc := Checking)
    case Checking => s.(pc := if s.queue != [] || s.shutdown then Popping else Blocking)
    case Blocking => s.(pc := Asleep)
    case Popping =>
      if s.shutdown && s.queue == [] then s.(pc := Finished, exitAt := |s.pushed|)
      else s.(pc := Writing(s.queue[0]), queue := s.queue[1..])
    case Writing(msg) => s.(pc := Locking, written := s.written + [msg])
  }

  function Next(s: State, e: Event): State
    requires Enabled(s, e)
  {
    match e
    case Push(msg) => Notify(s.(queue := s.queue + [msg], pushed := s.pushed + [msg]))
    case Shutdown => Notify(s.(shutdown := true))
    case Step => WorkerStep(s)
    case SpuriousWake => s.(pc := Woken)
  }

  function InHand(s: State): seq<string> {
    if s.pc.Writing? then [s.pc.msg] else []
  }

  ghost predicate Inv(s: State) {
    && s.pushed == s.written + InHand(s) + s.queue
    && (s.pc in {Blocking, Asleep} ==> s.queue == [] && !s.shutdown)
    && (s.pc == Popping ==> s.queue != [] || s.shutdown)
    && (s.pc == Finished ==> s.shutdown && s.exitAt <= |s.pushed| && s.written == s.pushed[..s.exitAt])
  }

  lemma NextKeepsInv(s: State, e: Event)
    requires Inv(s) && Enabled(s, e)
    ensures Inv(Next(s, e))
  {
    if e.Push? {
      assert s.written + InHand(s) + (s.queue + [e.msg]) == s.written + InHand(s) + s.queue + [e.msg];
    } else if e.Step? && s.pc == Popping && s.queue != [] {
      assert s.written + [s.queue[0]] + s.queue[1..] == s.written + s.queue;
    }
  }

  /** The worker pops one message with the mutex held, and writes it without: meanwhile producers
      can push. */
  lemma PushesGoOnWhileWriting(s: State, msg: string)
    requires Inv(s) && s.pc in {Popping, Locking} && Enabled(s, Step)
    ensures var t := WorkerStep(s);
            if s.pc == Locking then !Enabled(t, Push(msg))
            else if s.queue != [] then InHand(t) == [s.queue[0]] && t.queue == s.queue[1..] && Enabled(t, Push(msg))
            else t.pc == Finished && t.written == s.written
  {
  }

  ghost predicate IsRun(s: State, es: seq<Event>, t: State)
    decreases |es|
  {
    if es == [] then s == t else Enabled(s, es[0]) && IsRun(Next(s, es[0]), es[1..], t)
  }

  /** In every run: nothing is lost or reordered between the producers and the file, a worker
      asleep with no wake pending has neither a message nor a shutdown to see, and once it has
      returned everything pushed before that is written. */
  lemma {:induction false} RunsAreSafe(s: State, es: seq<Event>, t: State)
    requires Inv(s) && IsRun(s, es, t)
    ensures Inv(t)
    ensures t.pushed == t.written + InHand(t) + t.queue
    ensures t.pc == Asleep ==> t.queue == [] && !t.shutdown
    ensures t.pc == Finished ==> t.exitAt <= |t.pushed| && t.written == t.pushed[..t.exitAt]
    decreases |es|
  {
    if es != [] {
      NextKeepsInv(s, es[0]);
      RunsAreSafe(Next(s, es[0]), es[1..], t);
    }
  }

  /** The messages that producers have pushed. */
  function Pushes(es: seq<Event>): seq<string> {
    if es == [] then [] else (match es[0] case Push(msg) => [msg] case _ => []) + Pushes(es[1..])
  }

  /** In every run what is written, in hand and queued are the messages pushed, in order and as
      they were given. */
  lemma {:induction false} PushedArePushes(s: State, es: seq<Event>, t: State)
    requires IsRun(s, es, t)
    ensures t.pushed == s.pushed + Pushes(es)
    ensures Inv(s) ==> t.written + InHand(t) + t.queue == s.pushed + Pushes(es)
    decreases |es|
  {
    hide Next, Inv, Enabled, InHand;
    if es != [] {
      PushedByOne(s, es[0]);
      PushedArePushes(Next(s, es[0]), es[1..], t);
      Associative(s.pushed, match es[0] case Push(msg) => [msg] case _ => [], Pushes(es[1..]));
    }
    if Inv(s) {
      RunsAreSafe(s, es, t);
    }
  }

  lemma PushedByOne(s: State, e: Event)
    requires Enabled(s, e)
    ensures Next(s, e).pushed == s.pushed + match e case Push(msg) => [msg] case _ => []
  {
  }

  // ---------- What the worker reaches on its own ----------

  function WorkerRun(s: State, n: nat): State
    requires Inv(s)
    decreases n
  {
    if n == 0 || !Enabled(s, Step) then s else
    NextKeepsInv(s, Step);
    WorkerRun(WorkerStep(s), n - 1)
  }

  function Rank(pc: Pc): nat {
    match pc
    case Finished => 0
    case Popping => 1
    case Checking => 2
    case Locking => 3
    case Woken => 3
    case Writing(_) => 4
    case _ => 5
  }

  /** After `shutdown` the destructor's join always returns, and everything pushed has been
      written: the flag is set under the mutex, so the wake-up cannot be lost. */
  lemma {:induction false} ShutdownDrains(s: State) returns (n: nat)
    requires Inv(s) && s.shutdown && (s.pc == Finished ==> s.exitAt == |s.pushed|)
    ensures var t := WorkerRun(s, n); t.pc == Finished && t.written == s.pushed == t.pushed
    decreases |s.queue|, Rank(s.pc)
  {
    if s.pc == Finished {
      n := 0;
    } else {
      NextKeepsInv(s, Step);
      var k := ShutdownDrains(WorkerStep(s));
      n := k + 1;
    }
  }

  /** Without a shutdown too, the worker alone writes everything pushed so far. */
  lemma {:induction false} QueueIsWritten(s: State) returns (n: nat)
    requires Inv(s) && s.pc != Finished
    ensures WorkerRun(s, n).written == s.pushed
    decreases |s.queue|, Rank(s.pc)
  {
    if s.queue == [] && !s.pc.Writing? {
      n := 0;
    } else {
      NextKeepsInv(s, Step);
      var k := QueueIsWritten(WorkerStep(s));
      n := k + 1;
    }
  }

  // ---------- The object ----------

  class Logger {
    var queue: seq<string>
    var isShutdown: bool
    var pc: Pc
    var logFile: seq<string>
    ghost var pushed: seq<string>
    ghost var exitAt: nat

    ghost function Now(): State
      reads this
    {
      State(queue, isShutdown, pc, pushed, logFile, exitAt)
    }

    constructor ()
      ensures Now() == INIT && Inv(Now())
    {
      queue, isShutdown, pc, logFile := [], false, Locking, [];
      pushed, exitAt := [], 0;
    }

    method Wake()
      modifies this`pc
      ensures Now() == Notify(old(Now()))
    {
      if pc == Asleep {
        pc := Woken;
      }
    }

    method Push(msg: string)
      requires Inv(Now()) && Enabled(Now(), Event.Push(msg))
      modifies this
      ensures Inv(Now()) && Now() == Next(old(Now()), Event.Push(msg))
    {
      NextKeepsInv(Now(), Event.Push(msg));
      queue, pushed := queue + [msg], pushed + [msg];
      Wake();
    }

    method Shutdown()
      requires Inv(Now()) && Enabled(Now(), Event.Shutdown)
      modifies this
      ensures Inv(Now()) && Now() == Next(old(Now()), Event.Shutdown)
    {
      NextKeepsInv(Now(), Event.Shutdown);
      isShutdown := true;
      Wake();
    }

    /** The worker's loop over `pop`, from one point where it can be interleaved to the next. */
    method WorkerStep()
      requires Inv(Now()) && pc !in {Asleep, Finished}
      modifies this
      ensures Inv(Now()) && old(Enabled(Now(), Step)) && Now() == Next(old(Now()), Step)
    {
      NextKeepsInv(Now(), Step);
      match pc {
        case Locking => pc := Checking;
        case Woken => pc := Checking;
        case Checking =>
          if queue != [] || isShutdown {
            pc := Popping;
          } else {
            pc := Blocking;
          }
        case Blocking => pc := Asleep;
        case Popping =>
          if isShutdown && queue == [] {
            pc, exitAt := Finished, |pushed|;
          } else {
            pc := Writing(queue[0]);
            queue := queue[1..];
          }
        case Writing(msg) =>
          logFile := logFile + [msg];
          pc := Locking;
      }
    }
  }
}
