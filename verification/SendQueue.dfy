/** The writing half of `CSession`: a queue of frames of which only the front one is being
    written. Each step below is one critical section of `_send_lock`, or one thing the socket
    does; every interleaving of them is a run. */
module SendQueue {
  import opened Sequences
  import opened Wire
  import opened Framing

  const MAX_SENDQUE := 1000

  /** Whether `async_write` is called with the lock held (asio/Async/CSession.cpp) or after
      dropping it (asio/Coroutine/CSession.h). */
  datatype Policy = UnderLock | AfterUnlock

  datatype Write = Write(frame: Msg, sent: nat)

  /** `issuing` holds the nodes that a thread has taken from the queue and not yet passed to
      `async_write`; `inFlight` the writes whose handler has not run. `accepted`, `completed` and
      `wire` are histories; `cut` is how far the write that failed had got. */
  datatype State = State(
    queue: seq<Msg>, issuing: seq<Msg>, inFlight: seq<Write>, failed: bool,
    accepted: seq<Msg>, completed: seq<Msg>, wire: seq<byte>, cut: nat)

  const IDLE := State([], [], [], false, [], [], [], 0)

  datatype Event =
    | Send(msg: Msg)
    | Issue(i: nat)
    | Transmit(i: nat, bytes: nat)
    | HandleWrite(i: nat)
    | HandleWriteError(i: nat)

  predicate Enabled(s: State, e: Event) {
    match e
    case Send(_) => true
    case Issue(i) => i < |s.issuing|
    case Transmit(i, bytes) =>
      i < |s.inFlight| && s.inFlight[i].sent + bytes <= |Encode(s.inFlight[i].frame)|
    case HandleWrite(i) =>
      i < |s.inFlight| && s.inFlight[i].sent == |Encode(s.inFlight[i].frame)|
    case HandleWriteError(i) => i < |s.inFlight|
  }

  function Without<T>(s: seq<T>, i: nat): seq<T>
    requires i < |s|
  {
    s[..i] + s[i + 1..]
  }

  /** Start writing the front of the queue, at once or after unlocking. */
  function WriteFront(p: Policy, s: State): State
    requires s.queue != []
  {
    match p
    case UnderLock => s.(inFlight := s.inFlight + [Write(s.queue[0], 0)])
    case AfterUnlock => s.(issuing := s.issuing + [s.queue[0]])
  }

  function Next(p: Policy, s: State, e: Event): State
    requires Enabled(s, e)
  {
    match e
    case Send(msg) =>
      if |s.queue| > MAX_SENDQUE then s else
      var t := s.(queue := s.queue + [msg], accepted := s.accepted + [msg]);
      if s.queue == [] then WriteFront(p, t) else t
    case Issue(i) =>
      s.(issuing := Without(s.issuing, i), inFlight := s.inFlight + [Write(s.issuing[i], 0)])
    case Transmit(i, bytes) =>
      var w := s.inFlight[i];
      s.(inFlight := s.inFlight[i := w.(sent := w.sent + bytes)],
         wire := s.wire + Encode(w.frame)[w.sent..w.sent + bytes])
    case HandleWrite(i) =>
      var t := s.(inFlight := Without(s.inFlight, i),
                  completed := s.completed + [s.inFlight[i].frame],
                  queue := if s.queue == [] then [] else s.queue[1..]);
      if t.queue == [] then t else WriteFront(p, t)
    case HandleWriteError(i) =>
      s.(inFlight := Without(s.inFlight, i), failed := true, cut := s.inFlight[i].sent)
  }

  ghost predicate IsRun(p: Policy, s: State, es: seq<Event>, t: State)
    decreases |es|
  {
    if es == [] then s == t
    else Enabled(s, es[0]) && IsRun(p, Next(p, s, es[0]), es[1..], t)
  }

  /** How much of the front frame is on the wire. */
  function SentOfFront(s: State): nat {
    if s.failed then s.cut else if s.inFlight == [] then 0 else s.inFlight[0].sent
  }

  ghost predicate Inv(s: State) {
    && s.accepted == s.completed + s.queue
    && |s.queue| <= MAX_SENDQUE + 1
    && |s.issuing| + |s.inFlight| == (if s.queue != [] && !s.failed then 1 else 0)
    && (s.issuing != [] ==> s.issuing[0] == s.queue[0])
    && (s.inFlight != [] ==> s.inFlight[0].frame == s.queue[0])
    && (s.failed ==> s.queue != [])
    && (s.queue == [] ==> SentOfFront(s) == 0)
    && (s.queue != [] ==> SentOfFront(s) <= |Encode(s.queue[0])|)
    && s.wire == EncodeAll(s.completed) + (if s.queue == [] then [] else Encode(s.queue[0])[..SentOfFront(s)])
  }

  lemma SendKeepsInv(p: Policy, s: State, msg: Msg)
    requires Inv(s)
    ensures Inv(Next(p, s, Send(msg)))
  {
    assert s.completed + (s.queue + [msg]) == s.completed + s.queue + [msg];
  }

  lemma MoreOfFront(done: seq<byte>, frame: seq<byte>, sent: nat, bytes: nat)
    requires sent + bytes <= |frame|
    ensures done + frame[..sent] + frame[sent..sent + bytes] == done + frame[..sent + bytes]
  {
    assert frame[..sent] + frame[sent..sent + bytes] == frame[..sent + bytes];
  }

  lemma TransmitKeepsInv(p: Policy, s: State, i: nat, bytes: nat)
    requires Inv(s) && Enabled(s, Transmit(i, bytes))
    ensures Inv(Next(p, s, Transmit(i, bytes)))
  {
    hide Encode, EncodeAll;
    MoreOfFront(EncodeAll(s.completed), Encode(s.inFlight[i].frame), s.inFlight[i].sent, bytes);
  }

  lemma HandleWriteKeepsInv(p: Policy, s: State, i: nat)
    requires Inv(s) && Enabled(s, HandleWrite(i))
    ensures Inv(Next(p, s, HandleWrite(i)))
  {
    hide Encode, EncodeAll;
    var front := s.queue[0];
    EncodeAllSnoc(s.completed, front);
    assert Encode(front)[..|Encode(front)|] == Encode(front) == Encode(front) + [];
    assert s.completed + [front] + s.queue[1..] == s.completed + s.queue;
    var t := Next(p, s, HandleWrite(i));
    assert t.queue != [] ==> Encode(t.queue[0])[..0] == [];
  }

  lemma NextKeepsInv(p: Policy, s: State, e: Event)
    requires Inv(s) && Enabled(s, e)
    ensures Inv(Next(p, s, e))
  {
    match e
    case Send(msg) => SendKeepsInv(p, s, msg);
    case Transmit(i, bytes) => TransmitKeepsInv(p, s, i, bytes);
    case HandleWrite(i) => HandleWriteKeepsInv(p, s, i);
    case _ =>
  }

  /** In every run, under either policy: at most one write is issued or about to be issued, and
      it is the front of the queue; a queue that is not empty has its writer unless the session
      failed; nothing accepted is lost or reordered; the queue never exceeds MAX_SENDQUE + 1; and
      the wire carries the completed frames and a prefix of the front one. */
  lemma {:induction false} RunsAreSafe(p: Policy, s: State, es: seq<Event>, t: State)
    requires Inv(s) && IsRun(p, s, es, t)
    ensures Inv(t)
    ensures t.accepted == t.completed + t.queue && |t.queue| <= MAX_SENDQUE + 1
    ensures |t.issuing| + |t.inFlight| == if t.queue != [] && !t.failed then 1 else 0
    decreases |es|
  {
    if es != [] {
      NextKeepsInv(p, s, es[0]);
      RunsAreSafe(p, Next(p, s, es[0]), es[1..], t);
    }
  }

  /** A session that failed never writes again: its wire is frozen and its queue only grows. */
  lemma {:induction false} FailureIsFinal(p: Policy, s: State, es: seq<Event>, t: State)
    requires Inv(s) && s.failed && IsRun(p, s, es, t)
    ensures t.failed && t.wire == s.wire && t.completed == s.completed && s.queue <= t.queue
    decreases |es|
  {
    if es != [] {
      NextKeepsInv(p, s, es[0]);
      FailureIsFinal(p, Next(p, s, es[0]), es[1..], t);
    }
  }

  /** The bound is reached: the check before the push lets one more frame in. */
  lemma {:induction false} QueueFillsUp(p: Policy, msg: Msg, n: nat) returns (es: seq<Event>, s: State)
    requires n <= 1001
    ensures IsRun(p, IDLE, es, s) && s.queue == seq(n, _ => msg)
  {
    if n == 0 {
      es, s := [], IDLE;
    } else {
      var before, t := QueueFillsUp(p, msg, n - 1);
      es, s := before + [Send(msg)], Next(p, t, Send(msg));
      RunSnoc(p, IDLE, before, t, Send(msg));
    }
  }

  lemma {:induction false} RunSnoc(p: Policy, s: State, es: seq<Event>, t: State, e: Event)
    requires IsRun(p, s, es, t) && Enabled(t, e)
    ensures IsRun(p, s, es + [e], Next(p, t, e))
    decreases |es|
  {
    if es == [] {
      assert IsRun(p, Next(p, t, e), ([e])[1..], Next(p, t, e));
    } else {
      RunSnoc(p, Next(p, s, es[0]), es[1..], t, e);
      assert (es + [e])[1..] == es[1..] + [e];
    }
  }

  /** What a send to an idle session starts: with the lock held, the write itself; else only the
      intent to write, so that under the lock no write is ever waiting to be issued. */
  lemma {:induction false} UnderLockNothingWaits(s: State, es: seq<Event>, t: State, msg: Msg)
    requires IsRun(UnderLock, s, es, t) && s.issuing == []
    ensures t.issuing == []
    ensures t.queue == [] ==>
              && Next(UnderLock, t, Send(msg)).inFlight == t.inFlight + [Write(msg, 0)]
              && Next(AfterUnlock, t, Send(msg)).issuing == [msg]
              && Next(AfterUnlock, t, Send(msg)).inFlight == t.inFlight
    decreases |es|
  {
    hide Encode;
    if es != [] {
      UnderLockNothingWaits(Next(UnderLock, s, es[0]), es[1..], t, msg);
    }
  }

  // ---------- What is accepted ----------

  /** The messages that threads have given to `Send`. */
  function Given(es: seq<Event>): seq<Msg> {
    if es == [] then [] else
    (match es[0] case Send(msg) => [msg] case _ => []) + Given(es[1..])
  }

  /** Those of them that find room, counted from a queue of `n` frames: a message is refused
      exactly when more than 1000 frames are there. */
  function Admitted(n: nat, es: seq<Event>): seq<Msg>
    decreases |es|
  {
    if es == [] then [] else
    match es[0]
    case Send(msg) => if n > 1000 then Admitted(n, es[1..]) else [msg] + Admitted(n + 1, es[1..])
    case HandleWrite(_) => Admitted(if n == 0 then 0 else n - 1, es[1..])
    case _ => Admitted(n, es[1..])
  }

  /** In every run exactly the messages that find room are accepted, as they were given. */
  lemma {:induction false} AcceptedAreAdmitted(p: Policy, s: State, es: seq<Event>, t: State)
    requires IsRun(p, s, es, t)
    ensures t.accepted == s.accepted + Admitted(|s.queue|, es)
    decreases |es|
  {
    hide Encode, Without;
    if es != [] {
      AcceptedAreAdmitted(p, Next(p, s, es[0]), es[1..], t);
      if es[0].Send? {
        Associative(s.accepted, [es[0].msg], Admitted(|s.queue| + 1, es[1..]));
      }
    }
  }

  /** As long as there are no more than 1001 of them, all are. */
  lemma {:induction false} FewAreAllAdmitted(n: nat, es: seq<Event>)
    requires n + |Given(es)| <= 1001
    ensures Admitted(n, es) == Given(es)
    decreases |es|
  {
    if es != [] {
      FewAreAllAdmitted(match es[0]
                        case Send(_) => n + 1
                        case HandleWrite(_) => if n == 0 then 0 else n - 1
                        case _ => n, es[1..]);
    }
  }

  // ---------- What the peer reads ----------

  lemma PrefixLeaves(m: Msg, n: nat) returns (ph: Phase)
    requires Acceptable(m) && n < |Encode(m)|
    ensures Leaves(ph, Encode(m)[..n])
  {
    var bytes := Encode(m)[..n];
    if n < HEAD_TOTAL_LEN {
      ph := InHead(bytes);
    } else {
      ph := InBody(m.id, |m.payload|, bytes[HEAD_TOTAL_LEN..]);
      assert bytes == Header(m.id, |m.payload|) + bytes[HEAD_TOTAL_LEN..];
    }
  }

  /** Frames that are all there, and a part of one more. */
  lemma FramesAreRead(done: seq<Msg>, front: Msg, n: nat)
    requires (forall m | m in done :: Acceptable(m)) && Acceptable(front) && n <= |Encode(front)|
    ensures Receive(0, START, EncodeAll(done) + Encode(front)[..n]).posted
            == if n == |Encode(front)| then done + [front] else done
  {
    hide Encode, Receive, EncodeAll, Acceptable;
    if n < |Encode(front)| {
      var ph := PrefixLeaves(front, n);
      ReceiveInvertsEncoding(done, ph, Encode(front)[..n]);
    } else {
      EncodeAllSnoc(done, front);
      assert EncodeAll(done) + Encode(front)[..n] == EncodeAll(done + [front]) + [];
      ReceiveInvertsEncoding(done + [front], START, []);
    }
  }

  /** The completed messages, and the front one once all its bytes are on the wire. */
  function Delivered(s: State): seq<Msg> {
    if s.queue != [] && SentOfFront(s) == |Encode(s.queue[0])| then s.completed + [s.queue[0]] else s.completed
  }

  lemma WireIsRead(s: State)
    requires Inv(s) && forall m | m in s.accepted :: Acceptable(m)
    ensures Receive(0, START, s.wire).posted == Delivered(s) && Delivered(s) <= s.accepted
  {
    hide Encode, Receive, EncodeAll, Acceptable, SentOfFront;
    assert forall m | m in s.completed :: m in s.accepted;
    if s.queue == [] {
      ReceiveInvertsEncoding(s.completed, START, []);
    } else {
      assert s.accepted[|s.completed|] == s.queue[0];
      FramesAreRead(s.completed, s.queue[0], SentOfFront(s));
    }
  }

  lemma EmptyQueueIsWritten(s: State)
    requires Inv(s) && s.queue == []
    ensures s.wire == EncodeAll(s.accepted)
  {
    hide EncodeAll;
    assert s.completed + [] == s.completed && EncodeAll(s.completed) + [] == EncodeAll(s.completed);
  }

  lemma AnyRunInv(p: Policy, es: seq<Event>, s: State)
    requires IsRun(p, IDLE, es, s)
    ensures Inv(s)
  {
    assert EncodeAll([]) == [] && Inv(IDLE);
    RunsAreSafe(p, IDLE, es, s);
  }

  /** From one session's send queue to the other session's message queue: whatever the
      interleaving on this side and however the network cuts the stream, the peer has posted
      the completed messages, and the front one once all its bytes are on the wire. */
  lemma PeerReadsWhatWasSent(p: Policy, es: seq<Event>, s: State, chunks: seq<seq<byte>>)
    requires IsRun(p, IDLE, es, s)
    requires forall m | m in s.accepted :: Acceptable(m)
    requires Flatten(chunks) == s.wire
    ensures ReceiveAll(0, START, chunks).posted == Delivered(s) <= s.accepted
  {
    hide Inv, Next, Encode, Receive, ReceiveAll, IsRun, EncodeAll, Acceptable, SentOfFront;
    AnyRunInv(p, es, s);
    WireIsRead(s);
    ChunkIndependence(START, chunks);
  }

  // ---------- The session object ----------

  class CSession {
    const policy: Policy
    var sendQue: seq<Msg>
    var issuing: seq<Msg>
    var inFlight: seq<Write>
    var closed: bool
    ghost var accepted: seq<Msg>
    ghost var completed: seq<Msg>
    ghost var wire: seq<byte>
    ghost var cut: nat

    ghost function Now(): State
      reads this
    {
      State(sendQue, issuing, inFlight, closed, accepted, completed, wire, cut)
    }

    constructor (policy: Policy)
      ensures this.policy == policy && Now() == IDLE
    {
      this.policy := policy;
      sendQue, issuing, inFlight, closed := [], [], [], false;
      accepted, completed, wire, cut := [], [], [], 0;
    }

    /** The critical section of `Send`. */
    method Send(msg: Msg)
      modifies this
      ensures Now() == Next(policy, old(Now()), Event.Send(msg))
    {
      var sendQueSize := |sendQue|;
      if sendQueSize > MAX_SENDQUE {
        return;
      }
      sendQue, accepted := sendQue + [msg], accepted + [msg];
      if sendQueSize > 0 {
        return;
      }
      AsyncWrite(sendQue[0]);
    }

    method AsyncWrite(node: Msg)
      requires sendQue != [] && node == sendQue[0]
      modifies this`issuing, this`inFlight
      ensures Now() == WriteFront(policy, old(Now()))
    {
      match policy
      case UnderLock => inFlight := inFlight + [Write(node, 0)];
      case AfterUnlock => issuing := issuing + [node];
    }

    /** The `async_write` after `lock.unlock()`. */
    method Issue(i: nat)
      requires Enabled(Now(), Event.Issue(i))
      modifies this`issuing, this`inFlight
      ensures Now() == Next(policy, old(Now()), Event.Issue(i))
    {
      var node := issuing[i];
      issuing := issuing[..i] + issuing[i + 1..];
      inFlight := inFlight + [Write(node, 0)];
    }

    /** The completion handler of write `i`. */
    method HandleWrite(error: bool, i: nat)
      requires Inv(Now())
      requires Enabled(Now(), if error then HandleWriteError(i) else Event.HandleWrite(i))
      modifies this
      ensures Now() == Next(policy, old(Now()), if error then HandleWriteError(i) else Event.HandleWrite(i))
    {
      var w := inFlight[i];
      inFlight := inFlight[..i] + inFlight[i + 1..];
      if error {
        closed, cut := true, w.sent;
      } else {
        completed := completed + [w.frame];
        sendQue := sendQue[1..];
        if sendQue != [] {
          AsyncWrite(sendQue[0]);
        }
      }
    }
  }
}
