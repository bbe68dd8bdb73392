/** From the bytes each session receives to the callbacks: sessions reassemble frames and post
    them one by one to the one `LogicSystem`, all of them and its worker interleaved. */
module Pipeline {
  import opened Sequences
  import opened Wire
  import opened Framing
  import Logic = LogicQueue

  /** A session as the pipeline sees it. `outbox` holds the messages its current `HandleRead` has
      reassembled and not yet pushed; `chunks` is the history of what it was given. */
  datatype Reader = Reader(chunks: seq<seq<byte>>, phase: Phase, outbox: seq<Msg>)

  datatype State = State(readers: seq<Reader>, logic: Logic.State)

  datatype Event =
    | Deliver(session: nat, chunk: seq<byte>)
    | PostNext(session: nat)
    | Worker(event: Logic.Event)

  const NEW_READER := Reader([], START, [])

  /** The next chunk comes only when the handler of the last one has returned. */
  ghost predicate Enabled(slack: Slack, s: State, e: Event) {
    match e
    case Deliver(i, chunk) =>
      i < |s.readers| && WellFormed(slack, s.readers[i].phase) && s.readers[i].outbox == []
    case PostNext(i) =>
      i < |s.readers| && s.readers[i].outbox != []
      && Logic.Enabled(s.logic, Logic.Post(Logic.Note(i, s.readers[i].outbox[0])))
    case Worker(event) => !event.Post? && Logic.Enabled(s.logic, event)
  }

  ghost function Next(slack: Slack, s: State, e: Event): State
    requires Enabled(slack, s, e)
  {
    match e
    case Deliver(i, chunk) =>
      var r := s.readers[i];
      var o := Receive(slack, r.phase, chunk);
      s.(readers := s.readers[i := Reader(r.chunks + [chunk], o.phase, o.posted)])
    case PostNext(i) =>
      var r := s.readers[i];
      State(s.readers[i := r.(outbox := r.outbox[1..])],
            Logic.Next(s.logic, Logic.Post(Logic.Note(i, r.outbox[0]))))
    case Worker(event) => s.(logic := Logic.Next(s.logic, event))
  }

  ghost predicate IsRun(slack: Slack, s: State, es: seq<Event>, t: State)
    decreases |es|
  {
    if es == [] then s == t
    else Enabled(slack, s, es[0]) && IsRun(slack, Next(slack, s, es[0]), es[1..], t)
  }

  /** The messages of session `i` among `ns`, in order. */
  function Of(i: nat, ns: seq<Logic.Note>): seq<Msg> {
    if ns == [] then [] else
    var last := ns[|ns| - 1];
    Of(i, ns[..|ns| - 1]) + if last.session == i then [last.msg] else []
  }

  lemma {:induction false} OfAppend(i: nat, xs: seq<Logic.Note>, ys: seq<Logic.Note>)
    ensures Of(i, xs + ys) == Of(i, xs) + Of(i, ys)
  {
    if ys == [] {
      assert xs + ys == xs;
    } else {
      var n := |ys| - 1;
      OfAppend(i, xs, ys[..n]);
      assert (xs + ys)[..|xs + ys| - 1] == xs + ys[..n];
      Associative(Of(i, xs), Of(i, ys[..n]), if ys[n].session == i then [ys[n].msg] else []);
    }
  }

  lemma OfOne(i: nat, n: Logic.Note)
    ensures Of(i, [n]) == if n.session == i then [n.msg] else []
  {
    assert [n][..0] == [];
  }

  /** What session `i` has posted and still holds is what its chunks carry. */
  ghost predicate Accounted(slack: Slack, s: State, i: nat)
    requires i < |s.readers|
  {
    var r := s.readers[i];
    Outcome(r.phase, Of(i, s.logic.posted) + r.outbox) == ReceiveAll(slack, START, r.chunks)
  }

  ghost predicate Inv(slack: Slack, s: State) {
    Logic.Inv(s.logic) && forall i: nat | i < |s.readers| :: Accounted(slack, s, i)
  }

  lemma {:induction false} ReceiveAllSnoc(slack: Slack, ph: Phase, chunks: seq<seq<byte>>, chunk: seq<byte>)
    requires WellFormed(slack, ph)
    ensures var o := ReceiveAll(slack, ph, chunks);
            ReceiveAll(slack, ph, chunks + [chunk]) == Post(o.posted, Receive(slack, o.phase, chunk))
    decreases |chunks|
  {
    if chunks == [] {
      assert ReceiveAll(slack, Receive(slack, ph, chunk).phase, ([chunk])[1..]).posted == [];
      assert chunks + [chunk] == [chunk];
    } else {
      var o := Receive(slack, ph, chunks[0]);
      ReceiveAllSnoc(slack, o.phase, chunks[1..], chunk);
      assert (chunks + [chunk])[1..] == chunks[1..] + [chunk];
      var mid := ReceiveAll(slack, o.phase, chunks[1..]);
      PostPost(o.posted, mid.posted, Receive(slack, mid.phase, chunk));
    }
  }

  lemma DeliverKeepsInv(slack: Slack, s: State, i: nat, chunk: seq<byte>)
    requires Inv(slack, s) && Enabled(slack, s, Deliver(i, chunk))
    ensures Inv(slack, Next(slack, s, Deliver(i, chunk)))
  {
    var t := Next(slack, s, Deliver(i, chunk));
    forall j: nat | j < |t.readers| ensures Accounted(slack, t, j) {
      assert Accounted(slack, s, j);
      if j == i {
        ReceiveAllSnoc(slack, START, s.readers[i].chunks, chunk);
      }
    }
  }

  lemma PostNextKeepsInv(slack: Slack, s: State, i: nat)
    requires Inv(slack, s) && Enabled(slack, s, PostNext(i))
    ensures Inv(slack, Next(slack, s, PostNext(i)))
  {
    hide Of, Receive, ReceiveAll, Logic.Inv;
    var t, outbox := Next(slack, s, PostNext(i)), s.readers[i].outbox;
    var note := Logic.Note(i, outbox[0]);
    Logic.NextKeepsInv(s.logic, Logic.Post(note));
    assert t.logic.posted == s.logic.posted + [note];
    forall j: nat | j < |t.readers| ensures Accounted(slack, t, j) {
      assert Accounted(slack, s, j);
      OfAppend(j, s.logic.posted, [note]);
      OfOne(j, note);
      if j == i {
        assert Of(i, s.logic.posted) + [outbox[0]] + outbox[1..] == Of(i, s.logic.posted) + outbox;
      }
    }
  }

  lemma WorkerKeepsInv(slack: Slack, s: State, event: Logic.Event)
    requires Inv(slack, s) && Enabled(slack, s, Worker(event))
    ensures Inv(slack, Next(slack, s, Worker(event)))
  {
    var t := Next(slack, s, Worker(event));
    Logic.NextKeepsInv(s.logic, event);
    assert t.logic.posted == s.logic.posted;
    forall j: nat | j < |t.readers| ensures Accounted(slack, t, j) {
      assert Accounted(slack, s, j);
    }
  }

  lemma NextKeepsInv(slack: Slack, s: State, e: Event)
    requires Inv(slack, s) && Enabled(slack, s, e)
    ensures Inv(slack, Next(slack, s, e)) && |Next(slack, s, e).readers| == |s.readers|
  {
    match e
    case Deliver(i, chunk) => DeliverKeepsInv(slack, s, i, chunk);
    case PostNext(i) => PostNextKeepsInv(slack, s, i);
    case Worker(event) => WorkerKeepsInv(slack, s, event);
  }

  lemma {:induction false} RunsAreSafe(slack: Slack, s: State, es: seq<Event>, t: State)
    requires Inv(slack, s) && IsRun(slack, s, es, t)
    ensures Inv(slack, t) && |t.readers| == |s.readers|
    decreases |es|
  {
    if es != [] {
      NextKeepsInv(slack, s, es[0]);
      RunsAreSafe(slack, Next(slack, s, es[0]), es[1..], t);
    }
  }

  /** The chunks that session `i` was given. */
  function Given(i: nat, es: seq<Event>): seq<seq<byte>> {
    if es == [] then [] else
    (match es[0] case Deliver(j, chunk) => if j == i then [chunk] else [] case _ => []) + Given(i, es[1..])
  }

  lemma {:induction false} ChunksAreGiven(slack: Slack, s: State, es: seq<Event>, t: State, i: nat)
    requires IsRun(slack, s, es, t) && i < |s.readers|
    ensures |t.readers| == |s.readers| && t.readers[i].chunks == s.readers[i].chunks + Given(i, es)
    decreases |es|
  {
    hide Receive;
    if es != [] {
      ChunksAreGiven(slack, Next(slack, s, es[0]), es[1..], t, i);
    }
  }

  function Initial(sessions: nat): State {
    State(seq(sessions, _ => NEW_READER), Logic.INIT)
  }

  lemma RunInv(slack: Slack, sessions: nat, es: seq<Event>, s: State)
    requires IsRun(slack, Initial(sessions), es, s)
    ensures Inv(slack, s) && |s.readers| == sessions
  {
    var init := Initial(sessions);
    forall i: nat | i < sessions ensures Accounted(slack, init, i) {
    }
    RunsAreSafe(slack, init, es, s);
  }

  /** Conservation, for either length of the body node: whatever the interleaving, what the worker has
      consumed, what is queued and what the handler still holds is, per session and in order,
      what that session's chunks carry. */
  lemma NothingIsLost(slack: Slack, sessions: nat, es: seq<Event>, s: State, i: nat)
    requires IsRun(slack, Initial(sessions), es, s) && i < sessions
    ensures |s.readers| == sessions && s.readers[i].chunks == Given(i, es)
    ensures Of(i, s.logic.consumed) + Of(i, s.logic.queue) + s.readers[i].outbox
            == ReceiveAll(slack, START, Given(i, es)).posted
    ensures s.logic.called == Logic.Selected(s.logic.consumed)
    ensures s.logic.pc == Logic.Asleep ==> s.logic.queue == []
  {
    hide Receive, ReceiveAll, Of;
    RunInv(slack, sessions, es, s);
    ChunksAreGiven(slack, Initial(sessions), es, s, i);
    assert Accounted(slack, s, i);
    OfAppend(i, s.logic.consumed, s.logic.queue);
  }

  /** The same against the stream the peer sent, of which `unread` has not come yet. */
  lemma NothingIsLostOnTheWay(sessions: nat, es: seq<Event>, s: State, i: nat, stream: seq<byte>, unread: seq<byte>)
    requires IsRun(0, Initial(sessions), es, s) && i < |s.readers|
    requires stream == Flatten(Given(i, es)) + unread
    ensures WellFormed(0, s.readers[i].phase)
    ensures Of(i, s.logic.consumed) + Of(i, s.logic.queue) + s.readers[i].outbox
            + Receive(0, s.readers[i].phase, unread).posted
            == Receive(0, START, stream).posted
  {
    RunInv(0, sessions, es, s);
    NothingIsLost(0, sessions, es, s, i);
    assert Accounted(0, s, i);
    ChunkIndependence(START, Given(i, es));
    ReceiveAppend(START, Flatten(Given(i, es)), unread);
  }

  /** When the network and the handlers have nothing left, the worker alone delivers everything:
      if session `i`'s stream is the encoding of `ms`, then `ms` is what the worker consumes for it. */
  lemma EverythingIsConsumed(sessions: nat, es: seq<Event>, s: State, i: nat, ms: seq<Msg>) returns (n: nat)
    requires IsRun(0, Initial(sessions), es, s) && i < |s.readers|
    requires forall m | m in ms :: Acceptable(m)
    requires Flatten(Given(i, es)) == EncodeAll(ms) && s.readers[i].outbox == []
    requires s.logic.pc != Logic.Finished
    ensures Logic.Inv(s.logic)
    ensures Of(i, Logic.WorkerRun(s.logic, n).consumed) == ms
  {
    RunInv(0, sessions, es, s);
    NothingIsLost(0, sessions, es, s, i);
    CodecRoundTrip(ms, Given(i, es));
    OfAppend(i, s.logic.consumed, s.logic.queue);
    n := Logic.QueueIsConsumed(s.logic);
  }
}
