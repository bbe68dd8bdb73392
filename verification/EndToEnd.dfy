/** One session's send queue, the network, the other side's reader, its message queue and its
    worker, all together. */
module EndToEnd {
  import opened Sequences
  import opened Wire
  import opened Framing
  import Sender = SendQueue
  import Logic = LogicQueue
  import Pipeline

  /** What has come through from session `i`: consumed, queued, or about to be posted. */
  function Through(s: Pipeline.State, i: nat): seq<Msg>
    requires i < |s.readers|
  {
    Pipeline.Of(i, s.logic.consumed) + Pipeline.Of(i, s.logic.queue) + s.readers[i].outbox
  }

  /** Whatever the interleavings on both sides, and whatever part of the wire has arrived in
      whatever pieces: what has come through are the first of the messages sent, in order; once
      all of the wire is read, they are those completed, and the front one if its last byte is
      out. */
  lemma WhatComesThroughWasSent(p: Sender.Policy, sent: seq<Sender.Event>, sender: Sender.State,
                                sessions: nat, es: seq<Pipeline.Event>, s: Pipeline.State, i: nat)
    requires Sender.IsRun(p, Sender.IDLE, sent, sender) && forall m | m in sender.accepted :: Acceptable(m)
    requires Pipeline.IsRun(0, Pipeline.Initial(sessions), es, s) && i < |s.readers|
    requires Flatten(Pipeline.Given(i, es)) <= sender.wire
    ensures Through(s, i) <= Sender.Delivered(sender) <= sender.accepted == Sender.Admitted(0, sent)
    ensures Flatten(Pipeline.Given(i, es)) == sender.wire ==> Through(s, i) == Sender.Delivered(sender)
  {
    hide *;
    IdleIsEmpty();
    Sender.AcceptedAreAdmitted(p, Sender.IDLE, sent, sender);
    assert [] + Sender.Admitted(0, sent) == Sender.Admitted(0, sent);
    Sender.AnyRunInv(p, sent, sender);
    Sender.WireIsRead(sender);
    var read, wire := Flatten(Pipeline.Given(i, es)), sender.wire;
    assert read + wire[|read|..] == wire;
    Pipeline.NothingIsLostOnTheWay(sessions, es, s, i, wire, wire[|read|..]);
    if read == wire {
      NothingUnread(s.readers[i].phase);
    }
    ThroughIs(s, i);
  }

  lemma IdleIsEmpty()
    ensures Sender.IDLE.accepted == [] == Sender.IDLE.queue
  {
  }

  lemma ThroughIs(s: Pipeline.State, i: nat)
    requires i < |s.readers|
    ensures Through(s, i) == Pipeline.Of(i, s.logic.consumed) + Pipeline.Of(i, s.logic.queue) + s.readers[i].outbox
  {
  }

  lemma NothingUnread(ph: Phase)
    requires WellFormed(0, ph)
    ensures Receive(0, ph, []).posted == []
  {
  }

  /** When the send queue has run empty and the wire has been read, the worker alone takes in every
      message that was accepted for sending, in order, and nothing else from this session. */
  lemma EverySentMessageIsConsumed(p: Sender.Policy, sent: seq<Sender.Event>, sender: Sender.State,
                                   sessions: nat, es: seq<Pipeline.Event>, s: Pipeline.State, i: nat)
    returns (n: nat)
    requires Sender.IsRun(p, Sender.IDLE, sent, sender) && forall m | m in sender.accepted :: Acceptable(m)
    requires sender.queue == []
    requires Pipeline.IsRun(0, Pipeline.Initial(sessions), es, s) && i < |s.readers|
    requires Flatten(Pipeline.Given(i, es)) == sender.wire && s.readers[i].outbox == []
    requires s.logic.pc != Logic.Finished
    ensures Logic.Inv(s.logic)
    ensures Pipeline.Of(i, Logic.WorkerRun(s.logic, n).consumed) == Sender.Admitted(0, sent)
    ensures |Sender.Given(sent)| <= 1001 ==>
              Pipeline.Of(i, Logic.WorkerRun(s.logic, n).consumed) == Sender.Given(sent)
  {
    hide *;
    IdleIsEmpty();
    Sender.AcceptedAreAdmitted(p, Sender.IDLE, sent, sender);
    assert [] + Sender.Admitted(0, sent) == Sender.Admitted(0, sent);
    if |Sender.Given(sent)| <= 1001 {
      Sender.FewAreAllAdmitted(0, sent);
    }
    Sender.AnyRunInv(p, sent, sender);
    Sender.EmptyQueueIsWritten(sender);
    n := Pipeline.EverythingIsConsumed(sessions, es, s, i, sender.accepted);
  }
}
