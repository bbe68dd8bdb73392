/** Frame reassembly: the automaton that `CSession::HandleRead` runs over the chunks the
    socket delivers, and its relation to the wire format. */
module Framing {
  import opened Sequences
  import opened Wire

  /** Where the reader stands between two chunks: `_b_head_parse` with `_recv_head_node`, or
      with `_recv_msg_node`; or stopped. `Cleared` is the `ClearSession` return. `Faulted` comes of
      a negative length field: the allocation of the body fails, or the code writes, at once or
      with the next byte it is given, outside a buffer. */
  datatype Phase =
    | InHead(have: seq<byte>)
    | InBody(id: short, total: nat, got: seq<byte>)
    | Cleared
    | Faulted

  datatype Outcome = Outcome(phase: Phase, posted: seq<Msg>)

  type Slack = n: nat | n <= HEAD_TOTAL_LEN

  const START := InHead([])

  ghost predicate WellFormed(slack: Slack, ph: Phase) {
    match ph
    case InHead(have) => |have| < HEAD_TOTAL_LEN
    case InBody(id, total, got) =>
      id <= MAX_LENGTH && total <= MAX_LENGTH + slack && (|got| < total || |got| == total < slack)
    case _ => true
  }

  /** One call of `HandleRead`. `slack` is what `RecvNode` adds to the body size: 4 in
      asio/Async/Node.h, 0 in asio/Coroutine/Msg.h. It matters only when a body does not
      arrive in the chunk that completes its head. */
  ghost function Receive(slack: Slack, ph: Phase, chunk: seq<byte>): (o: Outcome)
    requires WellFormed(slack, ph)
    ensures WellFormed(slack, o.phase)
    decreases |chunk|, if ph.InBody? then 1 else 0
  {
    if chunk == [] then Outcome(ph, []) else
    match ph
    case InHead(have) =>
      if |have| + |chunk| < HEAD_TOTAL_LEN then Outcome(InHead(have + chunk), []) else
      var remain := HEAD_TOTAL_LEN - |have|;
      ReceiveBody(slack, have + chunk[..remain], chunk[remain..])
    case InBody(id, total, got) =>
      var remain := total - |got|;
      if |chunk| < remain then Outcome(InBody(id, total, got + chunk), [])
      else Post([Msg(id, got + chunk[..remain])], Receive(slack, START, chunk[remain..]))
    case _ => Outcome(ph, [])
  }

  /** The part of `HandleRead` after the head is complete. The test whether the body is all there
      compares unsigned numbers, so it never is for a negative length; what is left of the chunk
      then goes into a buffer of `len + slack` bytes, if there can be one. */
  ghost function ReceiveBody(slack: Slack, head: seq<byte>, rest: seq<byte>): (o: Outcome)
    requires |head| == HEAD_TOTAL_LEN
    ensures WellFormed(slack, o.phase)
    decreases |rest|, 1
  {
    var id, len := IdField(head), LenField(head);
    if id > MAX_LENGTH || len > MAX_LENGTH then Outcome(Cleared, [])
    else if len < 0 then Outcome(if |rest| <= len + slack then InBody(id, len + slack, rest) else Faulted, [])
    else if |rest| < len then Outcome(InBody(id, len + slack, rest), [])
    else Post([Msg(id, rest[..len])], Receive(slack, START, rest[len..]))
  }

  function Post(ms: seq<Msg>, o: Outcome): Outcome {
    o.(posted := ms + o.posted)
  }

  lemma PostPost(xs: seq<Msg>, ys: seq<Msg>, o: Outcome)
    ensures Post(xs, Post(ys, o)) == Post(xs + ys, o)
  {
    assert xs + (ys + o.posted) == xs + ys + o.posted;
  }

  /** A whole session: the calls of `HandleRead`, chunk after chunk. */
  ghost function ReceiveAll(slack: Slack, ph: Phase, chunks: seq<seq<byte>>): (o: Outcome)
    requires WellFormed(slack, ph)
    ensures WellFormed(slack, o.phase)
    decreases |chunks|
  {
    if chunks == [] then Outcome(ph, []) else
    var o := Receive(slack, ph, chunks[0]);
    Post(o.posted, ReceiveAll(slack, o.phase, chunks[1..]))
  }

  // ---------- Chunk independence ----------

  lemma {:induction false} ReceiveAppend(ph: Phase, a: seq<byte>, b: seq<byte>)
    requires WellFormed(0, ph)
    ensures var o := Receive(0, ph, a);
            Receive(0, ph, a + b) == Post(o.posted, Receive(0, o.phase, b))
    decreases |a|, 2
  {
    if a == [] || ph.Cleared? || ph.Faulted? {
      assert a == [] ==> a + b == b;
    } else if b == [] {
      assert a + b == a;
    } else if ph.InHead? {
      HeadAppend(ph.have, a, b);
    } else {
      BodyAppend(ph, a, b);
    }
  }

  /** One look at a chunk that continues a head. */
  lemma HeadStep(slack: Slack, have: seq<byte>, a: seq<byte>)
    requires |have| < HEAD_TOTAL_LEN && a != []
    ensures var remain := HEAD_TOTAL_LEN - |have|;
            Receive(slack, InHead(have), a)
            == if |a| < remain then Outcome(InHead(have + a), [])
               else ReceiveBody(slack, have + a[..remain], a[remain..])
  {
    hide ReceiveBody;
  }

  /** The four things that can follow a complete head. */
  lemma NewBodyStep(slack: Slack, head: seq<byte>, rest: seq<byte>)
    requires |head| == HEAD_TOTAL_LEN
    ensures var id, len := IdField(head), LenField(head);
            ReceiveBody(slack, head, rest)
            == if id > 2048 || len > 2048 then Outcome(Cleared, [])
               else if 0 <= len <= |rest| then Post([Msg(id, rest[..len])], Receive(slack, START, rest[len..]))
               else if |rest| <= len + slack then Outcome(InBody(id, len + slack, rest), [])
               else Outcome(Faulted, [])
  {
    hide Receive;
  }

  /** One look at a chunk that continues a body. */
  lemma BodyStep(slack: Slack, ph: Phase, a: seq<byte>)
    requires WellFormed(slack, ph) && ph.InBody? && a != []
    ensures var remain := ph.total - |ph.got|;
            Receive(slack, ph, a)
            == if |a| < remain then Outcome(InBody(ph.id, ph.total, ph.got + a), [])
               else Post([Msg(ph.id, ph.got + a[..remain])], Receive(slack, START, a[remain..]))
  {
    hide ReceiveBody;
  }

  lemma PostNothing(o: Outcome)
    ensures Post([], o) == o
  {
  }

  lemma {:induction false} HeadAppend(have: seq<byte>, a: seq<byte>, b: seq<byte>)
    requires |have| < HEAD_TOTAL_LEN && a != [] && b != []
    ensures var o := Receive(0, InHead(have), a);
            Receive(0, InHead(have), a + b) == Post(o.posted, Receive(0, o.phase, b))
    decreases |a|, 1
  {
    hide Receive, ReceiveBody, Post;
    var remain := HEAD_TOTAL_LEN - |have|;
    HeadStep(0, have, a);
    HeadStep(0, have, a + b);
    if |a| < remain {
      HeadStep(0, have + a, b);
      PostNothing(Receive(0, InHead(have + a), b));
    }
    if |a| >= remain {
      assert (a + b)[..remain] == a[..remain] && (a + b)[remain..] == a[remain..] + b;
      ReceiveBodyAppend(have + a[..remain], a[remain..], b);
    } else if |a| + |b| >= remain {
      assert (have + a) + b[..remain - |a|] == have + (a + b)[..remain];
      assert b[remain - |a|..] == (a + b)[remain..];
    } else {
      assert have + a + b == have + (a + b);
    }
  }

  lemma {:induction false} ReceiveBodyAppend(head: seq<byte>, rest: seq<byte>, b: seq<byte>)
    requires |head| == HEAD_TOTAL_LEN && b != []
    ensures var o := ReceiveBody(0, head, rest);
            ReceiveBody(0, head, rest + b) == Post(o.posted, Receive(0, o.phase, b))
    decreases |rest|, 3
  {
    var len := LenField(head);
    if 0 <= len <= |rest| && len <= MAX_LENGTH {
      assert (rest + b)[..len] == rest[..len] && (rest + b)[len..] == rest[len..] + b;
      ReceiveAppend(START, rest[len..], b);
      var o := Receive(0, START, rest[len..]);
      PostPost([Msg(IdField(head), rest[..len])], o.posted, Receive(0, o.phase, b));
    } else if |rest| < len <= |rest + b| {
      assert (rest + b)[..len] == rest + b[..len - |rest|];
      assert (rest + b)[len..] == b[len - |rest|..];
    }
  }

  lemma {:induction false} BodyAppend(ph: Phase, a: seq<byte>, b: seq<byte>)
    requires WellFormed(0, ph) && ph.InBody? && a != [] && b != []
    ensures var o := Receive(0, ph, a);
            Receive(0, ph, a + b) == Post(o.posted, Receive(0, o.phase, b))
    decreases |a|, 1
  {
    var remain := ph.total - |ph.got|;
    if remain <= |a| {
      assert (a + b)[..remain] == a[..remain] && (a + b)[remain..] == a[remain..] + b;
      ReceiveAppend(START, a[remain..], b);
      var o := Receive(0, START, a[remain..]);
      PostPost([Msg(ph.id, ph.got + a[..remain])], o.posted, Receive(0, o.phase, b));
    } else if remain <= |a| + |b| {
      assert ph.got + a + b[..remain - |a|] == ph.got + (a + b)[..remain];
      assert b[remain - |a|..] == (a + b)[remain..];
    } else {
      assert ph.got + a + b == ph.got + (a + b);
    }
  }

  /** However the network cuts a stream, the reader posts the same messages and stands at the
      same place as if the stream had come in one piece. */
  lemma {:induction false} ChunkIndependence(ph: Phase, chunks: seq<seq<byte>>)
    requires WellFormed(0, ph)
    ensures ReceiveAll(0, ph, chunks) == Receive(0, ph, Flatten(chunks))
    decreases |chunks|
  {
    if chunks != [] {
      ChunkIndependence(Receive(0, ph, chunks[0]).phase, chunks[1..]);
      ReceiveAppend(ph, chunks[0], Flatten(chunks[1..]));
    }
  }

  // ---------- The reader is the inverse of SendNode ----------

  /** The bytes `tail` are what a reader that has posted everything before them and now stands
      at `ph` has left over. */
  ghost predicate Leaves(ph: Phase, tail: seq<byte>) {
    match ph
    case InHead(have) => tail == have && |have| < HEAD_TOTAL_LEN
    case InBody(id, total, got) =>
      id <= MAX_LENGTH && |got| < total <= MAX_LENGTH && tail == Header(id, total) + got
    case Cleared =>
      |tail| >= HEAD_TOTAL_LEN && (IdField(tail) > MAX_LENGTH || LenField(tail) > MAX_LENGTH)
    case Faulted =>
      |tail| >= HEAD_TOTAL_LEN && IdField(tail) <= MAX_LENGTH && LenField(tail) < 0
  }

  /** Every stream is the encoding of what it posts, followed by what the phase says is left. */
  lemma {:induction false} ReceiveIsEncoding(s: seq<byte>) returns (tail: seq<byte>)
    ensures s == EncodeAll(Receive(0, START, s).posted) + tail
    ensures Leaves(Receive(0, START, s).phase, tail)
    decreases |s|
  {
    hide Receive, ReceiveBody, Leaves, Encode;
    if StartsWithFrame(s) {
      var id, len, rest := IdField(s), LenField(s), s[4..];
      var m, after := Msg(id, rest[..len]), rest[len..];
      SplitFrame(s);
      ReceiveFrame(m, after);
      tail := ReceiveIsEncoding(after);
      EncodeAllCons(m, Receive(0, START, after).posted);
    } else {
      tail := s;
      ReceiveRemainder(s);
    }
  }

  predicate StartsWithFrame(s: seq<byte>) {
    |s| >= HEAD_TOTAL_LEN && IdField(s) <= MAX_LENGTH && 0 <= LenField(s) <= MAX_LENGTH && LenField(s) <= |s[4..]|
  }

  lemma SplitFrame(s: seq<byte>)
    requires StartsWithFrame(s)
    ensures var len, rest := LenField(s), s[4..];
            var m := Msg(IdField(s), rest[..len]);
            Acceptable(m) && s == Encode(m) + rest[len..]
  {
    SplitHeader(s);
  }

  lemma ReceiveRemainder(s: seq<byte>)
    requires !StartsWithFrame(s)
    ensures Receive(0, START, s).posted == [] && Leaves(Receive(0, START, s).phase, s)
  {
    if |s| >= HEAD_TOTAL_LEN {
      SplitHeader(s);
      ReceiveHeader(IdField(s), LenField(s), s[4..]);
    }
  }

  lemma ReceiveFrame(m: Msg, after: seq<byte>)
    requires Acceptable(m)
    ensures Receive(0, START, Encode(m) + after) == Post([m], Receive(0, START, after))
  {
    var rest := m.payload + after;
    assert Encode(m) + after == Header(m.id, |m.payload|) + rest;
    ReceiveHeader(m.id, |m.payload|, rest);
    assert rest[..|m.payload|] == m.payload && rest[|m.payload|..] == after;
  }

  lemma SplitHeader(s: seq<byte>)
    requires |s| >= HEAD_TOTAL_LEN
    ensures s == Header(IdField(s), LenField(s)) + s[4..]
  {
    HeaderOfFields(s[..4]);
  }

  /** Encodings followed by such a left-over are read back exactly. */
  lemma {:induction false} ReceiveInvertsEncoding(ms: seq<Msg>, ph: Phase, tail: seq<byte>)
    requires forall m | m in ms :: Acceptable(m)
    requires Leaves(ph, tail)
    ensures Receive(0, START, EncodeAll(ms) + tail) == Outcome(ph, ms)
  {
    if ms == [] {
      assert EncodeAll(ms) + tail == tail;
      ReceiveLeftOver(ph, tail);
    } else {
      var m, after := ms[0], EncodeAll(ms[1..]) + tail;
      ReceiveInvertsEncoding(ms[1..], ph, tail);
      ReceiveFrame(m, after);
      EncodeAllSplit(ms, tail);
      assert [m] + ms[1..] == ms;
    }
  }

  lemma ReceiveHeader(id: short, len: short, rest: seq<byte>)
    ensures Receive(0, START, Header(id, len) + rest) == ReceiveBody(0, Header(id, len), rest)
  {
    var s := Header(id, len) + rest;
    assert [] + s[..4] == Header(id, len) && s[4..] == rest;
  }

  lemma ReceiveLeftOver(ph: Phase, tail: seq<byte>)
    requires Leaves(ph, tail)
    ensures Receive(0, START, tail) == Outcome(ph, [])
  {
    if |tail| >= HEAD_TOTAL_LEN {
      SplitHeader(tail);
      ReceiveHeader(IdField(tail), LenField(tail), tail[4..]);
      if ph.InBody? {
        assert tail[..4] == Header(ph.id, ph.total) && tail[4..] == ph.got;
      }
    }
  }

  /** Codec round trip under any chunking, with nothing left over. */
  lemma CodecRoundTrip(ms: seq<Msg>, chunks: seq<seq<byte>>)
    requires forall m | m in ms :: Acceptable(m)
    requires Flatten(chunks) == EncodeAll(ms)
    ensures ReceiveAll(0, START, chunks) == Outcome(START, ms)
  {
    ChunkIndependence(START, chunks);
    ReceiveInvertsEncoding(ms, START, []);
    assert EncodeAll(ms) + [] == EncodeAll(ms);
  }

  // ---------- The body size as asio/Async/Node.h writes it ----------

  /** `RecvNode(msg_len, ...)` asks for `msg_len + 4` body bytes. */
  const RECV_SLACK: Slack := HEAD_TOTAL_LEN

  /** After the first `k` chunks the reader is inside a body, and the chunks after them post
      something: the body was cut, and then finished. */
  ghost predicate CutsFinishedBody(ph: Phase, chunks: seq<seq<byte>>, k: nat)
    requires WellFormed(0, ph) && k <= |chunks|
  {
    var here := ReceiveAll(0, ph, chunks[..k]).phase;
    here.InBody? && ReceiveAll(0, here, chunks[k..]).posted != []
  }

  ghost predicate SplitsABody(ph: Phase, chunks: seq<seq<byte>>)
    requires WellFormed(0, ph)
  {
    exists k: nat :: k <= |chunks| && CutsFinishedBody(ph, chunks, k)
  }

  /** A head with a negative length, and how many bytes of its chunk come after it. */
  datatype Fault = NoFault | NegativeLength(len: int, after: nat)

  /** The negative length that the reader meets in a chunk, if it does. */
  ghost function FaultAt(ph: Phase, chunk: seq<byte>): (f: Fault)
    requires WellFormed(0, ph)
    ensures f.NegativeLength? ==> f.len < 0 && Receive(0, ph, chunk).phase == Faulted
    decreases |chunk|, if ph.InBody? then 1 else 0
  {
    if chunk == [] then NoFault else
    match ph
    case InHead(have) =>
      if |have| + |chunk| < HEAD_TOTAL_LEN then NoFault else
      var remain := HEAD_TOTAL_LEN - |have|;
      FaultInBody(have + chunk[..remain], chunk[remain..])
    case InBody(_, total, got) =>
      var remain := total - |got|;
      if |chunk| < remain then NoFault else FaultAt(START, chunk[remain..])
    case _ => NoFault
  }

  ghost function FaultInBody(head: seq<byte>, rest: seq<byte>): (f: Fault)
    requires |head| == HEAD_TOTAL_LEN
    ensures f.NegativeLength? ==> f.len < 0 && ReceiveBody(0, head, rest).phase == Faulted
    decreases |rest|, 1
  {
    var id, len := IdField(head), LenField(head);
    if id > MAX_LENGTH || len > MAX_LENGTH then NoFault
    else if len < 0 then NegativeLength(len, |rest|)
    else if |rest| < len then NoFault
    else FaultAt(START, rest[len..])
  }

  /** The four bytes make a node of `len + 4` bytes out of a negative length, and what follows in
      the chunk fits into it. */
  predicate MakesShortNode(f: Fault) {
    f.NegativeLength? && f.after <= f.len + RECV_SLACK
  }

  /** Chunk `k` makes such a node, and enough bytes come later to fill it, at least one. */
  ghost predicate FillsShortNode(ph: Phase, chunks: seq<seq<byte>>, k: nat)
    requires WellFormed(0, ph) && k < |chunks|
  {
    var f, later := FaultAt(ReceiveAll(0, ph, chunks[..k]).phase, chunks[k]), |Flatten(chunks[k + 1..])|;
    MakesShortNode(f) && later > 0 && f.after + later >= f.len + RECV_SLACK
  }

  ghost predicate FillsAShortNode(ph: Phase, chunks: seq<seq<byte>>)
    requires WellFormed(0, ph)
  {
    exists k: nat :: k < |chunks| && FillsShortNode(ph, chunks, k)
  }

  lemma SplitsStep(ph: Phase, chunks: seq<seq<byte>>)
    requires WellFormed(0, ph) && chunks != []
    ensures SplitsABody(ph, chunks) <==>
            CutsFinishedBody(ph, chunks, 0) || SplitsABody(Receive(0, ph, chunks[0]).phase, chunks[1..])
  {
    var next := Receive(0, ph, chunks[0]).phase;
    forall k: nat | k < |chunks|
      ensures CutsFinishedBody(ph, chunks, k + 1) <==> CutsFinishedBody(next, chunks[1..], k)
    {
      assert chunks[..k + 1][1..] == chunks[1..][..k];
      assert chunks[k + 1..] == chunks[1..][k..];
    }
    if k: nat :| k <= |chunks| && CutsFinishedBody(ph, chunks, k) && k > 0 {
      assert CutsFinishedBody(next, chunks[1..], k - 1);
    }
    if k: nat :| k <= |chunks[1..]| && CutsFinishedBody(next, chunks[1..], k) {
      assert CutsFinishedBody(ph, chunks, k + 1);
    }
  }

  lemma FillsLater(ph: Phase, chunks: seq<seq<byte>>, k: nat)
    requires WellFormed(0, ph) && k < |chunks| - 1
    ensures FillsShortNode(ph, chunks, k + 1) <==> FillsShortNode(Receive(0, ph, chunks[0]).phase, chunks[1..], k)
  {
    hide FaultAt, Receive, MakesShortNode, Flatten;
    assert chunks[..k + 1][1..] == chunks[1..][..k];
    assert chunks[k + 2..] == chunks[1..][k + 1..];
  }

  lemma FillsStep(ph: Phase, chunks: seq<seq<byte>>)
    requires WellFormed(0, ph) && chunks != []
    ensures FillsAShortNode(ph, chunks) <==>
            FillsShortNode(ph, chunks, 0) || FillsAShortNode(Receive(0, ph, chunks[0]).phase, chunks[1..])
  {
    hide FillsShortNode, Receive;
    var next := Receive(0, ph, chunks[0]).phase;
    forall k: nat | k < |chunks| - 1
      ensures FillsShortNode(ph, chunks, k + 1) <==> FillsShortNode(next, chunks[1..], k)
    {
      FillsLater(ph, chunks, k);
    }
    if k: nat :| k < |chunks| && FillsShortNode(ph, chunks, k) && k > 0 {
      assert FillsShortNode(next, chunks[1..], k - 1);
    }
    if k: nat :| k < |chunks[1..]| && FillsShortNode(next, chunks[1..], k) {
      assert FillsShortNode(ph, chunks, k + 1);
    }
  }

  /** Without a message posted from inside a body, or from where the reader has stopped, there is
      nothing on which the two readings could part. */
  lemma {:induction false} NothingPostedNothingParts(ph: Phase, chunks: seq<seq<byte>>)
    requires WellFormed(0, ph) && !ph.InHead? && ReceiveAll(0, ph, chunks).posted == []
    ensures !SplitsABody(ph, chunks) && !FillsAShortNode(ph, chunks)
    decreases |chunks|
  {
    if chunks != [] {
      SplitsStep(ph, chunks);
      FillsStep(ph, chunks);
      NothingPostedNothingParts(Receive(0, ph, chunks[0]).phase, chunks[1..]);
      assert chunks[0..] == chunks && chunks[..0] == [];
    }
  }

  /** The body in progress is posted, at its full size, once enough bytes have come, and at least
      one. */
  lemma {:induction false} BodyIsFinished(slack: Slack, ph: Phase, chunks: seq<seq<byte>>)
    requires WellFormed(slack, ph) && ph.InBody?
    ensures var posted, later := ReceiveAll(slack, ph, chunks).posted, |Flatten(chunks)|;
            if later == 0 || later < ph.total - |ph.got| then posted == []
            else posted != [] && |posted[0].payload| == ph.total
    decreases |chunks|
  {
    if chunks != [] {
      var o := Receive(slack, ph, chunks[0]);
      if o.posted == [] {
        BodyIsFinished(slack, o.phase, chunks[1..]);
      }
    }
  }

  /** Where the reader as written stands when the intended one stands at `ph`, the last chunk
      having met the fault `f`. */
  ghost predicate Widened(ph: Phase, f: Fault, w: Phase) {
    if ph.InBody? then w == ph.(total := ph.total + RECV_SLACK)
    else if MakesShortNode(f) then
      ph == Faulted && w.InBody? && w.total == f.len + RECV_SLACK && |w.got| == f.after
    else w == ph
  }

  /** The two readings of `RecvNode` part only over a body left unfinished by its chunk. */
  lemma {:induction false} SlackShowsInBody(ph: Phase, chunk: seq<byte>)
    requires WellFormed(0, ph) && !ph.InBody?
    ensures var o, w := Receive(0, ph, chunk), Receive(RECV_SLACK, ph, chunk);
            o.posted == w.posted && Widened(o.phase, FaultAt(ph, chunk), w.phase)
    decreases |chunk|, 0
  {
    if chunk != [] && ph.InHead? && |ph.have| + |chunk| >= HEAD_TOTAL_LEN {
      var remain := HEAD_TOTAL_LEN - |ph.have|;
      SlackShowsAfterHead(ph.have + chunk[..remain], chunk[remain..]);
    }
  }

  lemma {:induction false} SlackShowsAfterHead(head: seq<byte>, rest: seq<byte>)
    requires |head| == HEAD_TOTAL_LEN
    ensures var o, w := ReceiveBody(0, head, rest), ReceiveBody(RECV_SLACK, head, rest);
            o.posted == w.posted && Widened(o.phase, FaultInBody(head, rest), w.phase)
    decreases |rest|, 1
  {
    var len := LenField(head);
    if 0 <= len <= |rest| {
      SlackShowsInBody(START, rest[len..]);
    }
  }

  lemma SameStart(a: seq<Msg>, good: seq<Msg>, bad: seq<Msg>)
    ensures a + good == a + bad <==> good == bad
  {
    assert (a + good)[|a|..] == good && (a + bad)[|a|..] == bad;
  }

  lemma {:induction false} AgreesFromIff(ph: Phase, chunks: seq<seq<byte>>)
    requires WellFormed(0, ph) && !ph.InBody?
    ensures ReceiveAll(RECV_SLACK, ph, chunks).posted == ReceiveAll(0, ph, chunks).posted
            <==> !SplitsABody(ph, chunks) && !FillsAShortNode(ph, chunks)
    decreases |chunks|
  {
    if chunks != [] {
      var o, w, rest := Receive(0, ph, chunks[0]), Receive(RECV_SLACK, ph, chunks[0]), chunks[1..];
      var f := FaultAt(ph, chunks[0]);
      SlackShowsInBody(ph, chunks[0]);
      SplitsStep(ph, chunks);
      FillsStep(ph, chunks);
      SameStart(o.posted, ReceiveAll(0, o.phase, rest).posted, ReceiveAll(RECV_SLACK, w.phase, rest).posted);
      assert chunks[..0] == [] && rest[0..] == rest;
      if o.phase.InBody? {
        BodyIsFinished(0, o.phase, rest);
        BodyIsFinished(RECV_SLACK, w.phase, rest);
        if ReceiveAll(0, o.phase, rest).posted == [] {
          NothingPostedNothingParts(o.phase, rest);
        } else {
          assert CutsFinishedBody(o.phase, rest, 0);
        }
      } else if MakesShortNode(f) {
        StoppedPostsNothing(o.phase, rest);
        NothingPostedNothingParts(o.phase, rest);
        BodyIsFinished(RECV_SLACK, w.phase, rest);
      } else {
        AgreesFromIff(o.phase, rest);
      }
    }
  }

  lemma {:induction false} StoppedPostsNothing(ph: Phase, chunks: seq<seq<byte>>)
    requires ph.Faulted? || ph.Cleared?
    ensures ReceiveAll(0, ph, chunks) == Outcome(ph, [])
    decreases |chunks|
  {
    if chunks != [] {
      StoppedPostsNothing(ph, chunks[1..]);
    }
  }

  /** The reader as written, `RecvNode` included, posts what the stream encodes exactly when no
      cut falls inside a body that is finished later, and no head with a length of -4 to -1 gets a
      short node that is filled later. */
  lemma AsWrittenAgreesIff(chunks: seq<seq<byte>>)
    ensures ReceiveAll(RECV_SLACK, START, chunks).posted == Receive(0, START, Flatten(chunks)).posted
            <==> !SplitsABody(START, chunks) && !FillsAShortNode(START, chunks)
  {
    ChunkIndependence(START, chunks);
    AgreesFromIff(START, chunks);
  }

  lemma TwoChunks(slack: Slack, ph: Phase, a: seq<byte>, b: seq<byte>)
    requires WellFormed(slack, ph)
    ensures var o := Receive(slack, ph, a); ReceiveAll(slack, ph, [a, b]) == Post(o.posted, Receive(slack, o.phase, b))
  {
    hide Receive;
    var o := Receive(slack, ph, a);
    var last := Receive(slack, o.phase, b);
    assert [a, b][1..] == [b] && [b][1..] == [];
    assert ReceiveAll(slack, last.phase, []) == Outcome(last.phase, []);
    assert ReceiveAll(slack, o.phase, [b]) == Post(last.posted, Outcome(last.phase, []));
    assert last.posted + [] == last.posted;
  }

  /** A message whose body comes in two pieces: the reader as written still waits for four
      bytes after the last one. */
  lemma AsWrittenLosesASplitBody()
    ensures var m := Msg(1001, [7, 8]);
            var chunks := [Header(1001, 2) + [7], [8]];
            Flatten(chunks) == EncodeAll([m]) &&
            ReceiveAll(0, START, chunks) == Outcome(START, [m]) &&
            ReceiveAll(RECV_SLACK, START, chunks) == Outcome(InBody(1001, 6, [7, 8]), [])
  {
    hide Receive, ReceiveBody, ReceiveAll, Post, Leaves;
    var m, first := Msg(1001, [7, 8]), Header(1001, 2) + [7];
    var chunks := [first, [8]];
    EncodeAllCons(m, []);
    assert [m] + [] == [m];
    assert Flatten(chunks) == first + [8] == Encode(m);
    assert chunks[1..] == [[8]] && Flatten(chunks[1..]) == [8];
    CodecRoundTrip([m], chunks);
    assert [] + first[..4] == Header(1001, 2) && first[4..] == [7];
    HeadStep(RECV_SLACK, [], first);
    NewBodyStep(RECV_SLACK, Header(1001, 2), [7]);
    BodyStep(RECV_SLACK, InBody(1001, 6, [7]), [8]);
    assert [7] + [8] == [7, 8];
    PostNothing(Outcome(InBody(1001, 6, [7, 8]), []));
    TwoChunks(RECV_SLACK, START, first, [8]);
  }

  /** A head that announces -1 bytes: the intended reader stops there, the one as written makes a
      node of three bytes and posts what comes next as a message. */
  lemma AsWrittenPostsAShortNode()
    ensures var chunks := [Header(5, -1), [1, 2, 3]];
            ReceiveAll(0, START, chunks) == Outcome(Faulted, []) &&
            ReceiveAll(RECV_SLACK, START, chunks) == Outcome(START, [Msg(5, [1, 2, 3])])
  {
    hide Receive, ReceiveBody, ReceiveAll;
    var head, body, m := Header(5, -1), [1, 2, 3], Msg(5, [1, 2, 3]);
    assert [] + head[..4] == head && head[4..] == [];
    HeadStep(0, [], head);
    NewBodyStep(0, head, []);
    Stopped(0, Faulted, body);
    TwoChunks(0, START, head, body);
    HeadStep(RECV_SLACK, [], head);
    NewBodyStep(RECV_SLACK, head, []);
    assert [] + body[..3] == body && body[3..] == [];
    BodyStep(RECV_SLACK, InBody(5, 3, []), body);
    AtEnd(RECV_SLACK, START);
    TwoChunks(RECV_SLACK, START, head, body);
  }

  lemma Stopped(slack: Slack, ph: Phase, chunk: seq<byte>)
    requires ph in {Cleared, Faulted}
    ensures Receive(slack, ph, chunk) == Outcome(ph, [])
  {
  }

  lemma AtEnd(slack: Slack, ph: Phase)
    requires WellFormed(slack, ph)
    ensures Receive(slack, ph, []) == Outcome(ph, [])
  {
  }
}
