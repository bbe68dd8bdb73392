/** `MsgNode` and the reading half of `CSession`, over the buffers they fill in place. */
module Session {
  import opened Sequences
  import opened Wire
  import opened Framing

  /** `memcpy(dst + at, src + from, n)`. */
  method Copy(dst: array<byte>, at: nat, src: array<byte>, from: nat, n: nat)
    requires at + n <= dst.Length && from + n <= src.Length && dst != src
    modifies dst
    ensures dst[at..at + n] == src[from..from + n]
    ensures dst[..at] == old(dst[..at]) && dst[at + n..] == old(dst[at + n..])
  {
    forall i | 0 <= i < n {
      dst[at + i] := src[from + i];
    }
  }

  /** `MsgNode`, and its subclasses `RecvNode` and `SendNode`. */
  class MsgNode {
    const data: array<byte>
    const totalLen: nat
    const msgId: short
    var curLen: nat

    ghost predicate Valid()
      reads this, data
    {
      curLen <= totalLen && data.Length == totalLen + 1 && data[totalLen] == 0
    }

    ghost function Filled(): seq<byte>
      requires Valid()
      reads this, data
    {
      data[..curLen]
    }

    constructor Sized(maxLen: nat, id: short)
      ensures Valid() && fresh(data)
      ensures totalLen == maxLen && msgId == id && curLen == 0
    {
      data := new byte[maxLen + 1](_ => 0);
      totalLen, msgId, curLen := maxLen, id, 0;
    }

    /** `SendNode(msg, max_len, msg_id)`: the frame, ready for `async_write`. */
    constructor SendNode(msg: array<byte>, maxLen: short, id: short)
      requires 0 <= maxLen <= msg.Length && maxLen + HEAD_TOTAL_LEN < 0x8000
      ensures Valid() && fresh(data)
      ensures data[..totalLen] == Encode(Msg(id, msg[..maxLen]))
    {
      data := new byte[HEAD_TOTAL_LEN + maxLen + 1](_ => 0);
      totalLen, msgId, curLen := HEAD_TOTAL_LEN + maxLen, id, 0;
      new;
      var idNet, lenNet := HostToNet(id), HostToNet(maxLen);
      data[0], data[1] := idNet[0], idNet[1];
      data[2], data[3] := lenNet[0], lenNet[1];
      assert data[..HEAD_TOTAL_LEN] == Header(id, maxLen);
      Copy(data, HEAD_TOTAL_LEN, msg, 0, maxLen);
      assert data[HEAD_TOTAL_LEN + maxLen..][0] == data[totalLen];
      Slices(data[..], 0, totalLen, HEAD_TOTAL_LEN);
      assert data[..totalLen] == data[..HEAD_TOTAL_LEN] + data[HEAD_TOTAL_LEN..totalLen];
    }

    method Clear()
      requires Valid()
      modifies this, data
      ensures Valid() && curLen == 0 && forall i | 0 <= i < totalLen :: data[i] == 0
    {
      forall i | 0 <= i < totalLen {
        data[i] := 0;
      }
      curLen := 0;
    }

    /** `memcpy(_data + _cur_len, src + from, n); _cur_len += n`. */
    method Append(src: array<byte>, from: nat, n: nat)
      requires Valid() && from + n <= src.Length && curLen + n <= totalLen && src != data
      modifies this`curLen, data
      ensures Valid() && Filled() == old(Filled()) + src[from..from + n]
    {
      Copy(data, curLen, src, from, n);
      assert data[curLen + n..][totalLen - curLen - n] == old(data[curLen + n..])[totalLen - curLen - n];
      assert data[..curLen + n] == data[..curLen] + data[curLen..curLen + n];
      curLen := curLen + n;
    }
  }

  datatype Status = Open | SessionCleared | NodeFault

  class CSession {
    /** What `RecvNode` adds to the body size: `RECV_SLACK` as asio/Async/Node.h has it. */
    const slack: Slack
    const data: array<byte>
    const headNode: MsgNode
    var recvNode: MsgNode?
    var headParsed: bool
    var status: Status
    /** `async_read_some` calls whose handler has not run yet. */
    var pendingReads: nat
    /** What has been handed to `PostMsgToQue`. */
    var posted: seq<Msg>

    ghost function Repr(): set<object>
      reads this
    {
      {this, data, headNode, headNode.data} + (if recvNode == null then {} else {recvNode, recvNode.data})
    }

    /** The buffers, between two steps of a handler. */
    ghost predicate Buffers()
      reads Repr()
    {
      && data.Length == MAX_LENGTH && headNode.data != data
      && headNode.Valid() && headNode.totalLen == HEAD_TOTAL_LEN
      && (headParsed ==> recvNode != null)
      && (recvNode != null ==>
            && recvNode != headNode && recvNode.data !in {data, headNode.data} && recvNode.Valid()
            && recvNode.msgId <= MAX_LENGTH && recvNode.totalLen <= MAX_LENGTH + slack)
    }

    ghost predicate Valid()
      reads Repr()
    {
      && Buffers()
      && (status == Open ==>
            if headParsed then recvNode.curLen < recvNode.totalLen || recvNode.curLen == recvNode.totalLen < slack
            else headNode.curLen < HEAD_TOTAL_LEN)
    }

    ghost function State(): (ph: Phase)
      requires Valid()
      reads Repr()
      ensures WellFormed(slack, ph)
    {
      match status
      case SessionCleared => Cleared
      case NodeFault => Faulted
      case Open => if headParsed then InBody(recvNode.msgId, recvNode.totalLen, recvNode.Filled())
                   else InHead(headNode.Filled())
    }

    constructor (slack: Slack)
      ensures Valid() && fresh(Repr())
      ensures State() == START && posted == [] && pendingReads == 0 && this.slack == slack
    {
      this.slack := slack;
      data := new byte[MAX_LENGTH](_ => 0);
      headNode := new MsgNode.Sized(HEAD_TOTAL_LEN, 0);
      recvNode, headParsed, status := null, false, Open;
      pendingReads, posted := 0, [];
    }

    method AsyncReadSome()
      modifies this`pendingReads, data
      ensures pendingReads == old(pendingReads) + 1
    {
      forall i | 0 <= i < data.Length {
        data[i] := 0;
      }
      pendingReads := pendingReads + 1;
    }

    method Start()
      requires Valid() && pendingReads == 0 && status == Open
      modifies this`pendingReads, data
      ensures Valid() && State() == old(State()) && pendingReads == 1
    {
      AsyncReadSome();
    }

    /** What the handler still owes: the outcome of reading `left` bytes of `data` from
        `copyLen` on, after what is already posted. */
    ghost function Owed(copyLen: nat, left: nat): Outcome
      requires Valid() && copyLen + left <= MAX_LENGTH
      reads Repr()
    {
      Post(posted, Receive(slack, State(), data[copyLen..copyLen + left]))
    }

    /** A handler that must end at `target` either has `bytes` bytes left to read for it, or is
        there, with the next read issued unless the session has stopped. */
    ghost predicate OnTrack(target: Outcome, copied: nat, bytes: nat, more: bool)
      reads Repr()
    {
      && Valid()
      && if more then
           status == Open && pendingReads == 0 && bytes > 0 && copied + bytes <= MAX_LENGTH
           && Owed(copied, bytes) == target
         else
           pendingReads == (if status == Open then 1 else 0) && Outcome(State(), posted) == target
    }

    /** The loop body of `HandleRead` while the head is incomplete. */
    method TakeHead(copyLen: nat, left: nat) returns (copied: nat, bytes: nat, more: bool)
      requires Valid() && status == Open && !headParsed && pendingReads == 0
      requires 0 < left && copyLen + left <= MAX_LENGTH
      modifies Repr()
      ensures fresh(Repr() - old(Repr())) && (more ==> bytes < left && copied + bytes == copyLen + left)
      ensures OnTrack(old(Owed(copyLen, left)), copied, bytes, more)
    {
      hide Receive, ReceiveBody;
      copied, bytes, more := copyLen, left, false;
      HeadStep(slack, headNode.Filled(), data[copyLen..copyLen + left]);
      if bytes + headNode.curLen < HEAD_TOTAL_LEN {
        headNode.Append(data, copied, bytes);
        AsyncReadSome();
        return;
      }
      var headRemain := HEAD_TOTAL_LEN - headNode.curLen;
      Slices(data[..], copied, bytes, headRemain);
      headNode.Append(data, copied, headRemain);
      copied, bytes := copied + headRemain, bytes - headRemain;
      copied, bytes, more := TakeNewBody(copied, bytes);
    }

    method CheckHead() returns (ok: bool, msgId: short, msgLen: short)
      requires Buffers() && status == Open && headNode.curLen == HEAD_TOTAL_LEN
      modifies this`status
      ensures msgId == IdField(headNode.Filled()) && msgLen == LenField(headNode.Filled())
      ensures ok <==> msgId <= 2048 && msgLen <= 2048
      ensures status == if ok then Open else SessionCleared
    {
      msgId := NetToHost(headNode.data[0], headNode.data[1]);
      msgLen := NetToHost(headNode.data[2], headNode.data[3]);
      ok := false;
      if msgId > MAX_LENGTH {
        status := SessionCleared;
        return;
      }
      if msgLen > MAX_LENGTH {
        status := SessionCleared;
        return;
      }
      ok := true;
    }

    /** The head is complete: check it, and take what is there of its body. A negative length
        counts as more than any number of bytes, being compared as unsigned. */
    method TakeNewBody(copyLen: nat, left: nat) returns (copied: nat, bytes: nat, more: bool)
      requires Buffers() && status == Open && !headParsed && pendingReads == 0
      requires headNode.curLen == HEAD_TOTAL_LEN && copyLen + left <= MAX_LENGTH
      modifies Repr()
      ensures fresh(Repr() - old(Repr())) && (more ==> bytes <= left && copied + bytes == copyLen + left)
      ensures OnTrack(old(Post(posted, ReceiveBody(slack, headNode.Filled(), data[copyLen..copyLen + left]))),
                      copied, bytes, more)
    {
      hide Receive, ReceiveBody;
      copied, bytes, more := copyLen, left, false;
      NewBodyStep(slack, headNode.Filled(), data[copyLen..copyLen + left]);
      var ok, msgId, msgLen := CheckHead();
      if !ok {
        return;
      }
      if msgLen < 0 || bytes < msgLen {
        KeepBody(msgLen, msgId, copied, bytes);
        return;
      }
      Slices(data[..], copied, bytes, msgLen);
      more := TakeWholeBody(msgLen, msgId, copied, bytes);
      copied, bytes := copied + msgLen, bytes - msgLen;
    }

    /** The body is not all there: keep what there is, and read on, unless the node cannot be made
        or what there is does not fit into it. */
    method KeepBody(msgLen: short, msgId: short, copyLen: nat, left: nat)
      requires Buffers() && status == Open && msgId <= MAX_LENGTH && pendingReads == 0
      requires msgLen < 0 || left < msgLen
      requires msgLen <= MAX_LENGTH && copyLen + left <= MAX_LENGTH
      modifies this`recvNode, this`headParsed, this`pendingReads, this`status, data
      ensures Valid() && fresh(Repr() - old(Repr()))
      ensures State() == if left <= msgLen + slack then
                           InBody(msgId, msgLen + slack, old(data[copyLen..copyLen + left]))
                         else Faulted
      ensures pendingReads == if status == Open then 1 else 0
    {
      if left > msgLen + slack {
        status := NodeFault;
        return;
      }
      NewRecvNode(msgLen, msgId, copyLen, left);
      AsyncReadSome();
      headParsed := true;
    }

    method TakeWholeBody(msgLen: short, msgId: short, copyLen: nat, left: nat) returns (more: bool)
      requires Buffers() && status == Open && !headParsed && pendingReads == 0 && msgId <= MAX_LENGTH
      requires 0 <= msgLen <= MAX_LENGTH && msgLen <= left && copyLen + left <= MAX_LENGTH
      modifies Repr()
      ensures fresh(Repr() - old(Repr()))
      ensures OnTrack(old(Post(posted, Post([Msg(msgId, data[copyLen..copyLen + msgLen])],
                                            Receive(slack, START, data[copyLen + msgLen..copyLen + left])))),
                      copyLen + msgLen, left - msgLen, more)
    {
      NewRecvNode(msgLen, msgId, copyLen, msgLen);
      more := FinishMessage(copyLen + msgLen, left - msgLen);
    }

    /** `_recv_msg_node = make_shared<RecvNode>(msg_len, msg_id)`, and the first `n` bytes of it. */
    method NewRecvNode(msgLen: short, msgId: short, copyLen: nat, n: nat)
      requires Buffers() && msgId <= MAX_LENGTH && n <= msgLen + slack && msgLen <= MAX_LENGTH
      requires copyLen + n <= MAX_LENGTH
      modifies this`recvNode
      ensures Buffers() && recvNode != null && fresh(recvNode) && fresh(recvNode.data)
      ensures recvNode.msgId == msgId && recvNode.totalLen == msgLen + slack
      ensures recvNode.Filled() == data[copyLen..copyLen + n]
    {
      recvNode := new MsgNode.Sized(msgLen + slack, msgId);
      recvNode.Append(data, copyLen, n);
    }

    /** The loop body of `HandleRead` while a body is in progress. */
    method TakeBody(copyLen: nat, left: nat) returns (copied: nat, bytes: nat, more: bool)
      requires Valid() && status == Open && headParsed && pendingReads == 0
      requires 0 < left && copyLen + left <= MAX_LENGTH
      modifies Repr()
      ensures fresh(Repr() - old(Repr())) && (more ==> bytes <= left && !headParsed && copied + bytes == copyLen + left)
      ensures OnTrack(old(Owed(copyLen, left)), copied, bytes, more)
    {
      hide Receive;
      copied, bytes, more := copyLen, left, false;
      BodyStep(slack, State(), data[copyLen..copyLen + left]);
      var remainMsg := recvNode.totalLen - recvNode.curLen;
      if bytes < remainMsg {
        recvNode.Append(data, copied, bytes);
        AsyncReadSome();
        return;
      }
      Slices(data[..], copied, bytes, remainMsg);
      recvNode.Append(data, copied, remainMsg);
      copied, bytes := copied + remainMsg, bytes - remainMsg;
      more := FinishMessage(copied, bytes);
    }

    /** A complete body: post it, start a new head, and read again if the chunk is used up. */
    method FinishMessage(copyLen: nat, left: nat) returns (more: bool)
      requires Buffers() && status == Open && recvNode != null && pendingReads == 0
      requires copyLen + left <= MAX_LENGTH
      modifies this`posted, this`headParsed, this`pendingReads, data, headNode, headNode.data
      ensures !headParsed
      ensures OnTrack(old(Post(posted, Post([Msg(recvNode.msgId, recvNode.Filled())],
                                            Receive(slack, START, data[copyLen..copyLen + left])))),
                      copyLen, left, more)
    {
      var m := Msg(recvNode.msgId, recvNode.data[..recvNode.curLen]);
      PostPost(posted, [m], Receive(slack, START, data[copyLen..copyLen + left]));
      posted := posted + [m];
      headParsed := false;
      headNode.Clear();
      more := left > 0;
      if !more {
        AsyncReadSome();
      }
    }

    /** The completion of the one outstanding read, which put `n` bytes into `data`. The session
        then has one outstanding read again, unless it has stopped. */
    method HandleRead(error: bool, n: nat)
      requires Valid() && status == Open && pendingReads == 1
      requires error || 1 <= n <= MAX_LENGTH
      modifies Repr()
      ensures Valid() && fresh(Repr() - old(Repr()))
      ensures error ==> State() == Cleared && posted == old(posted)
      ensures !error ==> Outcome(State(), posted)
                         == Post(old(posted), Receive(slack, old(State()), old(data[..n])))
      ensures pendingReads == if status == Open then 1 else 0
    {
      hide Receive, MsgNode.Valid, MsgNode.Filled;
      pendingReads := 0;
      if error {
        status := SessionCleared;
        return;
      }
      ghost var target := Owed(0, n);
      var copyLen, bytesTransferred, more := 0, n, true;
      while more && bytesTransferred > 0
        invariant fresh(Repr() - old(Repr())) && copyLen >= 0 && bytesTransferred >= 0
        invariant more ==> copyLen + bytesTransferred == n
        invariant OnTrack(target, copyLen, bytesTransferred, more)
        decreases more, bytesTransferred, headParsed
      {
        if !headParsed {
          copyLen, bytesTransferred, more := TakeHead(copyLen, bytesTransferred);
        } else {
          copyLen, bytesTransferred, more := TakeBody(copyLen, bytesTransferred);
        }
      }
    }
  }
}
