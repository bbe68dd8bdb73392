/** The wire format: `id(2) | len(2) | payload`, both fields 16-bit two's complement in
    network byte order, as written by `SendNode` and read back by `CSession::HandleRead`. */
module Wire {
  import opened Sequences

  const MAX_LENGTH := 2048
  const HEAD_TOTAL_LEN := 4

  type byte = b: int | 0 <= b < 0x100
  type short = x: int | -0x8000 <= x < 0x8000

  /** What a `SendNode` can hold: `_total_len`, a short, is the payload length plus 4. */
  type Payload = p: seq<byte> | |p| + HEAD_TOTAL_LEN < 0x8000

  datatype Msg = Msg(id: short, payload: Payload)

  /** `host_to_network_short`, as the two bytes that reach the buffer. */
  function HostToNet(x: short): (bs: seq<byte>)
    ensures |bs| == 2
    ensures NetToHost(bs[0], bs[1]) == x
  {
    var u := x % 0x1_0000;
    [u / 0x100, u % 0x100]
  }

  function NetToHost(hi: byte, lo: byte): short {
    var u := 0x100 * hi + lo;
    if u < 0x8000 then u else u - 0x1_0000
  }

  lemma NetToHostInjective(hi: byte, lo: byte)
    ensures HostToNet(NetToHost(hi, lo)) == [hi, lo]
  {
    var u := 0x100 * hi + lo;
    assert NetToHost(hi, lo) % 0x1_0000 == u;
    assert u / 0x100 == hi && u % 0x100 == lo;
  }

  /** The bytes stand in the order of the numbers: the high byte first, the sign in it. */
  lemma BytesAreOrdered(x: short, y: short)
    requires x < y && (x < 0 <==> y < 0)
    ensures var a, b := HostToNet(x), HostToNet(y); a[0] < b[0] || (a[0] == b[0] && a[1] < b[1])
    ensures x < 0 <==> HostToNet(x)[0] >= 0x80
  {
    var u, v := x % 0x1_0000, y % 0x1_0000;
    assert u == 0x100 * (u / 0x100) + u % 0x100 && v == 0x100 * (v / 0x100) + v % 0x100;
  }

  function Header(id: short, len: short): (bs: seq<byte>)
    ensures |bs| == HEAD_TOTAL_LEN
    ensures IdField(bs) == id && LenField(bs) == len
  {
    HostToNet(id) + HostToNet(len)
  }

  function IdField(head: seq<byte>): short
    requires |head| >= HEAD_TOTAL_LEN
  {
    NetToHost(head[0], head[1])
  }

  function LenField(head: seq<byte>): short
    requires |head| >= HEAD_TOTAL_LEN
  {
    NetToHost(head[2], head[3])
  }

  lemma HeaderOfFields(head: seq<byte>)
    requires |head| == HEAD_TOTAL_LEN
    ensures Header(IdField(head), LenField(head)) == head
  {
    NetToHostInjective(head[0], head[1]);
    NetToHostInjective(head[2], head[3]);
    assert head == [head[0], head[1]] + [head[2], head[3]];
  }

  /** What `HandleRead` lets through. */
  predicate Acceptable(m: Msg) {
    m.id <= MAX_LENGTH && |m.payload| <= MAX_LENGTH
  }

  function Encode(m: Msg): (bs: seq<byte>)
    ensures |bs| == HEAD_TOTAL_LEN + |m.payload|
  {
    Header(m.id, |m.payload|) + m.payload
  }

  /** Where the fields are: the id in the first two bytes, the length in the next two, the payload
      behind them as it is. */
  lemma FrameLayout(m: Msg)
    ensures Encode(m)[..2] == HostToNet(m.id) && Encode(m)[2..4] == HostToNet(|m.payload|)
    ensures Encode(m)[4..] == m.payload && |Encode(m)| == 4 + |m.payload|
  {
    var head := Header(m.id, |m.payload|);
    assert head[..2] == HostToNet(m.id) && head[2..] == HostToNet(|m.payload|);
  }

  function Frames(ms: seq<Msg>): seq<seq<byte>> {
    seq(|ms|, i requires 0 <= i < |ms| => Encode(ms[i]))
  }

  function EncodeAll(ms: seq<Msg>): seq<byte> {
    Flatten(Frames(ms))
  }

  lemma EncodeAllCons(m: Msg, ms: seq<Msg>)
    ensures EncodeAll([m] + ms) == Encode(m) + EncodeAll(ms)
  {
    assert Frames([m] + ms)[1..] == Frames(ms);
  }

  lemma EncodeAllSplit(ms: seq<Msg>, tail: seq<byte>)
    requires ms != []
    ensures EncodeAll(ms) + tail == Encode(ms[0]) + (EncodeAll(ms[1..]) + tail)
  {
    EncodeAllCons(ms[0], ms[1..]);
    assert [ms[0]] + ms[1..] == ms;
  }

  lemma EncodeAllAppend(xs: seq<Msg>, ys: seq<Msg>)
    ensures EncodeAll(xs + ys) == EncodeAll(xs) + EncodeAll(ys)
  {
    assert Frames(xs + ys) == Frames(xs) + Frames(ys);
    FlattenAppend(Frames(xs), Frames(ys));
  }

  lemma EncodeAllSnoc(ms: seq<Msg>, m: Msg)
    ensures EncodeAll(ms + [m]) == EncodeAll(ms) + Encode(m)
  {
    EncodeAllAppend(ms, [m]);
    EncodeAllCons(m, []);
    assert [m] + [] == [m];
  }
}
