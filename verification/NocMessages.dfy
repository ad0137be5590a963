/** Messages over the network-on-chip (drivers/noc/noc.c): the packets that
    hf_send makes of a message, and what a packet says about its message.

    Flits are 16-bit words and message bytes are 0..255. NOC_PACKET_SIZE and
    NOC_PACKET_SLOTS are parameters. */
module NocMessages {
  import opened Arithmetic

  const PKT_HEADER_SIZE: int := 8
  const PKT_TARGET_CPU: int := 0
  const PKT_PAYLOAD: int := 1
  const PKT_SOURCE_CPU: int := 2
  const PKT_SOURCE_PORT: int := 3
  const PKT_TARGET_PORT: int := 4
  const PKT_MSG_SIZE: int := 5
  const PKT_SEQ: int := 6
  const PKT_CHANNEL: int := 7

  const FILLER: int := 0xdead
  const MAX_MESSAGE: int := 0xffff

  const ERR_OK: int := 0
  const ERR_SEQ_ERROR: int := -204
  const ERR_COMM_UNFEASIBLE: int := -206

  type Packet = seq<int>

  /** Where a message goes and where it comes from; `target` is the routing word. */
  datatype Route = Route(target: int, sourceCpu: int, sourcePort: int, targetPort: int, channel: int)

  // ----- what is sent -----

  function PayloadBytes(ps: int): int {
    (ps - PKT_HEADER_SIZE) * 2
  }

  /** Packets of a message, as both ends compute it; 0 for the empty message. */
  function PacketCount(size: int, ps: int): int
    requires ps > PKT_HEADER_SIZE
  {
    if size % PayloadBytes(ps) == 0 then size / PayloadBytes(ps) else size / PayloadBytes(ps) + 1
  }

  /** The empty message is sent as one packet. */
  function SentCount(size: int, ps: int): int
    requires ps > PKT_HEADER_SIZE
  {
    if PacketCount(size, ps) == 0 then 1 else PacketCount(size, ps)
  }

  predicate Message(msg: seq<int>, size: int) {
    0 <= size <= MAX_MESSAGE && size + size % 2 <= |msg| && forall i :: 0 <= i < |msg| ==> 0 <= msg[i] < 256
  }

  /** The word of the message that starts at byte p, or the filler. */
  function WordAt(msg: seq<int>, size: int, p: int): int
    requires Message(msg, size) && 0 <= p && p % 2 == 0
  {
    if p < size then EvenFits(msg, size, p); msg[p] * 256 + msg[p + 1] else FILLER
  }

  lemma EvenFits(msg: seq<int>, size: int, p: int)
    requires Message(msg, size) && 0 <= p < size && p % 2 == 0
    ensures p + 1 < |msg|
  {
  }

  function HeaderFlit(r: Route, size: int, ps: int, k: int, i: int): int {
    if i == PKT_TARGET_CPU then r.target
    else if i == PKT_PAYLOAD then ps - 2
    else if i == PKT_SOURCE_CPU then r.sourceCpu
    else if i == PKT_SOURCE_PORT then r.sourcePort
    else if i == PKT_TARGET_PORT then r.targetPort
    else if i == PKT_MSG_SIZE then size
    else if i == PKT_SEQ then k
    else r.channel
  }

  function Offset(ps: int, k: int): int {
    (k - 1) * PayloadBytes(ps)
  }

  lemma OffsetEven(ps: int, k: int, i: int)
    ensures (Offset(ps, k) + 2 * i) % 2 == 0
  {
    assert Offset(ps, k) + 2 * i == 2 * ((k - 1) * (ps - PKT_HEADER_SIZE) + i);
    DivUnique(Offset(ps, k) + 2 * i, 2, (k - 1) * (ps - PKT_HEADER_SIZE) + i);
  }

  /** Packet k (from 1) of a message. */
  function PacketFor(r: Route, msg: seq<int>, size: int, ps: int, k: int): (p: Packet)
    requires Message(msg, size) && ps > PKT_HEADER_SIZE && k >= 1
    ensures |p| == ps
  {
    seq(ps, i requires 0 <= i < ps =>
      if i < PKT_HEADER_SIZE then HeaderFlit(r, size, ps, k, i)
      else PayloadFlit(msg, size, ps, k, i))
  }

  function PayloadFlit(msg: seq<int>, size: int, ps: int, k: int, i: int): int
    requires Message(msg, size) && ps > PKT_HEADER_SIZE && k >= 1 && i >= PKT_HEADER_SIZE
  {
    OffsetEven(ps, k, i - PKT_HEADER_SIZE);
    assert Offset(ps, k) >= 0 by { assert (k - 1) * (ps - PKT_HEADER_SIZE) >= 0; }
    WordAt(msg, size, Offset(ps, k) + 2 * (i - PKT_HEADER_SIZE))
  }

  function Packets(r: Route, msg: seq<int>, size: int, ps: int): (s: seq<Packet>)
    requires Message(msg, size) && ps > PKT_HEADER_SIZE
    ensures |s| == SentCount(size, ps)
  {
    CountBounds(size, ps);
    seq(SentCount(size, ps), j requires 0 <= j < SentCount(size, ps) => PacketFor(r, msg, size, ps, j + 1))
  }

  /** Every packet but the last is full of message bytes, and the last one
      reaches past the end of the message. */
  lemma CountBounds(size: int, ps: int)
    requires 0 <= size && ps > PKT_HEADER_SIZE
    ensures var n := PacketCount(size, ps);
            && n >= 0 && (n == 0 <==> size == 0)
            && (n > 0 ==> (n - 1) * PayloadBytes(ps) < size <= n * PayloadBytes(ps))
    ensures SentCount(size, ps) >= 1
  {
    var b := PayloadBytes(ps);
    var q := size / b;
    assert size == q * b + size % b;
    assert (q + 1) * b == q * b + b;
    assert (q - 1) * b == q * b - b;
    assert q >= 0 by { assert 0 <= size; DivMono(0, size, b); DivUnique(0, b, 0); }
  }

  // ----- hf_send -----

  /** The header that makes a network interface, ni_isr and hf_recv take packet
      number `seqno` where it belongs. */
  ghost predicate HeaderOf(p: Packet, r: Route, size: int, ps: int, seqno: int) {
    && |p| == ps > PKT_HEADER_SIZE
    && p[PKT_TARGET_CPU] == r.target && p[PKT_PAYLOAD] == ps - 2
    && p[PKT_SOURCE_CPU] == r.sourceCpu && p[PKT_SOURCE_PORT] == r.sourcePort
    && p[PKT_TARGET_PORT] == r.targetPort && p[PKT_MSG_SIZE] == size
    && p[PKT_SEQ] == seqno && p[PKT_CHANNEL] == r.channel
  }

  /** Behind the header of packet k (from 0) stand its bytes of the message, two
      in a word, and the filler after the end. */
  ghost predicate BytesOf(p: Packet, msg: seq<int>, size: int, ps: int, k: int) {
    && |p| == ps > PKT_HEADER_SIZE
    && forall i :: PKT_HEADER_SIZE <= i < ps ==>
         var b := k * ((ps - PKT_HEADER_SIZE) * 2) + 2 * (i - PKT_HEADER_SIZE);
         0 <= b && if b < size then b + 1 < |msg| && p[i] == msg[b] * 256 + msg[b + 1] else p[i] == FILLER
  }

  /** `queued` says whether the sender has called hf_comm_create. */
  method HfSend(queued: bool, r: Route, msg: seq<int>, size: int, ps: int) returns (error: int, sent: seq<Packet>)
    requires Message(msg, size) && ps > PKT_HEADER_SIZE
    ensures queued ==> error == ERR_OK && sent == Packets(r, msg, size, ps)
    ensures !queued ==> error == ERR_COMM_UNFEASIBLE && sent == []
    ensures queued ==> |sent| >= 1 && size <= |sent| * ((ps - PKT_HEADER_SIZE) * 2)
    ensures |sent| > 1 ==> (|sent| - 1) * ((ps - PKT_HEADER_SIZE) * 2) < size
    ensures forall k :: 0 <= k < |sent| ==> HeaderOf(sent[k], r, size, ps, k + 1) && BytesOf(sent[k], msg, size, ps, k)
    ensures forall p :: p in sent ==>
              |p| == ps && p[PKT_TARGET_CPU] == r.target && p[PKT_PAYLOAD] == ps - 2 && p[PKT_TARGET_PORT] == r.targetPort
  {
    hide PacketFor, HeaderOf, BytesOf;
    sent := [];
    if !queued { return ERR_COMM_UNFEASIBLE, sent; }
    error := ERR_OK;
    var out := new int[ps];
    var payloadBytes := (ps - PKT_HEADER_SIZE) * 2;
    var packets := if size % payloadBytes == 0 then size / payloadBytes else size / payloadBytes + 1;
    var packet, p := 1, 0;
    CountBounds(size, ps);
    while packet < packets
      invariant 1 <= packet && (packet <= packets || (packets == 0 && packet == 1))
      invariant p == Offset(ps, packet)
      invariant |sent| == packet - 1
      invariant forall j :: 0 <= j < |sent| ==> sent[j] == PacketFor(r, msg, size, ps, j + 1)
    {
      FullPacket(size, ps, packet);
      FillHeader(out, r, size, packet);
      p := FillPayload(out, r, msg, size, packet, p, false);
      sent := sent + [out[..]];
      packet := packet + 1;
    }
    FillHeader(out, r, size, packet);
    p := FillPayload(out, r, msg, size, packet, p, true);
    sent := sent + [out[..]];
    forall k | 0 <= k < |sent|
      ensures sent[k] == PacketFor(r, msg, size, ps, k + 1)
    {
    }
    PacketsFields(r, msg, size, ps, sent);
    Addressed(r, size, ps, sent);
  }

  lemma Addressed(r: Route, size: int, ps: int, sent: seq<Packet>)
    requires forall k :: 0 <= k < |sent| ==> HeaderOf(sent[k], r, size, ps, k + 1)
    ensures forall p :: p in sent ==>
              |p| == ps > PKT_HEADER_SIZE
              && p[PKT_TARGET_CPU] == r.target && p[PKT_PAYLOAD] == ps - 2 && p[PKT_TARGET_PORT] == r.targetPort
  {
  }

  lemma PacketFields(r: Route, msg: seq<int>, size: int, ps: int, k: int)
    requires Message(msg, size) && ps > PKT_HEADER_SIZE && k >= 0
    ensures HeaderOf(PacketFor(r, msg, size, ps, k + 1), r, size, ps, k + 1)
    ensures BytesOf(PacketFor(r, msg, size, ps, k + 1), msg, size, ps, k)
  {
    hide PayloadFlit, Message;
    var p := PacketFor(r, msg, size, ps, k + 1);
    forall i | PKT_HEADER_SIZE <= i < ps
      ensures var b := k * ((ps - PKT_HEADER_SIZE) * 2) + 2 * (i - PKT_HEADER_SIZE);
        0 <= b && if b < size then b + 1 < |msg| && p[i] == msg[b] * 256 + msg[b + 1] else p[i] == FILLER
    {
      PayloadAt(msg, size, ps, k + 1, i);
    }
  }

  lemma PacketsFields(r: Route, msg: seq<int>, size: int, ps: int, sent: seq<Packet>)
    requires Message(msg, size) && ps > PKT_HEADER_SIZE
    requires forall k :: 0 <= k < |sent| ==> sent[k] == PacketFor(r, msg, size, ps, k + 1)
    ensures forall k :: 0 <= k < |sent| ==> HeaderOf(sent[k], r, size, ps, k + 1) && BytesOf(sent[k], msg, size, ps, k)
  {
    hide PacketFor, HeaderOf, BytesOf, Message;
    forall k | 0 <= k < |sent|
      ensures HeaderOf(sent[k], r, size, ps, k + 1) && BytesOf(sent[k], msg, size, ps, k)
    {
      PacketFields(r, msg, size, ps, k);
    }
  }

  lemma FullPacket(size: int, ps: int, k: int)
    requires 0 <= size && ps > PKT_HEADER_SIZE && 1 <= k < PacketCount(size, ps)
    ensures Offset(ps, k + 1) == Offset(ps, k) + PayloadBytes(ps) <= size
    ensures Offset(ps, k) >= 0
  {
    hide PacketCount;
    CountBounds(size, ps);
    var n, b := PacketCount(size, ps), PayloadBytes(ps);
    MulOrder(0, k - 1, b);
    MulOrder(k, n - 1, b);
    assert k * b == (k - 1) * b + b;
  }

  lemma MulOrder(x: int, y: int, b: int)
    requires x <= y && b >= 0
    ensures x * b <= y * b
  {
    assert (y - x) * b >= 0;
  }

  method FillHeader(out: array<int>, r: Route, size: int, packet: int)
    requires out.Length > PKT_HEADER_SIZE
    modifies out
    ensures forall i :: 0 <= i < PKT_HEADER_SIZE ==> out[i] == HeaderFlit(r, size, out.Length, packet, i)
  {
    out[PKT_TARGET_CPU] := r.target;
    out[PKT_PAYLOAD] := out.Length - 2;
    out[PKT_SOURCE_CPU] := r.sourceCpu;
    out[PKT_SOURCE_PORT] := r.sourcePort;
    out[PKT_TARGET_PORT] := r.targetPort;
    out[PKT_MSG_SIZE] := size;
    out[PKT_SEQ] := packet;
    out[PKT_CHANNEL] := r.channel;
  }

  /** The payload loops of hf_send: only the one for the last packet looks at the
      end of the message, and fills the rest up. */
  method FillPayload(out: array<int>, ghost r: Route, msg: seq<int>, size: int, ghost packet: int, p0: int, last: bool)
    returns (p: int)
    requires !last ==> p0 + PayloadBytes(out.Length) <= size
    requires Message(msg, size) && out.Length > PKT_HEADER_SIZE && packet >= 1 && p0 == Offset(out.Length, packet)
    requires forall i :: 0 <= i < PKT_HEADER_SIZE ==> out[i] == HeaderFlit(r, size, out.Length, packet, i)
    modifies out
    ensures out[..] == PacketFor(r, msg, size, out.Length, packet)
    ensures !last ==> p == p0 + PayloadBytes(out.Length)
  {
    hide PayloadFlit, HeaderFlit, PacketFor, Message, Offset;
    p := p0;
    var i := PKT_HEADER_SIZE;
    OffsetNonNeg(out.Length, packet);
    while i < out.Length && (!last || p < size)
      invariant PKT_HEADER_SIZE <= i <= out.Length && p == p0 + 2 * (i - PKT_HEADER_SIZE)
      invariant forall j :: 0 <= j < PKT_HEADER_SIZE ==> out[j] == HeaderFlit(r, size, out.Length, packet, j)
      invariant forall j :: PKT_HEADER_SIZE <= j < i ==> out[j] == PayloadFlit(msg, size, out.Length, packet, j)
    {
      PayloadAt(msg, size, out.Length, packet, i);
      out[i] := msg[p] * 256 + msg[p + 1];
      i := i + 1;
      p := p + 2;
    }
    while i < out.Length
      invariant PKT_HEADER_SIZE <= i <= out.Length
      invariant !last ==> i == out.Length
      invariant i < out.Length ==> p0 + 2 * (i - PKT_HEADER_SIZE) >= size
      invariant forall j :: 0 <= j < PKT_HEADER_SIZE ==> out[j] == HeaderFlit(r, size, out.Length, packet, j)
      invariant forall j :: PKT_HEADER_SIZE <= j < i ==> out[j] == PayloadFlit(msg, size, out.Length, packet, j)
    {
      PayloadAt(msg, size, out.Length, packet, i);
      out[i] := FILLER;
      i := i + 1;
    }
    FlitsMakePacket(r, msg, size, packet, out[..]);
  }

  lemma OffsetNonNeg(ps: int, k: int)
    requires ps > PKT_HEADER_SIZE && k >= 1
    ensures Offset(ps, k) >= 0
  {
    assert (k - 1) * PayloadBytes(ps) >= 0;
  }

  lemma PayloadAt(msg: seq<int>, size: int, ps: int, k: int, i: int)
    requires Message(msg, size) && ps > PKT_HEADER_SIZE && k >= 1 && i >= PKT_HEADER_SIZE
    ensures var p := Offset(ps, k) + 2 * (i - PKT_HEADER_SIZE);
            && 0 <= p && (p < size ==> p + 1 < |msg|)
            && PayloadFlit(msg, size, ps, k, i) == if p < size then msg[p] * 256 + msg[p + 1] else FILLER
  {
    OffsetNonNeg(ps, k);
    OffsetEven(ps, k, i - PKT_HEADER_SIZE);
    var p := Offset(ps, k) + 2 * (i - PKT_HEADER_SIZE);
    if p < size {
      EvenFits(msg, size, p);
    }
  }

  lemma FlitsMakePacket(r: Route, msg: seq<int>, size: int, k: int, p: Packet)
    requires Message(msg, size) && |p| > PKT_HEADER_SIZE && k >= 1
    requires forall j :: 0 <= j < PKT_HEADER_SIZE ==> p[j] == HeaderFlit(r, size, |p|, k, j)
    requires forall j :: PKT_HEADER_SIZE <= j < |p| ==> p[j] == PayloadFlit(msg, size, |p|, k, j)
    ensures p == PacketFor(r, msg, size, |p|, k)
  {
    hide PayloadFlit, HeaderFlit;
  }

  // ----- taking a packet apart -----

  lemma HighLow(a: int, b: int)
    requires 0 <= a < 256 && 0 <= b < 256
    ensures (a * 256 + b) / 256 == a && (a * 256 + b) % 256 == b
  {
    DivUnique(a * 256 + b, 256, a);
  }

  /** The two bytes of a payload word are the two message bytes it was made of. */
  lemma WordBytes(r: Route, msg: seq<int>, size: int, ps: int, k: int, i: int)
    requires Message(msg, size) && ps > PKT_HEADER_SIZE && k >= 1 && PKT_HEADER_SIZE <= i < ps
    ensures var p := Offset(ps, k) + 2 * (i - PKT_HEADER_SIZE);
            p >= 0 && (p < size ==>
              var w := PacketFor(r, msg, size, ps, k)[i];
              p + 1 < |msg| && w / 256 == msg[p] && w % 256 == msg[p + 1])
  {
    PayloadAt(msg, size, ps, k, i);
    var p := Offset(ps, k) + 2 * (i - PKT_HEADER_SIZE);
    if p < size {
      HighLow(msg[p], msg[p + 1]);
      assert PacketFor(r, msg, size, ps, k)[i] == PayloadFlit(msg, size, ps, k, i);
    }
  }

  method CountPackets(size: int, payloadBytes: int, ghost ps: int) returns (n: int)
    requires ps > PKT_HEADER_SIZE && payloadBytes == PayloadBytes(ps)
    ensures n == PacketCount(size, ps)
  {
    n := if size % payloadBytes == 0 then size / payloadBytes else size / payloadBytes + 1;
  }

  lemma LastPacket(n: int, ps: int, k: int)
    requires 0 <= n && ps > PKT_HEADER_SIZE && k == SentCount(n, ps)
    ensures 0 <= Offset(ps, k) <= n <= Offset(ps, k) + PayloadBytes(ps)
  {
    CountBounds(n, ps);
    OffsetNonNeg(ps, k);
    assert k * PayloadBytes(ps) == (k - 1) * PayloadBytes(ps) + PayloadBytes(ps);
  }

  /** The sequence number of the next packet does not wrap around. */
  lemma CountSmall(size: int, ps: int)
    requires 0 <= size <= MAX_MESSAGE && ps > PKT_HEADER_SIZE
    ensures SentCount(size, ps) <= 0x8000
  {
    CountBounds(size, ps);
    var n, b := PacketCount(size, ps), PayloadBytes(ps);
    if n > 0 {
      MulOrder(0, n - 1, b - 2);
      assert (n - 1) * b == (n - 1) * (b - 2) + (n - 1) * 2;
    }
  }

  lemma EvenStep(p: int, size: int)
    requires 0 <= p && p % 2 == 0 && 0 <= size
    ensures p < size ==> p + 2 <= size + size % 2
  {
  }

  lemma EvenEnd(p: int, size: int)
    requires 0 <= p && p % 2 == 0 && size <= p <= size + size % 2
    ensures p == size + size % 2
  {
  }
}
