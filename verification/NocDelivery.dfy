/** What hf_recv gives its caller (drivers/noc/noc.c:285-365): when a message
    arrives as it was sent, when not, and what a loop of calls receives. */
module NocDelivery {
  import opened NocMessages
  import opened NocWaits
  import opened NocReceive

  // ----- packets in sequence are the message -----

  /** A packet of ps flits; if it has the channel and a number of the message, it
      is that packet of the message. */
  ghost predicate Genuine(p: Packet, m: Route, msg: seq<int>, n: int, ps: int)
    requires Message(msg, n) && ps > PKT_HEADER_SIZE
  {
    && |p| == ps
    && forall k :: 1 <= k <= SentCount(n, ps) && Matches(p, m.channel, k) ==> p == PacketFor(m, msg, n, ps, k)
  }

  ghost predicate Stream(w: World, p: Packet) {
    p in w.inbox || p in Flat(w.net)
  }

  /** Result and buffer say what was sent. */
  ghost predicate Delivered(r: Result, buf: seq<int>, m: Route, msg: seq<int>, n: int) {
    && r.end == Returned && r.error == ERR_OK
    && r.size == n && r.sourceCpu == m.sourceCpu && r.sourcePort == m.sourcePort
    && 0 <= n <= |buf| && n <= |msg| && buf[..n] == msg[..n]
  }

  /** A call that unpacks the packets of a message delivers it. */
  lemma UnpackedDelivers(r: Result, buf: seq<int>, m: Route, msg: seq<int>, n: int, ps: int)
    requires Message(msg, n) && ps > PKT_HEADER_SIZE && r.end == Returned
    requires Unpacked(r, Packets(m, msg, n, ps), buf, m.channel, ps)
    ensures Delivered(r, buf, m, msg, n)
  {
    var taken := Packets(m, msg, n, ps);
    CountBounds(n, ps);
    assert forall k :: 0 <= k < |taken| ==> taken[k] == PacketFor(m, msg, n, ps, k + 1) && taken[k][PKT_SEQ] == k + 1;
    assert Numbered(taken);
    JoinedMessage(m, msg, n, ps, |taken|);
    assert taken[..|taken|] == taken;
  }

  /** Round trip: if the packets on the channel are those of the message and the
      ones taken are in sequence, the message is delivered. */
  lemma SequenceDelivers(w: World, w': World, r: Result, t: Trace, buf: seq<int>, ps: int, slots: nat,
                         m: Route, msg: seq<int>, n: int)
    requires Received(w, w', r, t, buf, m.channel, ps, slots) && r.end == Returned && InSequence(t.taken, m.channel)
    requires Message(msg, n) && ps > PKT_HEADER_SIZE && forall p :: Stream(w, p) ==> Genuine(p, m, msg, n, ps)
    ensures t.taken == Packets(m, msg, n, ps) && Delivered(r, buf, m, msg, n)
  {
    var taken := t.taken;
    hide Traced, Stuck, Waited, SentCount, PacketFor;
    forall k | 0 <= k < |taken|
      ensures Genuine(taken[k], m, msg, n, ps) && Matches(taken[k], m.channel, k + 1)
    {
      TracedFrom(w, w', t, m.channel, ps, slots, k);
      assert Stream(w, taken[k]);
    }
    FirstSize(taken[0], m, msg, n, ps);
    assert taken == Packets(m, msg, n, ps);
    UnpackedDelivers(r, buf, m, msg, n, ps);
  }

  lemma FirstSize(p: Packet, m: Route, msg: seq<int>, n: int, ps: int)
    requires Message(msg, n) && ps > PKT_HEADER_SIZE && Genuine(p, m, msg, n, ps) && Matches(p, m.channel, 1)
    ensures p[PKT_MSG_SIZE] == n
  {
    CountBounds(n, ps);
  }

  // ----- packets in time are taken in sequence -----

  /** If no packet of the channel is dropped and each one comes within
      14 * slots moments from the start of the wait for it, all are taken. */
  lemma TimelyReturns(w: World, w': World, r: Result, t: Trace, buf: seq<int>, channel: int, ps: int, slots: nat)
    requires Received(w, w', r, t, buf, channel, ps, slots) && Spared(t.traffic.dropped, channel)
    requires forall k :: 0 <= k < |t.waits| ==> Timely(t.waits[k], channel, k + 1, slots)
    ensures r.end == Returned && InSequence(t.taken, channel)
  {
    hide Gathered, Stuck, Unpacked, Waited, Spared, Timely, Smooth, Matches;
    forall k | 0 <= k < |t.waits|
      ensures k < |t.taken| && Matches(t.taken[k], channel, k + 1)
    {
      WaitFinds(w, t, channel, slots, k);
    }
    if |t.waits| > |t.taken| {
      WaitFinds(w, t, channel, slots, |t.taken|);
    }
  }

  lemma WaitFinds(w: World, t: Trace, channel: int, slots: nat, k: nat)
    requires Waited(w, t, channel, slots) && k < |t.waits|
    requires Spared(t.traffic.dropped, channel) && Timely(t.waits[k], channel, k + 1, slots)
    ensures k < |t.taken| && Matches(t.taken[k], channel, k + 1)
  {
    assert WaitedAt(w, t, channel, slots, k);
  }

  /** The first n packets of a message are in the queue, or get there within d
      moments. */
  ghost predicate AllDue(w: World, d: int, channel: int, n: int) {
    forall k :: 1 <= k <= n ==> FirstMatch(Due(w, d), channel, k) < |Due(w, d)|
  }

  /** Every message that starts on the channel has n packets. */
  ghost predicate Counted(w: World, channel: int, n: int, ps: int) {
    && ps > PKT_HEADER_SIZE && n >= 1
    && forall p :: Stream(w, p) && Matches(p, channel, 1) ==> SentCount(p[PKT_MSG_SIZE], ps) == n
  }

  /** A packet that is due and was not taken is still due when its wait starts. */
  lemma StillDue(w: World, at: World, dropped: seq<Packet>, taken: seq<Packet>, channel: int, n: int, slots: nat)
    requires StillComing(w, at, dropped, taken) && |at.net| <= |w.net| && Spared(dropped, channel)
    requires AllDue(w, 14 * slots, channel, n) && InSequence(taken, channel) && |taken| < n
    ensures Timely(at, channel, |taken| + 1, slots)
  {
    var k, d := |taken| + 1, 14 * slots;
    hide FirstMatch, Due, Matches, InSequence, Spared;
    var p := Due(w, d)[FirstMatch(Due(w, d), channel, k)];
    assert p in Due(w, d);
    NotDropped(dropped, channel, k, p);
    NotTaken(taken, channel, p);
    var d' := d - (|w.net| - |at.net|);
    DueLater(at, d', d, p);
    var y :| 0 <= y < |Due(at, d)| && Due(at, d)[y] == p;
    FirstMatchBefore(Due(at, d), channel, k, y);
  }

  lemma NotTaken(taken: seq<Packet>, channel: int, p: Packet)
    requires InSequence(taken, channel) && Matches(p, channel, |taken| + 1)
    ensures p !in taken
  {
    forall j | 0 <= j < |taken|
      ensures taken[j] != p
    {
      assert Matches(taken[j], channel, j + 1);
    }
  }

  lemma {:induction false} FlatPrefix(net: seq<seq<Packet>>, i: nat, j: nat, p: Packet)
    requires i <= j <= |net| && p in Flat(net[..i])
    ensures p in Flat(net[..j])
  {
    if i > 0 {
      assert net[..i][0] == net[..j][0] == net[0];
      assert net[..i][1..] == net[1..][..i - 1] && net[..j][1..] == net[1..][..j - 1];
      if p !in net[0] { FlatPrefix(net[1..], i - 1, j - 1, p); }
    }
  }

  lemma DueLater(w: World, d: int, e: int, p: Packet)
    requires d <= e && p in Due(w, d)
    ensures p in Due(w, e)
  {
    if p !in w.inbox {
      var i, j := |Prefix(w.net, d)|, |Prefix(w.net, e)|;
      assert Prefix(w.net, d) == w.net[..i] && Prefix(w.net, e) == w.net[..j];
      FlatPrefix(w.net, i, j, p);
    }
  }

  lemma WaitsCounted(w: World, w': World, r: Result, t: Trace, buf: seq<int>, channel: int, ps: int, slots: nat, n: int)
    requires Received(w, w', r, t, buf, channel, ps, slots) && Counted(w, channel, n, ps)
    ensures |t.waits| <= n && (r.end == Returned ==> |t.taken| == n)
  {
    hide Waited, SentCount, Copied, Numbered;
    if t.taken != [] {
      TracedFrom(w, w', t, channel, ps, slots, 0);
      assert Stream(w, t.taken[0]);
    }
    hide Traced;
  }

  lemma {:induction false} WaitsTimely(w: World, t: Trace, channel: int, n: int, slots: nat, k: nat)
    requires Waited(w, t, channel, slots) && Spared(t.traffic.dropped, channel) && k <= |t.waits| <= n
    requires AllDue(w, 14 * slots, channel, n)
    ensures k <= |t.taken| && InSequence(t.taken[..k], channel)
    ensures forall j :: 0 <= j < k ==> Timely(t.waits[j], channel, j + 1, slots)
  {
    hide AllDue, Spared, Timely, StillComing, Matches;
    if k > 0 {
      WaitsTimely(w, t, channel, n, slots, k - 1);
      assert WaitedAt(w, t, channel, slots, k - 1);
      StillDue(w, t.waits[k - 1], t.traffic.dropped, t.taken[..k - 1], channel, n, slots);
      assert t.taken[..k] == t.taken[..k - 1] + [t.taken[k - 1]];
    }
  }

  /** If all packets of the message are there or come within 14 * slots moments,
      and none of the channel is dropped, the call returns with them. */
  lemma DueReturns(w: World, w': World, r: Result, t: Trace, buf: seq<int>, channel: int, ps: int, slots: nat, n: int)
    requires Received(w, w', r, t, buf, channel, ps, slots) && Spared(t.traffic.dropped, channel)
    requires Counted(w, channel, n, ps) && AllDue(w, 14 * slots, channel, n)
    ensures r.end == Returned && InSequence(t.taken, channel) && |t.taken| == n
  {
    WaitsCounted(w, w', r, t, buf, channel, ps, slots, n);
    hide Gathered, Unpacked, Stuck, Counted, AllDue, Spared, Timely, StillComing, Smooth, Passed;
    WaitsTimely(w, t, channel, n, slots, |t.waits|);
    TimelyReturns(w, w', r, t, buf, channel, ps, slots);
  }

  /** Each of the n packets is in the queue. */
  ghost predicate AllQueued(inbox: seq<Packet>, channel: int, n: int) {
    forall k :: 1 <= k <= n ==> FirstMatch(inbox, channel, k) < |inbox|
  }

  /** When nothing arrives during the call, hf_recv returns the packets of the
      message in sequence if and only if each of them is in the queue. */
  lemma QueuedExactly(w: World, w': World, r: Result, t: Trace, buf: seq<int>, channel: int, ps: int, slots: nat, n: int)
    requires Received(w, w', r, t, buf, channel, ps, slots) && w.net == [] && Counted(w, channel, n, ps)
    ensures r.end == Returned && InSequence(t.taken, channel) <==> AllQueued(w.inbox, channel, n)
  {
    hide Received, Counted;
    if r.end == Returned && InSequence(t.taken, channel) {
      TakenQueued(w, w', r, t, buf, channel, ps, slots, n);
    }
    if AllQueued(w.inbox, channel, n) {
      QueuedTaken(w, w', r, t, buf, channel, ps, slots, n);
    }
  }

  lemma TakenQueued(w: World, w': World, r: Result, t: Trace, buf: seq<int>, channel: int, ps: int, slots: nat, n: int)
    requires Received(w, w', r, t, buf, channel, ps, slots) && w.net == [] && Counted(w, channel, n, ps)
    requires r.end == Returned && InSequence(t.taken, channel)
    ensures AllQueued(w.inbox, channel, n)
  {
    WaitsCounted(w, w', r, t, buf, channel, ps, slots, n);
    hide Unpacked, Stuck, Counted, Waited, Traced, FirstMatch;
    forall k | 1 <= k <= n
      ensures FirstMatch(w.inbox, channel, k) < |w.inbox|
    {
      TracedFrom(w, w', t, channel, ps, slots, k - 1);
      var y :| 0 <= y < |w.inbox| && w.inbox[y] == t.taken[k - 1];
      FirstMatchBefore(w.inbox, channel, k, y);
    }
  }

  lemma QueuedTaken(w: World, w': World, r: Result, t: Trace, buf: seq<int>, channel: int, ps: int, slots: nat, n: int)
    requires Received(w, w', r, t, buf, channel, ps, slots) && w.net == [] && Counted(w, channel, n, ps)
    requires AllQueued(w.inbox, channel, n)
    ensures r.end == Returned && InSequence(t.taken, channel)
  {
    NothingDropped(w, w', t.traffic, t.taken);
    NothingDue(w, 14 * slots);
    NoneSpared(channel);
    hide Gathered, Unpacked, Stuck, Counted, Waited, FirstMatch, Due, Smooth;
    DueReturns(w, w', r, t, buf, channel, ps, slots, n);
  }

  lemma NothingDropped(w: World, w': World, t: Traffic, taken: seq<Packet>)
    requires Gathered(w, w', t, taken) && w.net == []
    ensures t.got == t.dropped == [] && w'.net == []
  {
    assert |multiset(t.got) + multiset(t.dropped)| == 0;
  }

  // ----- a packet of another channel -----

  /** hf_recv waits for packet 2 and gives up: the packet of another channel that
      it takes has the right number, so the error does not show it. */
  lemma ForeignTaken(w: World, w': World, r: Result, t: Trace, buf: seq<int>, channel: int, ps: int, slots: nat, p: Packet, q: Packet)
    requires Received(w, w', r, t, buf, channel, ps, slots) && w.net == [] && w.inbox == [p, q]
    requires Matches(p, channel, 1) && ps > PKT_HEADER_SIZE && SentCount(p[PKT_MSG_SIZE], ps) == 2
    requires |q| > PKT_HEADER_SIZE && q[PKT_SEQ] == 2 && q[PKT_CHANNEL] != channel
    ensures r.end == Returned && r.error == ERR_OK && t.taken == [p, q] && !InSequence(t.taken, channel)
    ensures Unpacked(r, [p, q], buf, channel, ps)
  {
    hide Waited, SentCount, Copied, Sized, Smooth, StillComing;
    NothingDropped(w, w', t.traffic, t.taken);
    var taken := t.taken;
    assert multiset(w'.inbox) + multiset(taken) == multiset{p, q};
    assert |w'.inbox| + |taken| == |multiset{p, q}| == 2;
    assert p in multiset(w'.inbox) + multiset(taken);
    if taken != [] {
      assert taken[0] in multiset(taken) && taken[0] == p;
      assert |taken| == 2 && taken == [p, taken[1]];
      assert multiset([p]) + multiset([taken[1]]) == multiset{p, q};
      assert taken[1] == q;
      assert Numbered([p, q]);
      assert !Matches(taken[1], channel, 2);
    }
  }

  /** A packet of 9 flits, one of them payload. */
  function Small(channel: int, s: int, word: int): Packet {
    [0, 7, 0, 0, 5000, 4, s, channel, word]
  }

  /** The message 1, 2, 3, 4 is sent on channel 0 as Small(0, 1, 0x0102) and
      Small(0, 2, 0x0304); the second packet does not arrive, but one of channel
      1 with the same number. hf_recv returns 1, 2, 9, 9 and no error. */
  method ForeignPacketReturned() returns (r: Result, bytes: seq<int>)
    ensures Packets(Route(0, 0, 0, 5000, 0), [1, 2, 3, 4], 4, 9) == [Small(0, 1, 0x0102), Small(0, 2, 0x0304)]
    ensures r.end == Returned && r.error == ERR_OK && bytes == [1, 2, 9, 9]
  {
    hide Received, Receiver.Valid, Packets, Flat, Joined, Copied, Arrived;
    SmallMessage();
    var k := Waiting();
    var buf := new int[4];
    ghost var w := k.Now();
    SmallExpected();
    ghost var t;
    r, t := k.HfRecv(true, 0, buf, 9);
    SmallCount();
    ForeignTaken(w, k.Now(), r, t, buf[..], 0, 9, k.slots, Small(0, 1, 0x0102), Small(1, 2, 0x0909));
    SmallBytes(buf[..], r);
    bytes := buf[..];
  }

  /** Both packets have come, and nothing more will. */
  method Waiting() returns (k: Receiver)
    ensures k.Valid() && k.hand == [] && k.net == [] && k.Inbox() == [Small(0, 1, 0x0102), Small(1, 2, 0x0909)]
    ensures fresh(k) && fresh(k.mem) && fresh(k.pool) && fresh(k.pool.data) && fresh(k.tq) && fresh(k.tq.data)
  {
    var p, q := Small(0, 1, 0x0102), Small(1, 2, 0x0909);
    k := new Receiver(2, 2, [[p, q]]);
    hide Receiver.Valid, Loaded, Small;
    assert k.Inbox() == [];
    ghost var u := k.Arrive();
    assert u.got + u.dropped == [p, q];
  }

  lemma SmallExpected()
    ensures Expected(Small(0, 1, 0x0102), 9, 0, 4) && Expected(Small(1, 2, 0x0909), 9, 0, 4) && Flat([]) == []
  {
  }

  lemma SmallCount()
    ensures SentCount(Small(0, 1, 0x0102)[PKT_MSG_SIZE], 9) == 2
  {
  }

  lemma SmallPacket(k: int, word: int)
    requires 1 <= k <= 2 && word == if k == 1 then 0x0102 else 0x0304
    ensures PacketFor(Route(0, 0, 0, 5000, 0), [1, 2, 3, 4], 4, 9, k) == Small(0, k, word)
  {
    PayloadAt([1, 2, 3, 4], 4, 9, k, PKT_HEADER_SIZE);
    hide PayloadFlit;
  }

  lemma SmallMessage()
    ensures Packets(Route(0, 0, 0, 5000, 0), [1, 2, 3, 4], 4, 9) == [Small(0, 1, 0x0102), Small(0, 2, 0x0304)]
  {
    SmallPacket(1, 0x0102);
    SmallPacket(2, 0x0304);
    hide PacketFor;
  }

  lemma SmallBytes(buf: seq<int>, r: Result)
    requires |buf| == 4 && Unpacked(r, [Small(0, 1, 0x0102), Small(1, 2, 0x0909)], buf, 0, 9)
    ensures buf == [1, 2, 9, 9]
  {
    var p, q := Small(0, 1, 0x0102), Small(1, 2, 0x0909);
    assert [p, q][..1] == [p] && [p][..0] == [];
    assert Joined([p], 9) == Joined([], 9) + Bytes(p);
    assert Joined([p, q], 9) == Joined([p], 9) + Bytes(q);
    assert Bytes(p) == [1, 2] && Bytes(q) == [9, 9];
  }

  // ----- messages one after the other -----

  datatype Mail = Mail(m: Route, msg: seq<int>, n: int)

  ghost predicate Mailed(mails: seq<Mail>, channel: int) {
    forall i :: 0 <= i < |mails| ==> Message(mails[i].msg, mails[i].n) && mails[i].m.channel == channel
  }

  /** The packets of messages one after the other. */
  ghost function Sent(mails: seq<Mail>, channel: int, ps: int): seq<Packet>
    requires ps > PKT_HEADER_SIZE && Mailed(mails, channel)
  {
    if mails == [] then []
    else Packets(mails[0].m, mails[0].msg, mails[0].n, ps) + Sent(mails[1..], channel, ps)
  }

  /** If the packets of a message are the next ones to come and none is dropped,
      the message is delivered, however long it is and whenever they come, and
      what comes after it is untouched. */
  lemma NextDelivers(w: World, w': World, r: Result, t: Trace, buf: seq<int>, ps: int, slots: nat, a: Mail, rest: seq<Packet>)
    requires Received(w, w', r, t, buf, a.m.channel, ps, slots) && t.traffic.dropped == []
    requires ps > PKT_HEADER_SIZE && Message(a.msg, a.n) && Ahead(w) == Packets(a.m, a.msg, a.n, ps) + rest
    ensures Delivered(r, buf, a.m, a.msg, a.n) && Ahead(w') == rest
  {
    var q := Packets(a.m, a.msg, a.n, ps);
    PacketsInOrder(a, rest, ps);
    hide Gathered, Waited, Ahead, Packets, Stuck, InOrder;
    assert Smooth(w, t, a.m.channel, ps) && Passed(w, w', t.taken);
    assert t.taken[0] == (t.taken + Ahead(w'))[0] == q[0];
    assert |t.taken| == |q|;
    assert t.taken == (q + rest)[..|q|] == q;
    assert Ahead(w') == (q + rest)[|q|..] == rest;
    UnpackedDelivers(r, buf, a.m, a.msg, a.n, ps);
  }

  lemma PacketsInOrder(a: Mail, rest: seq<Packet>, ps: int)
    requires ps > PKT_HEADER_SIZE && Message(a.msg, a.n)
    ensures var q := Packets(a.m, a.msg, a.n, ps);
      && InOrder(q + rest, a.m.channel, ps) && q != [] && |q[0]| == ps && q[0][PKT_MSG_SIZE] == a.n && |q| == SentCount(a.n, ps)
  {
    CountBounds(a.n, ps);
    var q := Packets(a.m, a.msg, a.n, ps);
    assert q[0] == PacketFor(a.m, a.msg, a.n, ps, 1);
    assert (q + rest)[..|q|] == q;
    forall k | 0 <= k < |q|
      ensures Matches(q[k], a.m.channel, k + 1)
    {
      assert q[k] == PacketFor(a.m, a.msg, a.n, ps, k + 1);
    }
  }

  lemma StreamShrinks(w: World, w': World, t: Traffic, taken: seq<Packet>)
    requires Gathered(w, w', t, taken)
    ensures forall p :: Stream(w', p) ==> Stream(w, p)
  {
    hide StillComing, Flat, Ample;
    forall p | Stream(w', p)
      ensures Stream(w, p)
    {
      assert p in w'.inbox ==> p in multiset(w'.inbox) + multiset(taken);
      assert p in Flat(w'.net) ==> p in multiset(Flat(w.net));
      assert p in t.got ==> p in multiset(Flat(w.net));
    }
  }

  /** One call when messages come one after the other. */
  method ReceiveOne(k: Receiver, channel: int, buf: array<int>, ps: int, ghost mails: seq<Mail>, ghost rest: seq<Packet>, ghost smooth: bool)
    returns (r: Result, ghost dropped: seq<Packet>)
    requires k.Valid() && k.hand == [] && ps > PKT_HEADER_SIZE && mails != [] && Mailed(mails, channel)
    requires smooth ==> Ahead(k.Now()) == Sent(mails, channel, ps) + rest
    requires forall p :: Stream(k.Now(), p) ==> Expected(p, ps, channel, buf.Length)
    requires buf as object != k.pool.data && buf as object != k.tq.data && buf as object != k.mem
    requires buf as object != k.pool && buf as object != k.tq && buf as object != k
    modifies k`waiting, k`free, k`net, k`hand, k.mem, k.pool, k.pool.data, k.tq, k.tq.data, buf
    ensures k.Valid() && k.hand == []
    ensures forall p :: Stream(k.Now(), p) ==> Expected(p, ps, channel, buf.Length)
    ensures r.end == Returned ==> 0 <= r.size <= buf.Length
    ensures smooth && dropped == [] ==>
      && r.end == Returned && r.size <= |mails[0].msg| && buf[..r.size] == mails[0].msg[..mails[0].n]
      && Mailed(mails[1..], channel) && Ahead(k.Now()) == Sent(mails[1..], channel, ps) + rest
  {
    hide Receiver.Valid, Received, Ahead, Packets, Expected, Delivered;
    ghost var w := k.Now();
    assert forall p :: p in k.Inbox() || p in Flat(k.net) ==> Stream(w, p);
    ghost var t;
    r, t := k.HfRecv(true, channel, buf, ps);
    dropped := t.traffic.dropped;
    ReceivedParts(w, k.Now(), r, t, buf[..], channel, ps, k.slots);
    StreamShrinks(w, k.Now(), t.traffic, t.taken);
    if smooth && dropped == [] {
      SentNext(mails, channel, ps, rest);
      NextDelivers(w, k.Now(), r, t, buf[..], ps, k.slots, mails[0], Sent(mails[1..], channel, ps) + rest);
      DeliveredSays(r, buf[..], mails[0]);
    }
  }

  /** The receiving task of app/noc_test/noc_test.c, for as many calls as there
      are messages. Unless a packet is dropped, it gets them all in order,
      however many packets they have and whenever these come. */
  method ReceiveLoop(k: Receiver, channel: int, buf: array<int>, ps: int, calls: nat, ghost mails: seq<Mail>, ghost rest: seq<Packet>)
    returns (messages: seq<seq<int>>, ghost dropped: seq<Packet>)
    requires k.Valid() && k.hand == [] && ps > PKT_HEADER_SIZE && calls == |mails| && Mailed(mails, channel)
    requires Ahead(k.Now()) == Sent(mails, channel, ps) + rest
    requires forall p :: Stream(k.Now(), p) ==> Expected(p, ps, channel, buf.Length)
    requires buf as object != k.pool.data && buf as object != k.tq.data && buf as object != k.mem
    requires buf as object != k.pool && buf as object != k.tq && buf as object != k
    modifies k`waiting, k`free, k`net, k`hand, k.mem, k.pool, k.pool.data, k.tq, k.tq.data, buf
    ensures k.Valid()
    ensures dropped == [] ==> messages == Contents(mails, channel) && Ahead(k.Now()) == rest
  {
    hide Receiver.Valid, Ahead, Expected, Stream, Sent;
    messages, dropped := [], [];
    var i := 0;
    assert mails[0..] == mails;
    while i < calls
      invariant 0 <= i <= calls && k.Valid() && k.hand == []
      invariant forall p :: Stream(k.Now(), p) ==> Expected(p, ps, channel, buf.Length)
      invariant dropped == [] ==> Ahead(k.Now()) == Sent(mails[i..], channel, ps) + rest
      invariant dropped == [] ==> messages == Contents(mails[..i], channel)
    {
      var r;
      ghost var more;
      r, more := ReceiveOne(k, channel, buf, ps, mails[i..], rest, dropped == []);
      dropped := dropped + more;
      if r.end == Hangs { return; }
      assert mails[i..][1..] == mails[i + 1..];
      assert mails[..i + 1] == mails[..i] + [mails[i]];
      messages := messages + [buf[..r.size]];
      i := i + 1;
    }
    assert mails[calls..] == [] && mails[..calls] == mails;
    SentNone(channel, ps);
  }

  /** The bytes of messages. */
  ghost function Contents(mails: seq<Mail>, channel: int): seq<seq<int>>
    requires Mailed(mails, channel)
  {
    seq(|mails|, i requires 0 <= i < |mails| => mails[i].msg[..mails[i].n])
  }

  lemma SentNone(channel: int, ps: int)
    requires ps > PKT_HEADER_SIZE
    ensures Sent([], channel, ps) == []
  {
  }

  lemma SentNext(mails: seq<Mail>, channel: int, ps: int, rest: seq<Packet>)
    requires mails != [] && ps > PKT_HEADER_SIZE && Mailed(mails, channel)
    ensures Mailed(mails[1..], channel)
    ensures Sent(mails, channel, ps) + rest ==
      Packets(mails[0].m, mails[0].msg, mails[0].n, ps) + (Sent(mails[1..], channel, ps) + rest)
  {
  }

  lemma DeliveredSays(r: Result, buf: seq<int>, a: Mail)
    requires Delivered(r, buf, a.m, a.msg, a.n)
    ensures r.end == Returned && r.size == a.n && 0 <= a.n <= |buf| && a.n <= |a.msg| && buf[..a.n] == a.msg[..a.n]
  {
  }

  lemma ReceivedParts(w: World, w': World, r: Result, t: Trace, buf: seq<int>, channel: int, ps: int, slots: nat)
    requires Received(w, w', r, t, buf, channel, ps, slots)
    ensures Gathered(w, w', t.traffic, t.taken) && (r.end == Returned ==> 0 <= r.size <= |buf|)
  {
  }
}
