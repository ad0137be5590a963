/** hf_recv (drivers/noc/noc.c:285-365) while packets arrive: the calling task
    polls its receive queue, and ni_isr puts packets into it at any moment with
    interrupts enabled. Where the source would wait for ever, the model stops
    and says so. */
module NocReceive {
  import opened Queues
  import opened Sequences
  import opened NocMessages
  import opened NocWaits

  // ----- buffers -----

  /** The packets in the buffers of a queue. */
  ghost function Loaded(mem: seq<Packet>, q: seq<nat>): (s: seq<Packet>)
    ensures |s| == |q|
  {
    seq(|q|, i requires 0 <= i < |q| => if q[i] < |mem| then mem[q[i]] else [])
  }

  /** Each buffer is in exactly one place. */
  ghost predicate Kept(buffers: set<nat>, size: nat, waiting: seq<nat>, free: seq<nat>, hand: seq<nat>) {
    && multiset(waiting) + multiset(free) + multiset(hand) == multiset(buffers)
    && forall b :: b in buffers ==> b < size
  }

  lemma KeptApart(buffers: set<nat>, size: nat, waiting: seq<nat>, free: seq<nat>, hand: seq<nat>)
    requires Kept(buffers, size, waiting, free, hand)
    ensures |waiting| + |free| + |hand| == |buffers|
    ensures forall b :: b in waiting || b in free || b in hand ==> b < size
    ensures forall b :: !(b in waiting && b in free) && !(b in free && b in hand) && !(b in waiting && b in hand)
    ensures Distinct(free)
  {
    var all := multiset(waiting) + multiset(free) + multiset(hand);
    assert |all| == |multiset(buffers)| == |buffers|;
    forall b: nat
      ensures b in waiting || b in free || b in hand ==> b < size
      ensures !(b in waiting && b in free) && !(b in free && b in hand) && !(b in waiting && b in hand)
      ensures multiset(free)[b] <= 1
    {
      assert all[b] == multiset(buffers)[b] <= 1;
      CountOne(waiting, b);
      CountOne(free, b);
      CountOne(hand, b);
      assert b in all <==> b in buffers;
    }
    MultiplicityDistinct(free);
  }

  /** An arrival changes one buffer that was free. */
  lemma LoadedKept(mem: seq<Packet>, q: seq<nat>, b: nat, p: Packet)
    requires b !in q && b < |mem|
    ensures Loaded(mem[b := p], q) == Loaded(mem, q)
    ensures Loaded(mem[b := p], q + [b]) == Loaded(mem, q) + [p]
  {
    forall i | 0 <= i < |q|
      ensures q[i] != b
    {
      assert q[i] in q;
    }
  }

  lemma KeptMoved(buffers: set<nat>, size: nat, w: seq<nat>, f: seq<nat>, h: seq<nat>)
    requires Kept(buffers, size, w, f, h) && f != []
    ensures Kept(buffers, size, w + [f[0]], f[1..], h) && Kept(buffers, size, w, f[1..] + [f[0]], h)
  {
    assert f == [f[0]] + f[1..];
  }

  function Numbers(n: nat): (q: seq<nat>)
    ensures |q| == n && forall i :: 0 <= i < n ==> q[i] == i
  {
    if n == 0 then [] else Numbers(n - 1) + [n - 1]
  }

  ghost function Members(q: seq<nat>): set<nat> {
    set b | b in q
  }

  lemma AllFree(n: nat)
    ensures Kept(Members(Numbers(n)), n, [], Numbers(n), []) && |Members(Numbers(n))| == n
  {
    hide Numbers;
    var q: seq<nat> := Numbers(n);
    forall b: nat
      ensures multiset(q)[b] == multiset(Members(q))[b]
    {
      CountOne(q, b);
    }
    assert multiset(q) == multiset(Members(q));
    assert |multiset(q)| == |multiset(Members(q))|;
  }

  lemma KeptTurned(buffers: set<nat>, size: nat, w: seq<nat>, f: seq<nat>, h: seq<nat>)
    requires Kept(buffers, size, w, f, h) && w != []
    ensures Kept(buffers, size, w[1..] + [w[0]], f, h)
  {
    assert w == [w[0]] + w[1..];
  }

  lemma KeptTaken(buffers: set<nat>, size: nat, w: seq<nat>, f: seq<nat>)
    requires Kept(buffers, size, w, f, []) && w != []
    ensures Kept(buffers, size, w[1..], f, [w[0]])
  {
    assert w == [w[0]] + w[1..];
  }

  lemma KeptGiven(buffers: set<nat>, size: nat, w: seq<nat>, f: seq<nat>, b: nat)
    requires Kept(buffers, size, w, f, [b])
    ensures Kept(buffers, size, w, f + [b], [])
  {
  }

  // ----- what the buffer gets -----

  /** The payload of a packet, byte by byte. */
  function Bytes(p: Packet): (b: seq<int>)
    requires |p| > PKT_HEADER_SIZE
    ensures |b| == PayloadBytes(|p|)
  {
    seq(PayloadBytes(|p|), j requires 0 <= j < PayloadBytes(|p|) =>
      if j % 2 == 0 then p[PKT_HEADER_SIZE + j / 2] / 256 else p[PKT_HEADER_SIZE + j / 2] % 256)
  }

  ghost predicate Sized(t: seq<Packet>, ps: int) {
    ps > PKT_HEADER_SIZE && forall i :: 0 <= i < |t| ==> |t[i]| == ps
  }

  /** The payloads of packets one after the other. */
  function Joined(t: seq<Packet>, ps: int): (b: seq<int>)
    requires Sized(t, ps)
    ensures |b| == Offset(ps, |t| + 1)
  {
    if t == [] then []
    else
      OffsetNext(ps, |t|);
      Joined(t[..|t| - 1], ps) + Bytes(t[|t| - 1])
  }

  /** buf holds the first pos bytes of the payloads. */
  ghost predicate Copied(buf: seq<int>, pos: int, t: seq<Packet>, ps: int) {
    && Sized(t, ps) && 0 <= pos <= |buf| && pos <= |Joined(t, ps)|
    && forall i :: 0 <= i < pos ==> buf[i] == Joined(t, ps)[i]
  }

  /** The copying loops of hf_recv (lines 321-324 and 355-358): the payload of p,
      up to the end of the message when p is the last packet. */
  method CopyPayload(p: Packet, buf: array<int>, p0: int, size: int, last: bool) returns (pos: int)
    requires |p| > PKT_HEADER_SIZE && 0 <= size && size + size % 2 <= buf.Length
    requires 0 <= p0 && p0 % 2 == 0
    requires if last then p0 <= size <= p0 + PayloadBytes(|p|) else p0 + PayloadBytes(|p|) <= size
    modifies buf
    ensures pos == (if last then size + size % 2 else p0 + PayloadBytes(|p|)) && p0 <= pos <= p0 + PayloadBytes(|p|)
    ensures forall j :: 0 <= j < p0 ==> buf[j] == old(buf[j])
    ensures forall j :: p0 <= j < pos ==> buf[j] == Bytes(p)[j - p0]
  {
    pos := p0;
    var i := PKT_HEADER_SIZE;
    while i < |p| && (!last || pos < size)
      invariant PKT_HEADER_SIZE <= i <= |p| && pos == p0 + 2 * (i - PKT_HEADER_SIZE)
      invariant pos <= size + size % 2
      invariant forall j :: 0 <= j < p0 ==> buf[j] == old(buf[j])
      invariant forall j :: p0 <= j < pos ==> buf[j] == Bytes(p)[j - p0]
    {
      EvenStep(pos, size);
      buf[pos] := p[i] / 256;
      buf[pos + 1] := p[i] % 256;
      pos := pos + 2;
      i := i + 1;
    }
    if last {
      EvenEnd(pos, size);
    }
  }

  lemma CopiedLength(buf: seq<int>, p0: int, t: seq<Packet>, ps: int)
    requires Copied(buf, p0, t, ps)
    ensures 0 <= p0 && Sized(t, ps) && |Joined(t, ps)| == Offset(ps, |t| + 1)
  {
  }

  lemma CopiedMore(buf: seq<int>, buf': seq<int>, p0: int, pos: int, t: seq<Packet>, p: Packet, ps: int)
    requires Copied(buf, p0, t, ps) && p0 == |Joined(t, ps)| && |buf'| == |buf| && |p| == ps
    requires p0 <= pos <= p0 + PayloadBytes(ps) && pos <= |buf|
    requires forall j :: 0 <= j < p0 ==> buf'[j] == buf[j]
    requires forall j :: p0 <= j < pos ==> buf'[j] == Bytes(p)[j - p0]
    ensures Copied(buf', pos, t + [p], ps)
  {
    JoinedNext(t, ps, p);
    hide Joined, Bytes, Offset;
  }

  lemma OffsetNext(ps: int, k: int)
    ensures Offset(ps, k + 1) == Offset(ps, k) + PayloadBytes(ps) && Offset(ps, 1) == 0
  {
  }

  lemma JoinedNext(t: seq<Packet>, ps: int, p: Packet)
    requires Sized(t, ps) && |p| == ps
    ensures Sized(t + [p], ps) && Joined(t + [p], ps) == Joined(t, ps) + Bytes(p)
  {
    assert (t + [p])[..|t|] == t;
  }

  /** The payloads of the packets of a message are the message. */
  lemma {:induction false} JoinedMessage(r: Route, msg: seq<int>, n: int, ps: int, k: nat)
    requires Message(msg, n) && ps > PKT_HEADER_SIZE && k <= SentCount(n, ps)
    ensures var t := Packets(r, msg, n, ps)[..k];
      Sized(t, ps) && forall i :: 0 <= i < |Joined(t, ps)| && i < n ==> Joined(t, ps)[i] == msg[i]
  {
    var t := Packets(r, msg, n, ps)[..k];
    if k > 0 {
      JoinedMessage(r, msg, n, ps, k - 1);
      var t0, p := Packets(r, msg, n, ps)[..k - 1], PacketFor(r, msg, n, ps, k);
      assert t == t0 + [p];
      JoinedNext(t0, ps, p);
      OffsetNonNeg(ps, k);
      hide Joined, Packets, PacketFor, SentCount, Offset;
      forall i | 0 <= i < |Joined(t, ps)| && i < n
        ensures Joined(t, ps)[i] == msg[i]
      {
        if i >= Offset(ps, k) {
          BytesAt(r, msg, n, ps, k, i - Offset(ps, k));
        }
      }
    }
  }

  lemma BytesAt(r: Route, msg: seq<int>, n: int, ps: int, k: int, j: int)
    requires Message(msg, n) && ps > PKT_HEADER_SIZE && k >= 1 && 0 <= j < PayloadBytes(ps) && Offset(ps, k) + j < n
    ensures 0 <= Offset(ps, k) + j && Bytes(PacketFor(r, msg, n, ps, k))[j] == msg[Offset(ps, k) + j]
  {
    var h := j / 2;
    assert j == 2 * h + j % 2;
    WordBytes(r, msg, n, ps, k, PKT_HEADER_SIZE + h);
  }

  /** Lines 318-328 and 352-360: the sequence number of the packet taken last is
      checked and its payload copied. */
  method Unpack(p: Packet, buf: array<int>, p0: int, size: int, last: bool, seqNo: int, error0: int, ghost taken: seq<Packet>)
    returns (pos: int, error: int)
    requires |p| > PKT_HEADER_SIZE && 0 <= size && size + size % 2 <= buf.Length
    requires taken != [] && taken[|taken| - 1] == p && seqNo == |taken|
    requires p0 == Offset(|p|, |taken|) && Copied(buf[..], p0, taken[..|taken| - 1], |p|)
    requires error0 == if Numbered(taken[..|taken| - 1]) then ERR_OK else ERR_SEQ_ERROR
    requires if last then p0 <= size <= p0 + PayloadBytes(|p|) else p0 + PayloadBytes(|p|) <= size
    modifies buf
    ensures pos == if last then size + size % 2 else p0 + PayloadBytes(|p|)
    ensures Copied(buf[..], pos, taken, |p|)
    ensures error == if Numbered(taken) then ERR_OK else ERR_SEQ_ERROR
  {
    hide Copied;
    NumberedNext(taken, |taken|);
    assert taken[..|taken| - 1] + [p] == taken[..|taken|] == taken;
    error := error0;
    if p[PKT_SEQ] != seqNo { error := ERR_SEQ_ERROR; }
    ghost var was, t := buf[..], taken[..|taken| - 1];
    OffsetEven(|p|, |taken|, 0);
    CopiedLength(was, p0, t, |p|);
    pos := CopyPayload(p, buf, p0, size, last);
    CopiedMore(was, buf[..], p0, pos, t, p, |p|);
  }

  /** What the error of hf_recv tells: the sequence numbers, but not the channel. */
  ghost predicate Numbered(taken: seq<Packet>) {
    forall k :: 0 <= k < |taken| ==> |taken[k]| > PKT_HEADER_SIZE && taken[k][PKT_SEQ] == k + 1
  }

  lemma NumberedNext(taken: seq<Packet>, k: nat)
    requires 1 <= k <= |taken| && |taken[k - 1]| > PKT_HEADER_SIZE
    ensures Numbered(taken[..k]) <==> Numbered(taken[..k - 1]) && taken[k - 1][PKT_SEQ] == k
  {
    assert taken[..k] == taken[..k - 1] + [taken[k - 1]];
  }

  lemma NothingCopied(buf: seq<int>, size: int, ps: int)
    requires 0 <= size <= MAX_MESSAGE && ps > PKT_HEADER_SIZE
    ensures Copied(buf, 0, [], ps) && Offset(ps, 1) == 0 && Numbered([])
    ensures 1 <= SentCount(size, ps) <= 0x8000
    ensures SentCount(size, ps) == if PacketCount(size, ps) == 0 then 1 else PacketCount(size, ps)
  {
    CountBounds(size, ps);
    CountSmall(size, ps);
  }

  // ----- what a call does -----

  /** How hf_recv ends. */
  datatype End = Returned | Hangs

  datatype Result = Result(end: End, error: int, sourceCpu: int, sourcePort: int, size: int)

  /** The packets that came in, those that hf_recv took out in order, and the
      world at the start of each of its waits. */
  datatype Trace = Trace(traffic: Traffic, taken: seq<Packet>, waits: seq<World>)

  /** A packet of ps flits; the buffer is large enough for a message that starts
      with it. */
  ghost predicate Expected(p: Packet, ps: int, channel: int, length: int) {
    && |p| == ps
    && (Matches(p, channel, 1) ==> 0 <= p[PKT_MSG_SIZE] <= MAX_MESSAGE && p[PKT_MSG_SIZE] + p[PKT_MSG_SIZE] % 2 <= length)
  }

  /** The packets taken are the wanted ones. */
  ghost predicate InSequence(taken: seq<Packet>, channel: int) {
    forall k :: 0 <= k < |taken| ==> Matches(taken[k], channel, k + 1)
  }

  /** The next packets to come are those of one message, in order. */
  ghost predicate InOrder(ahead: seq<Packet>, channel: int, ps: int) {
    && ps > PKT_HEADER_SIZE && ahead != [] && Matches(ahead[0], channel, 1) && 0 <= ahead[0][PKT_MSG_SIZE]
    && SentCount(ahead[0][PKT_MSG_SIZE], ps) <= |ahead|
    && InSequence(ahead[..SentCount(ahead[0][PKT_MSG_SIZE], ps)], channel)
  }

  /** The wanted packet is there when a wait starts, or comes within so many
      moments that the cap on turns is not reached. */
  ghost predicate Timely(w: World, channel: int, s: int, slots: nat) {
    FirstMatch(Due(w, 14 * slots), channel, s) < |Due(w, 14 * slots)|
  }

  /** Where hf_recv waits for ever: nothing more arrives, and the first packet is
      not in the queue, or later packets are missing and the queue is empty. */
  ghost predicate Stuck(w: World, channel: int, ps: int, taken: seq<Packet>) {
    && w.net == []
    && if taken == [] then forall i :: 0 <= i < |w.inbox| ==> !Matches(w.inbox[i], channel, 1)
       else w.inbox == [] && First(taken, channel, ps) && |taken| < SentCount(taken[0][PKT_MSG_SIZE], ps)
  }

  ghost predicate First(taken: seq<Packet>, channel: int, ps: int) {
    Sized(taken, ps) && taken != [] && Matches(taken[0], channel, 1) && 0 <= taken[0][PKT_MSG_SIZE]
  }

  /** The results agree with the packets taken. */
  ghost predicate Unpacked(r: Result, taken: seq<Packet>, buf: seq<int>, channel: int, ps: int) {
    && First(taken, channel, ps)
    && r.size == taken[0][PKT_MSG_SIZE] && |taken| == SentCount(r.size, ps)
    && r.sourceCpu == taken[0][PKT_SOURCE_CPU] && r.sourcePort == taken[0][PKT_SOURCE_PORT]
    && r.error == (if Numbered(taken) then ERR_OK else ERR_SEQ_ERROR)
    && Copied(buf, r.size + r.size % 2, taken, ps)
  }

  /** Each wait started in a world that the call came to, and if no packet of the
      channel was dropped it found a packet that came in time. */
  ghost predicate Waited(w: World, t: Trace, channel: int, slots: nat) {
    forall k :: 0 <= k < |t.waits| ==> WaitedAt(w, t, channel, slots, k)
  }

  ghost predicate WaitedAt(w: World, t: Trace, channel: int, slots: nat, k: nat)
    requires k < |t.waits|
  {
    && k <= |t.taken| && |t.waits[k].net| <= |w.net|
    && StillComing(w, t.waits[k], t.traffic.dropped, t.taken[..k])
    && (Spared(t.traffic.dropped, channel) && Timely(t.waits[k], channel, k + 1, slots) ==>
          k < |t.taken| && Matches(t.taken[k], channel, k + 1))
  }

  /** What hf_recv does between the worlds w and w'. */
  ghost predicate Received(w: World, w': World, r: Result, t: Trace, buf: seq<int>, channel: int, ps: int, slots: nat) {
    && Traced(w, w', t, channel, ps, slots)
    && (r.end == Hangs ==> Stuck(w', channel, ps, t.taken) && |t.waits| == |t.taken| + 1 && !Smooth(w, t, channel, ps))
    && (r.end == Returned ==> Unpacked(r, t.taken, buf, channel, ps) && |t.waits| == |t.taken|)
  }

  /** Where the packets are between w and w', and what the waits found. */
  ghost predicate Traced(w: World, w': World, t: Trace, channel: int, ps: int, slots: nat) {
    && Gathered(w, w', t.traffic, t.taken) && Waited(w, t, channel, slots)
    && (Smooth(w, t, channel, ps) ==> Passed(w, w', t.taken))
  }

  /** The message comes in order, and nothing is dropped. */
  ghost predicate Smooth(w: World, t: Trace, channel: int, ps: int) {
    t.traffic.dropped == [] && InOrder(Ahead(w), channel, ps)
  }

  /** The packets taken were the next ones, and the others are as they were. */
  ghost predicate Passed(w: World, w': World, taken: seq<Packet>) {
    Ahead(w) == taken + Ahead(w')
  }

  class Receiver {
    const slots: nat               // NOC_PACKET_SLOTS
    const mem: array<Packet>       // what the buffers hold
    const pool: Queue<nat>         // the free buffers
    const tq: Queue<nat>           // the receive queue of the task
    ghost const buffers: set<nat>
    var net: seq<seq<Packet>>      // what arrives at each moment from now on
    ghost var free: seq<nat>
    ghost var waiting: seq<nat>
    ghost var hand: seq<nat>       // the buffer that hf_recv has taken

    /** The ghost fields are the contents of the queues. */
    ghost predicate Linked()
      reads `free, `waiting, pool, pool.data, tq, tq.data
    {
      && pool != tq && pool.data != tq.data
      && pool.Valid() && tq.Valid() && pool.size == slots + 1
      && free == pool.Contents() && waiting == tq.Contents()
    }

    ghost predicate Valid()
      reads `free, `waiting, `hand, pool, pool.data, tq, tq.data
    {
      Linked() && Kept(buffers, mem.Length, waiting, free, hand) && |buffers| <= slots
    }

    lemma Fits()
      requires Linked()
      ensures |waiting| <= tq.size - 1 && |free| <= slots
    {
    }

    ghost function Inbox(): (s: seq<Packet>)
      reads `waiting, mem
      ensures |s| == |waiting|
    {
      Loaded(mem[..], waiting)
    }

    /** How many packets can arrive before one is dropped. */
    ghost function Room(): int
      reads `waiting, `free
    {
      if |free| < tq.size - 1 - |waiting| then |free| else tq.size - 1 - |waiting|
    }

    /** ni_init: all buffers are free. `size` is the limit of the receive queue. */
    constructor (slots: nat, size: nat, net: seq<seq<Packet>>)
      ensures Valid() && fresh(pool) && fresh(pool.data) && fresh(tq) && fresh(tq.data) && fresh(mem)
      ensures this.net == net && this.slots == slots && tq.size == size + 1
      ensures waiting == hand == [] && free == Numbers(slots)
    {
      hide Kept;
      this.net, this.slots, this.buffers := net, slots, Members(Numbers(slots));
      mem := new Packet[slots];
      pool := new Queue<nat>(slots);
      tq := new Queue<nat>(size);
      free, waiting, hand := [], [], [];
      AllFree(slots);
      new;
      assert Linked();
      hide Linked;
      FillPool();
    }

    method FillPool()
      requires Linked() && free == []
      modifies `free, pool, pool.data
      ensures Linked() && free == Numbers(slots)
    {
      hide Linked;
      var i := 0;
      while i < slots
        invariant 0 <= i <= slots && Linked() && free == Numbers(i)
      {
        PoolTail(i);
        i := i + 1;
      }
    }

    method PoolHead() returns (e: Option<nat>)
      requires Linked()
      modifies `free, pool
      ensures Linked()
      ensures old(free) == [] ==> e == None && free == []
      ensures old(free) != [] ==> e == Some(old(free)[0]) && free == old(free)[1..]
    {
      e := pool.RemHead();
      free := if e == None then [] else free[1..];
    }

    method PoolTail(b: nat)
      requires Linked() && |free| < slots
      modifies `free, pool, pool.data
      ensures Linked() && free == old(free) + [b]
    {
      var r := pool.AddTail(b);
      assert r == QUEUE_OK;
      free := free + [b];
    }

    method InboxHead() returns (b: nat)
      requires Linked() && waiting != []
      modifies `waiting, tq
      ensures Linked() && b == old(waiting)[0] && waiting == old(waiting)[1..]
    {
      var e := tq.RemHead();
      b := e.value;
      waiting := waiting[1..];
    }

    method InboxTail(b: nat) returns (r: int)
      requires Linked()
      modifies `waiting, tq, tq.data
      ensures Linked() && r == (if |old(waiting)| < tq.size - 1 then QUEUE_OK else QUEUE_ERROR)
      ensures waiting == if r == QUEUE_OK then old(waiting) + [b] else old(waiting)
    {
      r := tq.AddTail(b);
      waiting := if r == QUEUE_OK then waiting + [b] else waiting;
    }

    /** ni_isr, for a well formed packet to the port of this task. */
    method Isr(p: Packet) returns (ghost t: Traffic)
      requires Valid()
      modifies `waiting, `free, mem, pool, pool.data, tq, tq.data
      ensures Valid() && t == (if old(Room()) > 0 then Traffic([p], []) else Traffic([], [p]))
      ensures Inbox() == old(Inbox()) + t.got
      ensures |free| == old(|free|) - |t.got| && |waiting| == old(|waiting|) + |t.got|
      ensures forall h :: h in hand && h < mem.Length ==> mem[h] == old(mem[h])
    {
      hide Loaded, Kept, Linked;
      KeptApart(buffers, mem.Length, waiting, free, hand);
      if free != [] { KeptMoved(buffers, mem.Length, waiting, free, hand); }
      t := Traffic([], [p]);
      ghost var m := mem[..];
      var e := PoolHead();
      if e.Some? {
        LoadedKept(m, waiting, e.value, p);
        mem[e.value] := p;
        assert mem[..] == m[e.value := p];
        var r := InboxTail(e.value);
        if r != QUEUE_OK {
          PoolTail(e.value);
        } else {
          t := Traffic([p], []);
        }
      }
    }

    ghost function Now(): World
      reads `waiting, `free, `net, mem
    {
      World(Inbox(), net, Room())
    }

    /** The packet that hf_recv works on stays as it is while others arrive. */
    twostate predicate HandKept()
      reads this, mem
    {
      hand == old(hand) && forall h :: h in hand && h < mem.Length ==> mem[h] == old(mem[h])
    }

    /** A moment with interrupts enabled. */
    method Arrive() returns (ghost t: Traffic)
      requires Valid()
      modifies `waiting, `free, `net, mem, pool, pool.data, tq, tq.data
      ensures Valid() && Arrived(old(Now()), Now(), t) && HandKept()
    {
      hide Kept, Linked, Loaded;
      t := QUIET;
      if net == [] { return; }
      var batch := net[0];
      net := net[1..];
      t := ArriveAll(batch);
    }

    method ArriveAll(batch: seq<Packet>) returns (ghost t: Traffic)
      requires Valid()
      modifies `waiting, `free, mem, pool, pool.data, tq, tq.data
      ensures Valid() && HandKept()
      ensures Inbox() == old(Inbox()) + t.got && Room() == old(Room()) - |t.got|
      ensures t.got + t.dropped == batch && (t.dropped != [] ==> Room() <= 0)
    {
      hide Valid, Loaded;
      t := QUIET;
      var i := 0;
      while i < |batch|
        invariant 0 <= i <= |batch| && Valid() && HandKept()
        invariant Inbox() == old(Inbox()) + t.got && Room() == old(Room()) - |t.got|
        invariant t.got + t.dropped == batch[..i] && (t.dropped != [] ==> Room() <= 0)
      {
        ghost var u := Isr(batch[i]);
        assert t.got + u.got + (t.dropped + u.dropped) == batch[..i + 1];
        t := Plus(t, u);
        i := i + 1;
      }
    }

    method Count() returns (n: int)
      requires Valid()
      ensures n == |waiting|
    {
      n := tq.Count();
    }

    method Head() returns (p: Packet)
      requires Valid() && waiting != []
      ensures p == Inbox()[0]
    {
      KeptApart(buffers, mem.Length, waiting, free, hand);
      var e := tq.Get(0);
      assert e.value in waiting;
      p := mem[e.value];
    }

    /** remhead and addtail on the receive queue. */
    method Turn()
      requires Valid() && waiting != []
      modifies `waiting, tq, tq.data
      ensures Valid() && Turned(old(Now()), Now())
    {
      hide Kept, Linked;
      Fits();
      KeptTurned(buffers, mem.Length, waiting, free, hand);
      var b := InboxHead();
      var r := InboxTail(b);
    }

    method TakeHead() returns (b: nat)
      requires Valid() && waiting != [] && hand == []
      modifies `waiting, `hand, tq
      ensures Valid() && hand == [b] && b < mem.Length && mem[b] == old(Inbox())[0]
      ensures Inbox() == old(Inbox())[1..] && Room() >= old(Room())
    {
      hide Kept, Linked;
      KeptApart(buffers, mem.Length, waiting, free, hand);
      KeptTaken(buffers, mem.Length, waiting, free);
      assert waiting[0] in waiting;
      b := InboxHead();
      hand := [b];
    }

    /** The result of the addtail is ignored; it cannot fail. */
    method GiveBack(b: nat)
      requires Valid() && hand == [b]
      modifies `free, `hand, pool, pool.data
      ensures Valid() && hand == [] && Inbox() == old(Inbox()) && Room() >= old(Room())
    {
      hide Kept, Linked;
      KeptApart(buffers, mem.Length, waiting, free, hand);
      KeptGiven(buffers, mem.Length, waiting, free, b);
      PoolTail(b);
      hand := [];
    }

    lemma InboxFits()
      requires Valid()
      ensures |waiting| <= slots
    {
      KeptApart(buffers, mem.Length, waiting, free, hand);
    }

    /** The body of both waiting loops: is the wanted packet at the head of the
        queue? If not, the queue is turned, unless it is empty. `near` says that
        the packet comes in sight of the cap. */
    method Look(channel: int, want: int, ghost near: bool, ghost i: int, ghost c: int, ghost total: int)
      returns (found: bool, turned: bool, ghost t: Traffic)
      requires Valid()
      requires near ==> Near(Now(), channel, want, i, 0, c, total, slots)
      modifies `waiting, `free, `net, mem, pool, pool.data, tq, tq.data
      ensures Valid() && Looked(old(Now()), Now(), channel, want, found, turned, t)
      ensures near && Spared(t.dropped, channel) && !found ==>
        && (turned ==> 2 * (i + 1) <= total + 2 * slots)
        && Near(Now(), channel, want, if turned then i + 1 else i, 0, c + |old(net)| - |net|, total, slots)
    {
      hide Valid, Loaded, FirstMatch, Matches, Turned, Near, Looked, Spared;
      ghost var w0 := Now();
      t := Arrive();
      InboxFits();
      ghost var w1 := Now();
      var k := Count();
      if k == 0 {
        if near && Spared(t.dropped, channel) { NearWaits(w0, w1, t, channel, want, i, c, total, slots); }
        LookedEmpty(w0, w1, channel, want, t);
        return false, false, t;
      }
      var p := Head();
      if Matches(p, channel, want) {
        LookedFound(w0, w1, channel, want, t);
        return true, false, t;
      }
      ghost var u := Arrive();
      InboxFits();
      ghost var w2 := Now();
      Turn();
      LookedTurned(w0, w1, w2, Now(), channel, want, t, u);
      if near && Spared(Plus(t, u).dropped, channel) {
        NearLooked(w0, w1, w2, Now(), channel, want, t, u, i, c, total, slots);
      }
      return false, true, Plus(t, u);
    }

    /** No such packet is in the queue. The source does not ask; the model does,
        to see that a wait will not end. */
    method Absent(channel: int, want: int) returns (b: bool)
      requires Valid()
      ensures b <==> FirstMatch(Inbox(), channel, want) == |Inbox()|
    {
      hide Kept, FirstMatch, Matches;
      KeptApart(buffers, mem.Length, waiting, free, hand);
      var i := 0;
      var n := tq.Count();
      while i < n
        invariant 0 <= i <= n == |waiting|
        invariant forall j :: 0 <= j < i ==> !Matches(Inbox()[j], channel, want)
      {
        var e := tq.Get(i);
        assert e.value == waiting[i] && waiting[i] in waiting;
        if Matches(mem[e.value], channel, want) {
          assert Matches(Inbox()[i], channel, want);
          return false;
        }
        i := i + 1;
      }
      return true;
    }

    /** Lines 295-307: wait for the first packet of a message. The source turns
        the queue for ever if the packet does not come. */
    method WaitFirst(channel: int, want: int) returns (end: End, ghost t: Traffic)
      requires Valid()
      modifies `waiting, `free, `net, mem, pool, pool.data, tq, tq.data
      ensures Valid() && Fed(old(Now()), Now(), t)
      ensures end == Returned ==> waiting != [] && Matches(Inbox()[0], channel, want)
      ensures end == Hangs ==> net == [] && forall i :: 0 <= i < |Inbox()| ==> !Matches(Inbox()[i], channel, want)
      ensures t.dropped == [] && Next(old(Now()), channel, want) ==> end == Returned && Ahead(Now()) == Ahead(old(Now()))
    {
      hide Valid, Loaded, FirstMatch, Matches, Fed, Ahead;
      t := QUIET;
      ghost var start := Now();
      FedNothing(start);
      while true
        invariant Valid() && Fed(start, Now(), t)
        invariant t.dropped == [] && Next(start, channel, want) ==> Ahead(Now()) == Ahead(start)
        decreases |net|, FirstMatch(Inbox(), channel, want)
      {
        ghost var before := Now();
        var found, turned;
        ghost var u;
        found, turned, u := Look(channel, want, false, 0, 0, 0);
        FedMore(start, before, Now(), t, u);
        t := Plus(t, u);
        if found { return Returned, t; }
        if net == [] {
          AheadInbox(Now(), channel, want);
          var absent := Absent(channel, want);
          if absent { return Hangs, t; }
        }
      }
    }

    /** Lines 333-347: wait for a later packet. The source gives up after a
        number of turns and takes what is at the head then; it never gives up on
        a packet that comes within 14 * slots moments. On an empty queue it waits
        for ever. */
    method WaitNext(channel: int, want: int) returns (end: End, ghost t: Traffic)
      requires Valid()
      modifies `waiting, `free, `net, mem, pool, pool.data, tq, tq.data
      ensures Valid() && Fed(old(Now()), Now(), t)
      ensures end == Returned ==> waiting != []
      ensures end == Hangs ==> net == [] && waiting == []
      ensures Spared(t.dropped, channel) && Timely(old(Now()), channel, want, slots) ==>
        end == Returned && Matches(Inbox()[0], channel, want)
      ensures t.dropped == [] && Next(old(Now()), channel, want) ==> end == Returned && Ahead(Now()) == Ahead(old(Now()))
    {
      hide Valid, Loaded, FirstMatch, Matches, Fed, Near, Spared, Ahead;
      t := QUIET;
      ghost var start, total := Now(), 14 * slots;
      FedNothing(start);
      InboxFits();
      ghost var near := Timely(start, channel, want, slots);
      if near { NearStart(start, channel, want, total, slots); }
      NoneSpared(channel);
      var i := 0;
      while true
        invariant Valid() && Fed(start, Now(), t) && 0 <= i <= 8 * slots + 1
        invariant near && Spared(t.dropped, channel) ==> Near(Now(), channel, want, i, 0, |start.net| - |net|, total, slots)
        invariant t.dropped == [] && Next(start, channel, want) ==> Ahead(Now()) == Ahead(start)
        decreases |net|, 8 * slots + 2 - i
      {
        ghost var before := Now();
        ghost var close := near && Spared(t.dropped, channel);
        var found, turned;
        ghost var u;
        found, turned, u := Look(channel, want, close, i, |start.net| - |net|, total);
        FedMore(start, before, Now(), t, u);
        SparedParts(t.dropped, u.dropped, channel);
        t := Plus(t, u);
        if found { return Returned, t; }
        if close && Spared(u.dropped, channel) {
          NearInbox(Now(), channel, want, if turned then i + 1 else i, |start.net| - |net|, total, slots);
        }
        if turned {
          if i > slots * 8 { return Returned, t; }
          i := i + 1;
        } else if net == [] {
          AheadInbox(Now(), channel, want);
          return Hangs, t;
        }
      }
    }

    /** remhead of the packet that a wait found. */
    method Take(ghost start: World, ghost t: Traffic, ghost taken: seq<Packet>)
      returns (b: nat, ghost u: Traffic, ghost p: Packet)
      requires Valid() && waiting != [] && hand == [] && Gathered(start, Now(), t, taken)
      modifies `waiting, `free, `net, `hand, mem, pool, pool.data, tq, tq.data
      ensures Valid() && hand == [b] && b < mem.Length && mem[b] == p == old(Inbox())[0]
      ensures Gathered(start, Now(), Plus(t, u), taken + [p])
      ensures u.dropped == [] ==> Ahead(old(Now())) == [p] + Ahead(Now())
    {
      hide Valid, Loaded, Gathered, Fed, Flat;
      ghost var w0 := Now();
      u := Arrive();
      ghost var w1 := Now();
      ArrivedFed(w0, w1, u);
      GatheredFed(start, w0, w1, t, u, taken);
      if u.dropped == [] { ArrivedAhead(w0, w1, u); }
      p := Inbox()[0];
      b := TakeHead();
      assert w1.inbox == [p] + Inbox();
      GatheredTaken(start, w1, Now(), Plus(t, u), taken);
    }

    /** addtail of a packet that was copied. */
    method Release(b: nat, ghost start: World, ghost t: Traffic, ghost taken: seq<Packet>) returns (ghost u: Traffic)
      requires Valid() && hand == [b] && Gathered(start, Now(), t, taken)
      modifies `waiting, `free, `net, `hand, mem, pool, pool.data, tq, tq.data
      ensures Valid() && hand == [] && Gathered(start, Now(), Plus(t, u), taken)
      ensures u.dropped == [] ==> Ahead(Now()) == Ahead(old(Now()))
    {
      hide Valid, Loaded, Gathered, Fed, Flat;
      ghost var w0 := Now();
      u := Arrive();
      ghost var w1 := Now();
      ArrivedFed(w0, w1, u);
      GatheredFed(start, w0, w1, t, u, taken);
      if u.dropped == [] { ArrivedAhead(w0, w1, u); }
      GiveBack(b);
      GatheredFreed(start, w1, Now(), Plus(t, u), taken);
    }

    /** Lines 295-311: the first packet of a message. */
    method FetchFirst(channel: int) returns (end: End, b: nat, ghost t: Traffic, ghost p: Packet)
      requires Valid() && hand == []
      modifies `waiting, `free, `net, `hand, mem, pool, pool.data, tq, tq.data
      ensures Valid()
      ensures end == Returned ==> hand == [b] && b < mem.Length && mem[b] == p && Matches(p, channel, 1)
      ensures end == Returned ==> Gathered(old(Now()), Now(), t, [p])
      ensures end == Hangs ==> hand == [] && Gathered(old(Now()), Now(), t, [])
      ensures end == Hangs ==> net == [] && forall i :: 0 <= i < |Inbox()| ==> !Matches(Inbox()[i], channel, 1)
      ensures Spared(t.dropped, channel) && Timely(old(Now()), channel, 1, slots) ==> end == Returned
      ensures t.dropped == [] && Next(old(Now()), channel, 1) ==> end == Returned && Ahead(old(Now())) == [p] + Ahead(Now())
    {
      hide Valid, Loaded, Gathered, Fed, Matches, Spared, Timely, Next, Ahead;
      ghost var start := Now();
      GatheredNothing(start);
      end, t := WaitFirst(channel, 1);
      GatheredFed(start, start, Now(), QUIET, t, []);
      assert Plus(QUIET, t) == t;
      b, p := 0, [];
      if end == Hangs {
        if Spared(t.dropped, channel) && Timely(start, channel, 1, slots) { NoHang(start, Now(), t, channel, slots); }
        return;
      }
      ghost var u;
      b, u, p := Take(start, t, []);
      t := Plus(t, u);
      SparedParts(t.dropped, u.dropped, channel);
      assert [] + [p] == [p];
    }

    /** Lines 329-350: the packet is given back and the next one fetched; `at` is
        the world when the wait starts. */
    method FetchNext(b0: nat, channel: int, want: int, ghost start: World, ghost t: Traffic, ghost taken: seq<Packet>)
      returns (end: End, b: nat, ghost u: Traffic, ghost p: Packet, ghost at: World)
      requires Valid() && hand == [b0] && Gathered(start, Now(), t, taken)
      modifies `waiting, `free, `net, `hand, mem, pool, pool.data, tq, tq.data
      ensures Valid()
      ensures end == Returned ==> hand == [b] && b < mem.Length && mem[b] == p && Gathered(start, Now(), Plus(t, u), taken + [p])
      ensures end == Hangs ==> hand == [] && Gathered(start, Now(), Plus(t, u), taken) && net == [] && waiting == []
      ensures |at.net| <= |start.net| && StillComing(start, at, Plus(t, u).dropped, taken)
      ensures Spared(u.dropped, channel) && Timely(at, channel, want, slots) ==> end == Returned && Matches(p, channel, want)
      ensures u.dropped == [] && Next(old(Now()), channel, want) ==> end == Returned && Ahead(old(Now())) == [p] + Ahead(Now())
    {
      hide Valid, Loaded, Gathered, Fed, Matches, Spared, Timely, Next, Ahead, StillComing;
      ghost var before := Now();
      u := Release(b0, start, t, taken);
      at := Now();
      GatheredStill(start, at, Plus(t, u), taken);
      if u.dropped == [] { SameNext(before, at, channel, want); }
      ghost var more;
      end, more := WaitNext(channel, want);
      GatheredFed(start, at, Now(), Plus(t, u), more, taken);
      PlusMore(t, u, more);
      StillComingMore(start, at, Plus(t, u).dropped, more.dropped, taken);
      SparedParts(u.dropped, more.dropped, channel);
      u, b, p := Plus(u, more), 0, [];
      if end == Returned {
        b, more, p := Take(start, Plus(t, u), taken);
        PlusMore(t, u, more);
        StillComingMore(start, at, Plus(t, u).dropped, more.dropped, taken);
        SparedParts(u.dropped, more.dropped, channel);
        u := Plus(u, more);
      }
    }

    /** Lines 295-311, with the account of the call. */
    method Begin(channel: int, ghost ps: int) returns (end: End, id: nat, ghost t: Trace, ghost p: Packet)
      requires Valid() && hand == []
      modifies `waiting, `free, `net, `hand, mem, pool, pool.data, tq, tq.data
      ensures Valid() && Traced(old(Now()), Now(), t, channel, ps, slots) && |t.waits| == 1
      ensures end == Returned ==> hand == [id] && id < mem.Length && mem[id] == p && t.taken == [p] && Matches(p, channel, 1)
      ensures end == Hangs ==> hand == [] && t.taken == [] && Stuck(Now(), channel, ps, []) && !Smooth(old(Now()), t, channel, ps)
    {
      hide Valid, Loaded, Gathered, Matches, Waited, Spared, Timely, Next, Ahead, InOrder, Passed;
      ghost var start := Now();
      ghost var u;
      end, id, u, p := FetchFirst(channel);
      t := Trace(u, if end == Returned then [p] else [], [start]);
      FirstWaited(start, t, channel, slots);
      OrderStarts(start, Now(), channel, ps, p);
    }

    /** Lines 329-350, with the account of the call. */
    method GoOn(b: nat, channel: int, want: int, ghost start: World, ghost t0: Trace, ghost ps: int)
      returns (end: End, id: nat, ghost t: Trace, ghost p: Packet)
      requires Valid() && hand == [b] && Traced(start, Now(), t0, channel, ps, slots) && |t0.waits| == |t0.taken|
      requires First(t0.taken, channel, ps) && want == |t0.taken| + 1 <= SentCount(t0.taken[0][PKT_MSG_SIZE], ps)
      modifies `waiting, `free, `net, `hand, mem, pool, pool.data, tq, tq.data
      ensures Valid() && Traced(start, Now(), t, channel, ps, slots) && |t.waits| == |t0.waits| + 1
      ensures end == Returned ==> hand == [id] && id < mem.Length && mem[id] == p && t.taken == t0.taken + [p]
      ensures end == Hangs ==> hand == [] && t.taken == t0.taken && Stuck(Now(), channel, ps, t.taken) && !Smooth(start, t, channel, ps)
    {
      hide Valid, Loaded, Gathered, Matches, Waited, Spared, Timely, Next, Ahead, InOrder, Passed, StillComing, First, SentCount;
      ghost var before := Now();
      ghost var u, at;
      OrderGoesOn(start, before, t0.taken, channel, ps);
      end, id, u, p, at := FetchNext(b, channel, want, start, t0.traffic, t0.taken);
      WaitedTraffic(start, t0, channel, slots, u);
      SparedParts(t0.traffic.dropped, u.dropped, channel);
      t := t0.(traffic := Plus(t0.traffic, u));
      if end == Hangs {
        WaitedHangs(start, t, channel, slots, at);
        t := t.(waits := t.waits + [at]);
      } else {
        WaitedTakes(start, t, channel, slots, at, p);
        PassedOn(start, before, Now(), t.taken, p);
        t := t.(taken := t.taken + [p], waits := t.waits + [at]);
      }
    }

    method Finish(b: nat, ghost start: World, ghost t0: Trace, ghost channel: int, ghost ps: int) returns (ghost t: Trace)
      requires Valid() && hand == [b] && Traced(start, Now(), t0, channel, ps, slots)
      modifies `waiting, `free, `net, `hand, mem, pool, pool.data, tq, tq.data
      ensures Valid() && hand == [] && Traced(start, Now(), t, channel, ps, slots)
      ensures t.taken == t0.taken && t.waits == t0.waits
    {
      hide Valid, Loaded, Gathered, Waited, Ahead, InOrder, Passed;
      ghost var before := Now();
      ghost var u := Release(b, start, t0.traffic, t0.taken);
      WaitedTraffic(start, t0, channel, slots, u);
      PassedSame(start, before, Now(), t0.taken);
      t := t0.(traffic := Plus(t0.traffic, u));
    }

    /** Lines 295-364. */
    method Assemble(channel: int, buf: array<int>, ps: int) returns (r: Result, ghost t: Trace)
      requires Valid() && hand == [] && ps > PKT_HEADER_SIZE
      requires forall p :: p in Inbox() || p in Flat(net) ==> Expected(p, ps, channel, buf.Length)
      requires buf as object != pool.data && buf as object != tq.data && buf as object != mem
      requires buf as object != pool && buf as object != tq && buf as object != this
      modifies `waiting, `free, `net, `hand, mem, pool, pool.data, tq, tq.data, buf
      ensures Valid() && hand == [] && Received(old(Now()), Now(), r, t, buf[..], channel, ps, slots)
    {
      hide Valid, Loaded, PacketCount, SentCount, Offset, Copied, Flat, Numbered, Joined, Traced, Stuck, Smooth;
      ghost var start := Now();
      var payloadBytes := (ps - PKT_HEADER_SIZE) * 2;
      var end: End, id: nat;
      ghost var p;
      end, id, t, p := Begin(channel, ps);
      if end == Hangs { return Result(Hangs, ERR_OK, 0, 0, 0), t; }
      TracedFrom(start, Now(), t, channel, ps, slots, 0);
      var sourceCpu, sourcePort, size := mem[id][PKT_SOURCE_CPU], mem[id][PKT_SOURCE_PORT], mem[id][PKT_MSG_SIZE];
      var seqNo := mem[id][PKT_SEQ];
      var count := CountPackets(size, payloadBytes, ps);
      var packet, pos, error := 1, 0, ERR_OK;
      ghost var first := p;
      NothingCopied(buf[..], size, ps);
      assert t.taken[..0] == [];
      while packet < count
        invariant 1 <= packet <= SentCount(size, ps) <= 0x8000 && |t.taken| == |t.waits| == packet && seqNo == packet
        invariant Valid() && hand == [id] && id < mem.Length && mem[id] == p == t.taken[packet - 1]
        invariant Traced(start, Now(), t, channel, ps, slots) && Sized(t.taken, ps) && t.taken[0] == first
        invariant pos == Offset(ps, packet) && Copied(buf[..], pos, t.taken[..packet - 1], ps)
        invariant error == if Numbered(t.taken[..packet - 1]) then ERR_OK else ERR_SEQ_ERROR
      {
        FullPacket(size, ps, packet);
        pos, error := Unpack(mem[id], buf, pos, size, false, seqNo, error, t.taken);
        seqNo := (seqNo + 1) % 0x1_0000;
        ghost var taken := t.taken;
        end, id, t, p := GoOn(id, channel, seqNo, start, t, ps);
        if end == Hangs { return Result(Hangs, error, sourceCpu, sourcePort, size), t; }
        assert t.taken[..packet] == taken;
        TracedFrom(start, Now(), t, channel, ps, slots, packet);
        packet := packet + 1;
      }
      LastPacket(size, ps, packet);
      pos, error := Unpack(mem[id], buf, pos, size, true, seqNo, error, t.taken);
      t := Finish(id, start, t, channel, ps);
      r := Result(Returned, error, sourceCpu, sourcePort, size);
    }

    /** hf_recv. In the queue and on the way are packets of ps flits, and the
        buffer is large enough for any message that starts. `queued` says whether
        the task has a receive queue. */
    method HfRecv(queued: bool, channel: int, buf: array<int>, ps: int) returns (r: Result, ghost t: Trace)
      requires Valid() && hand == [] && ps > PKT_HEADER_SIZE
      requires forall p :: p in Inbox() || p in Flat(net) ==> Expected(p, ps, channel, buf.Length)
      requires buf as object != pool.data && buf as object != tq.data && buf as object != mem
      requires buf as object != pool && buf as object != tq && buf as object != this
      modifies `waiting, `free, `net, `hand, mem, pool, pool.data, tq, tq.data, buf
      ensures Valid() && hand == []
      ensures queued ==> Received(old(Now()), Now(), r, t, buf[..], channel, ps, slots)
      ensures !queued ==> r.end == Returned && r.error == ERR_COMM_UNFEASIBLE && buf[..] == old(buf[..]) && Now() == old(Now())
    {
      if !queued { return Result(Returned, ERR_COMM_UNFEASIBLE, 0, 0, 0), Trace(QUIET, [], []); }
      hide Received;
      r, t := Assemble(channel, buf, ps);
    }
  }

  lemma TracedFrom(w: World, w': World, t: Trace, channel: int, ps: int, slots: nat, k: nat)
    requires Traced(w, w', t, channel, ps, slots) && k < |t.taken|
    ensures t.taken[k] in w.inbox || t.taken[k] in Flat(w.net)
  {
    hide Flat, Gathered, Waited, Smooth;
    TakenFrom(w, w', t.traffic, t.taken, k);
  }

  lemma FirstWaited(w: World, t: Trace, channel: int, slots: nat)
    requires t.waits == [w] && |t.taken| <= 1 && (t.taken != [] ==> Matches(t.taken[0], channel, 1))
    requires Spared(t.traffic.dropped, channel) && Timely(w, channel, 1, slots) ==> t.taken != []
    ensures Waited(w, t, channel, slots)
  {
    hide Due;
    assert WaitedAt(w, t, channel, slots, 0);
  }

  lemma WaitedTraffic(w: World, t: Trace, channel: int, slots: nat, u: Traffic)
    requires Waited(w, t, channel, slots)
    ensures Waited(w, t.(traffic := Plus(t.traffic, u)), channel, slots)
  {
    hide StillComing, Spared, Timely, Matches;
    SparedParts(t.traffic.dropped, u.dropped, channel);
    forall k | 0 <= k < |t.waits|
      ensures WaitedAt(w, t.(traffic := Plus(t.traffic, u)), channel, slots, k)
    {
      assert WaitedAt(w, t, channel, slots, k);
      StillComingMore(w, t.waits[k], t.traffic.dropped, u.dropped, t.taken[..k]);
    }
  }

  lemma WaitedTakes(w: World, t: Trace, channel: int, slots: nat, at: World, p: Packet)
    requires Waited(w, t, channel, slots) && |t.waits| == |t.taken| && |at.net| <= |w.net|
    requires StillComing(w, at, t.traffic.dropped, t.taken)
    requires Spared(t.traffic.dropped, channel) && Timely(at, channel, |t.taken| + 1, slots) ==> Matches(p, channel, |t.taken| + 1)
    ensures Waited(w, t.(taken := t.taken + [p], waits := t.waits + [at]), channel, slots)
  {
    hide StillComing, Spared, Timely, Matches;
    var t' := t.(taken := t.taken + [p], waits := t.waits + [at]);
    forall k | 0 <= k < |t'.waits|
      ensures WaitedAt(w, t', channel, slots, k)
    {
      assert t'.taken[..k] == t.taken[..k];
      if k < |t.waits| { assert WaitedAt(w, t, channel, slots, k); } else { assert t.taken[..k] == t.taken; }
    }
  }

  lemma WaitedHangs(w: World, t: Trace, channel: int, slots: nat, at: World)
    requires Waited(w, t, channel, slots) && |t.waits| == |t.taken| && |at.net| <= |w.net|
    requires StillComing(w, at, t.traffic.dropped, t.taken)
    requires !(Spared(t.traffic.dropped, channel) && Timely(at, channel, |t.taken| + 1, slots))
    ensures Waited(w, t.(waits := t.waits + [at]), channel, slots)
  {
    hide StillComing, Spared, Timely, Matches;
    var t' := t.(waits := t.waits + [at]);
    forall k | 0 <= k < |t'.waits|
      ensures WaitedAt(w, t', channel, slots, k)
    {
      if k < |t.waits| { assert WaitedAt(w, t, channel, slots, k); } else { assert t.taken[..k] == t.taken; }
    }
  }

  /** Packets that come in order: the first one is taken, */
  lemma OrderStarts(w: World, w': World, channel: int, ps: int, p: Packet)
    ensures InOrder(Ahead(w), channel, ps) ==> Next(w, channel, 1)
    ensures Ahead(w) == [p] + Ahead(w') ==> Passed(w, w', [p])
  {
  }

  /** the next one is the wanted one, */
  lemma OrderGoesOn(w: World, w': World, taken: seq<Packet>, channel: int, ps: int)
    requires First(taken, channel, ps) && |taken| < SentCount(taken[0][PKT_MSG_SIZE], ps)
    ensures InOrder(Ahead(w), channel, ps) && Passed(w, w', taken) ==> Next(w', channel, |taken| + 1)
  {
    hide Ahead, SentCount;
    if InOrder(Ahead(w), channel, ps) && Passed(w, w', taken) {
      var a, n := Ahead(w), SentCount(taken[0][PKT_MSG_SIZE], ps);
      assert a[0] == taken[0];
      assert a[..n][|taken|] == a[|taken|] == Ahead(w')[0];
    }
  }

  /** and it is taken. */
  lemma PassedOn(w: World, w1: World, w2: World, taken: seq<Packet>, p: Packet)
    ensures Passed(w, w1, taken) && Ahead(w1) == [p] + Ahead(w2) ==> Passed(w, w2, taken + [p])
  {
    hide Ahead;
    assert taken + ([p] + Ahead(w2)) == taken + [p] + Ahead(w2);
  }

  lemma PassedSame(w: World, w1: World, w2: World, taken: seq<Packet>)
    ensures Passed(w, w1, taken) && Ahead(w1) == Ahead(w2) ==> Passed(w, w2, taken)
  {
  }

  lemma PlusMore(a: Traffic, b: Traffic, c: Traffic)
    ensures Plus(Plus(a, b), c) == Plus(a, Plus(b, c))
    ensures Plus(Plus(a, b), c).dropped == Plus(a, b).dropped + c.dropped
  {
    assert a.got + b.got + c.got == a.got + (b.got + c.got);
    assert a.dropped + b.dropped + c.dropped == a.dropped + (b.dropped + c.dropped);
  }

  lemma SameNext(w: World, w': World, channel: int, s: int)
    requires Ahead(w) == Ahead(w')
    ensures Next(w, channel, s) <==> Next(w', channel, s)
  {
  }

  lemma GatheredStill(w: World, w': World, t: Traffic, taken: seq<Packet>)
    requires Gathered(w, w', t, taken)
    ensures |w'.net| <= |w.net| && StillComing(w, w', t.dropped, taken)
  {
  }

  /** A first packet that is due is not waited for in vain. */
  lemma NoHang(w: World, w': World, t: Traffic, channel: int, slots: nat)
    requires Gathered(w, w', t, []) && Spared(t.dropped, channel) && Timely(w, channel, 1, slots) && w'.net == []
    ensures exists i :: 0 <= i < |w'.inbox| && Matches(w'.inbox[i], channel, 1)
  {
    var q := Due(w, 14 * slots);
    hide FirstMatch, Due, Matches, Spared, Flat;
    var p := q[FirstMatch(q, channel, 1)];
    assert p in q;
    NotDropped(t.dropped, channel, 1, p);
    NothingDue(w', 14 * slots - (|w.net| - |w'.net|));
    assert p in w'.inbox;
  }
}
