/** What the waiting loops of hf_recv (drivers/noc/noc.c:295-307, 333-347) see:
    the receive queue, and the packets that ni_isr puts into it or drops at each
    moment with interrupts enabled. */
module NocWaits {
  import opened Queues
  import opened NocMessages

  predicate Matches(p: Packet, channel: int, s: int) {
    |p| > PKT_HEADER_SIZE && p[PKT_CHANNEL] == channel && p[PKT_SEQ] == s
  }

  /** Position of the first packet with this channel and sequence number, or |q|. */
  function FirstMatch(q: seq<Packet>, channel: int, s: int): (x: nat)
    ensures x <= |q| && (x < |q| ==> Matches(q[x], channel, s))
    ensures forall y :: 0 <= y < x ==> !Matches(q[y], channel, s)
  {
    if q == [] || Matches(q[0], channel, s) then 0 else 1 + FirstMatch(q[1..], channel, s)
  }

  lemma FirstMatchIs(q: seq<Packet>, channel: int, s: int, x: nat)
    requires x <= |q| && (x < |q| ==> Matches(q[x], channel, s))
    requires forall y :: 0 <= y < x ==> !Matches(q[y], channel, s)
    ensures FirstMatch(q, channel, s) == x
  {
    var z := FirstMatch(q, channel, s);
    assert !(z < x) && !(x < z);
  }

  /** What arrives at the next moments, and at the first d of them. */
  function Flat(net: seq<seq<Packet>>): seq<Packet> {
    if net == [] then [] else net[0] + Flat(net[1..])
  }

  function Prefix(net: seq<seq<Packet>>, d: int): seq<seq<Packet>> {
    if d <= 0 then [] else if d < |net| then net[..d] else net
  }

  /** What is in the queue or gets there within d moments, if nothing is dropped. */
  function Soon(inbox: seq<Packet>, net: seq<seq<Packet>>, d: int): seq<Packet> {
    inbox + Flat(Prefix(net, d))
  }

  /** A moment passes: what is due is still due. */
  lemma SoonArrives(inbox: seq<Packet>, net: seq<seq<Packet>>, d: int)
    requires net != []
    ensures var s, s' := Soon(inbox, net, d), Soon(inbox + net[0], net[1..], d - 1);
      if d > 0 then s' == s else s == inbox && s' == s + net[0]
  {
    if d > 0 {
      var p := Prefix(net, d);
      assert p[0] == net[0] && p[1..] == Prefix(net[1..], d - 1);
    }
  }

  lemma FirstMatchBefore(q: seq<Packet>, channel: int, s: int, i: nat)
    requires i < |q| && Matches(q[i], channel, s)
    ensures FirstMatch(q, channel, s) <= i
  {
  }

  lemma TurnCloser(q: seq<Packet>, channel: int, s: int)
    requires q != [] && !Matches(q[0], channel, s)
    ensures FirstMatch(Rot(q), channel, s) == if FirstMatch(q, channel, s) < |q| then FirstMatch(q, channel, s) - 1 else |q|
    ensures FirstMatch(q, channel, s) > 0
  {
    var x := FirstMatch(q, channel, s);
    hide FirstMatch, Matches;
    FirstMatchIs(Rot(q), channel, s, if x < |q| then x - 1 else |q|);
  }

  /** The head of the queue is turned away: a match in the queue comes nearer,
      one that is still to arrive stays where it is. */
  lemma MatchTurns(inbox: seq<Packet>, net: seq<seq<Packet>>, d: int, channel: int, s: int)
    requires inbox != [] && !Matches(inbox[0], channel, s)
    requires FirstMatch(Soon(inbox, net, d), channel, s) < |Soon(inbox, net, d)|
    ensures |Soon(Rot(inbox), net, d)| == |Soon(inbox, net, d)|
    ensures var x := FirstMatch(Soon(inbox, net, d), channel, s);
      && x > 0
      && FirstMatch(Soon(Rot(inbox), net, d), channel, s) == if x < |inbox| then x - 1 else x
  {
    var q, q', x := Soon(inbox, net, d), Soon(Rot(inbox), net, d), FirstMatch(Soon(inbox, net, d), channel, s);
    assert q[0] == inbox[0];
    hide FirstMatch, Matches, Prefix;
    assert forall y :: 0 <= y < |inbox| - 1 ==> q'[y] == q[y + 1];
    assert q'[|inbox| - 1] == q[0];
    assert forall y :: |inbox| <= y < |q| ==> q'[y] == q[y];
    FirstMatchIs(q', channel, s, if x < |inbox| then x - 1 else x);
  }

  // ----- one moment -----

  /** The receive queue, what arrives at each moment from now on, and how many
      packets can arrive before one is dropped. */
  datatype World = World(inbox: seq<Packet>, net: seq<seq<Packet>>, room: int)

  /** The packets that came into the queue, and those that found no free buffer
      or no room in the queue. */
  datatype Traffic = Traffic(got: seq<Packet>, dropped: seq<Packet>)

  const QUIET: Traffic := Traffic([], [])

  function Plus(a: Traffic, b: Traffic): Traffic {
    Traffic(a.got + b.got, a.dropped + b.dropped)
  }

  /** All that is to arrive fits. */
  ghost predicate Ample(w: World) {
    |Flat(w.net)| <= w.room
  }

  /** No packet of the channel is dropped. */
  ghost predicate Spared(dropped: seq<Packet>, channel: int) {
    forall p :: p in dropped && |p| > PKT_HEADER_SIZE ==> p[PKT_CHANNEL] != channel
  }

  function Due(w: World, d: int): seq<Packet> {
    Soon(w.inbox, w.net, d)
  }

  /** All that is to come, in order. */
  function Ahead(w: World): seq<Packet> {
    w.inbox + Flat(w.net)
  }

  function Batch(net: seq<seq<Packet>>): seq<Packet> {
    if net == [] then [] else net[0]
  }

  function Later(net: seq<seq<Packet>>): seq<seq<Packet>> {
    if net == [] then [] else net[1..]
  }

  /** A moment with interrupts enabled has passed. Packets are only dropped when
      there is no room at that moment. */
  ghost predicate Arrived(w: World, w': World, t: Traffic) {
    && t.got + t.dropped == Batch(w.net) && w'.net == Later(w.net)
    && w'.inbox == w.inbox + t.got && w'.room == w.room - |t.got|
    && (t.dropped != [] ==> w'.room <= 0)
  }

  ghost predicate Turned(w: World, w': World) {
    w.inbox != [] && w' == w.(inbox := Rot(w.inbox))
  }

  lemma FlatLater(net: seq<seq<Packet>>)
    ensures Flat(net) == Batch(net) + Flat(Later(net))
  {
  }

  lemma ArrivedNothing(w: World, w': World, t: Traffic)
    requires Arrived(w, w', t) && w.net == []
    ensures w' == w && t == QUIET
  {
    assert w'.inbox == w.inbox;
  }

  lemma ArrivedAmple(w: World, w': World, t: Traffic)
    requires Arrived(w, w', t) && Ample(w)
    ensures Ample(w') && t.dropped == []
  {
    FlatLater(w.net);
  }

  lemma ArrivedAhead(w: World, w': World, t: Traffic)
    requires Arrived(w, w', t) && t.dropped == []
    ensures Ahead(w') == Ahead(w)
  {
    FlatLater(w.net);
  }

  // ----- a number of moments and turns -----

  /** Packets come in or are dropped, none is doubled or forgotten, and what was
      due stays due. */
  ghost predicate Fed(w: World, w': World, t: Traffic) {
    && multiset(w'.inbox) == multiset(w.inbox) + multiset(t.got)
    && multiset(Flat(w.net)) == multiset(t.got) + multiset(t.dropped) + multiset(Flat(w'.net))
    && |w'.net| <= |w.net| && w'.room == w.room - |t.got|
    && (Ample(w) ==> Ample(w') && t.dropped == [])
    && (forall d, p :: p in Due(w, d) ==> p in t.dropped || p in Due(w', d - (|w.net| - |w'.net|)))
  }

  lemma FedNothing(w: World)
    ensures Fed(w, w, QUIET)
  {
  }

  lemma FedMore(w: World, w1: World, w2: World, t: Traffic, u: Traffic)
    requires Fed(w, w1, t) && Fed(w1, w2, u)
    ensures Fed(w, w2, Plus(t, u))
  {
    hide Due, Flat, Ample;
    forall d, p | p in Due(w, d) && p !in t.dropped + u.dropped
      ensures p in Due(w2, d - (|w.net| - |w2.net|))
    {
      assert p in Due(w1, d - (|w.net| - |w1.net|));
    }
  }

  lemma ArrivedDue(w: World, w': World, t: Traffic, d: int, p: Packet)
    requires Arrived(w, w', t) && p in Due(w, d)
    ensures p in t.dropped || p in Due(w', d - (|w.net| - |w'.net|))
  {
    if w.net == [] {
      ArrivedNothing(w, w', t);
    } else if d > 0 {
      SoonArrives(w.inbox, w.net, d);
      var rest := Flat(Prefix(w.net[1..], d - 1));
      hide Flat, Prefix;
      assert Due(w, d) == w.inbox + w.net[0] + rest;
      assert p in w.inbox || p in t.got || p in t.dropped || p in rest;
    } else {
      SoonArrives(w.inbox, w.net, d);
    }
  }

  lemma ArrivedFed(w: World, w': World, t: Traffic)
    requires Arrived(w, w', t)
    ensures Fed(w, w', t)
  {
    FlatLater(w.net);
    if Ample(w) { ArrivedAmple(w, w', t); }
    hide Due, Flat, Ample;
    forall d, p | p in Due(w, d)
      ensures p in t.dropped || p in Due(w', d - (|w.net| - |w'.net|))
    {
      ArrivedDue(w, w', t, d, p);
    }
  }

  lemma TurnedFed(w: World, w': World)
    requires Turned(w, w')
    ensures Fed(w, w', QUIET)
  {
    hide Rot, Flat;
    RotMultisetOnce(w.inbox);
    forall d, p | p in Due(w, d)
      ensures p in Due(w', d)
    {
      assert p in w.inbox <==> p in multiset(w.inbox);
      assert p in w'.inbox <==> p in multiset(w'.inbox);
    }
  }

  // ----- the cap on turns -----

  /** The packet will be in the queue when `total` moments have passed. After
      c of them, i turns and `half` moments since the last one, what is left of
      the way stays within the cap. */
  ghost predicate Near(w: World, channel: int, s: int, i: int, half: nat, c: int, total: int, slots: int) {
    var x := FirstMatch(Due(w, total - c), channel, s);
    && x < |Due(w, total - c)| && |w.inbox| <= slots
    && if x < |w.inbox| then 2 * (i + x) <= total + 2 * slots else 2 * i + half <= c <= total
  }

  lemma NothingDue(w: World, d: int)
    ensures w.net == [] || d <= 0 ==> Due(w, d) == w.inbox
    ensures |w.inbox| <= |Due(w, d)|
  {
  }

  lemma MatchStillDue(w: World, w': World, t: Traffic, d: int, channel: int, s: int)
    requires Arrived(w, w', t) && w.net != [] && Spared(t.dropped, channel)
    requires FirstMatch(Due(w, d), channel, s) < |Due(w, d)|
    ensures FirstMatch(Due(w', d - 1), channel, s) < |Due(w', d - 1)|
  {
    var p := Due(w, d)[FirstMatch(Due(w, d), channel, s)];
    hide FirstMatch, Due;
    var q' := Due(w', d - 1);
    assert p in Due(w, d);
    ArrivedDue(w, w', t, d, p);
    assert p !in t.dropped;
    var y :| 0 <= y < |q'| && q'[y] == p;
    FirstMatchBefore(q', channel, s, y);
  }

  /** A moment passes and no packet of the channel is dropped: a match in the
      queue stays where it is, and one that is still to arrive is still due. */
  lemma MatchArrives(w: World, w': World, t: Traffic, d: int, channel: int, s: int)
    requires Arrived(w, w', t) && w.net != [] && Spared(t.dropped, channel)
    requires FirstMatch(Due(w, d), channel, s) < |Due(w, d)|
    ensures var x, x' := FirstMatch(Due(w, d), channel, s), FirstMatch(Due(w', d - 1), channel, s);
      x' < |Due(w', d - 1)| && (x < |w.inbox| ==> x' == x)
  {
    hide FirstMatch, Matches, Spared;
    MatchStillDue(w, w', t, d, channel, s);
    var x, q, q' := FirstMatch(Due(w, d), channel, s), Due(w, d), Due(w', d - 1);
    if x < |w.inbox| {
      NothingDue(w', d - 1);
      assert forall z :: 0 <= z < |w.inbox| ==> q'[z] == w.inbox[z] == q[z];
      hide Soon, Arrived;
      FirstMatchIs(q', channel, s, x);
    }
  }

  lemma NearArrives(w: World, w': World, t: Traffic, channel: int, s: int, i: int, half: nat, c: int, total: int, slots: int)
    requires Arrived(w, w', t) && Spared(t.dropped, channel) && |w'.inbox| <= slots
    requires Near(w, channel, s, i, half, c, total, slots)
    ensures Near(w', channel, s, i, half + 1, c + |w.net| - |w'.net|, total, slots)
    ensures w'.net == [] ==> FirstMatch(w'.inbox, channel, s) < |w'.inbox|
  {
    hide FirstMatch, Soon, Matches, Spared;
    NothingDue(w, total - c);
    if w.net == [] {
      ArrivedNothing(w, w', t);
    } else {
      NothingDue(w', total - c - 1);
      MatchArrives(w, w', t, total - c, channel, s);
    }
  }

  lemma NearTurns(w: World, w': World, channel: int, s: int, i: int, c: int, total: int, slots: int)
    requires Turned(w, w') && !Matches(w.inbox[0], channel, s)
    requires Near(w, channel, s, i, 2, c, total, slots)
    ensures Near(w', channel, s, i + 1, 0, c, total, slots)
    ensures 2 * (i + 1) <= total + 2 * slots
  {
    hide FirstMatch, Soon, Matches;
    MatchTurns(w.inbox, w.net, total - c, channel, s);
  }

  /** A whole turn of a waiting loop. */
  lemma NearLooked(w: World, w1: World, w2: World, w': World, channel: int, s: int, t: Traffic, u: Traffic,
                   i: int, c: int, total: int, slots: int)
    requires Arrived(w, w1, t) && w1.inbox != [] && !Matches(w1.inbox[0], channel, s) && |w1.inbox| <= slots
    requires Arrived(w1, w2, u) && Turned(w2, w') && |w2.inbox| <= slots && Spared(Plus(t, u).dropped, channel)
    requires Near(w, channel, s, i, 0, c, total, slots)
    ensures 2 * (i + 1) <= total + 2 * slots
    ensures Near(w', channel, s, i + 1, 0, c + |w.net| - |w'.net|, total, slots)
  {
    hide Matches, FirstMatch, Near, Due, Spared;
    SparedParts(t.dropped, u.dropped, channel);
    NearArrives(w, w1, t, channel, s, i, 0, c, total, slots);
    NearArrives(w1, w2, u, channel, s, i, 1, c + |w.net| - |w1.net|, total, slots);
    NearTurns(w2, w', channel, s, i, c + |w.net| - |w2.net|, total, slots);
  }

  lemma NearWaits(w: World, w': World, t: Traffic, channel: int, s: int, i: int, c: int, total: int, slots: int)
    requires Arrived(w, w', t) && Spared(t.dropped, channel) && |w'.inbox| <= slots
    requires Near(w, channel, s, i, 0, c, total, slots)
    ensures Near(w', channel, s, i, 0, c + |w.net| - |w'.net|, total, slots)
  {
    NearArrives(w, w', t, channel, s, i, 0, c, total, slots);
    hide FirstMatch, Due;
  }

  lemma NearStart(w: World, channel: int, s: int, total: int, slots: int)
    requires FirstMatch(Due(w, total), channel, s) < |Due(w, total)| && |w.inbox| <= slots && 0 <= total
    ensures Near(w, channel, s, 0, 0, 0, total, slots)
  {
  }

  lemma NearInbox(w: World, channel: int, s: int, i: int, c: int, total: int, slots: int)
    requires Near(w, channel, s, i, 0, c, total, slots)
    ensures w.net != [] || w.inbox != []
  {
    NothingDue(w, total - c);
  }

  lemma SparedParts(a: seq<Packet>, b: seq<Packet>, channel: int)
    ensures Spared(a + b, channel) <==> Spared(a, channel) && Spared(b, channel)
  {
    assert forall p :: p in a || p in b <==> p in a + b;
  }

  lemma NotDropped(dropped: seq<Packet>, channel: int, s: int, p: Packet)
    requires Spared(dropped, channel) && Matches(p, channel, s)
    ensures p !in dropped
  {
  }

  lemma NoneSpared(channel: int)
    ensures Spared([], channel)
  {
  }

  // ----- one look at the queue -----

  /** The wanted packet is the next one to come at all. */
  ghost predicate Next(w: World, channel: int, s: int) {
    Ahead(w) != [] && Matches(Ahead(w)[0], channel, s)
  }

  /** When nothing more arrives, the next packet is at the head of the queue. */
  lemma AheadInbox(w: World, channel: int, s: int)
    requires w.net == []
    ensures Ahead(w) == w.inbox
    ensures Next(w, channel, s) ==> w.inbox != [] && FirstMatch(w.inbox, channel, s) == 0
  {
  }

  /** One look at the queue, between moments at which packets arrive. */
  ghost predicate Looked(w: World, w': World, channel: int, s: int, found: bool, turned: bool, t: Traffic) {
    && Fed(w, w', t) && (found ==> w'.inbox != [] && Matches(w'.inbox[0], channel, s))
    && (w.net != [] ==> |w'.net| < |w.net|)
    && (turned ==> w'.inbox != []) && (!found && !turned ==> w'.inbox == [])
    && (w.net == [] && FirstMatch(w.inbox, channel, s) < |w.inbox| && !found ==>
          w'.net == [] && FirstMatch(w'.inbox, channel, s) < FirstMatch(w.inbox, channel, s))
    && (w.net == [] && FirstMatch(w.inbox, channel, s) == |w.inbox| ==>
          w'.net == [] && FirstMatch(w'.inbox, channel, s) == |w'.inbox|)
    && (t.dropped == [] && Next(w, channel, s) ==> !turned && Ahead(w') == Ahead(w))
  }

  lemma LookedFound(w: World, w': World, channel: int, s: int, t: Traffic)
    requires Arrived(w, w', t) && w'.inbox != [] && Matches(w'.inbox[0], channel, s)
    ensures Looked(w, w', channel, s, true, false, t)
  {
    hide Fed, Matches, Ahead;
    ArrivedFed(w, w', t);
    if t.dropped == [] { ArrivedAhead(w, w', t); }
    if w.net == [] { ArrivedNothing(w, w', t); }
  }

  lemma LookedEmpty(w: World, w': World, channel: int, s: int, t: Traffic)
    requires Arrived(w, w', t) && w'.inbox == []
    ensures Looked(w, w', channel, s, false, false, t)
  {
    hide Fed, Matches, Ahead;
    ArrivedFed(w, w', t);
    if t.dropped == [] { ArrivedAhead(w, w', t); }
    if w.net == [] { ArrivedNothing(w, w', t); }
  }

  lemma LookedTurned(w: World, w1: World, w2: World, w': World, channel: int, s: int, t: Traffic, u: Traffic)
    requires Arrived(w, w1, t) && w1.inbox != [] && !Matches(w1.inbox[0], channel, s)
    requires Arrived(w1, w2, u) && Turned(w2, w')
    ensures Looked(w, w', channel, s, false, true, Plus(t, u))
  {
    hide Matches, FirstMatch, Fed;
    ArrivedFed(w, w1, t);
    ArrivedFed(w1, w2, u);
    TurnedFed(w2, w');
    FedMore(w, w1, w2, t, u);
    FedMore(w, w2, w', Plus(t, u), QUIET);
    assert Plus(Plus(t, u), QUIET) == Plus(t, u);
    TurnCloser(w2.inbox, channel, s);
    if w.net == [] {
      ArrivedNothing(w, w1, t);
      ArrivedNothing(w1, w2, u);
    }
    if t.dropped == [] {
      ArrivedAhead(w, w1, t);
      assert Ahead(w1)[0] == w1.inbox[0];
    }
  }

  // ----- a whole call -----

  /** From w to w' packets came in, and `taken` were taken out. */
  ghost predicate Gathered(w: World, w': World, t: Traffic, taken: seq<Packet>) {
    && multiset(w'.inbox) + multiset(taken) == multiset(w.inbox) + multiset(t.got)
    && multiset(Flat(w.net)) == multiset(t.got) + multiset(t.dropped) + multiset(Flat(w'.net))
    && |w'.net| <= |w.net|
    && (Ample(w) ==> Ample(w') && t.dropped == [])
    && StillComing(w, w', t.dropped, taken)
  }

  /** What was due is still due, unless it was dropped or taken. */
  ghost predicate StillComing(w: World, w': World, dropped: seq<Packet>, taken: seq<Packet>) {
    forall d, p :: p in Due(w, d) ==> p in dropped || p in taken || p in Due(w', d - (|w.net| - |w'.net|))
  }

  lemma GatheredNothing(w: World)
    ensures Gathered(w, w, QUIET, [])
  {
  }

  lemma GatheredFed(w: World, w1: World, w2: World, t: Traffic, u: Traffic, taken: seq<Packet>)
    requires Gathered(w, w1, t, taken) && Fed(w1, w2, u)
    ensures Gathered(w, w2, Plus(t, u), taken)
  {
    hide Due, Flat, Ample;
    assert multiset(w2.inbox) + multiset(taken) == multiset(w1.inbox) + multiset(taken) + multiset(u.got);
    forall d, p | p in Due(w, d) && p !in taken && p !in t.dropped + u.dropped
      ensures p in Due(w2, d - (|w.net| - |w2.net|))
    {
      assert p in Due(w1, d - (|w.net| - |w1.net|));
    }
  }

  /** The head of the queue is taken out, which may make room. */
  lemma GatheredTaken(w: World, w1: World, w2: World, t: Traffic, taken: seq<Packet>)
    requires Gathered(w, w1, t, taken) && w1.inbox != []
    requires w2.inbox == w1.inbox[1..] && w2.net == w1.net && w2.room >= w1.room
    ensures Gathered(w, w2, t, taken + [w1.inbox[0]])
  {
    hide Flat, Prefix;
    assert w1.inbox == [w1.inbox[0]] + w1.inbox[1..];
    forall d, p | p in Due(w, d) && p !in t.dropped && p !in taken + [w1.inbox[0]]
      ensures p in Due(w2, d - (|w.net| - |w2.net|))
    {
      assert p in Due(w1, d - (|w.net| - |w1.net|));
    }
  }

  /** A buffer becomes free. */
  lemma GatheredFreed(w: World, w1: World, w2: World, t: Traffic, taken: seq<Packet>)
    requires Gathered(w, w1, t, taken) && w2.inbox == w1.inbox && w2.net == w1.net && w2.room >= w1.room
    ensures Gathered(w, w2, t, taken)
  {
    hide Flat, Soon;
    forall d, p | p in Due(w, d) && p !in t.dropped && p !in taken
      ensures p in Due(w2, d - (|w.net| - |w2.net|))
    {
      assert p in Due(w1, d - (|w.net| - |w1.net|));
    }
  }

  lemma StillComingMore(w: World, w': World, dropped: seq<Packet>, more: seq<Packet>, taken: seq<Packet>)
    requires StillComing(w, w', dropped, taken)
    ensures StillComing(w, w', dropped + more, taken)
  {
    hide Due;
  }

  /** What is taken was in the queue or came in. */
  lemma TakenFrom(w: World, w': World, t: Traffic, taken: seq<Packet>, k: nat)
    requires Gathered(w, w', t, taken) && k < |taken|
    ensures taken[k] in w.inbox || taken[k] in Flat(w.net)
  {
    hide Flat, Due, StillComing, Ample;
    assert taken[k] in multiset(taken);
    assert taken[k] in multiset(w.inbox) + multiset(t.got);
    assert taken[k] in t.got ==> taken[k] in multiset(Flat(w.net));
  }
}
