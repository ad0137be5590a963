/** Conservation of the packet buffers of the network-on-chip driver
    (drivers/noc/noc.c): a step system in which the interrupt handler, the
    atomic sections of hf_recv and the single tests and stores of hf_comm_create
    and hf_comm_destroy interleave in any order. Any task may call the latter
    two for any id. */
module NocBuffers {
  import opened Queues
  import NocMessages

  /** pktdrv_tqueue[k]: NULL, a live queue, or a pointer to a destroyed one. */
  datatype TaskQueue = Null | Live(q: seq<nat>, capacity: nat) | Destroyed

  /** Where a task is in hf_comm_create or hf_comm_destroy, for task `id`. */
  datatype Call =
    | NoCall
    | Asking(id: nat, port: int, packets: nat)              // line 183
    | Searching(id: nat, port: int, packets: nat, k: nat)   // line 186, at entry k
    | Storing(id: nat, port: int, packets: nat)             // line 196
    | Deciding(id: nat, port: int)                          // line 197
    | Listing(id: nat, port: int)                           // line 200
    | Draining(id: nat)                                     // line 227
    | Testing(id: nat)                                      // the test of hf_queue_destroy
    | Freeing(id: nat)                                      // its hf_free
    | Delisting(id: nat)                                    // line 234

  /** `checked` says that a task is in hf_recv and has found its queue not empty
      since it last took a packet; after the cap on turns it takes one without
      asking again. `hand` is the buffer it has taken off. `lost`
      are the buffers that nothing points to any more. */
  datatype Net = Net(
    slots: nat,
    pool: seq<nat>,
    tq: seq<TaskQueue>,
    ports: seq<int>,
    alive: seq<bool>,
    calls: seq<Call>,
    checked: seq<bool>,
    hand: seq<Option<nat>>,
    lost: seq<nat>
  )

  datatype Event =
    | Isr(wellFormed: bool, port: int)      // a packet arrives
    | CheckQueue(id: nat)                   // hf_recv asks for the length of its queue
    | TurnQueue(id: nat)                    // remhead and addtail of hf_recv
    | TakePacket(id: nat)                   // remhead of hf_recv
    | GiveBack(id: nat)                     // addtail to the pool of hf_recv
    | BeginCreate(who: nat, id: nat, port: int, packets: nat)
    | AskQueue(who: nat)                     // has id a queue already?
    | AskPort(who: nat)                      // is this entry the port asked for?
    | StoreQueue(who: nat, memory: bool)
    | AskStored(who: nat)                   // is the queue stored there NULL?
    | StorePort(who: nat)
    | BeginDestroy(who: nat, id: nat)
    | Drain(who: nat)                        // the loop of hf_comm_destroy
    | TestQueue(who: nat)
    | FreeQueue(who: nat)
    | ClearPort(who: nat)
    | SetAlive(id: nat, alive: bool)        // hf_spawn and hf_kill

  /** addtail on the pool, whose result the driver ignores. */
  function PoolAdd(pool: seq<nat>, b: nat, slots: nat): seq<nat> {
    if |pool| < slots then pool + [b] else pool
  }

  function PoolAddAll(pool: seq<nat>, q: seq<nat>, slots: nat): seq<nat>
    decreases |q|
  {
    if q == [] then pool else PoolAddAll(PoolAdd(pool, q[0], slots), q[1..], slots)
  }

  /** The first port entry equal to `port` from k on, or |ports|. */
  function PortOwner(ports: seq<int>, port: int, k: nat): (r: nat)
    requires k <= |ports|
    ensures k <= r <= |ports|
    ensures r < |ports| ==> ports[r] == port
    ensures forall j :: k <= j < r ==> ports[j] != port
    decreases |ports| - k
  {
    if k == |ports| || ports[k] == port then k else PortOwner(ports, port, k + 1)
  }

  ghost predicate WellFormed(s: Net) {
    && |s.tq| == |s.ports| == |s.alive| == |s.calls| == |s.checked| == |s.hand|
    && forall k :: 0 <= k < |s.calls| ==> CallOk(s.calls[k], |s.tq|)
  }

  predicate CallOk(c: Call, n: nat) {
    (c != NoCall ==> c.id < n) && (c.Searching? ==> c.k < n)
  }

  /** What each statement needs in order to be executed at all: a live task that
      is at it, and a queue that was not freed. */
  ghost predicate Enabled(s: Net, e: Event) {
    && WellFormed(s)
    && match e
       case Isr(_, _) => true
       case CheckQueue(id) => id < |s.tq| && s.alive[id] && s.tq[id].Live?
       case TurnQueue(id) => id < |s.tq| && s.alive[id] && s.tq[id].Live? && s.checked[id]
       case TakePacket(id) => id < |s.tq| && s.alive[id] && s.tq[id].Live? && s.checked[id] && s.hand[id] == None
       case GiveBack(id) => id < |s.tq| && s.alive[id] && s.hand[id].Some?
       case BeginCreate(who, _, _, _) => who < |s.tq| && s.alive[who] && s.calls[who] == NoCall
       case AskQueue(who) => who < |s.tq| && s.alive[who] && s.calls[who].Asking?
       case AskPort(who) => who < |s.tq| && s.alive[who] && s.calls[who].Searching?
       case StoreQueue(who, _) => who < |s.tq| && s.alive[who] && s.calls[who].Storing?
       case AskStored(who) => who < |s.tq| && s.alive[who] && s.calls[who].Deciding?
       case StorePort(who) => who < |s.tq| && s.alive[who] && s.calls[who].Listing?
       case BeginDestroy(who, _) => who < |s.tq| && s.alive[who] && s.calls[who] == NoCall
       case Drain(who) => who < |s.tq| && s.alive[who] && s.calls[who].Draining? && s.tq[s.calls[who].id].Live?
       case TestQueue(who) => who < |s.tq| && s.alive[who] && s.calls[who].Testing? && s.tq[s.calls[who].id].Live?
       case FreeQueue(who) => who < |s.tq| && s.alive[who] && s.calls[who].Freeing? && s.tq[s.calls[who].id].Live?
       case ClearPort(who) => who < |s.tq| && s.alive[who] && s.calls[who].Delisting?
       case SetAlive(id, _) => id < |s.tq|
  }

  /** The NULL pointer, as a number that is no buffer. */
  function NullBuffer(s: Net): nat { s.slots }

  /** One turn of a task queue. From an empty queue, which another task has
      drained meanwhile, remhead gives NULL, and NULL is put on the queue. */
  function Turned(s: Net, q: seq<nat>, capacity: nat): seq<nat> {
    if q != [] then Rot(q) else if capacity > 0 then [NullBuffer(s)] else []
  }

  function Deliver(s: Net, port: int): Net
    requires WellFormed(s) && s.pool != []
  {
    var b := s.pool[0];
    var rest := s.pool[1..];
    var k := PortOwner(s.ports, port, 0);
    if k == |s.ports| || !s.alive[k] then s.(pool := PoolAdd(rest, b, s.slots))
    else match s.tq[k]
      case Null => s.(pool := rest, lost := s.lost + [b])
      case Destroyed => s.(pool := rest, lost := s.lost + [b])
      case Live(q, capacity) =>
        if |q| < capacity then s.(pool := rest, tq := s.tq[k := Live(q + [b], capacity)])
        else s.(pool := PoolAdd(rest, b, s.slots))
  }

  /** The size that hf_comm_create asks for. */
  function Limit(packets: nat, slots: nat): nat {
    if packets > slots || packets == 0 then slots else packets
  }

  function Goes(s: Net, who: nat, c: Call): Net
    requires who < |s.calls|
  {
    s.(calls := s.calls[who := c])
  }

  function Step(s: Net, e: Event): Net
    requires Enabled(s, e)
  {
    match e
    case Isr(ok, port) =>
      if s.pool == [] then s
      else if !ok then s.(pool := PoolAdd(s.pool[1..], s.pool[0], s.slots))
      else Deliver(s, port)
    case CheckQueue(id) => s.(checked := s.checked[id := s.tq[id].q != []])
    case TurnQueue(id) => s.(tq := s.tq[id := s.tq[id].(q := Turned(s, s.tq[id].q, s.tq[id].capacity))])
    case TakePacket(id) =>
      var s1 := s.(checked := s.checked[id := false]);
      if s.tq[id].q == [] then s1.(hand := s.hand[id := Some(NullBuffer(s))])
      else s1.(tq := s.tq[id := s.tq[id].(q := s.tq[id].q[1..])], hand := s.hand[id := Some(s.tq[id].q[0])])
    case GiveBack(id) => s.(pool := PoolAdd(s.pool, s.hand[id].value, s.slots), hand := s.hand[id := None])
    case BeginCreate(who, id, port, packets) =>
      if id < |s.tq| && s.alive[id] then Goes(s, who, Asking(id, port, packets)) else s
    case AskQueue(who) =>
      var c := s.calls[who];
      if s.tq[c.id] != Null then Goes(s, who, NoCall) else Goes(s, who, Searching(c.id, c.port, c.packets, 0))
    case AskPort(who) =>
      var c := s.calls[who];
      if s.ports[c.k] == c.port then Goes(s, who, NoCall)
      else if c.k + 1 < |s.tq| then Goes(s, who, c.(k := c.k + 1))
      else Goes(s, who, Storing(c.id, c.port, c.packets))
    case StoreQueue(who, memory) =>
      var c := s.calls[who];
      var t := if memory then Live([], Limit(c.packets, s.slots)) else Null;
      Goes(s, who, Deciding(c.id, c.port)).(tq := s.tq[c.id := t], lost := s.lost + QueueOf(s.tq[c.id]))
    case AskStored(who) =>
      var c := s.calls[who];
      if s.tq[c.id] == Null then Goes(s, who, NoCall) else Goes(s, who, Listing(c.id, c.port))
    case StorePort(who) => Goes(s, who, NoCall).(ports := s.ports[s.calls[who].id := s.calls[who].port])
    case BeginDestroy(who, id) => if id < |s.tq| && s.alive[id] then Goes(s, who, Draining(id)) else s
    case Drain(who) =>
      var id := s.calls[who].id;
      Goes(s, who, Testing(id)).(pool := PoolAddAll(s.pool, s.tq[id].q, s.slots), tq := s.tq[id := s.tq[id].(q := [])])
    case TestQueue(who) =>
      var id := s.calls[who].id;
      if s.tq[id].q != [] then Goes(s, who, NoCall) else Goes(s, who, Freeing(id))
    case FreeQueue(who) =>
      var id := s.calls[who].id;
      Goes(s, who, Delisting(id)).(tq := s.tq[id := Destroyed], lost := s.lost + s.tq[id].q)
    case ClearPort(who) => Goes(s, who, NoCall).(ports := s.ports[s.calls[who].id := 0])
    case SetAlive(id, alive) =>
      var s1 := s.(alive := s.alive[id := alive]);
      if alive then s1
      else Goes(s1, id, NoCall).(checked := s.checked[id := false], hand := s.hand[id := None], lost := s.lost + HandOf(s.hand[id]))
  }

  // ----- where the buffers are -----

  function QueueOf(t: TaskQueue): seq<nat> {
    if t.Live? then t.q else []
  }

  function HandOf(h: Option<nat>): seq<nat> {
    if h.Some? then [h.value] else []
  }

  function Times(q: seq<nat>, b: nat): nat {
    multiset(q)[b]
  }

  /** How often buffer b is in the task queues. */
  function InQueues(tq: seq<TaskQueue>, b: nat): nat {
    if tq == [] then 0 else InQueues(tq[1..], b) + Times(QueueOf(tq[0]), b)
  }

  function InHands(hand: seq<Option<nat>>, b: nat): nat {
    if hand == [] then 0 else InHands(hand[1..], b) + Times(HandOf(hand[0]), b)
  }

  function QueuedTotal(tq: seq<TaskQueue>): nat {
    if tq == [] then 0 else QueuedTotal(tq[1..]) + |QueueOf(tq[0])|
  }

  function HeldTotal(hand: seq<Option<nat>>): nat {
    if hand == [] then 0 else HeldTotal(hand[1..]) + |HandOf(hand[0])|
  }

  function Placed(s: Net, b: nat): nat {
    Times(s.pool, b) + InQueues(s.tq, b) + InHands(s.hand, b)
  }

  function Total(s: Net): nat {
    |s.pool| + QueuedTotal(s.tq) + HeldTotal(s.hand)
  }

  /** Each buffer is in exactly one place: the pool, a task queue or a hand. */
  ghost predicate Conserved(s: Net) {
    Total(s) == s.slots && forall b: nat :: Placed(s, b) == if b < s.slots then 1 else 0
  }

  ghost predicate Inv(s: Net) {
    WellFormed(s) && Conserved(s)
  }

  lemma {:induction false} QueuesUpdate(tq: seq<TaskQueue>, k: nat, t: TaskQueue)
    requires k < |tq|
    ensures QueuedTotal(tq[k := t]) + |QueueOf(tq[k])| == QueuedTotal(tq) + |QueueOf(t)|
    ensures forall b: nat :: InQueues(tq[k := t], b) + Times(QueueOf(tq[k]), b) == InQueues(tq, b) + Times(QueueOf(t), b)
  {
    hide Times, QueueOf;
    if k > 0 {
      QueuesUpdate(tq[1..], k - 1, t);
      assert tq[k := t][1..] == tq[1..][k - 1 := t];
    } else {
      assert tq[k := t][1..] == tq[1..];
    }
  }

  lemma {:induction false} HandsUpdate(hand: seq<Option<nat>>, k: nat, h: Option<nat>)
    requires k < |hand|
    ensures HeldTotal(hand[k := h]) + |HandOf(hand[k])| == HeldTotal(hand) + |HandOf(h)|
    ensures forall b: nat :: InHands(hand[k := h], b) + Times(HandOf(hand[k]), b) == InHands(hand, b) + Times(HandOf(h), b)
  {
    hide Times, HandOf;
    if k > 0 {
      HandsUpdate(hand[1..], k - 1, h);
      assert hand[k := h][1..] == hand[1..][k - 1 := h];
    } else {
      assert hand[k := h][1..] == hand[1..];
    }
  }

  lemma TimesConcat(p: seq<nat>, q: seq<nat>, b: nat)
    ensures Times(p + q, b) == Times(p, b) + Times(q, b)
  {
  }

  lemma TimesHead(q: seq<nat>, b: nat)
    requires q != []
    ensures Times(q, b) == Times([q[0]], b) + Times(q[1..], b)
  {
    assert q == [q[0]] + q[1..];
  }

  /** The ignored results: neither giving a packet back nor draining a queue can
      find the pool full. */
  lemma IgnoredResultsAreOk(s: Net, id: nat)
    requires Inv(s) && id < |s.tq|
    ensures s.hand[id].Some? ==> |s.pool| < s.slots
    ensures |s.pool| + |QueueOf(s.tq[id])| <= s.slots
  {
    QueuesUpdate(s.tq, id, Null);
    HandsUpdate(s.hand, id, None);
  }

  lemma {:induction false} AddAllFits(pool: seq<nat>, q: seq<nat>, slots: nat)
    requires |pool| + |q| <= slots
    ensures PoolAddAll(pool, q, slots) == pool + q
    decreases |q|
  {
    if q != [] {
      AddAllFits(pool + [q[0]], q[1..], slots);
      assert pool + [q[0]] + q[1..] == pool + q;
    }
  }

  /** A packet is handed to a live task that has no queue: its hf_comm_destroy is
      not done, the port is 0 and matches an entry that nobody has taken, or a
      failed hf_comm_create has stored NULL. */
  ghost predicate Undeliverable(s: Net, e: Event)
    requires WellFormed(s)
  {
    && e.Isr? && e.wellFormed && s.pool != []
    && var k := PortOwner(s.ports, e.port, 0);
       k < |s.ports| && s.alive[k] && !s.tq[k].Live?
  }

  /** A task is killed while it has a packet in hand: only a local variable of
      its hf_recv knows the buffer. */
  ghost predicate KilledHolding(s: Net, e: Event)
    requires WellFormed(s)
  {
    e.SetAlive? && !e.alive && e.id < |s.hand| && s.hand[e.id].Some?
  }

  /** Another task has emptied the queue between the check and the remhead of
      hf_recv, and NULL is handed on as if it were a buffer. */
  ghost predicate EmptiedMeanwhile(s: Net, e: Event)
    requires WellFormed(s)
  {
    && (e.TurnQueue? || e.TakePacket?) && e.id < |s.tq| && s.tq[e.id].Live? && s.tq[e.id].q == []
    && (e.TurnQueue? ==> s.tq[e.id].capacity > 0)
  }

  /** hf_comm_create stores its queue over one that holds packets: another
      hf_comm_create for the same task was faster. */
  ghost predicate Overwritten(s: Net, e: Event)
    requires WellFormed(s)
  {
    && e.StoreQueue? && e.who < |s.calls| && s.calls[e.who].Storing?
    && QueueOf(s.tq[s.calls[e.who].id]) != []
  }

  /** A packet has arrived between the test of hf_queue_destroy and its hf_free. */
  ghost predicate FreedHolding(s: Net, e: Event)
    requires WellFormed(s)
  {
    && e.FreeQueue? && e.who < |s.calls| && s.calls[e.who].Freeing?
    && QueueOf(s.tq[s.calls[e.who].id]) != []
  }

  /** The five ways to lose count of the buffers. */
  ghost predicate Leaks(s: Net, e: Event)
    requires WellFormed(s)
  {
    Undeliverable(s, e) || KilledHolding(s, e) || EmptiedMeanwhile(s, e) || Overwritten(s, e) || FreedHolding(s, e)
  }

  /** The places of the buffers are the same before and after. */
  ghost predicate SamePlaces(s: Net, s': Net) {
    s'.slots == s.slots && Total(s') == Total(s) && forall b: nat :: Placed(s', b) == Placed(s, b)
  }

  lemma SamePlacesConserve(s: Net, s': Net)
    requires Conserved(s) && SamePlaces(s, s')
    ensures Conserved(s')
  {
  }

  /** The arriving packet goes back to the pool. */
  lemma DropPlaces(s: Net, s': Net)
    requires Conserved(s) && s.pool != [] && s' == s.(pool := PoolAdd(s.pool[1..], s.pool[0], s.slots))
    ensures SamePlaces(s, s')
  {
    forall b: nat
      ensures Placed(s', b) == Placed(s, b)
    {
      TimesHead(s.pool, b);
      TimesConcat(s.pool[1..], [s.pool[0]], b);
    }
  }

  /** A buffer moves from the head of one list of places to the tail of another. */
  lemma DeliverPlaces(s: Net, port: int)
    requires Inv(s) && s.pool != [] && !Undeliverable(s, Isr(true, port))
    ensures SamePlaces(s, Deliver(s, port))
  {
    var k := PortOwner(s.ports, port, 0);
    var s' := Deliver(s, port);
    if k == |s.ports| || !s.alive[k] || |s.tq[k].q| >= s.tq[k].capacity {
      DropPlaces(s, s');
    } else {
      var t := Live(s.tq[k].q + [s.pool[0]], s.tq[k].capacity);
      QueuesUpdate(s.tq, k, t);
      forall b: nat
        ensures Placed(s', b) == Placed(s, b)
      {
        TimesHead(s.pool, b);
        TimesConcat(s.tq[k].q, [s.pool[0]], b);
      }
    }
  }

  lemma DeliverShape(s: Net, port: int)
    requires WellFormed(s) && s.pool != []
    ensures WellFormed(Deliver(s, port)) && Deliver(s, port).slots == s.slots
    ensures Deliver(s, port).ports == s.ports && Deliver(s, port).calls == s.calls
    ensures forall k :: 0 <= k < |s.tq| ==> (Deliver(s, port).tq[k] == Null <==> s.tq[k] == Null)
  {
  }

  lemma LateLoses(s: Net, port: int)
    requires Inv(s) && Undeliverable(s, Isr(true, port))
    ensures !Conserved(Deliver(s, port))
  {
    assert Total(Deliver(s, port)) == Total(s) - 1;
  }

  lemma IsrConserves(s: Net, ok: bool, port: int)
    requires Inv(s)
    ensures Inv(Step(s, Isr(ok, port))) <==> !Undeliverable(s, Isr(ok, port))
  {
    hide Conserved, Deliver, PortOwner;
    var s' := Step(s, Isr(ok, port));
    if s.pool != [] {
      if !ok {
        DropPlaces(s, s');
        SamePlacesConserve(s, s');
      } else {
        DeliverShape(s, port);
        if Undeliverable(s, Isr(true, port)) {
          LateLoses(s, port);
        } else {
          DeliverPlaces(s, port);
          SamePlacesConserve(s, s');
        }
      }
    }
  }

  lemma TurnPlaces(s: Net, id: nat)
    requires Inv(s) && Enabled(s, TurnQueue(id)) && !EmptiedMeanwhile(s, TurnQueue(id))
    ensures SamePlaces(s, Step(s, TurnQueue(id)))
  {
    var q := s.tq[id].q;
    QueuesUpdate(s.tq, id, s.tq[id].(q := Turned(s, q, s.tq[id].capacity)));
    forall b: nat
      ensures q != [] ==> Times(Rot(q), b) == Times(q, b)
    {
      if q != [] {
        TimesHead(q, b);
        TimesConcat(q[1..], [q[0]], b);
      }
    }
  }

  lemma TakePlaces(s: Net, id: nat)
    requires Inv(s) && Enabled(s, TakePacket(id)) && s.tq[id].q != []
    ensures SamePlaces(s, Step(s, TakePacket(id)))
  {
    var q := s.tq[id].q;
    QueuesUpdate(s.tq, id, s.tq[id].(q := q[1..]));
    HandsUpdate(s.hand, id, Some(q[0]));
    forall b: nat
      ensures Times(q, b) == Times([q[0]], b) + Times(q[1..], b)
    {
      TimesHead(q, b);
    }
  }

  /** NULL has no place among the buffers. */
  lemma EmptiedLoses(s: Net, e: Event)
    requires Inv(s) && Enabled(s, e) && EmptiedMeanwhile(s, e)
    ensures !Conserved(Step(s, e))
  {
    var none := NullBuffer(s);
    var s' := Step(s, e);
    if e.TurnQueue? {
      QueuesUpdate(s.tq, e.id, Live([none], s.tq[e.id].capacity));
      assert Times(QueueOf(s'.tq[e.id]), none) == 1;
    } else {
      HandsUpdate(s.hand, e.id, Some(none));
      assert Times(HandOf(s'.hand[e.id]), none) == 1;
    }
    assert Placed(s', none) == Placed(s, none) + 1;
  }

  lemma KilledPlaces(s: Net, id: nat)
    requires Inv(s) && id < |s.tq|
    ensures s.hand[id] == None ==> SamePlaces(s, Step(s, SetAlive(id, false)))
    ensures s.hand[id].Some? ==> !Conserved(Step(s, SetAlive(id, false)))
  {
    HandsUpdate(s.hand, id, None);
    var s' := Step(s, SetAlive(id, false));
    assert Total(s') == Total(s) - |HandOf(s.hand[id])|;
  }

  lemma GivePlaces(s: Net, id: nat)
    requires Inv(s) && Enabled(s, GiveBack(id))
    ensures SamePlaces(s, Step(s, GiveBack(id)))
  {
    IgnoredResultsAreOk(s, id);
    HandsUpdate(s.hand, id, None);
    forall b: nat
      ensures Times(s.pool + [s.hand[id].value], b) == Times(s.pool, b) + Times([s.hand[id].value], b)
    {
      TimesConcat(s.pool, [s.hand[id].value], b);
    }
  }

  lemma DrainPlaces(s: Net, who: nat)
    requires Inv(s) && Enabled(s, Drain(who))
    ensures SamePlaces(s, Step(s, Drain(who)))
  {
    var id := s.calls[who].id;
    var q := s.tq[id].q;
    IgnoredResultsAreOk(s, id);
    AddAllFits(s.pool, q, s.slots);
    QueuesUpdate(s.tq, id, s.tq[id].(q := []));
    forall b: nat
      ensures Times(s.pool + q, b) == Times(s.pool, b) + Times(q, b)
    {
      TimesConcat(s.pool, q, b);
    }
  }

  /** A queue is replaced by an empty one, NULL or a freed one: its buffers are
      gone, and nothing else changes. */
  lemma ReplacedPlaces(s: Net, s': Net, id: nat, t: TaskQueue)
    requires Conserved(s) && id < |s.tq| && QueueOf(t) == [] && s'.tq == s.tq[id := t]
    requires s'.pool == s.pool && s'.hand == s.hand && s'.slots == s.slots
    ensures QueueOf(s.tq[id]) == [] ==> SamePlaces(s, s')
    ensures QueueOf(s.tq[id]) != [] ==> !Conserved(s')
  {
    hide Times;
    QueuesUpdate(s.tq, id, t);
    assert Total(s') == Total(s) - |QueueOf(s.tq[id])|;
  }

  /** hf_comm_create moves no buffer, unless it overwrites a queue with packets. */
  lemma CreatePlaces(s: Net, who: nat, memory: bool)
    requires Inv(s) && Enabled(s, StoreQueue(who, memory))
    ensures Conserved(Step(s, StoreQueue(who, memory))) <==> !Overwritten(s, StoreQueue(who, memory))
  {
    hide Conserved, Times, QueueOf;
    var s', c := Step(s, StoreQueue(who, memory)), s.calls[who];
    var t := if memory then Live([], Limit(c.packets, s.slots)) else Null;
    assert QueueOf(t) == [] by { EmptyQueues(Limit(c.packets, s.slots)); }
    ReplacedPlaces(s, s', c.id, t);
    if QueueOf(s.tq[c.id]) == [] { SamePlacesConserve(s, s'); }
  }

  lemma EmptyQueues(capacity: nat)
    ensures QueueOf(Live([], capacity)) == QueueOf(Null) == QueueOf(Destroyed) == []
  {
  }

  lemma FreePlaces(s: Net, who: nat)
    requires Inv(s) && Enabled(s, FreeQueue(who))
    ensures Conserved(Step(s, FreeQueue(who))) <==> !FreedHolding(s, FreeQueue(who))
  {
    hide Conserved, Times, QueueOf;
    var s', id := Step(s, FreeQueue(who)), s.calls[who].id;
    EmptyQueues(0);
    ReplacedPlaces(s, s', id, Destroyed);
    if QueueOf(s.tq[id]) == [] { SamePlacesConserve(s, s'); }
  }

  /** The task that makes a call, or is started or killed. */
  function Caller(e: Event): nat
    requires !(e.Isr? || e.CheckQueue? || e.TurnQueue? || e.TakePacket? || e.GiveBack?)
  {
    if e.SetAlive? then e.id else e.who
  }

  lemma NextCall(s: Net, e: Event)
    requires Enabled(s, e) && !(e.Isr? || e.CheckQueue? || e.TurnQueue? || e.TakePacket? || e.GiveBack?)
    ensures var who, s' := Caller(e), Step(s, e);
      && who < |s.calls| == |s'.calls| && CallOk(s'.calls[who], |s.tq|) && s'.calls == s.calls[who := s'.calls[who]]
      && |s'.tq| == |s.tq| && |s'.ports| == |s.ports| && |s'.alive| == |s.alive| && |s'.checked| == |s.checked| && |s'.hand| == |s.hand|
  {
    hide PoolAddAll, QueueOf, HandOf, Limit;
    assert CallOk(s.calls[Caller(e)], |s.tq|);
  }

  /** Every statement leaves calls for tasks that exist. */
  lemma StepWellFormed(s: Net, e: Event)
    requires Enabled(s, e)
    ensures WellFormed(Step(s, e))
  {
    if e.Isr? {
      hide PoolAdd, Deliver;
      if s.pool != [] { DeliverShape(s, e.port); }
    } else if e.CheckQueue? || e.TurnQueue? || e.TakePacket? || e.GiveBack? {
      hide Turned, PoolAdd;
    } else {
      hide Step, CallOk;
      NextCall(s, e);
    }
  }

  /** A statement that only changes where a task is, or a port. */
  lemma NoPlaces(s: Net, s': Net)
    requires Conserved(s) && s'.slots == s.slots && s'.pool == s.pool && s'.tq == s.tq && s'.hand == s.hand
    ensures Conserved(s')
  {
    forall b: nat
      ensures Placed(s', b) == if b < s.slots then 1 else 0
    {
      assert Placed(s, b) == if b < s.slots then 1 else 0;
    }
  }

  /** The statements of hf_comm_create and hf_comm_destroy. */
  lemma CommConserves(s: Net, e: Event)
    requires Inv(s) && Enabled(s, e)
    requires !(e.Isr? || e.CheckQueue? || e.TurnQueue? || e.TakePacket? || e.GiveBack? || e.SetAlive?)
    ensures Conserved(Step(s, e)) <==> !Leaks(s, e)
  {
    hide Conserved, PoolAddAll, QueueOf, Limit;
    if e.StoreQueue? {
      CreatePlaces(s, e.who, e.memory);
    } else if e.FreeQueue? {
      FreePlaces(s, e.who);
    } else if e.Drain? {
      DrainPlaces(s, e.who);
      SamePlacesConserve(s, Step(s, e));
    } else {
      NoPlaces(s, Step(s, e));
    }
  }

  /** The statements of hf_recv. */
  lemma ReceiveConserves(s: Net, e: Event)
    requires Inv(s) && Enabled(s, e) && (e.CheckQueue? || e.TurnQueue? || e.TakePacket? || e.GiveBack?)
    ensures Conserved(Step(s, e)) <==> !Leaks(s, e)
  {
    hide Conserved, Turned, PortOwner, PoolAdd;
    var s' := Step(s, e);
    if EmptiedMeanwhile(s, e) {
      EmptiedLoses(s, e);
    } else {
      match e
      case CheckQueue(id) => SamePlacesConserve(s, s');
      case TurnQueue(id) => TurnPlaces(s, id); SamePlacesConserve(s, s');
      case TakePacket(id) => TakePlaces(s, id); SamePlacesConserve(s, s');
      case GiveBack(id) => GivePlaces(s, id); SamePlacesConserve(s, s');
    }
  }

  lemma AliveConserves(s: Net, id: nat, alive: bool)
    requires Inv(s) && Enabled(s, SetAlive(id, alive))
    ensures Conserved(Step(s, SetAlive(id, alive))) <==> !Leaks(s, SetAlive(id, alive))
  {
    var s' := Step(s, SetAlive(id, alive));
    if !alive { KilledPlaces(s, id); }
    hide Conserved;
    if alive || s.hand[id] == None { SamePlacesConserve(s, s'); }
  }

  /** Conservation: a step keeps every buffer in exactly one place if and only
      if it is none of the five. */
  lemma StepConserves(s: Net, e: Event)
    requires Inv(s) && Enabled(s, e)
    ensures Inv(Step(s, e)) <==> !Leaks(s, e)
  {
    StepWellFormed(s, e);
    hide Conserved, Step, Undeliverable, KilledHolding, EmptiedMeanwhile, Overwritten, FreedHolding;
    match e
    case Isr(ok, port) => OnlyUndeliverable(s, e); IsrConserves(s, ok, port);
    case CheckQueue(_) => ReceiveConserves(s, e);
    case TurnQueue(_) => ReceiveConserves(s, e);
    case TakePacket(_) => ReceiveConserves(s, e);
    case GiveBack(_) => ReceiveConserves(s, e);
    case SetAlive(id, alive) => AliveConserves(s, id, alive);
    case _ => CommConserves(s, e);
  }

  lemma OnlyUndeliverable(s: Net, e: Event)
    requires WellFormed(s) && e.Isr?
    ensures Leaks(s, e) <==> Undeliverable(s, e)
  {
  }

  // ----- whole runs -----

  function Boot(slots: nat, tasks: nat): Net {
    Net(slots, seq(slots, i => i), seq(tasks, _ => Null), seq(tasks, _ => 0), seq(tasks, _ => false),
        seq(tasks, _ => NoCall), seq(tasks, _ => false), seq(tasks, _ => None), [])
  }

  lemma {:induction false} NothingQueued(tq: seq<TaskQueue>, hand: seq<Option<nat>>, b: nat)
    requires forall k :: 0 <= k < |tq| ==> tq[k] == Null
    requires forall k :: 0 <= k < |hand| ==> hand[k] == None
    ensures QueuedTotal(tq) == InQueues(tq, b) == 0 && HeldTotal(hand) == InHands(hand, b) == 0
  {
    if tq != [] { NothingQueued(tq[1..], hand, b); }
    else if hand != [] { NothingQueued(tq, hand[1..], b); }
  }

  lemma {:induction false} FullPool(pool: seq<nat>, b: nat)
    requires forall i :: 0 <= i < |pool| ==> pool[i] == i
    ensures Times(pool, b) == if b < |pool| then 1 else 0
  {
    if pool != [] {
      var n := |pool| - 1;
      FullPool(pool[..n], b);
      assert pool == pool[..n] + [n];
    }
  }

  lemma BootInv(slots: nat, tasks: nat)
    ensures Inv(Boot(slots, tasks))
  {
    var s := Boot(slots, tasks);
    NothingQueued(s.tq, s.hand, 0);
    forall b: nat
      ensures Placed(s, b) == if b < slots then 1 else 0
    {
      NothingQueued(s.tq, s.hand, b);
      FullPool(s.pool, b);
    }
  }

  ghost predicate Run(states: seq<Net>, events: seq<Event>) {
    && |states| == |events| + 1
    && forall i :: 0 <= i < |events| ==> Enabled(states[i], events[i]) && states[i + 1] == Step(states[i], events[i])
  }

  /** No buffer leaks: from boot on, in every interleaving without one of the
      five, every buffer is in exactly one place at every moment. */
  lemma {:induction false} NoLeaks(states: seq<Net>, events: seq<Event>, slots: nat, tasks: nat, n: nat)
    requires Run(states, events) && states[0] == Boot(slots, tasks) && n < |states|
    requires forall i :: 0 <= i < n ==> !Leaks(states[i], events[i])
    ensures Inv(states[n])
  {
    if n == 0 {
      BootInv(slots, tasks);
    } else {
      NoLeaks(states, events, slots, tasks, n - 1);
      StepConserves(states[n - 1], events[n - 1]);
    }
  }

  // ----- packets without a queue -----

  /** hf_comm_create fails for lack of memory and stores NULL over a queue, which
      another hf_comm_create for the same task has made meanwhile. */
  ghost predicate StoresNull(s: Net, e: Event)
    requires WellFormed(s)
  {
    && e.StoreQueue? && !e.memory && e.who < |s.calls| && s.calls[e.who].Storing?
    && s.tq[s.calls[e.who].id] != Null
  }

  /** A task with a port, or about to get one, has a queue. */
  ghost predicate PortsOwned(s: Net) {
    && WellFormed(s)
    && (forall k :: 0 <= k < |s.tq| ==> s.ports[k] != 0 ==> s.tq[k] != Null)
    && (forall k :: 0 <= k < |s.calls| && s.calls[k].Listing? ==> s.tq[s.calls[k].id] != Null)
  }

  lemma StepOwned(s: Net, e: Event)
    requires PortsOwned(s) && Enabled(s, e) && !StoresNull(s, e)
    ensures PortsOwned(Step(s, e))
  {
    StepWellFormed(s, e);
    if e.StoreQueue? || e.AskStored? || e.StorePort? || e.FreeQueue? || e.Drain? {
      CallOwned(s, e);
    } else {
      hide Turned, PoolAdd, QueueOf, HandOf, PortOwner, Deliver, CallOk;
      if e.Isr? && s.pool != [] { DeliverShape(s, e.port); }
      var s' := Step(s, e);
      assert forall k :: 0 <= k < |s.tq| ==> (s'.tq[k] == Null <==> s.tq[k] == Null) && (s'.ports[k] == 0 || s'.ports[k] == s.ports[k]);
      assert forall k :: 0 <= k < |s.calls| && s'.calls[k].Listing? ==> s'.calls[k] == s.calls[k];
    }
  }

  lemma CallOwned(s: Net, e: Event)
    requires PortsOwned(s) && Enabled(s, e) && !StoresNull(s, e) && WellFormed(Step(s, e))
    requires e.StoreQueue? || e.AskStored? || e.StorePort? || e.FreeQueue? || e.Drain?
    ensures PortsOwned(Step(s, e))
  {
    hide PoolAddAll, QueueOf, Limit;
    assert CallOk(s.calls[e.who], |s.tq|);
  }

  /** As long as no hf_comm_create stores NULL over a queue, a packet can only be
      undeliverable if its port is 0 or its queue has been freed. */
  lemma {:induction false} UndeliverableWhere(states: seq<Net>, events: seq<Event>, slots: nat, tasks: nat, n: nat)
    requires Run(states, events) && states[0] == Boot(slots, tasks) && n < |events|
    requires forall i :: 0 <= i < n ==> !StoresNull(states[i], events[i])
    ensures PortsOwned(states[n])
    ensures Undeliverable(states[n], events[n]) ==>
      events[n].port == 0 || states[n].tq[PortOwner(states[n].ports, events[n].port, 0)] == Destroyed
  {
    if n > 0 {
      UndeliverableWhere(states, events, slots, tasks, n - 1);
      StepOwned(states[n - 1], events[n - 1]);
    }
  }

  // ----- each of the five happens -----

  /** One buffer and two live tasks; task 1 with this queue, port, state of
      hf_recv and hand. */
  function Two(pool: seq<nat>, t: TaskQueue, port: int, c0: Call, c1: Call, checked: bool, hand: Option<nat>): Net {
    Net(1, pool, [Null, t], [0, port], [true, true], [c0, c1], [false, checked], [None, hand], [])
  }

  /** From boot, with one buffer and two tasks, s is reached without a leak. */
  ghost predicate Reached(s: Net) {
    exists states, events :: LeadsTo(states, events, s)
  }

  ghost predicate LeadsTo(states: seq<Net>, events: seq<Event>, s: Net) {
    && Run(states, events) && states[0] == Boot(1, 2) && states[|events|] == s
    && forall i :: 0 <= i < |events| ==> !Leaks(states[i], events[i])
  }

  lemma ReachedInv(s: Net)
    requires Reached(s)
    ensures Inv(s)
  {
    var states, events :| LeadsTo(states, events, s);
    NoLeaks(states, events, 1, 2, |events|);
  }

  lemma ReachedBoot()
    ensures Reached(Boot(1, 2))
  {
    assert LeadsTo([Boot(1, 2)], [], Boot(1, 2));
  }

  lemma Go(s: Net, e: Event, s': Net)
    requires Reached(s) && Enabled(s, e) && !Leaks(s, e) && Step(s, e) == s'
    ensures Reached(s')
  {
    hide Enabled, Leaks, Step;
    var states, events :| LeadsTo(states, events, s);
    assert LeadsTo(states + [s'], events + [e], s');
  }

  lemma Started()
    ensures Reached(Two([0], Null, 0, NoCall, NoCall, false, None))
  {
    hide Reached;
    ReachedBoot();
    var s := Boot(1, 2).(alive := [true, false]);
    Go(Boot(1, 2), SetAlive(0, true), s);
    Go(s, SetAlive(1, true), Two([0], Null, 0, NoCall, NoCall, false, None));
  }

  /** A task asks for port 7 for task 1 and passes the tests of hf_comm_create. */
  lemma Tested(who: nat, other: Call)
    requires who < 2 && CallOk(other, 2) && Reached(Idle(who, NoCall, other, Null, 0))
    ensures Reached(Idle(who, Storing(1, 7, 0), other, Null, 0))
  {
    hide Reached;
    Go(Idle(who, NoCall, other, Null, 0), BeginCreate(who, 1, 7, 0), Idle(who, Asking(1, 7, 0), other, Null, 0));
    Go(Idle(who, Asking(1, 7, 0), other, Null, 0), AskQueue(who), Idle(who, Searching(1, 7, 0, 0), other, Null, 0));
    Searched(who, other);
  }

  lemma Searched(who: nat, other: Call)
    requires who < 2 && CallOk(other, 2) && Reached(Idle(who, Searching(1, 7, 0, 0), other, Null, 0))
    ensures Reached(Idle(who, Storing(1, 7, 0), other, Null, 0))
  {
    hide Reached;
    Go(Idle(who, Searching(1, 7, 0, 0), other, Null, 0), AskPort(who), Idle(who, Searching(1, 7, 0, 1), other, Null, 0));
    Go(Idle(who, Searching(1, 7, 0, 1), other, Null, 0), AskPort(who), Idle(who, Storing(1, 7, 0), other, Null, 0));
  }

  /** The buffer is free, and a task is in this call and the other one in that. */
  function Idle(who: nat, call: Call, other: Call, t: TaskQueue, port: int): Net {
    Two([0], t, port, if who == 0 then call else other, if who == 0 then other else call, false, None)
  }

  lemma Listed(c0: Call)
    requires CallOk(c0, 2) && Reached(Two([0], Live([], 1), 0, c0, Deciding(1, 7), false, None))
    ensures Reached(Two([0], Live([], 1), 7, c0, NoCall, false, None))
  {
    hide Reached;
    Go(Two([0], Live([], 1), 0, c0, Deciding(1, 7), false, None), AskStored(1),
       Two([0], Live([], 1), 0, c0, Listing(1, 7), false, None));
    Go(Two([0], Live([], 1), 0, c0, Listing(1, 7), false, None), StorePort(1),
       Two([0], Live([], 1), 7, c0, NoCall, false, None));
  }

  /** Task 1 gets its queue and its port. */
  lemma Opened(c0: Call)
    requires CallOk(c0, 2) && Reached(Two([0], Null, 0, c0, NoCall, false, None))
    ensures Reached(Two([0], Live([], 1), 7, c0, NoCall, false, None))
  {
    hide Reached;
    Tested(1, c0);
    Go(Two([0], Null, 0, c0, Storing(1, 7, 0), false, None), StoreQueue(1, true),
       Two([0], Live([], 1), 0, c0, Deciding(1, 7), false, None));
    Listed(c0);
  }

  /** A packet for port 7 arrives. */
  lemma Delivered(c0: Call)
    requires CallOk(c0, 2) && Reached(Two([0], Live([], 1), 7, c0, NoCall, false, None))
    ensures Reached(Two([], Live([0], 1), 7, c0, NoCall, false, None))
  {
    hide Reached;
    var s := Two([0], Live([], 1), 7, c0, NoCall, false, None);
    assert PortOwner([0, 7], 7, 0) == 1;
    assert s.pool[1..] == [] && [] + [s.pool[0]] == [0];
    Go(s, Isr(true, 7), Two([], Live([0], 1), 7, c0, NoCall, false, None));
  }

  /** Task 0 asks for the port for task 1 and passes the tests before task 1 does. */
  lemma Raced()
    ensures Reached(Two([0], Live([], 1), 7, Storing(1, 7, 0), NoCall, false, None))
  {
    hide Reached;
    Started();
    Tested(0, NoCall);
    Opened(Storing(1, 7, 0));
  }

  /** The queue that task 0 stores replaces the one that holds the only buffer. */
  lemma OverwrittenQueueLeaks()
    ensures var s := Two([], Live([0], 1), 7, Storing(1, 7, 0), NoCall, false, None);
      && Reached(s) && Inv(s) && Enabled(s, StoreQueue(0, true))
      && Step(s, StoreQueue(0, true)) == Two([], Live([], 1), 7, Deciding(1, 7), NoCall, false, None).(lost := [0])
  {
    hide Reached;
    Raced();
    Delivered(Storing(1, 7, 0));
    ReachedInv(Two([], Live([0], 1), 7, Storing(1, 7, 0), NoCall, false, None));
    assert [] + [0] == [0];
  }

  /** Without memory it stores NULL, and the next packet goes nowhere. */
  lemma NullQueueLeaks()
    ensures var s := Two([0], Null, 7, Deciding(1, 7), NoCall, false, None);
      Reached(s) && Inv(s) && Enabled(s, Isr(true, 7)) && Step(s, Isr(true, 7)).lost == [0]
  {
    hide Reached;
    Raced();
    var s := Two([0], Null, 7, Deciding(1, 7), NoCall, false, None);
    Go(Two([0], Live([], 1), 7, Storing(1, 7, 0), NoCall, false, None), StoreQueue(0, false), s);
    ReachedInv(s);
    assert PortOwner(s.ports, 7, 0) == 1;
  }

  /** A packet to port 0 is handed to the first task without a port. */
  lemma PortZeroLeaks()
    ensures var s := Two([0], Null, 0, NoCall, NoCall, false, None);
      Reached(s) && Inv(s) && Enabled(s, Isr(true, 0)) && Step(s, Isr(true, 0)).lost == [0]
  {
    hide Reached;
    Started();
    var s := Two([0], Null, 0, NoCall, NoCall, false, None);
    ReachedInv(s);
    assert PortOwner(s.ports, 0, 0) == 0;
  }

  lemma Draining0()
    ensures Reached(Two([0], Live([], 1), 7, Draining(1), NoCall, false, None))
  {
    hide Reached;
    Started();
    Opened(NoCall);
    Go(Two([0], Live([], 1), 7, NoCall, NoCall, false, None), BeginDestroy(0, 1),
       Two([0], Live([], 1), 7, Draining(1), NoCall, false, None));
  }

  /** Task 0 destroys the queue of task 1, up to and with the test for packets. */
  lemma Destroying()
    ensures Reached(Two([0], Live([], 1), 7, Freeing(1), NoCall, false, None))
  {
    hide Reached;
    Draining0();
    AddAllFits([0], [], 1);
    Go(Two([0], Live([], 1), 7, Draining(1), NoCall, false, None), Drain(0),
       Two([0], Live([], 1), 7, Testing(1), NoCall, false, None));
    Go(Two([0], Live([], 1), 7, Testing(1), NoCall, false, None), TestQueue(0),
       Two([0], Live([], 1), 7, Freeing(1), NoCall, false, None));
  }

  /** A packet that arrives between the test and the hf_free is freed with the queue. */
  lemma FreedQueueLeaks()
    ensures var s := Two([], Live([0], 1), 7, Freeing(1), NoCall, false, None);
      && Reached(s) && Inv(s) && Enabled(s, FreeQueue(0))
      && Step(s, FreeQueue(0)) == Two([], Destroyed, 7, Delisting(1), NoCall, false, None).(lost := [0])
  {
    hide Reached;
    Destroying();
    Delivered(Freeing(1));
    ReachedInv(Two([], Live([0], 1), 7, Freeing(1), NoCall, false, None));
    assert [] + [0] == [0];
  }

  /** A packet that arrives when the queue is gone and the port still listed
      costs the only buffer. */
  lemma LateDeliveryLeaks()
    ensures var s := Two([0], Destroyed, 7, Delisting(1), NoCall, false, None);
      Reached(s) && Inv(s) && Enabled(s, Isr(true, 7)) && Step(s, Isr(true, 7)).lost == [0]
  {
    hide Reached;
    Destroying();
    var s := Two([0], Destroyed, 7, Delisting(1), NoCall, false, None);
    Go(Two([0], Live([], 1), 7, Freeing(1), NoCall, false, None), FreeQueue(0), s);
    ReachedInv(s);
    assert PortOwner(s.ports, 7, 0) == 1;
  }

  /** Task 1 has found its packet. */
  lemma Found()
    ensures Reached(Two([], Live([0], 1), 7, NoCall, NoCall, true, None))
  {
    hide Reached;
    Started();
    Opened(NoCall);
    Delivered(NoCall);
    Go(Two([], Live([0], 1), 7, NoCall, NoCall, false, None), CheckQueue(1),
       Two([], Live([0], 1), 7, NoCall, NoCall, true, None));
  }

  lemma Taken()
    ensures Reached(Two([], Live([], 1), 7, NoCall, NoCall, false, Some(0)))
  {
    hide Reached;
    Found();
    var q: seq<nat> := [0];
    assert q[1..] == [];
    Go(Two([], Live([0], 1), 7, NoCall, NoCall, true, None), TakePacket(1),
       Two([], Live([], 1), 7, NoCall, NoCall, false, Some(0)));
  }

  /** The receiver is killed with the packet in hand: the only buffer is gone. */
  lemma KilledReceiverLeaks()
    ensures var s := Two([], Live([], 1), 7, NoCall, NoCall, false, Some(0));
      && Reached(s) && Inv(s) && Enabled(s, SetAlive(1, false))
      && Step(s, SetAlive(1, false)).lost == [0] && Step(s, SetAlive(1, false)).hand == [None, None]
  {
    hide Reached;
    Taken();
    ReachedInv(Two([], Live([], 1), 7, NoCall, NoCall, false, Some(0)));
    assert [] + [0] == [0];
  }

  /** The queue is drained after the check: the receiver takes NULL for a packet. */
  lemma DrainedQueueLeaks()
    ensures var s := Two([0], Live([], 1), 7, Testing(1), NoCall, true, None);
      && Reached(s) && Inv(s) && Enabled(s, TakePacket(1))
      && Step(s, TakePacket(1)).hand == [None, Some(NullBuffer(s))] && !Conserved(Step(s, TakePacket(1)))
  {
    hide Reached;
    Found();
    var s0, s1 := Two([], Live([0], 1), 7, NoCall, NoCall, true, None), Two([], Live([0], 1), 7, Draining(1), NoCall, true, None);
    Go(s0, BeginDestroy(0, 1), s1);
    AddAllFits([], [0], 1);
    var s := Two([0], Live([], 1), 7, Testing(1), NoCall, true, None);
    Go(s1, Drain(0), s);
    ReachedInv(s);
    EmptiedLoses(s, TakePacket(1));
  }

  // ----- what becomes of an arriving packet -----

  /** ni_isr on a packet that has come in: the two tests of its header. */
  function Arrival(p: NocMessages.Packet, ps: int): Event
    requires |p| == ps > NocMessages.PKT_HEADER_SIZE
  {
    Isr(p[NocMessages.PKT_PAYLOAD] == ps - 2, p[NocMessages.PKT_TARGET_PORT])
  }

  /** Task k has the port to itself and to be found first, is live, and has a
      queue with these packets. */
  ghost predicate Receives(s: Net, k: nat, port: int, q: seq<nat>, capacity: nat) {
    && WellFormed(s) && k < |s.tq| && s.ports[k] == port && (forall j :: 0 <= j < k ==> s.ports[j] != port)
    && s.alive[k] && s.tq[k] == Live(q, capacity)
  }

  lemma OwnerFound(s: Net, k: nat, port: int)
    requires WellFormed(s) && k < |s.tq| && s.ports[k] == port && forall j :: 0 <= j < k ==> s.ports[j] != port
    ensures PortOwner(s.ports, port, 0) == k
  {
  }

  /** A packet of the right length to a port whose task has room takes the first
      free buffer to the tail of that queue, and changes nothing else. */
  lemma ArrivalQueued(s: Net, p: NocMessages.Packet, ps: int, k: nat, q: seq<nat>, capacity: nat)
    requires |p| == ps > NocMessages.PKT_HEADER_SIZE && p[NocMessages.PKT_PAYLOAD] == ps - 2
    requires Receives(s, k, p[NocMessages.PKT_TARGET_PORT], q, capacity)
    requires s.pool != [] && |q| < capacity
    ensures Enabled(s, Arrival(p, ps))
    ensures Step(s, Arrival(p, ps)) == s.(pool := s.pool[1..], tq := s.tq[k := Live(q + [s.pool[0]], capacity)])
  {
    OwnerFound(s, k, p[NocMessages.PKT_TARGET_PORT]);
  }

  /** In all other cases but that of a task without a queue the packet is dropped
      and its buffer is free again. */
  lemma ArrivalDropped(s: Net, p: NocMessages.Packet, ps: int)
    requires |p| == ps > NocMessages.PKT_HEADER_SIZE && WellFormed(s) && |s.pool| <= s.slots
    requires
      || s.pool == []
      || p[NocMessages.PKT_PAYLOAD] != ps - 2
      || (forall k :: 0 <= k < |s.ports| ==> s.ports[k] != p[NocMessages.PKT_TARGET_PORT])
      || (exists k: nat, q: seq<nat> :: Receives(s, k, p[NocMessages.PKT_TARGET_PORT], q, |q|))
      || (exists k: nat :: k < |s.ports| && s.ports[k] == p[NocMessages.PKT_TARGET_PORT] && !s.alive[k]
            && forall j :: 0 <= j < k ==> s.ports[j] != s.ports[k])
    ensures Enabled(s, Arrival(p, ps))
    ensures Step(s, Arrival(p, ps)) == s.(pool := if s.pool == [] then [] else s.pool[1..] + [s.pool[0]])
  {
    var port := p[NocMessages.PKT_TARGET_PORT];
    if s.pool != [] && p[NocMessages.PKT_PAYLOAD] == ps - 2 {
      if k: nat, q: seq<nat> :| Receives(s, k, port, q, |q|) {
        OwnerFound(s, k, port);
      } else if k: nat :| k < |s.ports| && s.ports[k] == port && !s.alive[k] && forall j :: 0 <= j < k ==> s.ports[j] != s.ports[k] {
        OwnerFound(s, k, port);
      }
    }
  }

  /** The state after the first n of these packets have come in. */
  function Arrived(s: Net, packets: seq<NocMessages.Packet>, ps: int, n: nat): Net
    requires n <= |packets| && WellFormed(s) && ps > NocMessages.PKT_HEADER_SIZE
    requires forall p :: p in packets ==> |p| == ps
    ensures WellFormed(Arrived(s, packets, ps, n))
  {
    if n == 0 then s
    else
      var a := Arrived(s, packets, ps, n - 1);
      StepWellFormed(a, Arrival(packets[n - 1], ps));
      Step(a, Arrival(packets[n - 1], ps))
  }

  /** The packets of a message, with what hf_send promises of each: as long as
      there are free buffers and room, they all come to the queue of the task on
      the target port, in order, and go nowhere else. */
  lemma {:induction false} MessageQueued(s: Net, packets: seq<NocMessages.Packet>, ps: int, port: int, k: nat, q: seq<nat>, capacity: nat, n: nat)
    requires ps > NocMessages.PKT_HEADER_SIZE && n <= |packets|
    requires forall p :: p in packets ==>
               |p| == ps && p[NocMessages.PKT_PAYLOAD] == ps - 2 && p[NocMessages.PKT_TARGET_PORT] == port
    requires Receives(s, k, port, q, capacity) && n <= |s.pool| && |q| + n <= capacity
    ensures Arrived(s, packets, ps, n) == s.(pool := s.pool[n..], tq := s.tq[k := Live(q + s.pool[..n], capacity)])
  {
    hide Step, Enabled;
    if n == 0 {
      assert s.pool[0..] == s.pool && q + s.pool[..0] == q && s.tq[k := s.tq[k]] == s.tq;
    } else {
      MessageQueued(s, packets, ps, port, k, q, capacity, n - 1);
      var a := Arrived(s, packets, ps, n - 1);
      var q1 := q + s.pool[..n - 1];
      assert packets[n - 1] in packets;
      ArrivalQueued(a, packets[n - 1], ps, k, q1, capacity);
      assert a.pool[0] == s.pool[n - 1] && a.pool[1..] == s.pool[n..];
      assert q1 + [s.pool[n - 1]] == q + s.pool[..n];
    }
  }
}
