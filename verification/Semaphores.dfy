/** Counting semaphores (sys/sync/semaphore.c) and what tasks see of them when a
    timer tick can fall between any two statements. */
module Semaphores {
  import opened Queues
  import opened Sequences

  // ----- the operations on the semaphore -----

  datatype Sem = Sem(count: int, queue: seq<nat>)

  /** hf_semwait up to its _ei: the caller is queued if the count gets negative. */
  function Wait(s: Sem, t: nat): Sem {
    if s.count - 1 < 0 then Sem(s.count - 1, s.queue + [t]) else Sem(s.count - 1, s.queue)
  }

  predicate Blocks(s: Sem) {
    s.count - 1 < 0
  }

  /** hf_sempost: the head of the queue is woken if the count is not positive. */
  function Post(s: Sem): Sem {
    if s.count + 1 <= 0 && s.queue != [] then Sem(s.count + 1, s.queue[1..]) else Sem(s.count + 1, s.queue)
  }

  function Woken(s: Sem): Option<nat> {
    if s.count + 1 <= 0 && s.queue != [] then Some(s.queue[0]) else None
  }

  /** PANIC_NUTS_SEM of hf_sempost: somebody should be waiting and nobody is. */
  predicate PostPanics(s: Sem) {
    s.count + 1 <= 0 && s.queue == []
  }

  /** As many tasks are queued as the count is below zero, each once. */
  ghost predicate SemOk(s: Sem) {
    |s.queue| == (if s.count < 0 then -s.count else 0) && Distinct(s.queue)
  }

  lemma WaitOk(s: Sem, t: nat)
    requires SemOk(s) && t !in s.queue
    ensures SemOk(Wait(s, t))
  {
  }

  lemma PostOk(s: Sem)
    requires SemOk(s)
    ensures SemOk(Post(s)) && !PostPanics(s)
    ensures s.count < 0 <==> Woken(s).Some?
    ensures Woken(s).Some? ==> s.queue == [Woken(s).value] + Post(s).queue && Woken(s).value !in Post(s).queue
    ensures Woken(s).None? ==> Post(s).queue == s.queue
  {
  }

  // ----- the semaphore in memory -----

  class Semaphore {
    var count: int
    const queue: Queue<nat>
    const tasks: nat
    ghost var s: Sem

    ghost predicate Valid()
      reads this, queue, queue.data
    {
      queue.Valid() && queue.size == tasks + 1 && s == Sem(count, queue.Contents())
    }

    /** hf_seminit with a value that is not negative. */
    constructor (value: nat, maxTasks: nat)
      ensures Valid() && fresh(queue) && fresh(queue.data)
      ensures s == Sem(value, []) && tasks == maxTasks && SemOk(s)
    {
      count, tasks := value, maxTasks;
      queue := new Queue<nat>(maxTasks);
      s := Sem(value, []);
    }

    /** The atomic part of hf_semwait by task t; the caller is blocked if `blocks`. */
    method SemWait(t: nat) returns (blocks: bool)
      requires Valid() && SemOk(s) && t !in s.queue && t < tasks
      requires forall u :: u in s.queue ==> u < tasks
      modifies this, queue, queue.data
      ensures Valid() && s == Wait(old(s), t) && blocks == Blocks(old(s))
      ensures count == old(count) - 1 && (blocks <==> old(count) <= 0)
      ensures queue.Contents() == old(queue.Contents()) + (if blocks then [t] else [])
      ensures SemOk(s) && forall u :: u in s.queue ==> u < tasks
    {
      WaitOk(s, t);
      RoomFor(s.queue, t, tasks);
      count := count - 1;
      blocks := count < 0;
      if blocks {
        var r := queue.AddTail(t);
        assert r == QUEUE_OK;     // PANIC_NUTS_SEM
      }
      s := Sem(count, queue.Contents());
    }

    /** The atomic part of hf_sempost; `woken` becomes ready. */
    method SemPost() returns (woken: Option<nat>)
      requires Valid() && SemOk(s)
      modifies this, queue
      ensures Valid() && s == Post(old(s)) && woken == Woken(old(s))
      ensures count == old(count) + 1 && (woken.Some? <==> old(count) < 0)
      ensures old(queue.Contents()) == (if woken.Some? then [woken.value] else []) + queue.Contents()
      ensures SemOk(s)
    {
      PostOk(s);
      woken := None;
      count := count + 1;
      if count <= 0 {
        woken := queue.RemHead();
        assert woken != None;     // PANIC_NUTS_SEM
      }
      s := Sem(count, queue.Contents());
    }
  }

  // ----- tasks and ticks -----

  /** Where a task is: outside the primitive, between the _ei of hf_semwait and
      the context save of hf_yield, or after that save. */
  datatype Pc = Running | BeforeYield | Yielded

  /** `waits`, `posts` and `done` count calls of hf_semwait, calls of
      hf_sempost and returns from hf_semwait; `queued` and `woken` are all
      tasks ever queued and ever woken, in order. */
  datatype System = System(
    sem: Sem,
    initial: int,
    blocked: seq<bool>,
    pc: seq<Pc>,
    current: nat,
    waits: nat,
    posts: nat,
    done: nat,
    queued: seq<nat>,
    woken: seq<nat>
  )

  /** What the running task or the timer does next. A task that is switched to
      must not be blocked. */
  datatype Event =
    | CallWait
    | CallPost
    | Yield(to: nat)       // the context save of hf_yield, and the switch
    | Return               // hf_yield and hf_semwait return
    | Tick(to: nat)        // the timer interrupt preempts the running task

  ghost predicate Enabled(y: System, e: Event) {
    && |y.blocked| == |y.pc| && y.current < |y.pc|
    && match e
       case CallWait => y.pc[y.current] == Running
       case CallPost => y.pc[y.current] == Running
       case Yield(to) => y.pc[y.current] == BeforeYield && to < |y.pc| && !y.blocked[to]
       case Return => y.pc[y.current] == Yielded
       case Tick(to) => to < |y.pc| && !y.blocked[to]
  }

  function Step(y: System, e: Event): System
    requires Enabled(y, e)
  {
    var t := y.current;
    match e
    case CallWait =>
      var y1 := y.(sem := Wait(y.sem, t), waits := y.waits + 1);
      if Blocks(y.sem) then
        y1.(blocked := y.blocked[t := true], pc := y.pc[t := BeforeYield], queued := y.queued + [t])
      else y1.(done := y.done + 1)
    case CallPost =>
      var y1 := y.(sem := Post(y.sem), posts := y.posts + 1);
      if Woken(y.sem).Some? && Woken(y.sem).value < |y.blocked| then
        y1.(blocked := y.blocked[Woken(y.sem).value := false], woken := y.woken + [Woken(y.sem).value])
      else y1
    case Yield(to) => y.(pc := y.pc[t := Yielded], current := to)
    case Return => y.(pc := y.pc[t := Running], done := y.done + 1)
    case Tick(to) => y.(current := to)
  }

  function Inside(pc: seq<Pc>): nat {
    if pc == [] then 0 else Inside(pc[1..]) + if pc[0] == Running then 0 else 1
  }

  /** The semaphore law. */
  ghost predicate Law(y: System) {
    && |y.blocked| == |y.pc| && y.current < |y.pc|
    && SemOk(y.sem)
    && y.sem.count == y.initial + y.posts - y.waits
    && (forall t: nat :: t in y.sem.queue <==> t < |y.blocked| && y.blocked[t])
    && (forall t :: 0 <= t < |y.pc| && y.blocked[t] ==> y.pc[t] != Running)
    && (y.blocked[y.current] ==> y.pc[y.current] == BeforeYield)
    && y.queued == y.woken + y.sem.queue
    && y.done + Inside(y.pc) == y.waits
  }

  lemma {:induction false} InsideUpdate(pc: seq<Pc>, t: nat, p: Pc)
    requires t < |pc|
    ensures Inside(pc[t := p]) == Inside(pc) + (if p == Running then 0 else 1) - (if pc[t] == Running then 0 else 1)
  {
    if t > 0 {
      InsideUpdate(pc[1..], t - 1, p);
      assert pc[t := p][1..] == pc[1..][t - 1 := p];
    } else {
      assert pc[t := p][1..] == pc[1..];
    }
  }

  lemma WaitLaw(y: System)
    requires Law(y) && Enabled(y, CallWait)
    ensures Law(Step(y, CallWait)) && |y.sem.queue| < |y.pc|
  {
    var t := y.current;
    assert t !in y.sem.queue;
    WaitOk(y.sem, t);
    RoomFor(y.sem.queue, t, |y.pc|);
    InsideUpdate(y.pc, t, BeforeYield);
    hide SemOk, Inside;
  }

  lemma PostLaw(y: System)
    requires Law(y) && Enabled(y, CallPost)
    ensures Law(Step(y, CallPost)) && !PostPanics(y.sem)
  {
    PostOk(y.sem);
    hide SemOk, Inside, Woken;
    var y', q' := Step(y, CallPost), Post(y.sem).queue;
    if Woken(y.sem).Some? {
      var w := Woken(y.sem).value;
      assert w in y.sem.queue && w < |y.blocked|;
      assert y.queued == y.woken + [w] + q' == y'.woken + q';
      forall t: nat
        ensures t in q' <==> t < |y'.blocked| && y'.blocked[t]
      {
        assert t in y.sem.queue <==> t == w || t in q';
      }
    }
  }

  lemma SwitchLaw(y: System, e: Event)
    requires Law(y) && Enabled(y, e) && (e.Yield? || e == Return || e.Tick?)
    ensures Law(Step(y, e))
  {
    if e.Yield? { InsideUpdate(y.pc, y.current, Yielded); }
    if e == Return { InsideUpdate(y.pc, y.current, Running); }
    hide SemOk, Inside;
  }

  /** Every event keeps the law, and neither panic can happen. */
  lemma StepLaw(y: System, e: Event)
    requires Law(y) && Enabled(y, e)
    ensures Law(Step(y, e))
    ensures e == CallWait ==> |y.sem.queue| < |y.pc|
    ensures e == CallPost ==> !PostPanics(y.sem)
  {
    match e
    case CallWait => WaitLaw(y);
    case CallPost => PostLaw(y);
    case _ => SwitchLaw(y, e);
    hide Law, Step;
  }

  function Boot(n: nat, value: nat): System {
    System(Sem(value, []), value, seq(n, _ => false), seq(n, _ => Running), 0, 0, 0, 0, [], [])
  }

  lemma {:induction false} AllRunning(pc: seq<Pc>)
    requires forall t :: 0 <= t < |pc| ==> pc[t] == Running
    ensures Inside(pc) == 0
  {
    if pc != [] { AllRunning(pc[1..]); }
  }

  ghost predicate Run(states: seq<System>, events: seq<Event>) {
    && |states| == |events| + 1
    && forall i :: 0 <= i < |events| ==> Enabled(states[i], events[i]) && states[i + 1] == Step(states[i], events[i])
  }

  /** The law holds at every moment of every run: the count is what was posted
      less what was waited for, queued tasks are the blocked ones, and tasks
      are woken in the order in which they were queued, none forgotten. */
  lemma {:induction false} RunLaw(states: seq<System>, events: seq<Event>, n: nat, value: nat, k: nat)
    requires Run(states, events) && states[0] == Boot(n, value) && 0 < n && k < |states|
    ensures Law(states[k])
  {
    if k == 0 {
      AllRunning(states[0].pc);
    } else {
      RunLaw(states, events, n, value, k - 1);
      StepLaw(states[k - 1], events[k - 1]);
    }
  }

  lemma {:induction false} BlockedInside(q: seq<nat>, pc: seq<Pc>)
    requires Distinct(q) && forall t :: t in q ==> t < |pc| && pc[t] != Running
    ensures |q| <= Inside(pc)
  {
    if q != [] {
      var t := q[0];
      assert t in q && q == [t] + q[1..];
      InsideUpdate(pc, t, Running);
      forall u | u in q[1..]
        ensures u < |pc| && pc[t := Running][u] != Running
      {
        var j :| 0 <= j < |q[1..]| && q[1..][j] == u;
        assert u in q && q[0] != q[j + 1];
      }
      BlockedInside(q[1..], pc[t := Running]);
    }
  }

  /** Never more returns from hf_semwait than the initial value and the posts
      allow; and a woken task is not blocked, wherever the tick fell. */
  lemma SemaphoreBound(states: seq<System>, events: seq<Event>, n: nat, value: nat, k: nat)
    requires Run(states, events) && states[0] == Boot(n, value) && 0 < n && k < |states|
    ensures states[k].done <= states[k].initial + states[k].posts
    ensures forall t :: 0 <= t < |states[k].pc| && t < |states[k].blocked| && t !in states[k].sem.queue ==> !states[k].blocked[t]
  {
    RunLaw(states, events, n, value, k);
    BlockedInside(states[k].sem.queue, states[k].pc);
  }
}
