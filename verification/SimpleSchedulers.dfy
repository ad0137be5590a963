/** The two simple best effort schedulers (sys/kernel/scheduler.c): round robin
    and lottery. Both turn the run queue until a condition holds. */
module SimpleSchedulers {
  import opened Queues
  import opened Sequences
  import opened Tasks
  import opened SchedulerSpec
  import opened TaskOpsSpec
  import opened Scheduler
  import opened Arithmetic

  /** The queue after n calls of run_queue_next. */
  function Turn(q: seq<nat>, n: nat): (r: seq<nat>)
    requires q != []
    ensures |r| == |q|
  {
    if n == 0 then q else Rot(Turn(q, n - 1))
  }

  predicate Ready(tcb: seq<Tcb>, t: nat) {
    t < |tcb| && tcb[t].state != Blocked
  }

  /** How many of the first n tasks that come to the head are not blocked. */
  function ReadyCount(tcb: seq<Tcb>, q: seq<nat>, n: nat): nat
    requires q != []
  {
    if n == 0 then 0 else ReadyCount(tcb, q, n - 1) + if Ready(tcb, Turn(q, n - 1)[0]) then 1 else 0
  }

  /** After n turns the task last taken from the head is the c-th that is not
      blocked; only its job counter has changed. */
  ghost predicate Drawn(s: KState, s': KState, id: nat, n: nat, c: nat) {
    && s.run != [] && n > 0 && id == Turn(s.run, n - 1)[0] && Ready(s.tcb, id) && ReadyCount(s.tcb, s.run, n) == c
    && s' == s.(run := Turn(s.run, n), tcb := s.tcb[id := s.tcb[id].(bgjobs := s.tcb[id].bgjobs + 1)])
  }

  lemma {:induction false} TurnInTable(tcb: seq<Tcb>, q: seq<nat>, n: nat)
    requires InTable(tcb, q) && q != []
    ensures InTable(tcb, Turn(q, n))
  {
    if n > 0 { TurnInTable(tcb, q, n - 1); }
  }

  /** Some task of the queue is not blocked: the idle task, in a running kernel. */
  ghost predicate SomeReady(tcb: seq<Tcb>, q: seq<nat>) {
    exists p :: 0 <= p < |q| && Ready(tcb, q[p])
  }

  /** The next turn brings a ready task one place nearer to the head, or to it. */
  lemma Nearer(tcb: seq<Tcb>, q: seq<nat>, p: nat)
    requires p < |q| && Ready(tcb, q[p])
    ensures var p' := if p == 0 then |q| - 1 else p - 1; Ready(tcb, Rot(q)[p'])
  {
  }

  lemma TurnStep(tcb: seq<Tcb>, q: seq<nat>, n: nat)
    requires q != []
    ensures Turn(q, n + 1) == Rot(Turn(q, n)) && |Turn(q, n)| == |q|
    ensures ReadyCount(tcb, q, n + 1) == ReadyCount(tcb, q, n) + if Ready(tcb, Turn(q, n)[0]) then 1 else 0
  {
  }

  /** The queue has been turned n times and nothing else has happened. */
  ghost predicate Turned(s: KState, v: KState, n: nat) {
    s.run != [] && InTable(s.tcb, s.run) && |s.run| <= |s.tcb| && v == s.(run := Turn(s.run, n)) && SomeReady(s.tcb, v.run)
  }

  /** The queue is turned until a task comes that is not blocked. */
  method NextReady(k: Kernel, ghost s: KState, ghost n0: nat) returns (ghost n: nat)
    requires k.Valid() && Turned(s, k.v, n0)
    modifies k`v, k`krnlTask, k.runQ, k.runQ.data
    ensures k.Valid() && Turned(s, k.v, n) && n > n0
    ensures ReadyCount(s.tcb, s.run, n) == ReadyCount(s.tcb, s.run, n0) + 1
    ensures k.krnlTask == Turn(s.run, n - 1)[0] && Ready(s.tcb, k.krnlTask)
  {
    hide Kernel.Valid, Turn, ReadyCount, Rot;
    n := n0;
    ghost var p: nat :| p < |k.v.run| && Ready(s.tcb, k.v.run[p]);
    var again := true;
    while again
      invariant k.Valid() && Turned(s, k.v, n) && p < |k.v.run| && Ready(s.tcb, k.v.run[p]) && n >= n0
      invariant ReadyCount(s.tcb, s.run, n) == ReadyCount(s.tcb, s.run, n0) + if again then 0 else 1
      invariant !again ==> n > n0 && k.krnlTask == Turn(s.run, n - 1)[0] && Ready(s.tcb, k.krnlTask)
      decreases again, p
    {
      Nearer(s.tcb, k.v.run, p);
      TurnStep(s.tcb, s.run, n);
      TurnStep(s.tcb, s.run, n + 1);
      TurnInTable(s.tcb, s.run, n);
      k.RunQueueNext();
      p := if p == 0 then |k.v.run| - 1 else p - 1;
      n := n + 1;
      var x := k.GetTcb(k.krnlTask);
      again := x.state == Blocked;
    }
  }

  /** The task at hand has run once more. */
  method CountJob(k: Kernel, ghost s: KState, ghost n: nat) returns (id: nat)
    requires k.Valid() && Turned(s, k.v, n) && n > 0 && k.krnlTask == Turn(s.run, n - 1)[0] && Ready(s.tcb, k.krnlTask)
    modifies k`v, k.tcb
    ensures k.Valid() && id == k.krnlTask && Drawn(s, k.v, id, n, ReadyCount(s.tcb, s.run, n))
  {
    hide Kernel.Valid, Turn, ReadyCount;
    var x := k.GetTcb(k.krnlTask);
    k.SetTcb(k.krnlTask, x.(bgjobs := x.bgjobs + 1));
    id := k.krnlTask;
  }

  /** sched_rr: the next task that is not blocked. */
  method SchedRR(k: Kernel) returns (id: nat, ghost n: nat)
    requires k.Valid() && InTable(k.v.tcb, k.v.run) && |k.v.run| <= |k.v.tcb| && SomeReady(k.v.tcb, k.v.run)
    modifies k`v, k`krnlTask, k.tcb, k.runQ, k.runQ.data
    ensures k.Valid() && Drawn(old(k.v), k.v, id, n, 1) && k.krnlTask == id
  {
    var count := k.RunCount();
    assert count != 0;            // PANIC_NO_TASKS_RUN
    ghost var s := k.v;
    n := NextReady(k, s, 0);
    id := CountJob(k, s, n);
  }

  lemma SmallRemainder(i: nat, tasks: nat)
    requires i < tasks
    ensures i % tasks == i
  {
  }

  /** sched_lottery, with the number that random() gives: the task drawn is the
      one after random() % krnl_tasks others that are not blocked. */
  method SchedLottery(k: Kernel, random: nat) returns (id: nat, ghost n: nat)
    requires k.Valid() && InTable(k.v.tcb, k.v.run) && |k.v.run| <= |k.v.tcb| && SomeReady(k.v.tcb, k.v.run)
    requires k.krnlTasks > 0
    modifies k`v, k`krnlTask, k.tcb, k.runQ, k.runQ.data
    ensures k.Valid() && Drawn(old(k.v), k.v, id, n, random % old(k.krnlTasks) + 1) && k.krnlTask == id
  {
    hide Turn, ReadyCount, Drawn, SomeReady, Kernel.Valid, Turned;
    ghost var s := k.v;
    var tasks := k.krnlTasks;
    var r, i := random % tasks, 0;
    var count := k.RunCount();
    StartTurned(s);
    assert count != 0;            // PANIC_NO_TASKS_RUN
    n := NextReady(k, s, 0);
    SmallRemainder(i, tasks);
    while i % tasks != r
      invariant k.Valid() && Turned(s, k.v, n) && n > 0
      invariant 0 <= i <= r < tasks && i % tasks == i && ReadyCount(s.tcb, s.run, n) == i + 1
      invariant k.krnlTask == Turn(s.run, n - 1)[0] && Ready(s.tcb, k.krnlTask)
      decreases r - i
    {
      i := i + 1;
      SmallRemainder(i, tasks);
      n := NextReady(k, s, n);
    }
    id := CountJob(k, s, n);
  }

  lemma StartTurned(s: KState)
    requires InTable(s.tcb, s.run) && |s.run| <= |s.tcb| && SomeReady(s.tcb, s.run)
    ensures s.run != [] && Turned(s, s, 0) && ReadyCount(s.tcb, s.run, 0) == 0
  {
  }

  // ----- in the running kernel -----

  /** The kernel invariant gives both schedulers what they need, so neither
      panics, and while the idle task is not blocked neither turns for ever. */
  lemma KernelDraws(s: KState)
    requires KernelInv(s)
    ensures InTable(s.tcb, s.run) && 0 < |s.run| <= |s.tcb| && s.tasks > 0
    ensures s.tcb[0].state != Blocked ==> SomeReady(s.tcb, s.run)
  {
    InvEnablesSchedulers(s);
    var p :| 0 <= p < |s.run| && s.run[p] == 0;
    if s.tcb[0].state != Blocked { assert Ready(s.tcb, s.run[p]); }
  }

  lemma {:induction false} TurnMultiset(q: seq<nat>, n: nat)
    requires q != []
    ensures multiset(Turn(q, n)) == multiset(q)
  {
    if n > 0 {
      TurnMultiset(q, n - 1);
      var t := Turn(q, n - 1);
      assert t == [t[0]] + t[1..];
    }
  }

  lemma NextRemainder(n: nat, k: nat)
    requires k > 0
    ensures (n + 1) % k == if n % k + 1 == k then 0 else n % k + 1
  {
    var d := n / k;
    assert n == d * k + n % k;
    if n % k + 1 == k {
      assert (d + 1) * k == d * k + k;
      DivUnique(n + 1, k, d + 1);
    } else {
      DivUnique(n + 1, k, d);
    }
  }

  lemma RotOnce(q: seq<nat>, i: nat)
    requires i < |q|
    ensures Rot(q[i..] + q[..i]) == if i + 1 == |q| then q else q[i + 1..] + q[..i + 1]
  {
  }

  /** Turning n times is one rotation, so that the task taken last is the one at
      place n - 1 of the queue, counted around. */
  lemma {:induction false} TurnAt(q: seq<nat>, n: nat)
    requires q != []
    ensures n % |q| < |q| && Turn(q, n) == q[n % |q|..] + q[..n % |q|] && Turn(q, n)[0] == q[n % |q|]
  {
    hide Rot;
    if n > 0 {
      TurnAt(q, n - 1);
      NextRemainder(n - 1, |q|);
      RotOnce(q, (n - 1) % |q|);
    } else {
      SmallRemainder(0, |q|);
    }
  }

  lemma {:induction false} NoneReady(tcb: seq<Tcb>, q: seq<nat>, n: nat, j: nat)
    requires q != [] && ReadyCount(tcb, q, n) == 0 && j < n
    ensures !Ready(tcb, Turn(q, j)[0])
  {
    if j < n - 1 { NoneReady(tcb, q, n - 1, j); }
  }

  /** The first task of the queue that is not blocked, and its place. */
  ghost predicate FirstReady(tcb: seq<Tcb>, q: seq<nat>, i: nat) {
    && i < |q| && q[i] < |tcb| && tcb[q[i]].state != Blocked
    && forall j :: 0 <= j < i && q[j] < |tcb| ==> tcb[q[j]].state == Blocked
  }

  lemma FirstTurn(tcb: seq<Tcb>, q: seq<nat>, n: nat)
    requires q != [] && SomeReady(tcb, q) && n > 0
    requires ReadyCount(tcb, q, n) == 1 && Ready(tcb, Turn(q, n - 1)[0])
    ensures n <= |q| && FirstReady(tcb, q, n - 1) && Turn(q, n - 1)[0] == q[n - 1]
    ensures Turn(q, n) == q[n..] + q[..n]
  {
    hide Turn;
    var p: nat :| p < |q| && Ready(tcb, q[p]);
    TurnHead(q, p);
    if p < n - 1 { NoneReady(tcb, q, n - 1, p); }
    TurnHead(q, n - 1);
    forall j | 0 <= j < n - 1
      ensures !Ready(tcb, q[j])
    {
      TurnHead(q, j);
      NoneReady(tcb, q, n - 1, j);
    }
    TurnAt(q, n);
    if n < |q| {
      SmallRemainder(n, |q|);
    } else {
      NextRemainder(n - 1, n);
      SmallRemainder(n - 1, n);
      assert Turn(q, n) == q && q[..n] == q;
    }
  }

  lemma TurnHead(q: seq<nat>, j: nat)
    requires j < |q|
    ensures Turn(q, j)[0] == q[j]
  {
    TurnAt(q, j);
    SmallRemainder(j, |q|);
  }

  /** sched_rr in terms of the queue: the first task that is not blocked runs,
      and goes to the tail with the blocked ones before it. */
  lemma RoundRobinPick(s: KState, s': KState, id: nat, n: nat)
    requires Drawn(s, s', id, n, 1) && SomeReady(s.tcb, s.run)
    ensures 0 < n <= |s.run| && id == s.run[n - 1] && id < |s.tcb| && FirstReady(s.tcb, s.run, n - 1)
    ensures s' == s.(run := s.run[n..] + s.run[..n], tcb := s.tcb[id := s.tcb[id].(bgjobs := s.tcb[id].bgjobs + 1)])
  {
    hide Turn, ReadyCount, SomeReady;
    FirstTurn(s.tcb, s.run, n);
  }

  /** Both keep the kernel invariant and pick a live task. */
  lemma DrawnKeeps(s: KState, s': KState, id: nat, n: nat, c: nat)
    requires KernelInv(s) && Drawn(s, s', id, n, c)
    ensures KernelInv(s') && IsLive(s', id)
  {
    hide Turn, ReadyCount;
    TurnMultiset(s.run, n);
    TurnMultiset(s.run, n - 1);
    SameMembers(s.run, Turn(s.run, n), 0);
    SameMembers(s.run, Turn(s.run, n - 1), id);
    assert id in Turn(s.run, n - 1);
    PartitionDistinct(s);
    SameShapePartition(s, s');
  }
}
