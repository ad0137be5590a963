/** The kernel operations as steps between abstract states: when one panics or
    runs into a NULL pointer, what it keeps, and what it does to a delay. */
module KernelSteps {
  import opened Sequences
  import opened Tasks
  import opened SchedulerSpec
  import opened TaskOpsSpec
  import RateMonotonic

  /** What tasks, drivers and the timer can do. `locked` says that hf_schedlock
      holds the scheduler; MarkCritical is what a driver does to its task. Wait
      and Wake are what semaphores and condition variables do to the table: the
      calling task is blocked, and the task that was queued is made ready. */
  datatype Op =
    | Spawn(period: uint16, capacity: uint16, deadline: uint16, stackOk: bool)
    | Block(id: uint16)
    | Resume(id: uint16)
    | ChangePriority(id: uint16, priority: uint8)
    | Kill(id: uint16)
    | Delay(id: uint16, ticks: uint32)
    | MarkCritical(id: uint16)
    | Wait
    | Wake(id: uint16)
    | Tick(locked: bool)
    | Yield

  function SpawnTo(s: KState, period: uint16, capacity: uint16, deadline: uint16, stackOk: bool): KState
    requires |s.tcb| < U16
  {
    var i := FreeSlot(s.tcb, 0);
    if !Admissible(period, capacity, deadline) || i == |s.tcb| then s
    else if !stackOk then SpawnFailed(s, i, period, capacity, deadline)
    else SpawnIn(s, i, period, capacity, deadline)
  }

  /** The tick finds no real time task to run, and then no best effort task. */
  ghost predicate TickFails(s: KState, cur: nat)
    requires cur < |s.tcb|
  {
    var s1 := Park(s, cur);
    var s2 := DelaySteps(s1, |s1.dl|);
    (forall t :: t in s2.rt && t < |s2.tcb| ==> !Eligible(s2.tcb[t])) && !RunnableBE(s2)
  }

  /** The search of sched_priorityrr leaves krnl_task2 NULL. */
  ghost predicate OpFails(s: KState, cur: nat, op: Op)
    requires cur < |s.tcb|
  {
    match op
    case Tick(locked) => !locked && TickFails(s, cur)
    case Yield => !RunnableBE(Park(s, cur))
    case _ => false
  }

  /** A task that is delayed is killed, or delayed again. */
  ghost predicate OpPanics(s: KState, op: Op) {
    (op.Kill? || (op.Delay? && op.ticks > 0)) && op.id in s.dl
  }

  /** The operation, with task cur on the processor, returns and leads to s'. */
  ghost predicate OpStep(s: KState, cur: nat, op: Op, s': KState, cur': nat) {
    && cur < |s.tcb| < U16
    && !OpPanics(s, op) && !OpFails(s, cur, op)
    && (!(op.Tick? && !op.locked) && !op.Yield? ==> cur' == cur)
    && match op
       case Spawn(period, capacity, deadline, stackOk) => s' == SpawnTo(s, period, capacity, deadline, stackOk)
       case Block(id) =>
         s' == if id != 0 && IsLive(s, id) && s.tcb[id].state != Blocked then SetState(s, id, Blocked) else s
       case Resume(id) =>
         s' == if id != 0 && IsLive(s, id) && s.tcb[id].state == Blocked then SetState(s, id, Ready) else s
       case ChangePriority(id, p) =>
         s' == if IsLive(s, id) && s.tcb[id].period == 0 then SetPriority(s, id, p) else s
       case Kill(id) => s' == if id != 0 && IsLive(s, id) then KillState(s, id) else s
       case Delay(id, ticks) => s' == if ticks > 0 && id != 0 && IsLive(s, id) then DelayState(s, id, ticks) else s
       case MarkCritical(id) => s' == if id < |s.tcb| then SetCritical(s, id) else s
       case Wait => s' == SetState(s, cur, Blocked)
       case Wake(id) => s' == if id < |s.tcb| then SetState(s, id, Ready) else s
       case Tick(locked) => if locked then s' == s else Dispatched(s, cur, s', cur')
       case Yield => Yielded(s, cur, s', cur')
  }

  // ----- what an operation keeps -----

  lemma DispatchedKeeps(s: KState, cur: nat, s': KState, id: nat)
    requires KernelInv(s) && Dispatched(s, cur, s', id)
    ensures KernelInv(s') && |s'.tcb| == |s.tcb| && id < |s'.tcb|
    ensures IdlePickable(s) ==> IdlePickable(s')
  {
    hide KernelInv, IdlePickable, Rma, PriorityRR, DelaySteps, RunnableBE;
    ParkKeeps(s, cur);
    var s1 := Park(s, cur);
    DelayStepsKeep(s1, |s1.dl|);
    var s2 := DelaySteps(s1, |s1.dl|);
    var s3: KState, rid: nat :| Rma(s2, s3, rid) && SecondLevel(s3, rid, s', id);
    RmaKeeps(s2, s3, rid);
    RunRtKeeps(s2, s3, rid);
    if rid == 0 {
      RunPickKeeps(s3);
    }
  }

  lemma YieldedKeeps(s: KState, cur: nat, s': KState, id: nat)
    requires KernelInv(s) && Yielded(s, cur, s', id)
    ensures KernelInv(s') && |s'.tcb| == |s.tcb| && id < |s'.tcb| && s'.dl == s.dl
    ensures IdlePickable(s) ==> IdlePickable(s')
    ensures forall t :: 0 <= t < |s.tcb| ==> s'.tcb[t].delay == s.tcb[t].delay
  {
    hide KernelInv, IdlePickable, PriorityRR, RunnableBE;
    ParkKeeps(s, cur);
    var s1 := Park(s, cur);
    RunPickKeeps(s1);
    InvEnablesSchedulers(s1);
    RotDistinct(s1.run);
    PriorityRRQueues(s1);
    PriorityRRShape(s1);
  }

  lemma SpawnToKeeps(s: KState, period: uint16, capacity: uint16, deadline: uint16, stackOk: bool)
    requires KernelInv(s) && |s.tcb| < U16
    ensures var s' := SpawnTo(s, period, capacity, deadline, stackOk);
      && KernelInv(s') && |s'.tcb| == |s.tcb| && s'.dl == s.dl && (IdlePickable(s) ==> IdlePickable(s'))
      && forall t :: 0 <= t < |s.tcb| && t in s.dl ==> s'.tcb[t].delay == s.tcb[t].delay
  {
    hide Partition, IdlePickable, IdleQueued;
    var i := FreeSlot(s.tcb, 0);
    PartitionDistinct(s);
    if i < |s.tcb| {
      SpawnKeeps(s, i, period, capacity, deadline);
      SpawnFailedKeeps(s, i, period, capacity, deadline);
      assert !IsLive(s, i);
    }
  }

  /** The operations after which the search cannot settle for the idle task: its
      priority is set to 255, or it waits. */
  predicate StopsIdle(cur: nat, op: Op) {
    op == ChangePriority(0, 255) || (op == Wait && cur == 0)
  }

  /** Every operation that returns keeps the invariant, and it stays possible to
      pick the idle task unless the operation is one of these. */
  lemma OpKeeps(s: KState, cur: nat, op: Op, s': KState, cur': nat)
    requires KernelInv(s) && OpStep(s, cur, op, s', cur')
    ensures KernelInv(s') && |s'.tcb| == |s.tcb| && cur' < |s'.tcb|
    ensures IdlePickable(s) && !StopsIdle(cur, op) ==> IdlePickable(s')
  {
    hide Partition, Dispatched, Yielded, SpawnTo, OpFails, Unqueue, TickFails;
    KilledIsNotIdle(s);
    match op
    case Spawn(period, capacity, deadline, stackOk) => SpawnToKeeps(s, period, capacity, deadline, stackOk);
    case Block(id) =>
      if id != 0 && IsLive(s, id) { SetStateKeeps(s, id, Blocked); }
    case Resume(id) =>
      if id != 0 && IsLive(s, id) { SetStateKeeps(s, id, Ready); }
    case ChangePriority(id, p) =>
      if IsLive(s, id) { SetPriorityKeeps(s, id, p); }
    case Kill(id) =>
      if id != 0 && IsLive(s, id) { KillKeeps(s, id); }
    case Delay(id, ticks) =>
      if id != 0 && IsLive(s, id) && ticks > 0 { DelayKeeps(s, id, ticks); }
    case MarkCritical(id) =>
      if id < |s.tcb| { SetCriticalKeeps(s, id); }
    case Wait => SetStateKeeps(s, cur, Blocked);
    case Wake(id) =>
      if id < |s.tcb| { SetStateKeeps(s, id, Ready); }
    case Tick(locked) =>
      if !locked { DispatchedKeeps(s, cur, s', cur'); }
    case Yield => YieldedKeeps(s, cur, s', cur');
  }

  lemma KilledIsNotIdle(s: KState)
    requires KernelInv(s)
    ensures 0 !in s.dl && 0 < |s.tcb|
  {
    PartitionDistinct(s);
  }

  /** As long as the search can settle for the idle task, no operation runs into
      the NULL pointer. */
  lemma IdleNeverFails(s: KState, cur: nat, op: Op)
    requires KernelInv(s) && IdlePickable(s) && cur < |s.tcb|
    ensures !OpFails(s, cur, op)
  {
    hide KernelInv, IdlePickable, RunnableBE, DelaySteps;
    ParkKeeps(s, cur);
    var s1 := Park(s, cur);
    InvEnablesSchedulers(s1);
    DelayStepsKeep(s1, |s1.dl|);
    InvEnablesSchedulers(DelaySteps(s1, |s1.dl|));
  }

  /** TickFails is what happens in a tick: the real time pass picks nobody and
      the best effort pass finds nobody. */
  lemma TickFailsExact(s: KState, cur: nat, s3: KState, rid: nat)
    requires KernelInv(s) && cur < |s.tcb|
    requires Rma(DelaySteps(Park(s, cur), |Park(s, cur).dl|), s3, rid)
    ensures TickFails(s, cur) <==> rid == 0 && !RunnableBE(s3)
  {
    hide KernelInv, RunnableBE, DelaySteps, Rma, RtWellFormed;
    ParkKeeps(s, cur);
    var s1 := Park(s, cur);
    DelayStepsKeep(s1, |s1.dl|);
    var s2 := DelaySteps(s1, |s1.dl|);
    InvEnablesSchedulers(s2);
    RateMonotonic.HighestRateRuns(s2, s3, rid);
    RmaSearch(s2, s3, rid);
  }

  // ----- delayed tasks -----

  /** After n turns the first n delayed tasks are counted down, and gone from
      the delay queue exactly if they had one tick left. */
  ghost predicate CountedDown(s: KState, n: nat, a: KState) {
    && n <= |s.dl| <= |a.dl| + n && |a.tcb| == |s.tcb|
    && a.dl[..|s.dl| - n] == s.dl[n..]
    && (forall t: nat :: t < |s.tcb| && t !in s.dl[..n] ==> a.tcb[t] == s.tcb[t])
    && (forall t: nat :: t in s.dl[..n] && t < |s.tcb| ==>
          a.tcb[t] == CountDown(s.tcb[t]) && (t in a.dl <==> !Due(s.tcb[t])))
    && (forall t: nat :: t !in s.dl ==> t !in a.dl)
  }

  lemma {:induction false} DelayStepsCount(s: KState, n: nat)
    requires Partition(s) && n <= |s.dl|
    ensures CountedDown(s, n, DelaySteps(s, n)) && Partition(DelaySteps(s, n))
  {
    hide Partition, CountedDown, DelayStep;
    if n > 0 {
      DelayStepsCount(s, n - 1);
      CountStep(s, n - 1, DelaySteps(s, n - 1));
    } else {
      CountNone(s);
    }
  }

  lemma CountStep(s: KState, n: nat, a: KState)
    requires Partition(s) && Partition(a) && n < |s.dl| && CountedDown(s, n, a)
    ensures CountedDown(s, n + 1, DelayStep(a)) && Partition(DelayStep(a))
  {
    hide Partition, CountedDown, DelayStep;
    DelayStepPartition(a);
    PartitionDistinct(a);
    PartitionDistinct(s);
    DelayedPositive(s, n);
    CountNext(s, n, a);
  }

  lemma CountNext(s: KState, n: nat, a: KState)
    requires n < |s.dl| && CountedDown(s, n, a) && Distinct(s.dl) && Distinct(a.dl)
    requires s.dl[n] < |s.tcb| && s.tcb[s.dl[n]].delay > 0
    ensures CountedDown(s, n + 1, DelayStep(a))
  {
    var t, b := s.dl[n], DelayStep(a);
    assert a.dl[..|s.dl| - n][0] == t;
    assert t !in s.dl[..n] && a.tcb[t] == s.tcb[t];
    StepHead(a);
    hide DelayStep, CountDown;
    assert s.dl[..n + 1] == s.dl[..n] + [t];
    assert s.dl[n..] == [t] + s.dl[n + 1..];
    assert b.dl[..|s.dl| - n - 1] == a.dl[1..][..|s.dl| - n - 1];
    assert a.dl[1..][..|s.dl| - n - 1] == a.dl[..|s.dl| - n][1..];
    assert t !in a.dl[1..];
  }

  /** One turn: the head is counted down, and leaves the delay queue if it is due. */
  lemma StepHead(a: KState)
    requires a.dl != [] && a.dl[0] < |a.tcb| && a.tcb[a.dl[0]].delay > 0
    ensures var t, b := a.dl[0], DelayStep(a);
      && b.tcb == a.tcb[t := CountDown(a.tcb[t])]
      && b.dl == a.dl[1..] + (if Due(a.tcb[t]) then [] else [t])
      && forall x: nat | x != t :: x in b.dl <==> x in a.dl
  {
    assert a.dl == [a.dl[0]] + a.dl[1..];
  }

  lemma CountNone(s: KState)
    ensures CountedDown(s, 0, s)
  {
  }

  lemma DelayedPositive(s: KState, i: nat)
    requires Partition(s) && i < |s.dl|
    ensures s.dl[i] < |s.tcb| && s.tcb[s.dl[i]].delay > 0
  {
    assert s.dl[i] in s.dl;
  }

  /** The real time and best effort passes leave delayed tasks alone. */
  lemma SchedulersSkipDelayed(s2: KState, s3: KState, rid: nat, s': KState, id: nat, t: nat)
    requires KernelInv(s2) && Rma(s2, s3, rid) && SecondLevel(s3, rid, s', id)
    ensures s'.dl == s2.dl && |s'.tcb| == |s2.tcb|
    ensures t < |s2.tcb| ==> s'.tcb[t].delay == s2.tcb[t].delay
  {
    RmaDelays(s2, s3, rid, t);
    if rid == 0 {
      RmaKeeps(s2, s3, rid);
      PriorityRRDelays(s3, t);
    }
    hide PriorityRR, Rma, KernelInv, RunnableBE;
  }

  lemma RmaDelays(s: KState, s': KState, id: nat, t: nat)
    requires KernelInv(s) && Rma(s, s', id)
    ensures s'.dl == s.dl && |s'.tcb| == |s.tcb| && (t < |s.tcb| ==> s'.tcb[t].delay == s.tcb[t].delay)
  {
    RmaDl(s, s', id);
    hide Rma;
    RmaShape(s, s', id);
  }

  lemma PriorityRRDelays(s: KState, t: nat)
    requires KernelInv(s) && RunnableBE(s)
    ensures var s' := PriorityRR(s).0;
      s'.dl == s.dl && |s'.tcb| == |s.tcb| && (t < |s.tcb| ==> s'.tcb[t].delay == s.tcb[t].delay)
  {
    hide PriorityRR;
    RotDistinct(s.run);
    PriorityRRQueues(s);
    PriorityRRShape(s);
  }

  lemma RmaDl(s: KState, s': KState, id: nat)
    requires Rma(s, s', id)
    ensures s'.dl == s.dl
  {
  }

  /** One tick of a delayed task. */
  lemma TickCountsDown(s: KState, cur: nat, s': KState, id: nat, t: nat)
    requires KernelInv(s) && Dispatched(s, cur, s', id) && t in s.dl
    ensures t < |s.tcb| && s.tcb[t].delay > 0
    ensures t in s'.dl <==> s.tcb[t].delay > 1
    ensures t < |s'.tcb| && s'.tcb[t].delay == s.tcb[t].delay - 1
  {
    hide KernelInv, Rma, SecondLevel, DelaySteps;
    ParkKeeps(s, cur);
    InvPartition(s);
    var s1 := Park(s, cur);
    InvPartition(s1);
    var n := |s1.dl|;
    var s2 := DelaySteps(s1, n);
    DelayStepsCount(s1, n);
    DelayStepsKeep(s1, n);
    assert s1.dl[..n] == s1.dl;
    assert t < |s.tcb| && s.tcb[t].delay > 0 by {
      var i :| 0 <= i < |s.dl| && s.dl[i] == t;
      DelayedPositive(s, i);
    }
    var s3: KState, rid: nat :| Rma(s2, s3, rid) && SecondLevel(s3, rid, s', id);
    SchedulersSkipDelayed(s2, s3, rid, s', id, t);
  }

  /** What any operation does to a delay: a tick takes one off and nothing else
      touches it. */
  lemma OpDelay(s: KState, cur: nat, op: Op, s': KState, cur': nat, t: nat)
    requires KernelInv(s) && OpStep(s, cur, op, s', cur') && t in s.dl
    ensures t < |s.tcb| == |s'.tcb|
    ensures if op == Tick(false) then (t in s'.dl <==> s.tcb[t].delay > 1) && s'.tcb[t].delay == s.tcb[t].delay - 1
            else t in s'.dl && s'.tcb[t].delay == s.tcb[t].delay
  {
    hide KernelInv, Dispatched, Yielded, SpawnTo, OpFails, TickFails;
    OpKeeps(s, cur, op, s', cur');
    InvPartition(s);
    DelayedInTable(s, t);
    match op
    case Spawn(period, capacity, deadline, stackOk) => SpawnToKeeps(s, period, capacity, deadline, stackOk);
    case Tick(locked) =>
      if !locked { TickCountsDown(s, cur, s', cur', t); }
    case Yield => YieldedKeeps(s, cur, s', cur');
    case _ =>
  }

  lemma DelayedInTable(s: KState, t: nat)
    requires Partition(s) && t in s.dl
    ensures t < |s.tcb|
  {
  }

  lemma InvPartition(s: KState)
    requires KernelInv(s)
    ensures Partition(s) && IdleQueued(s) && 0 < |s.tcb|
  {
  }
}
