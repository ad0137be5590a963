/** Whole runs of the kernel: booting, any sequence of operations, how long a
    delay lasts, that only the task on the processor is running, and that a task
    that waits stays off it until it is woken. */
module KernelRuns {
  import opened Tasks
  import opened SchedulerSpec
  import opened TaskOpsSpec
  import opened Scheduler
  import opened KernelSteps
  import opened TaskStates
  import opened TaskOps

  /** The part of main that creates the queues and spawns the idle task. */
  method Boot(maxTasks: nat) returns (k: Kernel)
    requires 0 < maxTasks < U16
    ensures k.Valid() && fresh(k.Repr()) && KernelInv(k.v) && IdlePickable(k.v)
    ensures k.krnlCurrent == 0 && |k.v.tcb| == maxTasks && k.v.run == [0] && k.v.rt == [] && k.v.dl == []
    ensures forall t :: 0 <= t < maxTasks ==> k.v.tcb[t].state == Idle && (k.v.tcb[t].live <==> t == 0)
  {
    k := new Kernel(maxTasks);
    k.krnlCurrent := 0;
    var id := HfSpawn(k, 0, 0, 0, true);
  }

  /** Drivers, semaphores and condition variables store to the table directly. */
  predicate Stores(op: Op) {
    op.MarkCritical? || op.Wait? || op.Wake?
  }

  /** The calls of task.c that do not schedule. */
  method Call(k: Kernel, op: Op) returns (r: Outcome)
    requires k.Valid() && KernelInv(k.v) && k.krnlCurrent < |k.v.tcb| && !op.Tick? && !op.Yield? && !Stores(op)
    modifies k.Repr()
    ensures !r.Crashed? && (r.Panicked? <==> OpPanics(old(k.v), op))
    ensures r.Returned? ==> k.Valid() && OpStep(old(k.v), old(k.krnlCurrent), op, k.v, k.krnlCurrent)
  {
    hide Kernel.Valid, KernelInv, IdleQueued, Unqueue;
    k.SmallTable();
    InvPartition(k.v);
    WherePanics(k.v, op);
    match op
    case Spawn(p, c, d, ok) =>
      var id := HfSpawn(k, p, c, d, ok);
      r := Returned(id);
    case Block(id) =>
      var e := HfBlock(k, id);
      r := Returned(e);
    case Resume(id) =>
      var e := HfResume(k, id);
      r := Returned(e);
    case ChangePriority(id, p) =>
      var e := HfPrioritySet(k, id, p);
      r := Returned(e);
    case Kill(id) =>
      r := HfKill(k, id);
    case Delay(id, ticks) =>
      r := HfDelay(k, id, ticks);
  }

  method Store(k: Kernel, op: Op)
    requires k.Valid() && k.krnlCurrent < |k.v.tcb| && Stores(op)
    modifies k.Repr()
    ensures k.Valid() && OpStep(old(k.v), old(k.krnlCurrent), op, k.v, k.krnlCurrent)
  {
    hide Kernel.Valid;
    var size := k.TableSize();
    var id := if op == Wait then k.krnlCurrent else op.id;
    if id < size {
      var x := k.GetTcb(id);
      k.SetTcb(id, if op.MarkCritical? then x.(critical := true) else x.(state := if op == Wait then Blocked else Ready));
    }
  }

  /** Executes one operation. It panics exactly if it kills or delays a delayed
      task, crashes exactly if the best effort search finds no task, and
      otherwise keeps the kernel invariant and does what OpStep says. */
  method Execute(k: Kernel, op: Op) returns (r: Outcome)
    requires k.Valid() && KernelInv(k.v) && k.krnlCurrent < |k.v.tcb|
    modifies k.Repr()
    ensures r.Panicked? <==> OpPanics(old(k.v), op)
    ensures r.Crashed? <==> OpFails(old(k.v), old(k.krnlCurrent), op)
    ensures r.Returned? ==>
              && k.Valid() && KernelInv(k.v) && k.krnlCurrent < |k.v.tcb|
              && OpStep(old(k.v), old(k.krnlCurrent), op, k.v, k.krnlCurrent)
  {
    hide Kernel.Valid, KernelInv, Dispatched, Yielded, TickFails, RunnableBE;
    ghost var s, cur := k.v, k.krnlCurrent;
    k.SmallTable();
    if op.Tick? {
      r := DispatchIsr(k, op.locked);
    } else if op == Yield {
      r := HfYield(k);
    } else if Stores(op) {
      Store(k, op);
      r := Returned(ERR_OK);
    } else {
      r := Call(k, op);
    }
    if r.Returned? {
      OpKeeps(s, cur, op, k.v, k.krnlCurrent);
    }
  }

  /** Delayed tasks are live and not the idle task. */
  lemma WherePanics(s: KState, op: Op)
    requires KernelInv(s)
    ensures OpPanics(s, op) ==> op.id != 0 && IsLive(s, op.id)
  {
    PartitionDistinct(s);
  }

  // ----- runs -----

  /** A run of operations that all return: states[i + 1] and curs[i + 1] are
      what ops[i] makes of states[i] with curs[i] on the processor. */
  ghost predicate OpRun(states: seq<KState>, curs: seq<nat>, ops: seq<Op>) {
    && |states| == |curs| == |ops| + 1
    && forall i :: 0 <= i < |ops| ==> StepAt(states, curs, ops, i)
  }

  ghost predicate StepAt(states: seq<KState>, curs: seq<nat>, ops: seq<Op>, i: nat)
    requires |states| == |curs| == |ops| + 1 && i < |ops|
  {
    OpStep(states[i], curs[i], ops[i], states[i + 1], curs[i + 1])
  }

  lemma OpRunMore(states: seq<KState>, curs: seq<nat>, ops: seq<Op>, op: Op, s: KState, cur: nat)
    requires OpRun(states, curs, ops) && OpStep(states[|ops|], curs[|ops|], op, s, cur)
    ensures OpRun(states + [s], curs + [cur], ops + [op])
  {
    hide OpStep;
    forall i | 0 <= i < |ops + [op]|
      ensures StepAt(states + [s], curs + [cur], ops + [op], i)
    {
      if i < |ops| { assert StepAt(states, curs, ops, i); }
    }
  }

  /** Runs any sequence of operations, through `states` with `curs` on the
      processor. The kernel invariant holds after each of them. The run stops
      early only where a delayed task is killed or delayed, or where the search
      finds no task; and it never comes to the latter as long as the idle task
      has a priority below 255 and does not wait. */
  method Run(k: Kernel, ops: seq<Op>) returns (r: Outcome, done: nat, ghost states: seq<KState>, ghost curs: seq<nat>)
    requires k.Valid() && KernelInv(k.v) && k.krnlCurrent < |k.v.tcb|
    modifies k.Repr()
    ensures done <= |ops| && OpRun(states, curs, ops[..done]) && states[0] == old(k.v) && curs[0] == old(k.krnlCurrent)
    ensures forall i :: 0 <= i <= done ==> KernelInv(states[i]) && curs[i] < |states[i].tcb|
    ensures r.Returned? ==> done == |ops| && k.Valid() && k.v == states[done] && k.krnlCurrent == curs[done]
    ensures r.Panicked? ==> done < |ops| && OpPanics(states[done], ops[done])
    ensures r.Crashed? ==> done < |ops| && OpFails(states[done], curs[done], ops[done])
    ensures IdlePickable(old(k.v)) && (forall i :: 0 <= i < done ==> !StopsIdle(curs[i], ops[i])) ==> !r.Crashed?
  {
    hide Kernel.Valid, KernelInv, OpStep, OpFails, OpPanics, IdlePickable, StopsIdle;
    r, done, states, curs := Returned(ERR_OK), 0, [k.v], [k.krnlCurrent];
    while done < |ops|
      invariant 0 <= done <= |ops| && k.Valid() && OpRun(states, curs, ops[..done])
      invariant k.v == states[done] && k.krnlCurrent == curs[done] && states[0] == old(k.v) && curs[0] == old(k.krnlCurrent)
      invariant forall i :: 0 <= i <= done ==> KernelInv(states[i]) && curs[i] < |states[i].tcb|
      invariant IdlePickable(old(k.v)) && (forall i :: 0 <= i < done ==> !StopsIdle(curs[i], ops[i])) ==> IdlePickable(k.v)
    {
      ghost var s, cur := k.v, k.krnlCurrent;
      if IdlePickable(s) { IdleNeverFails(s, cur, ops[done]); }
      r := Execute(k, ops[done]);
      if !r.Returned? { return; }
      OpKeeps(s, cur, ops[done], k.v, k.krnlCurrent);
      OpRunMore(states, curs, ops[..done], ops[done], k.v, k.krnlCurrent);
      assert ops[..done + 1] == ops[..done] + [ops[done]];
      states, curs := states + [k.v], curs + [k.krnlCurrent];
      done := done + 1;
    }
    r := Returned(ERR_OK);
  }

  // ----- how long a delay lasts -----

  function Ticks(ops: seq<Op>): nat {
    if ops == [] then 0 else Ticks(ops[..|ops| - 1]) + if ops[|ops| - 1] == Tick(false) then 1 else 0
  }

  lemma {:induction false} RunKeeps(states: seq<KState>, curs: seq<nat>, ops: seq<Op>, n: nat)
    requires OpRun(states, curs, ops) && KernelInv(states[0]) && n < |states|
    ensures KernelInv(states[n])
  {
    hide KernelInv, OpStep;
    if n > 0 {
      RunKeeps(states, curs, ops, n - 1);
      assert StepAt(states, curs, ops, n - 1);
      OpKeeps(states[n - 1], curs[n - 1], ops[n - 1], states[n], curs[n]);
    }
  }

  /** A delay of d lasts exactly d ticks, whatever else happens in between: after
      n operations with less than d ticks among them the task is still delayed,
      for the rest of its time, and at the d-th tick it is gone. */
  lemma {:induction false} DelayIsExact(states: seq<KState>, curs: seq<nat>, ops: seq<Op>, t: nat, d: nat, n: nat)
    requires OpRun(states, curs, ops) && KernelInv(states[0]) && n <= |ops|
    requires t in states[0].dl && t < |states[0].tcb| && states[0].tcb[t].delay == d
    ensures Ticks(ops[..n]) < d ==>
              t in states[n].dl && t < |states[n].tcb| && states[n].tcb[t].delay == d - Ticks(ops[..n])
    ensures n > 0 && ops[n - 1] == Tick(false) && Ticks(ops[..n]) == d ==> t !in states[n].dl
  {
    hide KernelInv, OpStep;
    if n == 0 {
      assert ops[..0] == [];
    } else {
      assert ops[..n][..n - 1] == ops[..n - 1];
      DelayIsExact(states, curs, ops, t, d, n - 1);
      if Ticks(ops[..n - 1]) < d {
        RunKeeps(states, curs, ops, n - 1);
        assert StepAt(states, curs, ops, n - 1);
        OpDelay(states[n - 1], curs[n - 1], ops[n - 1], states[n], curs[n], t);
      }
    }
  }

  // ----- who may run -----

  /** At most the task that has the processor is running. */
  ghost predicate OnlyCurrentRuns(s: KState, cur: nat) {
    forall t: nat :: t < |s.tcb| && s.tcb[t].state == Running ==> t == cur
  }

  lemma OpOnlyCurrent(s: KState, cur: nat, op: Op, s': KState, cur': nat)
    requires KernelInv(s) && OpStep(s, cur, op, s', cur') && OnlyCurrentRuns(s, cur)
    ensures OnlyCurrentRuns(s', cur')
  {
    hide KernelInv, OpStep;
    OpKeeps(s, cur, op, s', cur');
    forall t: nat | t < |s'.tcb| && s'.tcb[t].state == Running
      ensures t == cur'
    {
      if Schedules(op) {
        PassStates(s, cur, op, s', cur', t);
      } else {
        OpStates(s, cur, op, s', cur', t);
      }
    }
  }

  /** One task runs at a time: in every state of every run, only the task that
      has the processor is in the state TASK_RUNNING. */
  lemma {:induction false} OneTaskRuns(states: seq<KState>, curs: seq<nat>, ops: seq<Op>, n: nat)
    requires OpRun(states, curs, ops) && KernelInv(states[0]) && OnlyCurrentRuns(states[0], curs[0]) && n <= |ops|
    ensures OnlyCurrentRuns(states[n], curs[n])
  {
    hide KernelInv, OpStep, OnlyCurrentRuns;
    if n > 0 {
      OneTaskRuns(states, curs, ops, n - 1);
      RunKeeps(states, curs, ops, n - 1);
      assert StepAt(states, curs, ops, n - 1);
      OpOnlyCurrent(states[n - 1], curs[n - 1], ops[n - 1], states[n], curs[n]);
    }
  }

  /** The operations that end the wait of a task, or the task. */
  predicate Releases(op: Op, t: nat) {
    (op.Wake? || op.Resume? || op.Kill? || op.Delay?) && op.id == t
  }

  ghost predicate Waits(s: KState, t: nat) {
    t < |s.tcb| && s.tcb[t].live && s.tcb[t].state == Blocked
  }

  lemma WaitsOn(s: KState, cur: nat, op: Op, s': KState, cur': nat, t: nat)
    requires KernelInv(s) && OpStep(s, cur, op, s', cur') && Waits(s, t) && !Releases(op, t)
    ensures Waits(s', t) && (Schedules(op) ==> t != cur') && (!Schedules(op) ==> cur' == cur)
  {
    hide KernelInv;
    if Schedules(op) {
      PassStates(s, cur, op, s', cur', t);
    } else {
      OpStates(s, cur, op, s', cur', t);
      StaysLive(s, cur, op, s', cur', t);
    }
  }

  lemma StaysLive(s: KState, cur: nat, op: Op, s': KState, cur': nat, t: nat)
    requires KernelInv(s) && OpStep(s, cur, op, s', cur') && IsLive(s, t) && !(op.Kill? && op.id == t) && !Schedules(op)
    ensures IsLive(s', t)
  {
    hide Partition, FreeSlot, Remove, OpFails, Yielded, Dispatched;
    if op.Spawn? {
      var i := FreeSlot(s.tcb, 0);
      if i < |s.tcb| {
        SpawnFields(s, i, op.period, op.capacity, op.deadline);
        SpawnFailedFields(s, i, op.period, op.capacity, op.deadline);
      }
    }
  }

  /** A task that waits does not get the processor until an operation names it:
      it stays blocked, and from the first tick or yield on another task is on
      the processor. */
  lemma {:induction false} WaitsUntilWoken(states: seq<KState>, curs: seq<nat>, ops: seq<Op>, t: nat, n: nat)
    requires OpRun(states, curs, ops) && KernelInv(states[0]) && Waits(states[0], t) && n <= |ops|
    requires forall m :: 0 <= m < n ==> !Releases(ops[m], t)
    ensures Waits(states[n], t)
    ensures curs[0] != t || (exists m :: 0 <= m < n && Schedules(ops[m])) ==> curs[n] != t
  {
    hide KernelInv, OpStep, Waits, Schedules, Releases;
    if n > 0 {
      WaitsUntilWoken(states, curs, ops, t, n - 1);
      RunKeeps(states, curs, ops, n - 1);
      assert StepAt(states, curs, ops, n - 1);
      WaitsOn(states[n - 1], curs[n - 1], ops[n - 1], states[n], curs[n], t);
    }
  }

  /** In particular a task that has just called hf_semwait and is blocked. */
  lemma WaiterStaysAway(states: seq<KState>, curs: seq<nat>, ops: seq<Op>, k: nat, n: nat)
    requires OpRun(states, curs, ops) && KernelInv(states[0]) && k + 1 < n <= |ops|
    requires ops[k] == Wait && IsLive(states[k], curs[k]) && Schedules(ops[k + 1])
    requires forall m :: k < m < n ==> !Releases(ops[m], curs[k])
    ensures curs[n] != curs[k]
  {
    hide KernelInv, Releases;
    var t := curs[k];
    RunKeeps(states, curs, ops, k);
    RunKeeps(states, curs, ops, k + 1);
    assert StepAt(states, curs, ops, k);
    OpStates(states[k], t, Wait, states[k + 1], curs[k + 1], t);
    StaysLive(states[k], t, Wait, states[k + 1], curs[k + 1], t);
    SuffixRun(states, curs, ops, k + 1);
    assert ops[k + 1..][0] == ops[k + 1];
    WaitsUntilWoken(states[k + 1..], curs[k + 1..], ops[k + 1..], t, n - k - 1);
  }

  lemma SuffixRun(states: seq<KState>, curs: seq<nat>, ops: seq<Op>, k: nat)
    requires OpRun(states, curs, ops) && k <= |ops|
    ensures OpRun(states[k..], curs[k..], ops[k..])
  {
    hide OpStep;
    forall i | 0 <= i < |ops[k..]|
      ensures StepAt(states[k..], curs[k..], ops[k..], i)
    {
      assert StepAt(states, curs, ops, k + i);
    }
  }

  /** hf_delay(id, d) lasts d ticks, for a task that is not delayed yet. */
  lemma DelayLasts(states: seq<KState>, curs: seq<nat>, ops: seq<Op>, k: nat, n: nat)
    requires OpRun(states, curs, ops) && KernelInv(states[0]) && k < n <= |ops|
    requires ops[k].Delay? && ops[k].ticks > 0 && ops[k].id != 0 && IsLive(states[k], ops[k].id)
    ensures var t, d, gone := ops[k].id, ops[k].ticks, Ticks(ops[k + 1..n]);
      && t < |states[k + 1].tcb| == |states[n].tcb|
      && states[k + 1].tcb[t].state == Delayed
      && (gone < d ==> t in states[n].dl && states[n].tcb[t].delay == d - gone)
      && (gone == d && ops[n - 1] == Tick(false) ==> t !in states[n].dl)
  {
    hide KernelInv;
    var t, d := ops[k].id, ops[k].ticks;
    RunKeeps(states, curs, ops, k);
    RunKeeps(states, curs, ops, k + 1);
    assert StepAt(states, curs, ops, k);
    OpStates(states[k], curs[k], ops[k], states[k + 1], curs[k + 1], t);
    DelayStarts(states[k], t, d);
    SuffixRun(states, curs, ops, k + 1);
    assert ops[k + 1..][..n - k - 1] == ops[k + 1..n];
    RunTable(states, curs, ops, k + 1, n);
    DelayIsExact(states[k + 1..], curs[k + 1..], ops[k + 1..], t, d, n - k - 1);
    if n == k + 1 { assert ops[k + 1..n] == []; }
  }

  lemma DelayStarts(s: KState, t: nat, d: uint32)
    requires t < |s.tcb|
    ensures var s' := DelayState(s, t, d); t in s'.dl && |s'.tcb| == |s.tcb| && s'.tcb[t].delay == d
  {
    hide Remove;
  }

  lemma {:induction false} RunTable(states: seq<KState>, curs: seq<nat>, ops: seq<Op>, k: nat, n: nat)
    requires OpRun(states, curs, ops) && KernelInv(states[0]) && k <= n <= |ops|
    ensures |states[n].tcb| == |states[k].tcb|
  {
    hide KernelInv, OpStep;
    if k < n {
      RunTable(states, curs, ops, k, n - 1);
      RunKeeps(states, curs, ops, n - 1);
      assert StepAt(states, curs, ops, n - 1);
      OpKeeps(states[n - 1], curs[n - 1], ops[n - 1], states[n], curs[n]);
    }
  }
}
