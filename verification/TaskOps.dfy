/** The task operations of sys/kernel/task.c and the dispatcher of
    sys/kernel/scheduler.c, each with the state it leaves behind. */
module TaskOps {
  import opened Queues
  import opened Sequences
  import opened Tasks
  import opened SchedulerSpec
  import opened TaskOpsSpec
  import opened Scheduler
  import opened KernelSteps
  import opened TaskStates

  /** How a kernel call ends; Crashed is the use of a NULL krnl_task2. */
  datatype Outcome = Returned(code: int) | Panicked(cause: int) | Crashed

  const PANIC_NO_TASKS_RUN: int := 0x05
  const PANIC_NO_TASKS_RT: int := 0x06

  /** Search the run queue for t, swap it down to the head and remove it. */
  method RunRemove(k: Kernel, t: nat) returns (found: bool)
    requires k.Valid()
    modifies k`v, k.runQ, k.runQ.data
    ensures k.Valid()
    ensures found == (t in old(k.v).run)
    ensures k.v == old(k.v).(run := Remove(old(k.v).run, t))
  {
    hide Kernel.Valid, Swapped, Remove, Sunk;
    ghost var s := k.v;
    var n := k.RunCount();
    var i := 0;
    RemoveNone(s.run, t);
    while i < n
      invariant 0 <= i <= n && t !in s.run[..i]
      invariant k.Valid() && k.v == s
    {
      var e := k.RunGet(i);
      if e == Some(t) { break; }
      PrefixNext(s.run, i, t);
      i := i + 1;
    }
    if i == n {
      assert s.run[..n] == s.run;
      return false;
    }
    RemoveAt(s.run, i);
    SunkEnds(s.run, i);
    var j := i;
    while j > 0
      invariant 0 <= j <= i && k.Valid()
      invariant k.v == s.(run := Sunk(s.run, i, j))
    {
      SunkStep(s.run, i, j);
      var r := k.RunSwap(j, j - 1);
      assert r == QUEUE_OK;       // PANIC_CANT_SWAP
      j := j - 1;
    }
    var h := k.RunRem();
    assert h == Some(t);          // PANIC_UNKNOWN_TASK_STATE
    return true;
  }

  /** The same on the RT queue. */
  method RtRemove(k: Kernel, t: nat) returns (found: bool)
    requires k.Valid()
    modifies k`v, k.rtQ, k.rtQ.data
    ensures k.Valid()
    ensures found == (t in old(k.v).rt)
    ensures k.v == old(k.v).(rt := Remove(old(k.v).rt, t))
  {
    hide Kernel.Valid, Swapped, Remove, Sunk;
    ghost var s := k.v;
    var n := k.RtCount();
    var i := 0;
    RemoveNone(s.rt, t);
    while i < n
      invariant 0 <= i <= n && t !in s.rt[..i]
      invariant k.Valid() && k.v == s
    {
      var e := k.RtGet(i);
      if e == Some(t) { break; }
      PrefixNext(s.rt, i, t);
      i := i + 1;
    }
    if i == n {
      assert s.rt[..n] == s.rt;
      return false;
    }
    RemoveAt(s.rt, i);
    SunkEnds(s.rt, i);
    var j := i;
    while j > 0
      invariant 0 <= j <= i && k.Valid()
      invariant k.v == s.(rt := Sunk(s.rt, i, j))
    {
      SunkStep(s.rt, i, j);
      var r := k.RtSwap(j, j - 1);
      assert r == QUEUE_OK;       // PANIC_CANT_SWAP
      j := j - 1;
    }
    var h := k.RtRem();
    assert h == Some(t);          // PANIC_UNKNOWN_TASK_STATE
    return true;
  }

  /** The first slot of the table without a task, or MAX_TASKS. */
  method FindFreeSlot(k: Kernel) returns (i: nat)
    requires k.Valid()
    ensures i == FreeSlot(k.v.tcb, 0)
  {
    hide Kernel.Valid, FreeSlot;
    var n := k.TableSize();
    i := 0;
    while i < n
      invariant 0 <= i <= n && FreeSlot(k.v.tcb, 0) >= i
    {
      FreeSlotHere(k.v.tcb, i);
      var x := k.GetTcb(i);
      if !x.live { return; }
      i := i + 1;
    }
  }

  /** Puts t on the queue its period names. */
  method Enqueue(k: Kernel, t: nat, period: uint16)
    requires k.Valid() && |k.v.rt| < |k.v.tcb| && |k.v.run| < |k.v.tcb|
    modifies k`v, k.rtQ, k.rtQ.data, k.runQ, k.runQ.data
    ensures k.Valid()
    ensures k.v == if period != 0 then old(k.v).(rt := old(k.v).rt + [t])
                   else old(k.v).(run := old(k.v).run + [t])
  {
    hide Kernel.Valid;
    if period != 0 {
      var e := k.RtAdd(t);
      assert e == QUEUE_OK;       // PANIC_CANT_PLACE_RT
    } else {
      var e := k.RunAdd(t);
      assert e == QUEUE_OK;       // PANIC_CANT_PLACE_RUN
    }
  }

  /** Takes t off the queue its period names, if it is there. */
  method Dequeue(k: Kernel, t: nat, period: uint16) returns (found: bool)
    requires k.Valid()
    modifies k`v, k.rtQ, k.rtQ.data, k.runQ, k.runQ.data
    ensures k.Valid()
    ensures found == (t in if period != 0 then old(k.v).rt else old(k.v).run)
    ensures k.v == if period != 0 then old(k.v).(rt := Remove(old(k.v).rt, t))
                   else old(k.v).(run := Remove(old(k.v).run, t))
  {
    hide Kernel.Valid, Remove;
    if period != 0 {
      found := RtRemove(k, t);
    } else {
      found := RunRemove(k, t);
    }
  }

  /** The part of hf_spawn that fills slot i in. */
  method SpawnAt(k: Kernel, i: nat, period: uint16, capacity: uint16, deadline: uint16, stackOk: bool)
    returns (r: int)
    requires k.Valid() && Partition(k.v) && i < |k.v.tcb| < U16 && !k.v.tcb[i].live
    modifies k.Repr()
    ensures k.Valid() && Partition(k.v) && k.krnlCurrent == old(k.krnlCurrent)
    ensures IdleQueued(old(k.v)) ==> IdleQueued(k.v)
    ensures r == if stackOk then i else ERR_OUT_OF_MEMORY
    ensures k.v == if stackOk then SpawnIn(old(k.v), i, period, capacity, deadline)
                   else SpawnFailed(old(k.v), i, period, capacity, deadline)
  {
    hide Kernel.Valid, Partition, IdleQueued, Spawned;
    ghost var s := k.v;
    SpawnKeeps(s, i, period, capacity, deadline);
    SpawnFailedKeeps(s, i, period, capacity, deadline);
    k.AddTasks(1);
    var x := k.GetTcb(i);
    x := Spawned(x, i, period, capacity, deadline);
    k.SetTcb(i, x);
    if stackOk {
      Enqueue(k, i, period);
      r := i;
    } else {
      k.SetTcb(i, x.(live := false));
      k.AddTasks(-1);
      assert k.v == SpawnFailed(s, i, period, capacity, deadline);
      r := ERR_OUT_OF_MEMORY;
    }
    k.krnlTask := k.krnlCurrent;
  }

  method HfSpawn(k: Kernel, period: uint16, capacity: uint16, deadline: uint16, stackOk: bool) returns (r: int)
    requires k.Valid() && Partition(k.v)
    modifies k.Repr()
    ensures k.Valid() && Partition(k.v) && k.krnlCurrent == old(k.krnlCurrent)
    ensures IdleQueued(old(k.v)) ==> IdleQueued(k.v)
    ensures var s := old(k.v); var i := FreeSlot(s.tcb, 0);
            if period < capacity || deadline < capacity then r == ERR_INVALID_PARAMETER && k.v == s
            else if i == |s.tcb| then r == ERR_EXCEED_MAX_NUM && k.v == s
            else if !stackOk then
              r == ERR_OUT_OF_MEMORY && |s.tcb| < U16 && k.v == SpawnFailed(s, i, period, capacity, deadline)
            else r == i && |s.tcb| < U16 && k.v == SpawnIn(s, i, period, capacity, deadline)
    ensures |k.v.tcb| == |old(k.v).tcb|
    ensures forall t: nat :: t < |k.v.tcb| && old(k.v).tcb[t].live ==> k.v.tcb[t] == old(k.v).tcb[t]
    ensures r >= 0 ==>
              && r < |k.v.tcb| && !old(k.v).tcb[r].live && k.v.dl == old(k.v).dl
              && (forall t :: 0 <= t < r ==> old(k.v).tcb[t].live)
              && (forall t: nat :: t < |k.v.tcb| && t != r ==> k.v.tcb[t] == old(k.v).tcb[t])
              && k.v.rt == (if period != 0 then old(k.v).rt + [r] else old(k.v).rt)
              && k.v.run == (if period == 0 then old(k.v).run + [r] else old(k.v).run)
              && var x := k.v.tcb[r];
                 && x.live && x.id == r && x.state == Idle && x.delay == 0
                 && x.priority == 100 && x.priorityRem == 100 && x.critical == old(k.v).tcb[r].critical
                 && x.period == period && x.capacity == capacity && x.deadline == deadline
                 && x.capacityRem == capacity && x.deadlineRem == deadline
                 && x.rtjobs == 0 && x.bgjobs == 0 && x.deadlineMisses == 0
  {
    hide Kernel.Valid, Partition, IdleQueued, FreeSlot, SpawnIn, SpawnFailed;
    if period < capacity || deadline < capacity {
      return ERR_INVALID_PARAMETER;
    }
    var n := k.TableSize();
    ghost var s := k.v;
    var i := FindFreeSlot(k);
    if i == n {
      return ERR_EXCEED_MAX_NUM;
    }
    SpawnFields(s, i, period, capacity, deadline);
    SpawnFailedFields(s, i, period, capacity, deadline);
    r := SpawnAt(k, i, period, capacity, deadline, stackOk);
  }

  lemma FreeSlotHere(tcb: seq<Tcb>, i: nat)
    requires i < |tcb| && FreeSlot(tcb, 0) >= i
    ensures FreeSlot(tcb, 0) == i <==> !tcb[i].live
  {
  }

  /** The checks the operations on a task id start with. */
  method Lookup(k: Kernel, id: uint16) returns (x: Option<Tcb>)
    requires k.Valid()
    ensures x == if id != 0 && IsLive(k.v, id) then Some(k.v.tcb[id]) else None
  {
    var n := k.TableSize();
    hide Kernel.Valid;
    if id == 0 || id >= n { return None; }
    var y := k.GetTcb(id);
    return if y.live then Some(y) else None;
  }

  method SwitchState(k: Kernel, id: nat, x: Tcb, st: TaskState)
    requires k.Valid() && KernelInv(k.v) && 0 < id < |k.v.tcb| && x == k.v.tcb[id]
    modifies k.Repr()
    ensures k.Valid() && KernelInv(k.v) && k.krnlCurrent == old(k.krnlCurrent)
    ensures k.v == SetState(old(k.v), id, st)
  {
    hide Kernel.Valid, KernelInv;
    SetStateKeeps(k.v, id, st);
    k.SetTcb(id, x.(state := st));
    k.krnlTask := k.krnlCurrent;
  }

  method HfBlock(k: Kernel, id: uint16) returns (r: int)
    requires k.Valid() && KernelInv(k.v)
    modifies k.Repr()
    ensures k.Valid() && KernelInv(k.v) && k.krnlCurrent == old(k.krnlCurrent)
    ensures var s := old(k.v);
            if id == 0 || !IsLive(s, id) then r == ERR_INVALID_ID && k.v == s
            else if s.tcb[id].state == Blocked then r == ERR_ERROR && k.v == s
            else r == ERR_OK && k.v == s.(tcb := s.tcb[id := s.tcb[id].(state := Blocked)])
  {
    hide Kernel.Valid, KernelInv;
    var x := Lookup(k, id);
    if x.None? { return ERR_INVALID_ID; }
    if x.value.state == Blocked { return ERR_ERROR; }
    SwitchState(k, id, x.value, Blocked);
    r := ERR_OK;
  }

  method HfResume(k: Kernel, id: uint16) returns (r: int)
    requires k.Valid() && KernelInv(k.v)
    modifies k.Repr()
    ensures k.Valid() && KernelInv(k.v) && k.krnlCurrent == old(k.krnlCurrent)
    ensures var s := old(k.v);
            if id == 0 || !IsLive(s, id) then r == ERR_INVALID_ID && k.v == s
            else if s.tcb[id].state != Blocked then r == ERR_ERROR && k.v == s
            else r == ERR_OK && k.v == s.(tcb := s.tcb[id := s.tcb[id].(state := Ready)])
  {
    hide Kernel.Valid, KernelInv;
    var x := Lookup(k, id);
    if x.None? { return ERR_INVALID_ID; }
    if x.value.state != Blocked { return ERR_ERROR; }
    SwitchState(k, id, x.value, Ready);
    r := ERR_OK;
  }

  method HfPrioritySet(k: Kernel, id: uint16, p: uint8) returns (r: int)
    requires k.Valid() && KernelInv(k.v)
    modifies k.Repr()
    ensures k.Valid() && KernelInv(k.v) && k.krnlCurrent == old(k.krnlCurrent)
    ensures var s := old(k.v);
            if IsLive(s, id) && s.tcb[id].period == 0 then
              r == ERR_OK && k.v == s.(tcb := s.tcb[id := s.tcb[id].(priority := p, priorityRem := p)])
            else r == ERR_INVALID_ID && k.v == s
  {
    hide Kernel.Valid, KernelInv;
    var n := k.TableSize();
    if id < n {
      var x := k.GetTcb(id);
      if x.live && x.period == 0 {
        SetPriorityKeeps(k.v, id, p);
        k.SetTcb(id, x.(priority := p, priorityRem := p));
        return ERR_OK;
      }
    }
    r := ERR_INVALID_ID;
  }

  /** Kills a task. It can panic, and does exactly when the victim is delayed. */
  method HfKill(k: Kernel, id: uint16) returns (r: Outcome)
    requires k.Valid() && KernelInv(k.v)
    modifies k.Repr()
    ensures var s := old(k.v);
            if id == 0 || !IsLive(s, id) then r == Returned(ERR_INVALID_ID) && k.v == s
            else if id in s.dl then
              r == Panicked(if s.tcb[id].period != 0 then PANIC_NO_TASKS_RT else PANIC_NO_TASKS_RUN)
            else r == Returned(ERR_OK) && k.v == KillState(s, id)
    ensures var s := old(k.v);
            r == Returned(ERR_OK) ==>
              && k.v.tcb == s.tcb[id := s.tcb[id].(id := U16 - 1, live := false, state := Idle)]
              && k.v.tasks == s.tasks - 1 && k.v.dl == s.dl
              && k.v.rt == (if s.tcb[id].period != 0 then Remove(s.rt, id) else s.rt)
              && k.v.run == (if s.tcb[id].period == 0 then Remove(s.run, id) else s.run)
    ensures r.Returned? ==> k.Valid() && KernelInv(k.v) && k.krnlCurrent == old(k.krnlCurrent)
  {
    hide Kernel.Valid, KernelInv;
    var x := Lookup(k, id);
    if x.None? { return Returned(ERR_INVALID_ID); }
    r := KillLive(k, id);
  }

  method KillLive(k: Kernel, id: uint16) returns (r: Outcome)
    requires k.Valid() && KernelInv(k.v) && id != 0 && IsLive(k.v, id)
    modifies k.Repr()
    ensures var s := old(k.v);
            if id in s.dl then
              r == Panicked(if s.tcb[id].period != 0 then PANIC_NO_TASKS_RT else PANIC_NO_TASKS_RUN)
            else r == Returned(ERR_OK) && k.v == KillState(s, id)
    ensures r.Returned? ==> k.Valid() && KernelInv(k.v) && k.krnlCurrent == old(k.krnlCurrent)
  {
    hide Kernel.Valid, KernelInv, Partition, Remove;
    ghost var s := k.v;
    InvPartition(s);
    WhereQueued(s, id);
    var x := k.GetTcb(id);
    k.SetTcb(id, Killed(x));
    k.AddTasks(-1);
    var found := Dequeue(k, id, x.period);
    if !found {
      return Panicked(if x.period != 0 then PANIC_NO_TASKS_RT else PANIC_NO_TASKS_RUN);
    }
    assert k.v == KillState(s, id);
    KillKeeps(s, id);
    k.krnlTask := k.krnlCurrent;
    r := Returned(ERR_OK);
  }

  /** Delays a task. It can panic, and does exactly when it is delayed already. */
  method HfDelay(k: Kernel, id: uint16, delay: uint32) returns (r: Outcome)
    requires k.Valid() && KernelInv(k.v)
    modifies k.Repr()
    ensures var s := old(k.v);
            if delay == 0 then r == Returned(ERR_ERROR) && k.v == s
            else if id == 0 || !IsLive(s, id) then r == Returned(ERR_INVALID_ID) && k.v == s
            else if id in s.dl then
              r == Panicked(if s.tcb[id].period != 0 then PANIC_NO_TASKS_RT else PANIC_NO_TASKS_RUN)
            else r == Returned(ERR_OK) && k.v == DelayState(s, id, delay)
    ensures var s := old(k.v);
            r == Returned(ERR_OK) ==>
              && k.v.tcb == s.tcb[id := s.tcb[id].(state := Delayed, delay := delay)]
              && k.v.tasks == s.tasks && k.v.dl == s.dl + [id]
              && k.v.rt == (if s.tcb[id].period != 0 then Remove(s.rt, id) else s.rt)
              && k.v.run == (if s.tcb[id].period == 0 then Remove(s.run, id) else s.run)
    ensures r.Returned? ==> k.Valid() && KernelInv(k.v) && k.krnlCurrent == old(k.krnlCurrent)
  {
    if delay == 0 { return Returned(ERR_ERROR); }
    hide Kernel.Valid, KernelInv;
    var x := Lookup(k, id);
    if x.None? { return Returned(ERR_INVALID_ID); }
    r := DelayLive(k, id, delay);
  }

  method DelayLive(k: Kernel, id: uint16, delay: uint32) returns (r: Outcome)
    requires k.Valid() && KernelInv(k.v) && id != 0 && IsLive(k.v, id) && delay > 0
    modifies k.Repr()
    ensures var s := old(k.v);
            if id in s.dl then
              r == Panicked(if s.tcb[id].period != 0 then PANIC_NO_TASKS_RT else PANIC_NO_TASKS_RUN)
            else r == Returned(ERR_OK) && k.v == DelayState(s, id, delay)
    ensures r.Returned? ==> k.Valid() && KernelInv(k.v) && k.krnlCurrent == old(k.krnlCurrent)
  {
    hide Kernel.Valid, KernelInv, Partition, Remove;
    ghost var s := k.v;
    InvPartition(s);
    WhereQueued(s, id);
    var x := k.GetTcb(id);
    var found := Dequeue(k, id, x.period);
    if !found {
      return Panicked(if x.period != 0 then PANIC_NO_TASKS_RT else PANIC_NO_TASKS_RUN);
    }
    DelayKeeps(s, id, delay);
    k.SetTcb(id, PutToSleep(x, delay));
    var e := k.DelayAdd(id);
    assert e == QUEUE_OK;         // PANIC_CANT_PLACE_DELAY
    assert k.v == DelayState(s, id, delay);
    k.krnlTask := k.krnlCurrent;
    r := Returned(ERR_OK);
  }

  lemma SomeTask(s: KState)
    requires KernelInv(s)
    ensures s.tasks > 0
  {
  }

  /** hf_yield without the context switch. */
  method HfYield(k: Kernel) returns (r: Outcome)
    requires k.Valid() && KernelInv(k.v) && k.krnlCurrent < |k.v.tcb|
    modifies k.Repr()
    ensures r == if RunnableBE(Park(old(k.v), old(k.krnlCurrent))) then Returned(ERR_OK) else Crashed
    ensures r.Returned? ==>
              && k.Valid() && KernelInv(k.v) && IsLive(k.v, k.krnlCurrent)
              && Yielded(old(k.v), old(k.krnlCurrent), k.v, k.krnlCurrent)
              && Switched(old(k.v), old(k.krnlCurrent), k.v, k.krnlCurrent)
  {
    hide Kernel.Valid, KernelInv, PriorityRR, RunnableBE, Distinct, InTable, Switched;
    ghost var s0, cur := k.v, k.krnlCurrent;
    ParkCurrent(k);
    InvEnablesSchedulers(k.v);
    SomeTask(k.v);
    var n := k.TaskCount();
    assert n > 0;                 // PANIC_NO_TASKS_LEFT
    ghost var s := k.v;
    if RunnableBE(s) { RunPickKeeps(s); }
    var pick := k.SchedPriorityRR();
    if pick == None { return Crashed; }
    var id := pick.value;
    var x := k.GetTcb(id);
    k.SetTcb(id, x.(state := Running));
    k.krnlCurrent := id;
    YieldAllStates(s0, cur, k.v, id);
    r := Returned(ERR_OK);
  }

  method ParkCurrent(k: Kernel)
    requires k.Valid() && KernelInv(k.v) && k.krnlCurrent < |k.v.tcb|
    modifies k.Repr()
    ensures k.Valid() && KernelInv(k.v) && k.krnlCurrent == old(k.krnlCurrent)
    ensures k.v == Park(old(k.v), k.krnlCurrent)
  {
    hide Kernel.Valid, KernelInv;
    ParkKeeps(k.v, k.krnlCurrent);
    k.krnlTask := k.krnlCurrent;
    var x := k.GetTcb(k.krnlTask);
    if x.state == Running {
      k.SetTcb(k.krnlTask, x.(state := Ready));
    }
  }

  /** dispatch_isr without the context switch; `locked` is krnl_schedule == 0. */
  method DispatchIsr(k: Kernel, locked: bool) returns (r: Outcome)
    requires k.Valid() && KernelInv(k.v) && k.krnlCurrent < |k.v.tcb|
    modifies k.Repr()
    ensures r == if !locked && TickFails(old(k.v), old(k.krnlCurrent)) then Crashed else Returned(ERR_OK)
    ensures locked ==> k.Valid() && k.v == old(k.v) && k.krnlCurrent == old(k.krnlCurrent)
    ensures !locked && r.Returned? ==>
              && k.Valid() && KernelInv(k.v) && IsLive(k.v, k.krnlCurrent)
              && Dispatched(old(k.v), old(k.krnlCurrent), k.v, k.krnlCurrent)
              && Switched(old(k.v), old(k.krnlCurrent), k.v, k.krnlCurrent)
  {
    if locked { return Returned(ERR_OK); }
    hide Kernel.Valid, KernelInv, Partition, IdleQueued, TickFails, Dispatched, Switched;
    ghost var s, cur := k.v, k.krnlCurrent;
    ParkCurrent(k);
    SomeTask(k.v);
    var n := k.TaskCount();
    assert n > 0;                 // PANIC_NO_TASKS_LEFT
    r := TwoLevels(k, s, cur);
    if r.Returned? { TickAllStates(s, cur, k.v, k.krnlCurrent); }
  }

  /** Lines 100-104: delay queue, real time pass and best effort pass. */
  method TwoLevels(k: Kernel, ghost s: KState, ghost cur: nat) returns (r: Outcome)
    requires k.Valid() && KernelInv(s) && cur < |s.tcb| && k.v == Park(s, cur)
    modifies k.Repr()
    ensures r == if TickFails(s, cur) then Crashed else Returned(ERR_OK)
    ensures r.Returned? ==>
              k.Valid() && KernelInv(k.v) && IsLive(k.v, k.krnlCurrent) && Dispatched(s, cur, k.v, k.krnlCurrent)
  {
    hide Kernel.Valid, KernelInv, Partition, IdleQueued, PriorityRR, RunnableBE, Distinct, Rma, DelaySteps, RtWellFormed, TickFails, InTable;
    ParkKeeps(s, cur);
    DelayStepsKeep(k.v, |k.v.dl|);
    InvPartition(k.v);
    k.ProcessDelayQueue();
    ghost var s2 := k.v;
    InvEnablesSchedulers(s2);
    var id := k.SchedRma();
    ghost var s3, rid := k.v, id;
    RmaKeeps(s2, s3, rid);
    RunRtKeeps(s2, s3, rid);
    TickFailsExact(s, cur, s3, rid);
    if id == 0 {
      InvEnablesSchedulers(s3);
      if RunnableBE(s3) { RunPickKeeps(s3); }
      var pick := k.SchedPriorityRR();
      if pick == None { return Crashed; }
      id := pick.value;
    }
    var x := k.GetTcb(id);
    k.SetTcb(id, x.(state := Running));
    k.krnlCurrent := id;
    assert SecondLevel(s3, rid, k.v, id);
    r := Returned(ERR_OK);
  }

  /** q with its entry i moved down to position j. */
  function Sunk(q: seq<nat>, i: nat, j: nat): seq<nat>
    requires j <= i < |q|
  {
    q[..j] + [q[i]] + q[j..i] + q[i + 1..]
  }

  lemma SunkStep(q: seq<nat>, i: nat, j: nat)
    requires 0 < j <= i < |q|
    ensures |Sunk(q, i, j)| == |q|
    ensures Swapped(Sunk(q, i, j), j, j - 1) == Sunk(q, i, j - 1)
  {
  }

  lemma SunkEnds(q: seq<nat>, i: nat)
    requires i < |q|
    ensures Sunk(q, i, i) == q
    ensures Sunk(q, i, 0) == [q[i]] + (q[..i] + q[i + 1..])
    ensures Sunk(q, i, 0) != [] && Sunk(q, i, 0)[0] == q[i] && Sunk(q, i, 0)[1..] == q[..i] + q[i + 1..]
  {
  }

  lemma PrefixNext(q: seq<nat>, i: nat, t: nat)
    requires i < |q| && t !in q[..i] && q[i] != t
    ensures t !in q[..i + 1]
  {
    assert q[..i + 1] == q[..i] + [q[i]];
  }

  lemma RemoveNone(q: seq<nat>, t: nat)
    ensures t !in q ==> Remove(q, t) == q
  {
  }
}
