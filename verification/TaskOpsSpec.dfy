/** What the task operations of sys/kernel/task.c do to the abstract kernel
    state, and that each keeps the kernel invariant. */
module TaskOpsSpec {
  import opened Queues
  import opened Sequences
  import opened Tasks
  import opened SchedulerSpec

  /** The invariant of the running kernel. */
  ghost predicate KernelInv(s: KState) {
    Partition(s) && IdleQueued(s)
  }

  /** The queue without the first occurrence of t, the rest in order. */
  function Remove(q: seq<nat>, t: nat): (r: seq<nat>)
    ensures t !in q ==> r == q
  {
    if q == [] then [] else if q[0] == t then q[1..] else [q[0]] + Remove(q[1..], t)
  }

  lemma {:induction false} RemoveMultiset(q: seq<nat>, t: nat)
    requires t in q
    ensures multiset(Remove(q, t)) == multiset(q)[t := multiset(q)[t] - 1]
    ensures |Remove(q, t)| == |q| - 1
  {
    assert q == [q[0]] + q[1..];
    if q[0] != t {
      RemoveMultiset(q[1..], t);
    }
  }

  /** Swapping an entry down to the head and removing the head deletes exactly
      that entry and keeps the order of the others. */
  lemma {:induction false} RemoveAt(q: seq<nat>, i: nat)
    requires i < |q| && q[i] !in q[..i]
    ensures Remove(q, q[i]) == q[..i] + q[i + 1..]
  {
    if i > 0 {
      assert q[1..][..i - 1] == q[..i][1..];
      RemoveAt(q[1..], i - 1);
      assert q[0] in q[..i];
    }
  }

  lemma RemoveDistinct(q: seq<nat>, t: nat)
    requires Distinct(q) && t in q
    ensures multiset(Remove(q, t)) == multiset(q)[t := 0]
    ensures forall x: nat :: x in Remove(q, t) <==> x != t && x in q
  {
    RemoveMultiset(q, t);
    CountOne(q, t);
    var r := Remove(q, t);
    forall x: nat
      ensures x in r <==> x != t && x in q
    {
      assert x in r <==> x in multiset(r);
      assert x in q <==> x in multiset(q);
    }
  }

  // ----- spawn -----

  predicate Admissible(period: uint16, capacity: uint16, deadline: uint16) {
    capacity <= period && capacity <= deadline
  }

  /** The entry hf_spawn fills in; `critical` keeps what the slot held. */
  function Spawned(x: Tcb, id: uint16, period: uint16, capacity: uint16, deadline: uint16): Tcb {
    Tcb(id, true, Idle, 100, 100, x.critical, 0, 0, 0, 0, period, capacity, deadline, capacity, deadline)
  }

  /** The first free slot, or |tcb|. */
  function FreeSlot(tcb: seq<Tcb>, from: nat): (i: nat)
    requires from <= |tcb|
    ensures from <= i <= |tcb|
    ensures i < |tcb| ==> !tcb[i].live
    ensures forall j :: from <= j < i ==> tcb[j].live
    decreases |tcb| - from
  {
    if from == |tcb| || !tcb[from].live then from else FreeSlot(tcb, from + 1)
  }

  function SpawnIn(s: KState, i: nat, period: uint16, capacity: uint16, deadline: uint16): KState
    requires i < |s.tcb| < U16
  {
    var s1 := s.(tcb := s.tcb[i := Spawned(s.tcb[i], i, period, capacity, deadline)], tasks := s.tasks + 1);
    if period != 0 then s1.(rt := s.rt + [i]) else s1.(run := s.run + [i])
  }

  /** The entry of a new task, and what else changes. */
  lemma SpawnFields(s: KState, i: nat, period: uint16, capacity: uint16, deadline: uint16)
    requires i < |s.tcb| < U16
    ensures var s' := SpawnIn(s, i, period, capacity, deadline); var x := s'.tcb[i];
      && |s'.tcb| == |s.tcb| && (forall t: nat :: t < |s.tcb| && t != i ==> s'.tcb[t] == s.tcb[t])
      && s'.dl == s.dl
      && s'.rt == (if period != 0 then s.rt + [i] else s.rt)
      && s'.run == (if period == 0 then s.run + [i] else s.run)
      && x.live && x.id == i && x.state == Idle && x.delay == 0
      && x.priority == 100 && x.priorityRem == 100 && x.critical == s.tcb[i].critical
      && x.period == period && x.capacity == capacity && x.deadline == deadline
      && x.capacityRem == capacity && x.deadlineRem == deadline
      && x.rtjobs == 0 && x.bgjobs == 0 && x.deadlineMisses == 0
  {
  }

  lemma SpawnQueued(s: KState, i: nat, period: uint16, capacity: uint16, deadline: uint16)
    requires i < |s.tcb| < U16
    ensures Queued(SpawnIn(s, i, period, capacity, deadline)) == Queued(s) + multiset{i}
  {
  }

  lemma SpawnMember(s: KState, i: nat, period: uint16, capacity: uint16, deadline: uint16, t: nat)
    requires Partition(s) && i < |s.tcb| < U16 && !s.tcb[i].live
    ensures var s' := SpawnIn(s, i, period, capacity, deadline);
            && Queued(s')[t] == (if IsLive(s', t) then 1 else 0)
            && (t in s'.run ==> t < |s'.tcb| && s'.tcb[t].period == 0)
            && (t in s'.rt ==> t < |s'.tcb| && s'.tcb[t].period > 0)
            && (t in s'.dl ==> t < |s'.tcb| && s'.tcb[t].delay > 0)
            && (IsLive(s', t) ==> s'.tcb[t].id == t)
  {
    assert !IsLive(s, i);
    assert i !in s.run && i !in s.rt && i !in s.dl by {
      PartitionDistinct(s);
    }
    SpawnQueued(s, i, period, capacity, deadline);
    var s' := SpawnIn(s, i, period, capacity, deadline);
    assert IsLive(s', t) == (t == i || IsLive(s, t));
    hide Queued;
  }

  lemma SpawnPartition(s: KState, i: nat, period: uint16, capacity: uint16, deadline: uint16)
    requires Partition(s) && i < |s.tcb| < U16 && !s.tcb[i].live
    ensures Partition(SpawnIn(s, i, period, capacity, deadline))
  {
    forall t: nat {
      SpawnMember(s, i, period, capacity, deadline, t);
    }
  }

  /** A spawned task joins exactly one queue, and there is room for it. */
  lemma SpawnKeeps(s: KState, i: nat, period: uint16, capacity: uint16, deadline: uint16)
    requires Partition(s) && i < |s.tcb| < U16 && !s.tcb[i].live
    ensures Partition(SpawnIn(s, i, period, capacity, deadline))
    ensures IdleQueued(s) ==> IdleQueued(SpawnIn(s, i, period, capacity, deadline))
    ensures IdleQueued(s) && IdlePickable(s) ==> IdlePickable(SpawnIn(s, i, period, capacity, deadline))
    ensures |s.run| < |s.tcb| && |s.rt| < |s.tcb|
  {
    hide Partition;
    var s' := SpawnIn(s, i, period, capacity, deadline);
    SpawnPartition(s, i, period, capacity, deadline);
    PartitionFits(s');
    PartitionDistinct(s);
    assert !IsLive(s, i);
  }

  /** A spawn that runs out of memory fills the slot in but leaves it dead. */
  function SpawnFailed(s: KState, i: nat, period: uint16, capacity: uint16, deadline: uint16): KState
    requires i < |s.tcb| < U16
  {
    s.(tcb := s.tcb[i := Spawned(s.tcb[i], i, period, capacity, deadline).(live := false)])
  }

  lemma SpawnFailedFields(s: KState, i: nat, period: uint16, capacity: uint16, deadline: uint16)
    requires i < |s.tcb| < U16
    ensures var s' := SpawnFailed(s, i, period, capacity, deadline);
      && |s'.tcb| == |s.tcb| && !s'.tcb[i].live && (forall t: nat :: t < |s.tcb| && t != i ==> s'.tcb[t] == s.tcb[t])
      && s'.run == s.run && s'.rt == s.rt && s'.dl == s.dl && s'.tasks == s.tasks
  {
  }

  lemma SpawnFailedKeeps(s: KState, i: nat, period: uint16, capacity: uint16, deadline: uint16)
    requires Partition(s) && i < |s.tcb| < U16 && !s.tcb[i].live
    ensures Partition(SpawnFailed(s, i, period, capacity, deadline))
    ensures IdleQueued(s) ==> IdleQueued(SpawnFailed(s, i, period, capacity, deadline))
    ensures IdleQueued(s) && IdlePickable(s) ==> IdlePickable(SpawnFailed(s, i, period, capacity, deadline))
  {
    PartitionDistinct(s);
    var s' := SpawnFailed(s, i, period, capacity, deadline);
    assert !IsLive(s, i);
    forall t: nat
      ensures IsLive(s', t) == IsLive(s, t)
      ensures t in s.run || t in s.rt || t in s.dl ==> t != i
    {
    }
  }

  // ----- kill and delay -----

  function Killed(x: Tcb): Tcb {
    x.(id := U16 - 1, live := false, state := Idle)
  }

  function PutToSleep(x: Tcb, delay: uint32): Tcb {
    x.(state := Delayed, delay := delay)
  }

  /** t is taken off the queue its period names. */
  function Unqueue(s: KState, t: nat): KState
    requires t < |s.tcb|
  {
    if s.tcb[t].period != 0 then s.(rt := Remove(s.rt, t)) else s.(run := Remove(s.run, t))
  }

  function KillState(s: KState, t: nat): KState
    requires t < |s.tcb|
  {
    Unqueue(s, t).(tcb := s.tcb[t := Killed(s.tcb[t])], tasks := s.tasks - 1)
  }

  function DelayState(s: KState, t: nat, delay: uint32): KState
    requires t < |s.tcb|
  {
    Unqueue(s, t).(tcb := s.tcb[t := PutToSleep(s.tcb[t], delay)], dl := s.dl + [t])
  }

  /** A live task that is not delayed is where the search for it looks. */
  lemma WhereQueued(s: KState, t: nat)
    requires Partition(s) && IsLive(s, t)
    ensures t in s.dl <==> t !in (if s.tcb[t].period != 0 then s.rt else s.run)
  {
    PartitionDistinct(s);
  }

  /** t is once in the queue its period names and in no other. */
  lemma WhereOnce(s: KState, t: nat)
    requires Partition(s) && IsLive(s, t) && t !in s.dl
    ensures Distinct(s.run) && Distinct(s.rt)
    ensures if s.tcb[t].period != 0 then t in s.rt && t !in s.run else t in s.run && t !in s.rt
  {
    WhereQueued(s, t);
    PartitionDistinct(s);
  }

  lemma UnqueueQueued(s: KState, t: nat)
    requires Partition(s) && IsLive(s, t) && t !in s.dl
    ensures Queued(Unqueue(s, t)) == Queued(s)[t := 0]
    ensures var s' := Unqueue(s, t); |s'.run| + |s'.rt| + |s'.dl| == |s.run| + |s.rt| + |s.dl| - 1
  {
    WhereOnce(s, t);
    CountOne(s.dl, t);
    hide Partition, Distinct, IsLive, Remove;
    if s.tcb[t].period != 0 {
      RemoveMultiset(s.rt, t);
      RemoveDistinct(s.rt, t);
      CountOne(s.run, t);
    } else {
      RemoveMultiset(s.run, t);
      RemoveDistinct(s.run, t);
      CountOne(s.rt, t);
    }
  }

  lemma UnqueueMembers(s: KState, t: nat)
    requires Partition(s) && IsLive(s, t) && t !in s.dl
    ensures forall x: nat :: x in Unqueue(s, t).run <==> x != t && x in s.run
    ensures forall x: nat :: x in Unqueue(s, t).rt <==> x != t && x in s.rt
  {
    WhereOnce(s, t);
    hide Partition, Distinct, IsLive, Remove;
    if s.tcb[t].period != 0 {
      RemoveDistinct(s.rt, t);
    } else {
      RemoveDistinct(s.run, t);
    }
  }

  lemma KillMember(s: KState, t: nat, x: nat)
    requires Partition(s) && IsLive(s, t) && t !in s.dl
    ensures var s' := KillState(s, t);
            && Queued(s')[x] == (if IsLive(s', x) then 1 else 0)
            && (x in s'.run ==> x < |s'.tcb| && s'.tcb[x].period == 0)
            && (x in s'.rt ==> x < |s'.tcb| && s'.tcb[x].period > 0)
            && (x in s'.dl ==> x < |s'.tcb| && s'.tcb[x].delay > 0)
            && (IsLive(s', x) ==> s'.tcb[x].id == x)
  {
    UnqueueQueued(s, t);
    UnqueueMembers(s, t);
    var s' := KillState(s, t);
    assert Queued(s') == Queued(Unqueue(s, t));
    assert IsLive(s', x) == (x != t && IsLive(s, x));
  }

  lemma KillPartition(s: KState, t: nat)
    requires Partition(s) && IsLive(s, t) && t !in s.dl
    ensures Partition(KillState(s, t))
  {
    forall x: nat {
      KillMember(s, t, x);
    }
    UnqueueQueued(s, t);
    UnqueueMembers(s, t);
  }

  lemma DelayMember(s: KState, t: nat, delay: uint32, x: nat)
    requires Partition(s) && IsLive(s, t) && t !in s.dl && delay > 0
    ensures var s' := DelayState(s, t, delay);
            && Queued(s')[x] == (if IsLive(s', x) then 1 else 0)
            && (x in s'.run ==> x < |s'.tcb| && s'.tcb[x].period == 0)
            && (x in s'.rt ==> x < |s'.tcb| && s'.tcb[x].period > 0)
            && (x in s'.dl ==> x < |s'.tcb| && s'.tcb[x].delay > 0)
            && (IsLive(s', x) ==> s'.tcb[x].id == x)
  {
    UnqueueQueued(s, t);
    UnqueueMembers(s, t);
    var s' := DelayState(s, t, delay);
    assert Queued(s') == Queued(Unqueue(s, t)) + multiset{t};
    assert IsLive(s', x) == IsLive(s, x);
  }

  lemma DelayPartition(s: KState, t: nat, delay: uint32)
    requires Partition(s) && IsLive(s, t) && t !in s.dl && delay > 0
    ensures Partition(DelayState(s, t, delay))
  {
    forall x: nat {
      DelayMember(s, t, delay, x);
    }
    UnqueueQueued(s, t);
    UnqueueMembers(s, t);
  }

  lemma KillKeeps(s: KState, t: nat)
    requires KernelInv(s) && IsLive(s, t) && t !in s.dl && t != 0
    ensures KernelInv(KillState(s, t))
  {
    hide Partition;
    KillPartition(s, t);
    UnqueueQueued(s, t);
    UnqueueMembers(s, t);
  }

  lemma DelayKeeps(s: KState, t: nat, delay: uint32)
    requires KernelInv(s) && IsLive(s, t) && t !in s.dl && t != 0 && delay > 0
    ensures KernelInv(DelayState(s, t, delay))
    ensures |s.dl| < |s.tcb|
  {
    hide Partition;
    DelayPartition(s, t, delay);
    UnqueueQueued(s, t);
    UnqueueMembers(s, t);
    PartitionFits(DelayState(s, t, delay));
  }

  // ----- changes of one TCB that queues do not depend on -----

  function SetState(s: KState, t: nat, st: TaskState): KState
    requires t < |s.tcb|
  {
    s.(tcb := s.tcb[t := s.tcb[t].(state := st)])
  }

  function SetPriority(s: KState, t: nat, p: uint8): KState
    requires t < |s.tcb|
  {
    s.(tcb := s.tcb[t := s.tcb[t].(priority := p, priorityRem := p)])
  }

  lemma SetStateKeeps(s: KState, t: nat, st: TaskState)
    requires KernelInv(s) && t < |s.tcb|
    ensures KernelInv(SetState(s, t, st))
    ensures IdlePickable(s) && (t == 0 ==> st != Blocked) ==> IdlePickable(SetState(s, t, st))
  {
    SameShapePartition(s, SetState(s, t, st));
  }

  lemma SetPriorityKeeps(s: KState, t: nat, p: uint8)
    requires KernelInv(s) && t < |s.tcb|
    ensures KernelInv(SetPriority(s, t, p))
  {
    SameShapePartition(s, SetPriority(s, t, p));
  }

  /** When hf_priorityset is harmless: the search fails after it exactly if it
      is the idle task that gets priority 255, that task is not critical, and no
      other best effort task is ready with a remaining priority below 255 or
      critical. */
  lemma SetPrioritySearch(s: KState, t: nat, p: uint8)
    requires KernelInv(s) && IdlePickable(s) && t < |s.tcb|
    ensures !RunnableBE(SetPriority(s, t, p)) <==>
      && t == 0 && p == 255 && !s.tcb[0].critical
      && forall u :: u in s.run && u != 0 && u < |s.tcb| ==> !CriticalReady(s.tcb[u]) && !Pickable(s.tcb[u])
  {
    hide IdlePickable;
    var s' := SetPriority(s, t, p);
    InvEnablesSchedulers(s);
    IdlePickableMeans(s);
    if t == 0 && p == 255 {
      if RunnableBE(s') {
        var u :| u in s'.run && (CriticalReady(s'.tcb[u]) || Pickable(s'.tcb[u]));
        assert u == 0 ==> s.tcb[0].critical;
      } else {
        assert !CriticalReady(s'.tcb[0]);
        forall u | u in s.run && u != 0 && u < |s.tcb|
          ensures !CriticalReady(s.tcb[u]) && !Pickable(s.tcb[u])
        {
          assert s'.tcb[u] == s.tcb[u];
        }
      }
    } else {
      assert 0 in s'.run && Pickable(s'.tcb[0]);
    }
  }

  lemma IdlePickableMeans(s: KState)
    requires KernelInv(s) && IdlePickable(s)
    ensures 0 in s.run && 0 < |s.tcb| && Pickable(s.tcb[0])
  {
  }

  /** The input on which it fails: with the idle task alone in the run queue and
      not critical, hf_priorityset(0, 255) leaves the search without a task. */
  lemma IdleAtLowest(s: KState)
    requires KernelInv(s) && s.run == [0] && !s.tcb[0].critical
    ensures var s' := SetPriority(s, 0, 255); Best(s'.tcb, Rot(s'.run), 1) == None && !RunnableBE(s')
  {
    var s' := SetPriority(s, 0, 255);
    assert Rot(s'.run) == [0];
    BestExact(s'.tcb, [0], 1);
    SearchExact(s');
  }

  /** hf_semwait and hf_condwait block the calling task whichever it is. Without
      it the search fails exactly if no other best effort task is ready with a
      remaining priority below 255 or critical. */
  lemma BlockSearch(s: KState, t: nat)
    requires KernelInv(s) && t < |s.tcb|
    ensures !RunnableBE(SetState(s, t, Blocked)) <==>
      forall u :: u in s.run && u != t && u < |s.tcb| ==> !CriticalReady(s.tcb[u]) && !Pickable(s.tcb[u])
  {
    var s' := SetState(s, t, Blocked);
    InvEnablesSchedulers(s);
    forall u | u in s.run
      ensures u < |s.tcb| && (u != t ==> s'.tcb[u] == s.tcb[u])
    {
      var i :| 0 <= i < |s.run| && s.run[i] == u;
    }
    assert !CriticalReady(s'.tcb[t]) && !Pickable(s'.tcb[t]);
  }

  /** The input on which it fails: the idle task, alone in the run queue, waits. */
  lemma IdleWaits(s: KState)
    requires KernelInv(s) && s.run == [0]
    ensures var s' := SetState(s, 0, Blocked); Best(s'.tcb, Rot(s'.run), 1) == None && !RunnableBE(s')
  {
    var s' := SetState(s, 0, Blocked);
    assert Rot(s'.run) == [0];
    BestExact(s'.tcb, [0], 1);
    SearchExact(s');
  }

  function SetCritical(s: KState, t: nat): KState
    requires t < |s.tcb|
  {
    s.(tcb := s.tcb[t := s.tcb[t].(critical := true)])
  }

  lemma SetCriticalKeeps(s: KState, t: nat)
    requires KernelInv(s) && t < |s.tcb|
    ensures KernelInv(SetCritical(s, t))
    ensures IdlePickable(s) ==> IdlePickable(SetCritical(s, t))
  {
    SameShapePartition(s, SetCritical(s, t));
  }

  // ----- the scheduling passes -----

  /** The invariant gives the schedulers what they need: tasks in the queues,
      each once, and room. */
  lemma InvEnablesSchedulers(s: KState)
    requires KernelInv(s)
    ensures s.run != [] && InTable(s.tcb, s.run) && Distinct(s.run) && |s.run| <= |s.tcb|
    ensures RtWellFormed(s)
    ensures IdlePickable(s) ==> RunnableBE(s)
  {
    PartitionDistinct(s);
    PartitionFits(s);
    forall i | 0 <= i < |s.run|
      ensures s.run[i] < |s.tcb|
    {
      PartitionInTable(s, i);
    }
    forall i | 0 <= i < |s.rt|
      ensures 0 < s.rt[i] < |s.tcb| && s.tcb[s.rt[i]].id == s.rt[i]
    {
      PartitionInTable(s, i);
      assert s.rt[i] in s.rt;
    }
  }

  lemma PriorityRRTcb(s: KState, t: nat)
    requires RunnableBE(s) && InTable(s.tcb, Rot(s.run)) && t < |s.tcb|
    ensures |PriorityRR(s).0.tcb| == |s.tcb|
    ensures var x, y := s.tcb[t], PriorityRR(s).0.tcb[t];
            && y.live == x.live && y.id == x.id && y.period == x.period && y.delay == x.delay
            && y.state == x.state && y.priority == x.priority
  {
    hide ChargeAll, Best;
    var q := Rot(s.run);
    RotDistinct(s.run);
    SearchExact(s);
    if FirstCritical(s.tcb, q, 0) == |q| {
      ChargeAllAt(s.tcb, q, Best(s.tcb, q, |q|).value, t);
    }
  }

  lemma PriorityRRQueues(s: KState)
    requires RunnableBE(s) && InTable(s.tcb, Rot(s.run))
    ensures var s' := PriorityRR(s).0;
            multiset(s'.run) == multiset(s.run) && s'.rt == s.rt && s'.dl == s.dl && s'.tasks == s.tasks
  {
    assert s.run != [];
    hide ChargeAll, Best, FirstCritical, RunnableBE, RotBy, Rot;
    var q := Rot(s.run);
    RotMultisetOnce(s.run);
    var c := FirstCritical(s.tcb, q, 0);
    if c < |q| {
      RotMultiset(q, c + 1);
    }
  }

  lemma PriorityRRShape(s: KState)
    requires RunnableBE(s) && InTable(s.tcb, Rot(s.run))
    ensures SameShape(s, PriorityRR(s).0)
  {
    hide PriorityRR;
    PriorityRRQueues(s);
    var t0 := s.run[0];
    PriorityRRTcb(s, t0);
    forall t | 0 <= t < |s.tcb| {
      PriorityRRTcb(s, t);
    }
  }

  lemma ChargedIdle(s: KState, q: seq<nat>)
    requires InTable(s.tcb, q) && 0 in q && Best(s.tcb, q, |q|).Some?
    requires IdlePickable(s)
    ensures var x := ChargeAll(s.tcb, q, Best(s.tcb, q, |q|).value)[0];
            x.state != Blocked && x.priorityRem < 255 && x.priority < 255
  {
    hide Best, ChargeAll;
    var j :| 0 <= j < |q| && q[j] == 0;
    var b := Best(s.tcb, q, |q|);
    assert Highest(s.tcb, b) <= s.tcb[q[j]].priorityRem;
    ChargeAllAt(s.tcb, q, b.value, 0);
    NoWrap(s.tcb[0], s.tcb[b.value].priorityRem);
  }

  lemma ChargeAllAt(tcb: seq<Tcb>, q: seq<nat>, b: nat, x: nat)
    requires b < |tcb| && x < |tcb|
    ensures ChargeAll(tcb, q, b)[x] == if x == b then Picked(tcb[x])
                                       else if x in q then Charged(tcb[x], tcb[b].priorityRem) else tcb[x]
  {
  }

  lemma NoWrap(x: Tcb, r: uint8)
    requires r <= x.priorityRem
    ensures Charged(x, r).priorityRem == x.priorityRem - r
  {
  }

  lemma PriorityRRIdle(s: KState)
    requires KernelInv(s) && RunnableBE(s)
    ensures IdleQueued(PriorityRR(s).0)
  {
    hide PriorityRR, Partition;
    InvEnablesSchedulers(s);
    RotDistinct(s.run);
    PriorityRRQueues(s);
    PriorityRRTcb(s, 0);
    SameMembers(s.run, PriorityRR(s).0.run, 0);
  }

  /** The idle task stays one that the search can pick; its remaining priority
      never wraps. */
  lemma PriorityRRPickable(s: KState)
    requires KernelInv(s) && RunnableBE(s) && IdlePickable(s)
    ensures IdlePickable(PriorityRR(s).0)
  {
    hide Partition, Best, SameShape, IdlePickable, ChargeAll;
    var q := Rot(s.run);
    assert s.run == [s.run[0]] + s.run[1..];
    SearchExact(s);
    if FirstCritical(s.tcb, q, 0) == |q| {
      ChargedIdle(s, q);
      BestCharge(s);
    } else {
      CriticalPickable(s);
    }
  }

  lemma BestCharge(s: KState)
    requires RunnableBE(s) && 0 < |s.tcb| && InTable(s.tcb, Rot(s.run)) && FirstCritical(s.tcb, Rot(s.run), 0) == |s.run|
    ensures var b := Best(s.tcb, Rot(s.run), |s.run|);
      b.Some? && b.value < |s.tcb| && PriorityRR(s).0.tcb == ChargeAll(s.tcb, Rot(s.run), b.value)
    ensures var x := ChargeAll(s.tcb, Rot(s.run), Best(s.tcb, Rot(s.run), |s.run|).value)[0];
      IdlePickable(PriorityRR(s).0) <==> x.state != Blocked && x.priorityRem < 255 && x.priority < 255
  {
    hide Best, ChargeAll, FirstCritical;
    SearchExact(s);
  }

  lemma CriticalPickable(s: KState)
    requires RunnableBE(s) && IdlePickable(s) && InTable(s.tcb, Rot(s.run)) && FirstCritical(s.tcb, Rot(s.run), 0) < |s.run|
    ensures IdlePickable(PriorityRR(s).0)
  {
  }

  /** Picking a best effort task keeps the invariant. */
  lemma PriorityRRKeeps(s: KState)
    requires KernelInv(s) && RunnableBE(s)
    ensures KernelInv(PriorityRR(s).0)
    ensures IdlePickable(s) ==> IdlePickable(PriorityRR(s).0)
  {
    hide PriorityRR;
    assert s.run == [s.run[0]] + s.run[1..];
    PriorityRRShape(s);
    PriorityRRIdle(s);
    if IdlePickable(s) { PriorityRRPickable(s); }
    SameShapePartition(s, PriorityRR(s).0);
  }

  lemma RmaTcb(s: KState, s': KState, id: nat, t: nat)
    requires Rma(s, s', id) && t < |s.tcb|
    ensures |s'.tcb| == |s.tcb|
    ensures var x, y := s.tcb[t], s'.tcb[t];
            && y.live == x.live && y.id == x.id && y.period == x.period && y.delay == x.delay
            && y.state == x.state && y.critical == x.critical
            && y.priority == x.priority && y.priorityRem == x.priorityRem
  {
    hide FirstEligible, AccountPass;
    assert InTable(s.tcb, s'.rt);
    AccountPassAt(s.tcb, s'.rt, |s'.rt|, t);
    AccountPassAt(s.tcb, s'.rt, |s'.rt|, if id < |s.tcb| then id else 0);
  }

  lemma RmaShape(s: KState, s': KState, id: nat)
    requires Rma(s, s', id)
    ensures SameShape(s, s')
    ensures forall t :: 0 <= t < |s.tcb| ==>
              && s'.tcb[t].state == s.tcb[t].state
              && s'.tcb[t].critical == s.tcb[t].critical
              && s'.tcb[t].priority == s.tcb[t].priority
              && s'.tcb[t].priorityRem == s.tcb[t].priorityRem
  {
    forall t | 0 <= t < |s.tcb| {
      RmaTcb(s, s', id, t);
    }
    RmaTcb(s, s', id, 0);
  }

  /** A real time pass keeps the invariant. */
  lemma RmaKeeps(s: KState, s': KState, id: nat)
    requires KernelInv(s) && Rma(s, s', id)
    ensures KernelInv(s')
    ensures IdlePickable(s) ==> IdlePickable(s')
  {
    RmaShape(s, s', id);
    PartitionDistinct(s);
    SameShapePartition(s, s');
  }

  /** The real time pass does not change what the best effort search finds. */
  lemma RmaSearch(s: KState, s': KState, id: nat)
    requires KernelInv(s) && Rma(s, s', id)
    ensures RunnableBE(s') <==> RunnableBE(s)
  {
    RmaRun(s, s', id);
    RmaKeeps(s, s', id);
    InvEnablesSchedulers(s);
    InvEnablesSchedulers(s');
    hide Rma, KernelInv, SameShape;
    RmaShape(s, s', id);
    forall t | t in s.run
      ensures t < |s.tcb| && (CriticalReady(s'.tcb[t]) <==> CriticalReady(s.tcb[t])) && (Pickable(s'.tcb[t]) <==> Pickable(s.tcb[t]))
    {
      var i :| 0 <= i < |s.run| && s.run[i] == t;
    }
  }

  lemma RmaRun(s: KState, s': KState, id: nat)
    requires Rma(s, s', id)
    ensures s'.run == s.run && |s'.tcb| == |s.tcb|
  {
  }

  lemma DelayStepIdle(s: KState)
    requires KernelInv(s)
    ensures IdleQueued(DelayStep(s))
    ensures IdlePickable(s) ==> IdlePickable(DelayStep(s))
  {
  }

  lemma DelayStepTable(s: KState)
    ensures |DelayStep(s).tcb| == |s.tcb|
  {
  }

  /** Ageing the delay queue keeps the invariant. */
  lemma {:induction false} DelayStepsKeep(s: KState, n: nat)
    requires KernelInv(s)
    ensures KernelInv(DelaySteps(s, n)) && |DelaySteps(s, n).tcb| == |s.tcb|
    ensures IdlePickable(s) ==> IdlePickable(DelaySteps(s, n))
  {
    hide Partition, IdleQueued, IdlePickable, DelayStep;
    if n > 0 {
      DelayStepsKeep(s, n - 1);
      DelayStepPartition(DelaySteps(s, n - 1));
      DelayStepIdle(DelaySteps(s, n - 1));
      DelayStepTable(DelaySteps(s, n - 1));
    }
  }

  // ----- the dispatcher -----

  /** A task that loses the processor is ready again. */
  function Park(s: KState, t: nat): KState
    requires t < |s.tcb|
  {
    if s.tcb[t].state == Running then SetState(s, t, Ready) else s
  }

  lemma ParkKeeps(s: KState, t: nat)
    requires KernelInv(s) && t < |s.tcb|
    ensures KernelInv(Park(s, t))
    ensures IdlePickable(s) ==> IdlePickable(Park(s, t))
  {
    SetStateKeeps(s, t, Ready);
  }

  /** hf_yield: the best effort scheduler picks and the pick runs. */
  ghost predicate Yielded(s: KState, cur: nat, s': KState, id: nat) {
    && cur < |s.tcb| && RunnableBE(Park(s, cur))
    && var r := PriorityRR(Park(s, cur));
       id == r.1 && id < |r.0.tcb| && s' == SetState(r.0, id, Running)
  }

  /** What follows the real time pass: run its pick, or ask the best effort
      scheduler. */
  ghost predicate SecondLevel(s3: KState, rid: nat, s': KState, id: nat) {
    if rid != 0 then id == rid && rid < |s3.tcb| && s' == SetState(s3, rid, Running)
    else
      && RunnableBE(s3)
      && var r := PriorityRR(s3);
         id == r.1 && id < |r.0.tcb| && s' == SetState(r.0, id, Running)
  }

  /** dispatch_isr: one tick of the two-level scheduler. */
  ghost predicate Dispatched(s: KState, cur: nat, s': KState, id: nat) {
    && cur < |s.tcb|
    && var s1 := Park(s, cur);
       var s2 := DelaySteps(s1, |s1.dl|);
       exists s3: KState, rid: nat :: Rma(s2, s3, rid) && SecondLevel(s3, rid, s', id)
  }

  lemma PickIsLive(s: KState)
    requires KernelInv(s) && RunnableBE(s)
    ensures var r := PriorityRR(s); IsLive(r.0, r.1) && r.1 < |r.0.tcb|
  {
    hide PriorityRR, IdleQueued, RunnableBE;
    PartitionDistinct(s);
    PriorityRRTask(s);
  }

  lemma PriorityRRTask(s: KState)
    requires RunnableBE(s) && forall t: nat :: t in s.run ==> IsLive(s, t)
    ensures var r := PriorityRR(s); IsLive(r.0, r.1) && r.1 < |r.0.tcb|
  {
    hide PriorityRR;
    RotDistinct(s.run);
    assert InTable(s.tcb, Rot(s.run));
    PriorityRRTcb(s, PriorityRR(s).1);
  }

  lemma PriorityRRTable(s: KState)
    requires RunnableBE(s)
    ensures |PriorityRR(s).0.tcb| == |s.tcb|
  {
  }

  /** Picking keeps the invariant, and the processor goes to a live task. */
  lemma RunPickKeeps(s: KState)
    requires KernelInv(s) && RunnableBE(s)
    ensures var r := PriorityRR(s); r.1 < |r.0.tcb| == |s.tcb| && IsLive(r.0, r.1)
    ensures var r := PriorityRR(s);
            KernelInv(SetState(r.0, r.1, Running)) && (IdlePickable(s) ==> IdlePickable(SetState(r.0, r.1, Running)))
  {
    hide PriorityRR, KernelInv, RunnableBE;
    PickIsLive(s);
    InvEnablesSchedulers(s);
    RotDistinct(s.run);
    PriorityRRTable(s);
    PriorityRRKeeps(s);
    var r := PriorityRR(s);
    SetStateKeeps(r.0, r.1, Running);
  }

  lemma RunRtKeeps(s: KState, s': KState, id: nat)
    requires KernelInv(s) && Rma(s, s', id)
    ensures |s'.tcb| == |s.tcb|
    ensures id != 0 ==> id < |s'.tcb| && IsLive(s', id) && KernelInv(SetState(s', id, Running))
    ensures id != 0 && IdlePickable(s) ==> IdlePickable(SetState(s', id, Running))
  {
    hide IdleQueued;
    RmaKeeps(s, s', id);
    if id != 0 {
      PartitionDistinct(s');
      assert id in s'.rt;
      SetStateKeeps(s', id, Running);
    }
  }
}
