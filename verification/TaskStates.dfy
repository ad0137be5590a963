/** What the operations and scheduling passes do to the states of the tasks, and
    who gets the processor, in terms of the table alone. */
module TaskStates {
  import opened Queues
  import opened Sequences
  import opened Tasks
  import opened SchedulerSpec
  import opened TaskOpsSpec
  import opened KernelSteps
  import RateMonotonic

  /** hf_yield and the timer, unless hf_schedlock holds the scheduler. */
  predicate Schedules(op: Op) {
    op == Yield || op == Tick(false)
  }

  // ----- a change of tasks -----

  /** What a scheduling pass leaves of a task that it need not pick. */
  predicate KeptBy(x: Tcb, y: Tcb) {
    && y.live == x.live && y.id == x.id && y.priority == x.priority
    && y.period == x.period && y.capacity == x.capacity && y.deadline == x.deadline
  }

  lemma ParkTask(s: KState, cur: nat, t: nat)
    requires cur < |s.tcb| && t < |s.tcb|
    ensures Park(s, cur).tcb[t] ==
            if t == cur && s.tcb[t].state == Running then s.tcb[t].(state := Ready) else s.tcb[t]
  {
  }

  lemma PickedTask(s: KState, t: nat)
    requires KernelInv(s) && RunnableBE(s) && t < |s.tcb|
    ensures var r := PriorityRR(s);
      && |r.0.tcb| == |s.tcb| && r.1 < |s.tcb| && s.tcb[r.1].state != Blocked
      && r.0.tcb[t].state == s.tcb[t].state && KeptBy(s.tcb[t], r.0.tcb[t])
  {
    hide PriorityRR;
    InvEnablesSchedulers(s);
    RotDistinct(s.run);
    RunPickKeeps(s);
    PriorityRRTcb(s, t);
    PriorityRRRest(s, t);
  }

  lemma PriorityRRRest(s: KState, t: nat)
    requires RunnableBE(s) && InTable(s.tcb, Rot(s.run)) && t < |s.tcb| == |PriorityRR(s).0.tcb|
    ensures var x, y := s.tcb[t], PriorityRR(s).0.tcb[t]; y.capacity == x.capacity && y.deadline == x.deadline
  {
    hide ChargeAll, Best;
    var q := Rot(s.run);
    RotDistinct(s.run);
    SearchExact(s);
    if FirstCritical(s.tcb, q, 0) == |q| {
      ChargeAllAt(s.tcb, q, Best(s.tcb, q, |q|).value, t);
    }
  }

  /** hf_yield: the task picked was not blocked and runs; the one that had the
      processor is ready if it was running; no other task changes its state. */
  lemma YieldStates(s: KState, cur: nat, s': KState, id: nat, t: nat)
    requires KernelInv(s) && Yielded(s, cur, s', id) && t < |s.tcb|
    ensures |s'.tcb| == |s.tcb| && id < |s.tcb| && s.tcb[id].state != Blocked && KeptBy(s.tcb[t], s'.tcb[t])
    ensures s'.tcb[t].state == if t == id then Running
                               else if t == cur && s.tcb[t].state == Running then Ready else s.tcb[t].state
  {
    hide KernelInv, PriorityRR, RunnableBE;
    ParkKeeps(s, cur);
    ParkTask(s, cur, t);
    var s1 := Park(s, cur);
    PickedTask(s1, t);
    ParkTask(s, cur, id);
  }

  lemma AgedTask(s: KState, t: nat)
    requires KernelInv(s) && t < |s.tcb|
    ensures var a := DelaySteps(s, |s.dl|);
      KernelInv(a) && |a.tcb| == |s.tcb| &&
      a.tcb[t] == if t in s.dl then s.tcb[t].(delay := s.tcb[t].delay - 1) else s.tcb[t]
  {
    hide Partition, DelaySteps;
    DelayStepsKeep(s, |s.dl|);
    DelayStepsCount(s, |s.dl|);
    assert s.dl[..|s.dl|] == s.dl;
    if t in s.dl {
      var i :| 0 <= i < |s.dl| && s.dl[i] == t;
      DelayedPositive(s, i);
    }
  }

  lemma RmaTaskKept(s: KState, s': KState, id: nat, t: nat)
    requires Rma(s, s', id) && t < |s.tcb|
    ensures |s'.tcb| == |s.tcb| && s'.tcb[t].state == s.tcb[t].state && KeptBy(s.tcb[t], s'.tcb[t])
    ensures id != 0 ==> id < |s.tcb| && s.tcb[id].state != Blocked
  {
    hide FirstEligible, AccountPass;
    assert InTable(s.tcb, s'.rt);
    AccountPassAt(s.tcb, s'.rt, |s'.rt|, t);
    AccountPassAt(s.tcb, s'.rt, |s'.rt|, if id < |s.tcb| then id else 0);
  }

  lemma SecondStates(s2: KState, s3: KState, rid: nat, s': KState, id: nat, t: nat)
    requires KernelInv(s2) && Rma(s2, s3, rid) && SecondLevel(s3, rid, s', id) && t < |s2.tcb|
    ensures |s'.tcb| == |s2.tcb| && id < |s2.tcb| && s2.tcb[id].state != Blocked && KeptBy(s2.tcb[t], s'.tcb[t])
    ensures s'.tcb[t].state == if t == id then Running else s2.tcb[t].state
  {
    hide Rma, KernelInv, PriorityRR, RunnableBE;
    RmaKeeps(s2, s3, rid);
    RmaTaskKept(s2, s3, rid, t);
    if rid == 0 {
      PickedTask(s3, t);
      RmaTaskKept(s2, s3, rid, id);
    }
  }

  /** The same for a tick. */
  lemma TickStates(s: KState, cur: nat, s': KState, id: nat, t: nat)
    requires KernelInv(s) && Dispatched(s, cur, s', id) && t < |s.tcb|
    ensures |s'.tcb| == |s.tcb| && id < |s.tcb| && s.tcb[id].state != Blocked && KeptBy(s.tcb[t], s'.tcb[t])
    ensures s'.tcb[t].state == if t == id then Running
                               else if t == cur && s.tcb[t].state == Running then Ready else s.tcb[t].state
  {
    hide KernelInv, Rma, SecondLevel, DelaySteps;
    ParkKeeps(s, cur);
    ParkTask(s, cur, t);
    var s1 := Park(s, cur);
    AgedTask(s1, t);
    var s2 := DelaySteps(s1, |s1.dl|);
    var s3: KState, rid: nat :| Rma(s2, s3, rid) && SecondLevel(s3, rid, s', id);
    SecondStates(s2, s3, rid, s', id, t);
    AgedTask(s1, id);
    ParkTask(s, cur, id);
  }

  /** A pass of either scheduler: a blocked task stays blocked and does not get
      the processor. The task that gets it was not blocked and is running; the
      task that loses it is ready if it was running; no other changes its state. */
  lemma PassStates(s: KState, cur: nat, op: Op, s': KState, cur': nat, t: nat)
    requires KernelInv(s) && OpStep(s, cur, op, s', cur') && Schedules(op) && t < |s.tcb|
    ensures |s'.tcb| == |s.tcb| && cur' < |s.tcb| && s.tcb[cur'].state != Blocked && s'.tcb[cur'].state == Running
    ensures s.tcb[t].state == Blocked ==> s'.tcb[t].state == Blocked && t != cur'
    ensures s.tcb[t].state == Running && t == cur && t != cur' ==> s'.tcb[t].state == Ready
    ensures t != cur' && !(t == cur && s.tcb[t].state == Running) ==> s'.tcb[t].state == s.tcb[t].state
    ensures KeptBy(s.tcb[t], s'.tcb[t])
  {
    hide KernelInv, Yielded, Dispatched, OpFails;
    if op == Yield {
      YieldStates(s, cur, s', cur', t);
      YieldStates(s, cur, s', cur', cur');
    } else {
      TickStates(s, cur, s', cur', t);
      TickStates(s, cur, s', cur', cur');
    }
  }

  lemma YieldAllStates(s: KState, cur: nat, s': KState, id: nat)
    requires KernelInv(s) && Yielded(s, cur, s', id)
    ensures Switched(s, cur, s', id)
  {
    hide KernelInv, Yielded;
    forall t: nat | t < |s.tcb| {
      YieldStates(s, cur, s', id, t);
    }
    TableNotEmpty(s);
    YieldStates(s, cur, s', id, 0);
  }

  lemma TickAllStates(s: KState, cur: nat, s': KState, id: nat)
    requires KernelInv(s) && Dispatched(s, cur, s', id)
    ensures Switched(s, cur, s', id)
  {
    hide KernelInv, Dispatched;
    forall t: nat | t < |s.tcb| {
      TickStates(s, cur, s', id, t);
    }
    TableNotEmpty(s);
    TickStates(s, cur, s', id, 0);
  }

  lemma TableNotEmpty(s: KState)
    requires KernelInv(s)
    ensures 0 < |s.tcb|
  {
  }

  /** The processor goes from task cur to task id. */
  ghost predicate Switched(s: KState, cur: nat, s': KState, id: nat) {
    && |s'.tcb| == |s.tcb| && id < |s.tcb| && s.tcb[id].state != Blocked
    && forall t: nat :: t < |s.tcb| ==>
         s'.tcb[t].state == if t == id then Running
                            else if t == cur && s.tcb[t].state == Running then Ready else s.tcb[t].state
  }

  // ----- the other operations -----

  /** The state that an operation which does not schedule gives a task. */
  lemma OpStates(s: KState, cur: nat, op: Op, s': KState, cur': nat, t: nat)
    requires KernelInv(s) && OpStep(s, cur, op, s', cur') && !Schedules(op) && t < |s.tcb|
    ensures |s'.tcb| == |s.tcb| && cur' == cur
    ensures var was := s.tcb[t].state;
      s'.tcb[t].state ==
      match op
      case Spawn(period, capacity, deadline, _) =>
        if capacity <= period && capacity <= deadline && t == FreeSlot(s.tcb, 0) then Idle else was
      case Block(id) => if t == id && id != 0 && s.tcb[t].live then Blocked else was
      case Resume(id) => if t == id && id != 0 && s.tcb[t].live && was == Blocked then Ready else was
      case Kill(id) => if t == id && id != 0 && s.tcb[t].live then Idle else was
      case Delay(id, ticks) => if t == id && id != 0 && s.tcb[t].live && ticks > 0 then Delayed else was
      case Wait => if t == cur then Blocked else was
      case Wake(id) => if t == id then Ready else was
      case _ => was
    ensures op.Wait? || op.Wake? || op.Block? || op.Resume? ==>
              && s'.tcb[t] == s.tcb[t].(state := s'.tcb[t].state)
              && s'.run == s.run && s'.rt == s.rt && s'.dl == s.dl
    ensures op.MarkCritical? ==>
              && s'.tcb[t] == s.tcb[t].(critical := s.tcb[t].critical || t == op.id)
              && s'.run == s.run && s'.rt == s.rt && s'.dl == s.dl
    ensures op == Tick(true) ==> s' == s
  {
    hide Partition, FreeSlot, Remove, OpFails, Yielded, Dispatched;
    if op.Spawn? {
      var i := FreeSlot(s.tcb, 0);
      if i < |s.tcb| {
        SpawnFields(s, i, op.period, op.capacity, op.deadline);
      }
    }
  }

  // ----- who gets the processor -----

  /** The search keeps the first task with the least remaining priority. */
  lemma {:induction false} BestFirst(tcb: seq<Tcb>, q: seq<nat>, n: nat) returns (k: nat)
    requires n <= |q| && InTable(tcb, q) && Best(tcb, q, n).Some?
    ensures k < n && Best(tcb, q, n) == Some(q[k]) && tcb[q[k]].state != Blocked
    ensures forall j :: 0 <= j < k && tcb[q[j]].state != Blocked ==> tcb[q[j]].priorityRem > tcb[q[k]].priorityRem
    ensures forall j :: 0 <= j < n && tcb[q[j]].state != Blocked ==> tcb[q[j]].priorityRem >= tcb[q[k]].priorityRem
  {
    k := n - 1;
    if Best(tcb, q, n) == Best(tcb, q, n - 1) && Best(tcb, q, n - 1).Some? {
      k := BestFirst(tcb, q, n - 1);
    }
  }

  ghost predicate Urgent(s: KState, u: nat) {
    u < |s.tcb| && s.tcb[u].critical && s.tcb[u].state != Blocked
  }

  /** The first task of q that is critical and not blocked runs at once, stops
      being critical, and goes to the tail with those before it. */
  ghost predicate UrgentRuns(s: KState, q: seq<nat>, k: nat, s': KState) {
    && k < |q| && Urgent(s, q[k]) && (forall j :: 0 <= j < k ==> !Urgent(s, q[j]))
    && s'.run == q[k + 1..] + q[..k + 1]
    && s'.tcb == s.tcb[q[k] := s.tcb[q[k]].(critical := false, bgjobs := s.tcb[q[k]].bgjobs + 1)]
  }

  /** The first task of q with the least remaining priority starts over, and all
      others in q are charged with that. */
  ghost predicate LeastRuns(s: KState, q: seq<nat>, k: nat, s': KState) {
    && k < |q| && q[k] < |s.tcb| == |s'.tcb| && s.tcb[q[k]].state != Blocked && s'.run == q
    && (forall j :: 0 <= j < |q| && q[j] < |s.tcb| && s.tcb[q[j]].state != Blocked ==>
          s.tcb[q[j]].priorityRem >= s.tcb[q[k]].priorityRem + if j < k then 1 else 0)
    && forall u: nat :: u < |s.tcb| ==> ChargedFor(s.tcb[u], s'.tcb[u], u == q[k], u in q, s.tcb[q[k]].priorityRem)
  }

  ghost predicate ChargedFor(x: Tcb, y: Tcb, picked: bool, queued: bool, least: uint8) {
    y == if picked then x.(priorityRem := x.priority, bgjobs := x.bgjobs + 1)
         else if queued then x.(priorityRem := (x.priorityRem - least) % U8)
         else x
  }

  /** The best effort pass in full: after one turn of the queue an urgent task
      runs if there is any, and otherwise one with the least remaining priority. */
  lemma BestEffortPick(s: KState) returns (k: nat)
    requires KernelInv(s) && RunnableBE(s)
    ensures s.run != []
    ensures var q, s', t := s.run[1..] + [s.run[0]], PriorityRR(s).0, PriorityRR(s).1;
      && k < |q| && t == q[k]
      && s'.rt == s.rt && s'.dl == s.dl && s'.tasks == s.tasks
      && if exists u: nat :: u in s.run && Urgent(s, u) then UrgentRuns(s, q, k, s') else LeastRuns(s, q, k, s')
  {
    hide KernelInv, RunnableBE, Best, FirstCritical, UrgentRuns, LeastRuns, ChargeAll, Urgent;
    InvEnablesSchedulers(s);
    RotMembers(s.run);
    SearchExact(s);
    var q := Rot(s.run);
    k := FirstCritical(s.tcb, q, 0);
    if k < |q| {
      UrgentPick(s, q, k, PriorityRR(s).0);
    } else {
      k := BestFirst(s.tcb, q, |q|);
      NoneUrgent(s, q);
      LeastPick(s, q, k, PriorityRR(s).0);
    }
  }

  lemma UrgentPick(s: KState, q: seq<nat>, k: nat, s': KState)
    requires InTable(s.tcb, q) && k == FirstCritical(s.tcb, q, 0) < |q|
    requires s'.run == RotBy(q, k + 1)
    requires var x := s.tcb[q[k]]; s'.tcb == s.tcb[q[k] := x.(critical := false, bgjobs := x.bgjobs + 1)]
    ensures UrgentRuns(s, q, k, s') && Urgent(s, q[k]) && q[k] in q
  {
    hide FirstCritical;
  }

  lemma NoneUrgent(s: KState, q: seq<nat>)
    requires InTable(s.tcb, q) && FirstCritical(s.tcb, q, 0) == |q|
    ensures forall u: nat :: u in q ==> !Urgent(s, u)
  {
  }

  lemma LeastPick(s: KState, q: seq<nat>, k: nat, s': KState)
    requires InTable(s.tcb, q) && k < |q| && s.tcb[q[k]].state != Blocked && s'.run == q
    requires forall j :: 0 <= j < k && s.tcb[q[j]].state != Blocked ==> s.tcb[q[j]].priorityRem > s.tcb[q[k]].priorityRem
    requires forall j :: 0 <= j < |q| && s.tcb[q[j]].state != Blocked ==> s.tcb[q[j]].priorityRem >= s.tcb[q[k]].priorityRem
    requires s'.tcb == ChargeAll(s.tcb, q, q[k])
    ensures LeastRuns(s, q, k, s')
  {
    hide ChargedFor, ChargeAll;
    forall u: nat | u < |s.tcb|
      ensures ChargedFor(s.tcb[u], s'.tcb[u], u == q[k], u in q, s.tcb[q[k]].priorityRem)
    {
      ChargedAt(s.tcb, q, q[k], u);
    }
  }

  lemma ChargedAt(tcb: seq<Tcb>, q: seq<nat>, b: nat, u: nat)
    requires b < |tcb| && u < |tcb|
    ensures ChargedFor(tcb[u], ChargeAll(tcb, q, b)[u], u == b, u in q, tcb[b].priorityRem)
  {
  }

  /** A real time task that can have the tick: in the RT queue or due to come
      back to it, not blocked, and with capacity left. */
  ghost predicate RtReady(s: KState, t: nat) {
    && t < |s.tcb| && s.tcb[t].period > 0 && s.tcb[t].state != Blocked && s.tcb[t].capacityRem > 0
    && (t in s.rt || (t in s.dl && s.tcb[t].delay == 1))
  }

  lemma AgedQueues(s: KState, t: nat)
    requires KernelInv(s) && t < |s.tcb|
    ensures var a := DelaySteps(s, |s.dl|);
      && |a.tcb| == |s.tcb|
      && (t in a.rt <==> s.tcb[t].period > 0 && (t in s.rt || (t in s.dl && s.tcb[t].delay == 1)))
      && (t in a.run <==> s.tcb[t].period == 0 && (t in s.run || (t in s.dl && s.tcb[t].delay == 1)))
  {
    hide DelaySteps;
    DelayStepsCount(s, |s.dl|);
    AgedTask(s, t);
    assert s.dl[..|s.dl|] == s.dl;
    PartitionDistinct(s);
    PartitionDistinct(DelaySteps(s, |s.dl|));
    hide CountDown;
  }

  lemma RmaPicks(s2: KState, s3: KState, rid: nat)
    requires KernelInv(s2) && Rma(s2, s3, rid)
    ensures rid == 0 ==> forall t: nat :: t in s2.rt && t < |s2.tcb| ==> !(s2.tcb[t].state != Blocked && s2.tcb[t].capacityRem > 0)
    ensures rid != 0 ==> rid in s2.rt && rid < |s2.tcb| && s2.tcb[rid].state != Blocked && s2.tcb[rid].capacityRem > 0
    ensures rid != 0 ==> forall t: nat :: t in s2.rt && t < |s2.tcb| && s2.tcb[t].state != Blocked && s2.tcb[t].capacityRem > 0 ==>
                            s2.tcb[rid].period <= s2.tcb[t].period
  {
    InvEnablesSchedulers(s2);
    hide Rma, KernelInv;
    RateMonotonic.HighestRateRuns(s2, s3, rid);
  }

  lemma SecondPicks(s3: KState, rid: nat, s': KState, id: nat)
    requires KernelInv(s3) && SecondLevel(s3, rid, s', id)
    ensures if rid != 0 then id == rid else id in s3.run
  {
    hide PriorityRR;
  }

  lemma AgedReady(s: KState, cur: nat, t: nat)
    requires KernelInv(s) && cur < |s.tcb|
    ensures var s1 := Park(s, cur); var s2 := DelaySteps(s1, |s1.dl|);
      && |s2.tcb| == |s.tcb|
      && (t in s2.rt && t < |s2.tcb| && s2.tcb[t].state != Blocked && s2.tcb[t].capacityRem > 0 <==> RtReady(s, t))
      && (t < |s.tcb| ==> s2.tcb[t].period == s.tcb[t].period)
  {
    hide KernelInv, DelaySteps;
    ParkKeeps(s, cur);
    var s1 := Park(s, cur);
    if t < |s.tcb| {
      ParkTask(s, cur, t);
      AgedTask(s1, t);
      AgedQueues(s1, t);
    } else {
      AgedTask(s1, cur);
    }
  }

  /** A tick gives the processor to a real time task of the highest rate if any
      has capacity left and is not blocked or delayed, and to a best effort task
      otherwise. */
  lemma TickPicks(s: KState, cur: nat, s': KState, id: nat)
    requires KernelInv(s) && Dispatched(s, cur, s', id)
    ensures id < |s.tcb| && s.tcb[id].state != Blocked
    ensures if exists t: nat :: RtReady(s, t)
            then RtReady(s, id) && forall t: nat :: RtReady(s, t) ==> s.tcb[id].period <= s.tcb[t].period
            else s.tcb[id].period == 0 && (id in s.run || (id in s.dl && s.tcb[id].delay == 1))
  {
    hide KernelInv, Rma, DelaySteps, RtReady, SecondLevel;
    ParkKeeps(s, cur);
    var s1 := Park(s, cur);
    DelayStepsKeep(s1, |s1.dl|);
    var s2 := DelaySteps(s1, |s1.dl|);
    var s3: KState, rid: nat :| Rma(s2, s3, rid) && SecondLevel(s3, rid, s', id);
    TickStates(s, cur, s', id, cur);
    RmaPicks(s2, s3, rid);
    RmaKeeps(s2, s3, rid);
    RmaRun(s2, s3, rid);
    SecondPicks(s3, rid, s', id);
    forall t: nat {
      AgedReady(s, cur, t);
    }
    if rid == 0 {
      ParkTask(s, cur, id);
      AgedQueues(s1, id);
    }
  }
}
