/** The kernel's task queues and schedulers as they change state in place
    (sys/kernel/scheduler.c, sys/kernel/task.c). A panic is an assertion that
    its guard is false; where a caller can reach it, it is an outcome. */
module Scheduler {
  import opened Queues
  import opened Sequences
  import opened Tasks
  import opened SchedulerSpec

  lemma NobodyLive(maxTasks: nat)
    ensures Partition(KState(seq(maxTasks, _ => CLEAR_TCB), [], [], [], 0))
  {
  }

  class Kernel {
    const tcb: array<Tcb>
    const runQ: Queue<nat>
    const rtQ: Queue<nat>
    const delayQ: Queue<nat>
    var krnlTask: nat
    var krnlTasks: int
    var krnlCurrent: nat

    /** The abstract state the concrete fields stand for. */
    ghost var v: KState

    ghost predicate Valid()
      reads `v, `krnlTasks, tcb, runQ, runQ.data, rtQ, rtQ.data, delayQ, delayQ.data
    {
      && runQ != rtQ && runQ != delayQ && rtQ != delayQ
      && runQ.data != rtQ.data && runQ.data != delayQ.data && rtQ.data != delayQ.data
      && 0 < tcb.Length < U16
      && runQ.Valid() && rtQ.Valid() && delayQ.Valid()
      && runQ.size == rtQ.size == delayQ.size == tcb.Length + 1
      && v == KState(tcb[..], runQ.Contents(), rtQ.Contents(), delayQ.Contents(), krnlTasks)
    }

    ghost function Repr(): set<object> {
      {this, tcb, runQ, runQ.data, rtQ, rtQ.data, delayQ, delayQ.data}
    }

    /** clear_tcb and init_queues of sys/kernel/main.c. */
    constructor (maxTasks: nat)
      requires 0 < maxTasks < U16
      ensures Valid() && fresh(Repr())
      ensures v == KState(seq(maxTasks, _ => CLEAR_TCB), [], [], [], 0)
      ensures Partition(v)
    {
      hide Partition;
      NobodyLive(maxTasks);
      runQ := new Queue<nat>(maxTasks);
      delayQ := new Queue<nat>(maxTasks);
      rtQ := new Queue<nat>(maxTasks);
      var t := new Tcb[maxTasks](_ => CLEAR_TCB);
      assert t[..] == seq(maxTasks, _ => CLEAR_TCB);
      tcb := t;
      krnlTask, krnlTasks, krnlCurrent := 0, 0, 0;
      v := KState(t[..], [], [], [], 0);
    }

    // The kernel's accesses to its own queues and TCB table, one at a time.

    lemma SmallTable()
      requires Valid()
      ensures 0 < |v.tcb| < U16
    {
    }

    method TableSize() returns (n: int)
      requires Valid()
      ensures n == |v.tcb| < U16
    {
      n := tcb.Length;
    }

    method GetTcb(t: nat) returns (x: Tcb)
      requires Valid() && t < |v.tcb|
      ensures x == v.tcb[t]
    {
      x := tcb[t];
    }

    method SetTcb(t: nat, x: Tcb)
      requires Valid() && t < |v.tcb|
      modifies `v, tcb
      ensures Valid()
      ensures v == old(v).(tcb := old(v).tcb[t := x])
    {
      tcb[t] := x;
      v := v.(tcb := v.tcb[t := x]);
    }

    method AddTasks(d: int)
      requires Valid()
      modifies `v, `krnlTasks
      ensures Valid()
      ensures v == old(v).(tasks := old(v).tasks + d)
    {
      krnlTasks := krnlTasks + d;
      v := v.(tasks := krnlTasks);
    }

    method TaskCount() returns (n: int)
      requires Valid()
      ensures n == v.tasks
    {
      n := krnlTasks;
    }

    method RunCount() returns (n: int)
      requires Valid()
      ensures n == |v.run|
    {
      n := runQ.Count();
    }

    method RunAdd(t: nat) returns (r: int)
      requires Valid()
      modifies `v, runQ, runQ.data
      ensures Valid()
      ensures r == if |old(v).run| < |old(v).tcb| then QUEUE_OK else QUEUE_ERROR
      ensures v == if r == QUEUE_OK then old(v).(run := old(v).run + [t]) else old(v)
    {
      r := runQ.AddTail(t);
      v := v.(run := runQ.Contents());
    }

    method RunRem() returns (r: Option<nat>)
      requires Valid()
      modifies `v, runQ
      ensures Valid()
      ensures old(v).run == [] ==> r == None && v == old(v)
      ensures old(v).run != [] ==>
                r == Some(old(v).run[0]) && v == old(v).(run := old(v).run[1..])
    {
      r := runQ.RemHead();
      v := v.(run := runQ.Contents());
    }

    method RtCount() returns (n: int)
      requires Valid()
      ensures n == |v.rt|
    {
      n := rtQ.Count();
    }

    method RtAdd(t: nat) returns (r: int)
      requires Valid()
      modifies `v, rtQ, rtQ.data
      ensures Valid()
      ensures r == if |old(v).rt| < |old(v).tcb| then QUEUE_OK else QUEUE_ERROR
      ensures v == if r == QUEUE_OK then old(v).(rt := old(v).rt + [t]) else old(v)
    {
      r := rtQ.AddTail(t);
      v := v.(rt := rtQ.Contents());
    }

    method RtRem() returns (r: Option<nat>)
      requires Valid()
      modifies `v, rtQ
      ensures Valid()
      ensures old(v).rt == [] ==> r == None && v == old(v)
      ensures old(v).rt != [] ==>
                r == Some(old(v).rt[0]) && v == old(v).(rt := old(v).rt[1..])
    {
      r := rtQ.RemHead();
      v := v.(rt := rtQ.Contents());
    }

    method DelayCount() returns (n: int)
      requires Valid()
      ensures n == |v.dl|
    {
      n := delayQ.Count();
    }

    method DelayAdd(t: nat) returns (r: int)
      requires Valid()
      modifies `v, delayQ, delayQ.data
      ensures Valid()
      ensures r == if |old(v).dl| < |old(v).tcb| then QUEUE_OK else QUEUE_ERROR
      ensures v == if r == QUEUE_OK then old(v).(dl := old(v).dl + [t]) else old(v)
    {
      r := delayQ.AddTail(t);
      v := v.(dl := delayQ.Contents());
    }

    method DelayRem() returns (r: Option<nat>)
      requires Valid()
      modifies `v, delayQ
      ensures Valid()
      ensures old(v).dl == [] ==> r == None && v == old(v)
      ensures old(v).dl != [] ==>
                r == Some(old(v).dl[0]) && v == old(v).(dl := old(v).dl[1..])
    {
      r := delayQ.RemHead();
      v := v.(dl := delayQ.Contents());
    }

    method RtGet(i: nat) returns (r: Option<nat>)
      requires Valid()
      ensures r == if i < |v.rt| then Some(v.rt[i]) else None
    {
      r := rtQ.Get(i);
    }

    method RtSwap(i: nat, j: nat) returns (r: int)
      requires Valid()
      modifies `v, rtQ.data
      ensures Valid()
      ensures r == if i < |old(v).rt| && j < |old(v).rt| then QUEUE_OK else QUEUE_ERROR
      ensures v == if r == QUEUE_OK then old(v).(rt := Swapped(old(v).rt, i, j)) else old(v)
    {
      r := rtQ.Swap(i, j);
      v := v.(rt := rtQ.Contents());
    }

    method RunGet(i: nat) returns (r: Option<nat>)
      requires Valid()
      ensures r == if i < |v.run| then Some(v.run[i]) else None
    {
      r := runQ.Get(i);
    }

    method RunSwap(i: nat, j: nat) returns (r: int)
      requires Valid()
      modifies `v, runQ.data
      ensures Valid()
      ensures r == if i < |old(v).run| && j < |old(v).run| then QUEUE_OK else QUEUE_ERROR
      ensures v == if r == QUEUE_OK then old(v).(run := Swapped(old(v).run, i, j)) else old(v)
    {
      r := runQ.Swap(i, j);
      v := v.(run := runQ.Contents());
    }

    method RunQueueNext()
      requires Valid() && v.run != [] && |v.run| <= |v.tcb|
      modifies `v, `krnlTask, runQ, runQ.data
      ensures Valid()
      ensures v == old(v).(run := Rot(old(v).run))
      ensures krnlTask == old(v).run[0]
    {
      hide Valid;
      var t := RunRem();
      assert t != None;           // PANIC_NO_TASKS_RUN
      krnlTask := t.value;
      var r := RunAdd(krnlTask);
      assert r == QUEUE_OK;       // PANIC_CANT_PLACE_RUN
    }

    method RtQueueNext()
      requires Valid() && v.rt != [] && |v.rt| <= |v.tcb|
      modifies `v, `krnlTask, rtQ, rtQ.data
      ensures Valid()
      ensures v == old(v).(rt := Rot(old(v).rt))
      ensures krnlTask == old(v).rt[0]
    {
      hide Valid;
      var t := RtRem();
      assert t != None;           // PANIC_NO_TASKS_RT
      krnlTask := t.value;
      var r := RtAdd(krnlTask);
      assert r == QUEUE_OK;       // PANIC_CANT_PLACE_RT
    }

    /** The body of the loop of process_delay_queue. */
    method DelayQueueNext()
      requires Valid() && Partition(v) && v.dl != []
      modifies `v, tcb, runQ, runQ.data, rtQ, rtQ.data, delayQ, delayQ.data
      ensures Valid()
      ensures v == DelayStep(old(v))
      ensures |v.dl| >= |old(v).dl| - 1
      ensures Partition(v)
    {
      hide Valid, Partition;
      PartitionInTable(v, 0);
      PartitionFits(v);
      DelayStepPartition(v);
      var h := DelayRem();
      assert h != None;           // PANIC_NO_TASKS_DELAY
      var t := h.value;
      var x := GetTcb(t);
      x := CountDown(x);
      SetTcb(t, x);
      if x.delay == 0 {
        if x.period != 0 {
          var r := RtAdd(t);
          assert r == QUEUE_OK;   // PANIC_CANT_PLACE_RT
        } else {
          var r := RunAdd(t);
          assert r == QUEUE_OK;   // PANIC_CANT_PLACE_RUN
        }
      } else {
        var r := DelayAdd(t);
        assert r == QUEUE_OK;     // PANIC_CANT_PLACE_DELAY
      }
    }

    method ProcessDelayQueue()
      requires Valid() && Partition(v)
      modifies `v, tcb, runQ, runQ.data, rtQ, rtQ.data, delayQ, delayQ.data
      ensures Valid()
      ensures v == DelaySteps(old(v), |old(v).dl|)
      ensures Partition(v)
    {
      hide Valid, Partition, DelayStep;
      ghost var s := v;
      var k := DelayCount();
      for i := 0 to k
        invariant Valid() && Partition(v)
        invariant v == DelaySteps(s, i)
        invariant |v.dl| >= k - i
      {
        DelayQueueNext();
      }
    }

    /** First loop of sched_priorityrr: a full turn of the run queue that stops
        early on a critical task. */
    method SearchHighest() returns (critical: bool, best: Option<nat>)
      requires Valid() && InTable(v.tcb, v.run) && v.run != [] && |v.run| <= |v.tcb|
      modifies `v, `krnlTask, runQ, runQ.data
      ensures Valid()
      ensures var s := old(v); var c := FirstCritical(s.tcb, s.run, 0);
              && critical == (c < |s.run|)
              && (critical ==> krnlTask == s.run[c] && v == s.(run := RotBy(s.run, c + 1)))
              && (!critical ==> best == Best(s.tcb, s.run, |s.run|) && v == s)
    {
      hide Valid, FirstCritical, Best, RotBy, InTable;
      ghost var s := v;
      ghost var q := s.run;
      var highestp := 255;
      critical, best := false, None;
      var k := RunCount();
      RotWhole(q);
      BestNone(s.tcb, q);
      for i := 0 to k
        invariant Valid()
        invariant v == s.(run := RotBy(q, i))
        invariant FirstCritical(s.tcb, q, 0) >= i
        invariant best == Best(s.tcb, q, i) && highestp == Highest(s.tcb, best)
      {
        RotStep(q, i);
        CriticalHere(s.tcb, q, i);
        BestNext(s.tcb, q, i);
        RunQueueNext();
        var x := GetTcb(krnlTask);
        if x.critical && x.state != Blocked {
          return true, None;
        }
        if highestp > x.priorityRem && x.state != Blocked {
          highestp := x.priorityRem;
          best := Some(krnlTask);
        }
      }
      RotWhole(q);
    }

    /** Second loop of sched_priorityrr: charge every other task. */
    method ChargeOthers(b: nat)
      requires Valid() && InTable(v.tcb, v.run) && Distinct(v.run) && |v.run| <= |v.tcb|
      requires b < |v.tcb|
      modifies `v, `krnlTask, tcb, runQ, runQ.data
      ensures Valid()
      ensures v == old(v).(tcb := ChargeSome(old(v).tcb, old(v).run, b))
    {
      hide Valid, Distinct, ChargeSome, RotBy, Charged;
      ghost var s := v;
      ghost var q := s.run;
      var k := RunCount();
      RotWhole(q);
      ChargeNone(s.tcb, b);
      for i := 0 to k
        invariant Valid()
        invariant v == s.(run := RotBy(q, i), tcb := ChargeSome(s.tcb, q[..i], b))
      {
        RotStep(q, i);
        ChargeNext(s.tcb, q, i, b);
        RunQueueNext();
        if krnlTask != b {
          var x := GetTcb(krnlTask);
          var y := GetTcb(b);
          SetTcb(krnlTask, Charged(x, y.priorityRem));
        }
      }
      RotWhole(q);
    }

    /** Best effort scheduler callback. None says that the search has found no
        task, and the code goes on through a NULL krnl_task2. */
    method SchedPriorityRR() returns (id: Option<nat>)
      requires Valid() && v.run != [] && InTable(v.tcb, v.run) && Distinct(v.run) && |v.run| <= |v.tcb|
      modifies `v, `krnlTask, tcb, runQ, runQ.data
      ensures Valid()
      ensures id.Some? <==> RunnableBE(old(v))
      ensures id.Some? ==> (v, id.value) == PriorityRR(old(v)) && krnlTask == id.value
    {
      hide Valid, PriorityRR, FirstCritical, Best, ChargeSome, Distinct, InTable, Picked, Rot, RotBy, RunnableBE;
      var k := RunCount();
      assert k != 0;              // PANIC_NO_TASKS_RUN
      SearchExact(v);
      PriorityRRCritical(v);
      RotDistinct(v.run);

      RunQueueNext();
      var critical, best := SearchHighest();
      if critical {
        var x := GetTcb(krnlTask);
        SetTcb(krnlTask, x.(critical := false, bgjobs := x.bgjobs + 1));
        return Some(krnlTask);
      }
      if best == None { return None; }
      ghost var s1 := v;
      PriorityRRBest(old(v));
      ghost var charged := ChargeSome(s1.tcb, s1.run, best.value);
      ChargeOthers(best.value);
      assert v.tcb == charged;
      krnlTask := best.value;
      var x := GetTcb(krnlTask);
      SetTcb(krnlTask, Picked(x));
      assert v == s1.(tcb := charged[best.value := Picked(x)]);
      return Some(krnlTask);
    }

    /** The body of the exchange sort of sched_rma. */
    method ExchangePair(i: nat, j: nat, ghost q0: seq<nat>)
      requires Valid() && i < j < |v.rt| && Exchanged(v.tcb, q0, v.rt, i, j)
      modifies `v, rtQ.data
      ensures Valid()
      ensures v == old(v).(rt := v.rt)
      ensures |v.rt| == |old(v).rt| && Exchanged(v.tcb, q0, v.rt, i, j + 1)
    {
      hide Valid, Exchanged, Swapped;
      ExchangeStep(v.tcb, q0, v.rt, i, j);
      var e1 := RtGet(i);
      var e2 := RtGet(j);
      var x1 := GetTcb(e1.value);
      var x2 := GetTcb(e2.value);
      if x1.period > x2.period {
        var r := RtSwap(i, j);
        assert r == QUEUE_OK;     // PANIC_CANT_SWAP
      }
    }

    /** The inner loop of the exchange sort of sched_rma. */
    method ExchangeInner(i: nat, ghost tcb0: seq<Tcb>, ghost q0: seq<nat>)
      requires Valid() && v.tcb == tcb0 && i < |v.rt| && Exchanged(tcb0, q0, v.rt, i, i + 1)
      modifies `v, rtQ.data
      ensures Valid()
      ensures v == old(v).(rt := v.rt)
      ensures |v.rt| == |old(v).rt| && Exchanged(tcb0, q0, v.rt, i + 1, i + 2)
    {
      hide Valid, Exchanged, Swapped;
      ghost var s := v;
      var k := RtCount();
      for j := i + 1 to k
        invariant Valid() && v == s.(rt := v.rt) && |v.rt| == k
        invariant Exchanged(tcb0, q0, v.rt, i, j)
      {
        ExchangePair(i, j, q0);
      }
      ExchangeRow(tcb0, q0, v.rt, i);
    }

    /** The exchange sort at the start of sched_rma. */
    method SortByPeriod()
      requires Valid() && InTable(v.tcb, v.rt) && v.rt != []
      modifies `v, rtQ.data
      ensures Valid()
      ensures v == old(v).(rt := v.rt)
      ensures SortedFrom(old(v).tcb, old(v).rt, v.rt)
    {
      hide Valid, SortedFrom, Exchanged;
      ghost var s := v;
      var k := RtCount();
      ExchangeStart(s.tcb, s.rt);
      for i := 0 to k - 1
        invariant Valid() && v == s.(rt := v.rt) && |v.rt| == k
        invariant Exchanged(s.tcb, s.rt, v.rt, i, i + 1)
      {
        ExchangeInner(i, s.tcb, s.rt);
      }
      ExchangeEnd(s.tcb, s.rt, v.rt);
    }

    /** The selection and accounting loop of sched_rma. */
    method AccountTick() returns (id: nat)
      requires Valid() && RtWellFormed(v) && v.rt != []
      modifies `v, `krnlTask, tcb, rtQ, rtQ.data
      ensures Valid()
      ensures id == FirstEligible(old(v).tcb, old(v).rt, |old(v).rt|)
      ensures v == old(v).(tcb := AccountPass(old(v).tcb, old(v).rt, |old(v).rt|))
    {
      hide Valid, AccountPass, RotBy, FirstEligible, RtWellFormed, Account;
      ghost var s := v;
      ghost var q := s.rt;
      id := 0;
      var k := RtCount();
      RotWhole(q);
      AccountNone(s);
      for i := 0 to k
        invariant Valid()
        invariant v == s.(rt := RotBy(q, i), tcb := AccountPass(s.tcb, q, i))
        invariant id == FirstEligible(s.tcb, q, i)
      {
        RotStep(q, i);
        AccountNext(s, i);
        RtQueueNext();
        var x := GetTcb(krnlTask);
        var runs := x.state != Blocked && x.capacityRem > 0 && id == 0;
        if runs {
          id := x.id;
        }
        SetTcb(krnlTask, Account(x, runs));
      }
      RotWhole(q);
    }

    /** Real time scheduler callback. */
    method SchedRma() returns (id: nat)
      requires Valid() && RtWellFormed(v)
      modifies `v, `krnlTask, tcb, rtQ, rtQ.data
      ensures Valid()
      ensures Rma(old(v), v, id)
      ensures v.rt != [] ==> krnlTask == id
    {
      hide Valid, AccountPass, SortedFrom, FirstEligible;
      ghost var s := v;
      var k := RtCount();
      if k == 0 {
        RmaEmpty(s);
        return 0;
      }
      SortByPeriod();
      ghost var q := v.rt;
      SortedStillWellFormed(s, q);
      id := AccountTick();
      krnlTask := id;
      if id != 0 {
        EligibleInTable(s.tcb, q);
        var x := GetTcb(id);
        SetTcb(id, x.(rtjobs := x.rtjobs + 1));
      }
      return id;
    }
  }

  // ----- facts the loops of sched_rma rest on -----

  function Swapped(q: seq<nat>, i: nat, j: nat): (r: seq<nat>)
    requires i < |q| && j < |q|
    ensures |r| == |q| && r[i] == q[j] && r[j] == q[i]
    ensures forall x :: 0 <= x < |q| && x != i && x != j ==> r[x] == q[x]
  {
    q[i := q[j]][j := q[i]]
  }

  lemma SwappedMultiset(q: seq<nat>, i: nat, j: nat)
    requires i < |q| && j < |q|
    ensures multiset(Swapped(q, i, j)) == multiset(q)
  {
  }

  /** The first i entries are in place, and entry i is least among those below j. */
  ghost predicate Exchanged(tcb: seq<Tcb>, q0: seq<nat>, q: seq<nat>, i: nat, j: nat) {
    && multiset(q) == multiset(q0) && |q| == |q0| && InTable(tcb, q)
    && (forall a, b :: 0 <= a < i && a < b < |q| ==> tcb[q[a]].period <= tcb[q[b]].period)
    && (forall b :: i < b < j && b < |q| ==> tcb[q[i]].period <= tcb[q[b]].period)
    && (PeriodSorted(tcb, q0) ==> q == q0)
  }

  lemma ExchangeStart(tcb: seq<Tcb>, q: seq<nat>)
    requires InTable(tcb, q)
    ensures Exchanged(tcb, q, q, 0, 1)
  {
  }

  lemma ExchangeStep(tcb: seq<Tcb>, q0: seq<nat>, q: seq<nat>, i: nat, j: nat)
    requires Exchanged(tcb, q0, q, i, j) && i < j < |q|
    ensures q[i] < |tcb| && q[j] < |tcb|
    ensures |Swapped(q, i, j)| == |q|
    ensures var q' := if tcb[q[i]].period > tcb[q[j]].period then Swapped(q, i, j) else q;
            Exchanged(tcb, q0, q', i, j + 1)
  {
    SwappedMultiset(q, i, j);
    var p, r := tcb[q[i]].period, tcb[q[j]].period;
    if p > r {
      hide PeriodSorted;
      assert !PeriodSorted(tcb, q) by { NotSorted(tcb, q, i, j); }
      var q' := Swapped(q, i, j);
      forall x | 0 <= x < |q'|
        ensures q'[x] < |tcb|
      {
      }
    }
  }

  lemma NotSorted(tcb: seq<Tcb>, q: seq<nat>, i: nat, j: nat)
    requires i < j < |q| && InTable(tcb, q) && tcb[q[i]].period > tcb[q[j]].period
    ensures !PeriodSorted(tcb, q)
  {
  }

  lemma ExchangeRow(tcb: seq<Tcb>, q0: seq<nat>, q: seq<nat>, i: nat)
    requires Exchanged(tcb, q0, q, i, |q|)
    ensures Exchanged(tcb, q0, q, i + 1, i + 2)
  {
  }

  lemma ExchangeEnd(tcb: seq<Tcb>, q0: seq<nat>, q: seq<nat>)
    requires q != [] && Exchanged(tcb, q0, q, |q| - 1, |q|)
    ensures SortedFrom(tcb, q0, q)
  {
  }

  lemma AccountNone(s: KState)
    requires RtWellFormed(s)
    ensures InTable(s.tcb, s.rt) && |s.rt| <= |s.tcb|
    ensures AccountPass(s.tcb, s.rt, 0) == s.tcb && FirstEligible(s.tcb, s.rt, 0) == 0
  {
  }

  /** The entry reached next is still untouched, and what the loop body does to
      it is what the pass over one more entry does. */
  lemma AccountNext(s: KState, i: nat)
    requires RtWellFormed(s) && i < |s.rt| && InTable(s.tcb, s.rt)
    ensures var t := s.rt[i]; var id := FirstEligible(s.tcb, s.rt, i);
            && 0 < t < |s.tcb| && AccountPass(s.tcb, s.rt, i)[t] == s.tcb[t] && s.tcb[t].id == t
            && var runs := s.tcb[t].state != Blocked && s.tcb[t].capacityRem > 0 && id == 0;
               && FirstEligible(s.tcb, s.rt, i + 1) == (if runs then t else id)
               && AccountPass(s.tcb, s.rt, i + 1) == AccountPass(s.tcb, s.rt, i)[t := Account(s.tcb[t], runs)]
  {
    hide FirstEligible, AccountPass, Account, Distinct;
    var q := s.rt;
    var t := q[i];
    FirstEligibleNext(s.tcb, q, i);
    EntryIsNew(q, i);
    forall x | 0 <= x < |s.tcb|
      ensures AccountPass(s.tcb, q, i + 1)[x]
              == if x == t then Account(s.tcb[t], FirstEligible(s.tcb, q, i) == 0 && Eligible(s.tcb[t]))
                 else AccountPass(s.tcb, q, i)[x]
    {
      AccountPassAt(s.tcb, q, i, x);
      AccountPassAt(s.tcb, q, i + 1, x);
    }
    AccountPassAt(s.tcb, q, i, t);
  }

  lemma EntryIsNew(q: seq<nat>, i: nat)
    requires i < |q| && Distinct(q)
    ensures q[i] !in q[..i]
    ensures forall x :: x in q[..i + 1] <==> x in q[..i] || x == q[i]
  {
    assert q[..i + 1] == q[..i] + [q[i]];
  }

  lemma FirstEligibleNext(tcb: seq<Tcb>, q: seq<nat>, i: nat)
    requires InTable(tcb, q) && i < |q|
    ensures var id := FirstEligible(tcb, q, i);
            FirstEligible(tcb, q, i + 1) == if id == 0 && Eligible(tcb[q[i]]) then q[i] else id
  {
  }

  lemma RmaEmpty(s: KState)
    requires s.rt == [] && 0 < |s.tcb|
    ensures Rma(s, s, 0)
  {
  }

  lemma SortedStillWellFormed(s: KState, q: seq<nat>)
    requires RtWellFormed(s) && SortedFrom(s.tcb, s.rt, q)
    ensures InTable(s.tcb, q) && RtWellFormed(s.(rt := q)) && |q| == |s.rt|
  {
    assert |q| == |multiset(q)| && |s.rt| == |multiset(s.rt)|;
    PermutedDistinct(s.rt, q);
    forall i | 0 <= i < |q|
      ensures q[i] in s.rt
    {
      SameMembers(q, s.rt, q[i]);
    }
  }

  lemma EligibleInTable(tcb: seq<Tcb>, q: seq<nat>)
    requires InTable(tcb, q) && 0 < |tcb|
    ensures FirstEligible(tcb, q, |q|) < |tcb|
  {
  }

  /** The two ways sched_priorityrr ends. */
  lemma PriorityRRCritical(s: KState)
    requires s.run != [] && InTable(s.tcb, s.run)
    ensures var q := Rot(s.run);
            && q != [] && InTable(s.tcb, q)
            && var c := FirstCritical(s.tcb, q, 0);
               c < |q| ==>
                 var x := s.tcb[q[c]];
                 RunnableBE(s) && PriorityRR(s) == (s.(run := RotBy(q, c + 1),
                                      tcb := s.tcb[q[c] := x.(critical := false, bgjobs := x.bgjobs + 1)]), q[c])
  {
    SearchExact(s);
  }

  lemma PriorityRRBest(s: KState)
    requires RunnableBE(s) && InTable(s.tcb, Rot(s.run))
    requires FirstCritical(s.tcb, Rot(s.run), 0) == |s.run|
    ensures var q := Rot(s.run);
            var best := Best(s.tcb, q, |q|);
            && best.Some? && best.value < |s.tcb|
            && var tcb' := ChargeSome(s.tcb, q, best.value);
               && tcb'[best.value] == s.tcb[best.value]
               && PriorityRR(s) == (s.(run := q, tcb := tcb'[best.value := Picked(s.tcb[best.value])]), best.value)
  {
    var q := Rot(s.run);
    RotDistinct(s.run);
    RotWhole(q);
    SearchExact(s);
    ChargeLast(s.tcb, q, Best(s.tcb, q, |q|).value);
  }

  lemma CriticalHere(tcb: seq<Tcb>, q: seq<nat>, i: nat)
    requires InTable(tcb, q) && i < |q| && FirstCritical(tcb, q, 0) >= i
    ensures q[i] < |tcb|
    ensures CriticalReady(tcb[q[i]]) <==> FirstCritical(tcb, q, 0) == i
  {
  }

  lemma BestNone(tcb: seq<Tcb>, q: seq<nat>)
    requires InTable(tcb, q)
    ensures Best(tcb, q, 0) == None
  {
  }

  lemma BestNext(tcb: seq<Tcb>, q: seq<nat>, i: nat)
    requires InTable(tcb, q) && i < |q|
    ensures var b := Best(tcb, q, i); var x := tcb[q[i]];
            Best(tcb, q, i + 1) == if Highest(tcb, b) > x.priorityRem && x.state != Blocked then Some(q[i]) else b
  {
  }

  /** TCBs once the queue entries in `done`, other than b, have been charged. */
  ghost function ChargeSome(tcb: seq<Tcb>, done: seq<nat>, b: nat): (r: seq<Tcb>)
    requires b < |tcb|
    ensures |r| == |tcb|
  {
    seq(|tcb|, i requires 0 <= i < |tcb| =>
      if i != b && i in done then Charged(tcb[i], tcb[b].priorityRem) else tcb[i])
  }

  lemma ChargeNone(tcb: seq<Tcb>, b: nat)
    requires b < |tcb|
    ensures ChargeSome(tcb, [], b) == tcb
  {
  }

  lemma ChargeNext(tcb: seq<Tcb>, q: seq<nat>, i: nat, b: nat)
    requires InTable(tcb, q) && i < |q| && b < |tcb| && Distinct(q)
    ensures q[i] < |tcb| && ChargeSome(tcb, q[..i], b)[q[i]] == tcb[q[i]]
    ensures ChargeSome(tcb, q[..i], b)[b] == tcb[b]
    ensures ChargeSome(tcb, q[..i + 1], b)
            == if q[i] == b then ChargeSome(tcb, q[..i], b)
               else ChargeSome(tcb, q[..i], b)[q[i] := Charged(tcb[q[i]], tcb[b].priorityRem)]
  {
    assert q[..i + 1] == q[..i] + [q[i]];
    assert q[i] !in q[..i];
  }

  lemma ChargeLast(tcb: seq<Tcb>, q: seq<nat>, b: nat)
    requires b < |tcb|
    ensures ChargeSome(tcb, q, b)[b] == tcb[b]
    ensures ChargeSome(tcb, q, b)[b := Picked(tcb[b])] == ChargeAll(tcb, q, b)
  {
  }
}
