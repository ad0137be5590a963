/** What the scheduling passes of sys/kernel/scheduler.c compute, as functions
    and relations on the abstract kernel state. */
module SchedulerSpec {
  import opened Queues
  import opened Sequences
  import opened Tasks

  lemma RotDistinct(q: seq<nat>)
    requires q != []
    ensures |Rot(q)| == |q|
    ensures Distinct(q) ==> Distinct(Rot(q))
    ensures forall t :: t in q ==> t in Rot(q)
  {
    assert q == [q[0]] + q[1..];
  }

  /** Every entry of q points into the TCB table. */
  predicate InTable(tcb: seq<Tcb>, q: seq<nat>) {
    forall i :: 0 <= i < |q| ==> q[i] < |tcb|
  }

  // ----- delay queue -----

  predicate Due(x: Tcb) {
    x.delay == 1
  }

  function CountDown(x: Tcb): (y: Tcb)
    ensures x.delay > 0 ==> y.delay == x.delay - 1
    ensures y.period == x.period && y.live == x.live && y.id == x.id
  {
    x.(delay := (x.delay - 1) % U32)
  }

  /** One turn of the delay loop: the head is counted down and put on the queue
      it belongs to from now on. */
  function DelayStep(s: KState): KState {
    if s.dl == [] || s.dl[0] >= |s.tcb| then s
    else
      var t := s.dl[0];
      var x := CountDown(s.tcb[t]);
      var s1 := s.(tcb := s.tcb[t := x], dl := s.dl[1..]);
      if x.delay != 0 then s1.(dl := s1.dl + [t])
      else if x.period != 0 then s1.(rt := s1.rt + [t])
      else s1.(run := s1.run + [t])
  }

  function DelaySteps(s: KState, n: nat): KState {
    if n == 0 then s else DelayStep(DelaySteps(s, n - 1))
  }

  lemma MoveQueued(l: seq<nat>, r: seq<nat>)
    requires l != []
    ensures multiset(l[1..]) + multiset(r + [l[0]]) == multiset(l) + multiset(r)
  {
    assert l == [l[0]] + l[1..];
  }

  lemma DelayStepQueued(s: KState)
    ensures Queued(DelayStep(s)) == Queued(s)
    ensures var s' := DelayStep(s); |s'.run| + |s'.rt| + |s'.dl| == |s.run| + |s.rt| + |s.dl|
  {
    if s.dl != [] {
      hide CountDown;
      MoveQueued(s.dl, s.run);
      MoveQueued(s.dl, s.rt);
      MoveQueued(s.dl, []);
      assert multiset(s.dl[1..] + [s.dl[0]]) == multiset(s.dl) by {
        assert multiset(s.dl[1..]) + multiset([] + [s.dl[0]]) == multiset(s.dl[1..] + [s.dl[0]]);
      }
    }
  }

  lemma DelayStepTable(s: KState, t: nat)
    requires s.dl != [] ==> s.dl[0] < |s.tcb|
    ensures IsLive(DelayStep(s), t) == IsLive(s, t)
    ensures |DelayStep(s).tcb| == |s.tcb|
    ensures t < |s.tcb| ==> var x, x' := s.tcb[t], DelayStep(s).tcb[t];
      && x'.period == x.period && x'.id == x.id
      && x' == if s.dl != [] && t == s.dl[0] then CountDown(x) else x
  {
  }

  lemma DelayStepMember(s: KState, t: nat)
    requires Partition(s)
    ensures var s' := DelayStep(s);
            && (t in s'.run ==> t < |s'.tcb| && s'.tcb[t].period == 0)
            && (t in s'.rt ==> t < |s'.tcb| && s'.tcb[t].period > 0)
            && (t in s'.dl ==> t < |s'.tcb| && s'.tcb[t].delay > 0)
            && IsLive(s', t) == IsLive(s, t)
            && (IsLive(s', t) ==> s'.tcb[t].id == t)
  {
    if s.dl != [] {
      var h, r := s.dl[0], s.dl[1..];
      assert s.dl == [h] + r && h !in r by {
        PartitionDistinct(s);
      }
      assert h in s.dl && h < |s.tcb|;
      DelayStepTable(s, t);
      hide CountDown, Queued;
    }
  }

  /** Counting down one entry keeps the partition: a delayed task is either put
      back or moved to the queue its period names, never lost or doubled. */
  lemma DelayStepPartition(s: KState)
    requires Partition(s)
    ensures Partition(DelayStep(s))
  {
    forall t: nat {
      DelayStepMember(s, t);
    }
    DelayStepQueued(s);
  }

  // ----- best effort: sched_priorityrr -----

  predicate CriticalReady(x: Tcb) {
    x.critical && x.state != Blocked
  }

  /** Position of the first critical ready task from `from` on, or |q|. */
  function FirstCritical(tcb: seq<Tcb>, q: seq<nat>, from: nat): (c: nat)
    requires from <= |q|
    requires InTable(tcb, q)
    ensures from <= c <= |q|
    ensures c < |q| ==> CriticalReady(tcb[q[c]])
    ensures forall j :: from <= j < c ==> !CriticalReady(tcb[q[j]])
    decreases |q| - from
  {
    if from == |q| || CriticalReady(tcb[q[from]]) then from else FirstCritical(tcb, q, from + 1)
  }

  function Highest(tcb: seq<Tcb>, b: Option<nat>): int
    requires b.Some? ==> b.value < |tcb|
  {
    if b.Some? then tcb[b.value].priorityRem else 255
  }

  /** The search of the second loop over the first n queue entries: among the
      tasks that are not blocked, the first with the least remaining priority. */
  function Best(tcb: seq<Tcb>, q: seq<nat>, n: nat): (b: Option<nat>)
    requires n <= |q|
    requires InTable(tcb, q)
    ensures b.Some? ==> b.value in q[..n] && b.value < |tcb| && tcb[b.value].state != Blocked && tcb[b.value].priorityRem < 255
    ensures forall j :: 0 <= j < n && tcb[q[j]].state != Blocked ==> Highest(tcb, b) <= tcb[q[j]].priorityRem
  {
    if n == 0 then None
    else
      var b := Best(tcb, q, n - 1);
      assert q[..n] == q[..n - 1] + [q[n - 1]];
      var x := tcb[q[n - 1]];
      if Highest(tcb, b) > x.priorityRem && x.state != Blocked then Some(q[n - 1]) else b
  }

  /** Remaining priority after another task with remaining priority r was
      picked; the subtraction is on 8 bits. */
  function Charged(x: Tcb, r: uint8): Tcb {
    x.(priorityRem := (x.priorityRem - r) % U8)
  }

  function Picked(x: Tcb): Tcb {
    x.(priorityRem := x.priority, bgjobs := x.bgjobs + 1)
  }

  function ChargeAll(tcb: seq<Tcb>, q: seq<nat>, b: nat): (r: seq<Tcb>)
    requires b < |tcb|
    ensures |r| == |tcb|
  {
    seq(|tcb|, i requires 0 <= i < |tcb| =>
      if i == b then Picked(tcb[i])
      else if i in q then Charged(tcb[i], tcb[b].priorityRem)
      else tcb[i])
  }

  /** The search can settle for this task: 255 is where `highestp` starts. */
  predicate Pickable(x: Tcb) {
    x.state != Blocked && x.priorityRem < 255
  }

  /** The best effort pass has a task to return: a critical one, or one that the
      search can settle for. */
  ghost predicate RunnableBE(s: KState) {
    && s.run != []
    && InTable(s.tcb, s.run)
    && exists t :: t in s.run && (CriticalReady(s.tcb[t]) || Pickable(s.tcb[t]))
  }

  /** The search leaves krnl_task2 NULL exactly if no task of the queue is ready
      with a remaining priority below 255. */
  lemma {:induction false} BestExact(tcb: seq<Tcb>, q: seq<nat>, n: nat)
    requires n <= |q| && InTable(tcb, q)
    ensures Best(tcb, q, n).Some? <==> exists i :: 0 <= i < n && Pickable(tcb[q[i]])
  {
    if n > 0 {
      BestExact(tcb, q, n - 1);
    }
  }

  lemma FirstCriticalExact(tcb: seq<Tcb>, q: seq<nat>)
    requires InTable(tcb, q)
    ensures FirstCritical(tcb, q, 0) < |q| <==> exists i :: 0 <= i < |q| && CriticalReady(tcb[q[i]])
  {
  }

  /** sched_priorityrr, which searches the queue after one turn, returns a task
      if and only if RunnableBE; otherwise it follows a NULL krnl_task2. */
  lemma SearchExact(s: KState)
    requires s.run != [] && InTable(s.tcb, s.run)
    ensures var q := Rot(s.run);
            InTable(s.tcb, q) && (RunnableBE(s) <==> FirstCritical(s.tcb, q, 0) < |q| || Best(s.tcb, q, |q|).Some?)
  {
    var q := Rot(s.run);
    assert s.run == [s.run[0]] + s.run[1..];
    assert InTable(s.tcb, q);
    BestExact(s.tcb, q, |q|);
    FirstCriticalExact(s.tcb, q);
    RotMembers(s.run);
    hide Rot, Best, FirstCritical, Pickable, CriticalReady;
    if RunnableBE(s) {
      var t :| t in s.run && (CriticalReady(s.tcb[t]) || Pickable(s.tcb[t]));
      var i :| 0 <= i < |q| && q[i] == t;
    }
  }

  lemma RotMembers(q: seq<nat>)
    requires q != []
    ensures |Rot(q)| == |q|
    ensures forall t :: t in q <==> t in Rot(q)
    ensures forall i :: 0 <= i < |q| ==> Rot(q)[i] in q
  {
    assert q == [q[0]] + q[1..];
  }

  /** State after sched_priorityrr, and the task it picked. */
  ghost function PriorityRR(s: KState): (r: (KState, nat))
    requires RunnableBE(s)
    ensures r.1 in s.run && s.tcb[r.1].state != Blocked
  {
    var q := Rot(s.run);
    assert s.run == [s.run[0]] + s.run[1..];
    SearchExact(s);
    var c := FirstCritical(s.tcb, q, 0);
    if c < |q| then
      var t := q[c];
      var x := s.tcb[t];
      (s.(run := RotBy(q, c + 1), tcb := s.tcb[t := x.(critical := false, bgjobs := x.bgjobs + 1)]), t)
    else
      assert q[..|q|] == q;
      var b := Best(s.tcb, q, |q|).value;
      (s.(run := q, tcb := ChargeAll(s.tcb, q, b)), b)
  }

  // ----- real time: sched_rma -----

  ghost predicate PeriodSorted(tcb: seq<Tcb>, q: seq<nat>) {
    && InTable(tcb, q)
    && forall i, j :: 0 <= i < j < |q| ==> tcb[q[i]].period <= tcb[q[j]].period
  }

  /** What the exchange sort may do: permute into period order, and leave a
      sorted queue alone although the sort is not stable. */
  ghost predicate SortedFrom(tcb: seq<Tcb>, q: seq<nat>, q': seq<nat>) {
    && multiset(q') == multiset(q)
    && PeriodSorted(tcb, q')
    && (PeriodSorted(tcb, q) ==> q' == q)
  }

  ghost predicate RtWellFormed(s: KState) {
    && 0 < |s.tcb| && |s.rt| <= |s.tcb| && Distinct(s.rt)
    && forall i :: 0 <= i < |s.rt| ==> 0 < s.rt[i] < |s.tcb| && s.tcb[s.rt[i]].id == s.rt[i]
  }

  predicate Eligible(x: Tcb) {
    x.state != Blocked && x.capacityRem > 0
  }

  /** The first eligible entry among the first n, or 0 (the idle task's id). */
  function FirstEligible(tcb: seq<Tcb>, q: seq<nat>, n: nat): (id: nat)
    requires n <= |q|
    requires InTable(tcb, q)
    ensures id == 0 || (id in q[..n] && id < |tcb| && Eligible(tcb[id]))
  {
    if n == 0 then 0
    else
      var id := FirstEligible(tcb, q, n - 1);
      assert q[..n] == q[..n - 1] + [q[n - 1]];
      if id == 0 && Eligible(tcb[q[n - 1]]) then q[n - 1] else id
  }

  /** Accounting of one tick for one task; `runs` when it gets the tick. */
  function Account(x: Tcb, runs: bool): Tcb
    requires runs ==> x.capacityRem > 0
  {
    var left := if runs then x.capacityRem - 1 else x.capacityRem;
    var dr := (x.deadlineRem - 1) % U16;
    if dr == 0 then
      x.(deadlineRem := x.period,
         deadlineMisses := if left > 0 then x.deadlineMisses + 1 else x.deadlineMisses,
         capacityRem := x.capacity)
    else
      x.(deadlineRem := dr, capacityRem := left)
  }

  /** TCBs after the first n entries of the sorted queue were accounted. */
  function AccountPass(tcb: seq<Tcb>, q: seq<nat>, n: nat): (r: seq<Tcb>)
    requires n <= |q|
    requires InTable(tcb, q)
    ensures |r| == |tcb|
  {
    var id := FirstEligible(tcb, q, n);
    seq(|tcb|, i requires 0 <= i < |tcb| =>
      if i in q[..n] then Account(tcb[i], i == id && id != 0) else tcb[i])
  }

  lemma AccountPassAt(tcb: seq<Tcb>, q: seq<nat>, n: nat, x: nat)
    requires n <= |q| && InTable(tcb, q) && x < |tcb|
    ensures var id := FirstEligible(tcb, q, n);
            && (x == id && id != 0 ==> tcb[x].capacityRem > 0)
            && AccountPass(tcb, q, n)[x] == if x in q[..n] then Account(tcb[x], x == id && id != 0) else tcb[x]
  {
  }

  function CountJob(tcb: seq<Tcb>, id: nat): seq<Tcb>
    requires id < |tcb|
  {
    if id == 0 then tcb else tcb[id := tcb[id].(rtjobs := tcb[id].rtjobs + 1)]
  }

  /** State after sched_rma when the sort left the RT queue as q. */
  function RmaOn(s: KState, q: seq<nat>): KState
    requires 0 < |s.tcb|
    requires InTable(s.tcb, q)
  {
    s.(rt := q, tcb := CountJob(AccountPass(s.tcb, q, |q|), FirstEligible(s.tcb, q, |q|)))
  }

  /** sched_rma takes s to s' and returns id. */
  ghost predicate Rma(s: KState, s': KState, id: nat) {
    && 0 < |s.tcb|
    && SortedFrom(s.tcb, s.rt, s'.rt)
    && id == FirstEligible(s.tcb, s'.rt, |s'.rt|)
    && s' == RmaOn(s, s'.rt)
  }
}
