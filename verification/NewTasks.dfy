/** What a task looks like to the schedulers when hf_spawn has returned: it
    meets what the laws of both levels ask of a task at the start of a run. */
module NewTasks {
  import opened Queues
  import opened Sequences
  import opened Tasks
  import opened SchedulerSpec
  import opened TaskOpsSpec
  import opened KernelSteps
  import RateMonotonic
  import ProportionalShare

  /** A spawned real time task is at the start of its first window, which the
      deadline closes, so that its jobs and misses are accounted from now on. */
  lemma SpawnedRealTime(s: KState, i: nat, period: uint16, capacity: uint16, deadline: uint16)
    requires KernelInv(s) && i < |s.tcb| < U16 && !s.tcb[i].live
    requires Admissible(period, capacity, deadline) && period > 0
    ensures var s' := SpawnIn(s, i, period, capacity, deadline); var x := s'.tcb[i];
      && RtWellFormed(s') && i in s'.rt && i !in s.rt
      && RateMonotonic.AtWindowStart(x) && x.deadlineRem == x.deadline && x.period == period && x.capacity == capacity
      && (RateMonotonic.InWindow(x) <==> deadline > 0)
      && (x.deadlineRem == x.period <==> deadline == period)
      && forall t: nat :: t < |s.tcb| && t != i ==> s'.tcb[t] == s.tcb[t]
  {
    hide Partition;
    SpawnFields(s, i, period, capacity, deadline);
    SpawnKeeps(s, i, period, capacity, deadline);
    InvEnablesSchedulers(SpawnIn(s, i, period, capacity, deadline));
    PartitionDistinct(s);
    assert !IsLive(s, i);
  }

  /** Jobs and misses of a spawned task after n ticks: it ran at most `capacity`
      times in each window that the clock has opened, and exactly as often if and
      only if it missed no deadline. */
  lemma SpawnedJobs(s: KState, i: nat, period: uint16, capacity: uint16, deadline: uint16, states: seq<KState>, n: nat)
    requires KernelInv(s) && i < |s.tcb| < U16 && !s.tcb[i].live
    requires Admissible(period, capacity, deadline) && period > 0
    requires RateMonotonic.RtRun(states) && states[0] == SpawnIn(s, i, period, capacity, deadline) && |states| == n + 1
    ensures i < |states[n].tcb|
    ensures var x := states[n].tcb[i];
      var windows := RateMonotonic.Closed(if deadline == 0 then U16 else deadline, period, n) + 1;
      && x.rtjobs <= windows * capacity - x.capacityRem
      && (x.deadlineMisses == 0 <==> x.rtjobs == windows * capacity - x.capacityRem)
      && x.deadlineMisses < windows
  {
    hide KernelInv, RateMonotonic.RtRun, RateMonotonic.Unspent, RateMonotonic.Closed, RateMonotonic.Opened, SpawnIn, RateMonotonic.Sum, RateMonotonic.Missed, RtWellFormed;
    SpawnedRealTime(s, i, period, capacity, deadline);
    SpawnFields(s, i, period, capacity, deadline);
    RateMonotonic.AccountingLaw(states, i);
    RateMonotonic.JobBound(states, i);
    RateMonotonic.WindowLaw(states, i);
    RateMonotonic.SumMissed(RateMonotonic.Unspent(states, i));
    OpenedMeans(|RateMonotonic.Unspent(states, i)| + 1, capacity);
  }

  lemma OpenedMeans(windows: nat, capacity: nat)
    ensures RateMonotonic.Opened(windows, capacity) == windows * capacity
  {
  }

  /** A best effort set that competes, with nothing picked yet. */
  ghost predicate FairStart(s: KState) {
    ProportionalShare.FairSet(s) && forall t: nat :: t in s.run && t < |s.tcb| ==> s.tcb[t].priorityRem == s.tcb[t].priority
  }

  /** A spawned best effort task joins such a set, unless its slot was left
      critical by the task before it. */
  lemma SpawnedBestEffort(s: KState, i: nat, deadline: uint16)
    requires KernelInv(s) && i < |s.tcb| < U16 && !s.tcb[i].live && FairStart(s)
    ensures var s' := SpawnIn(s, i, 0, 0, deadline);
      && s'.run == s.run + [i]
      && (FairStart(s') <==> !s.tcb[i].critical)
      && (FairStart(s') ==> ProportionalShare.ShareRun([s']))
  {
    hide Partition;
    SpawnFields(s, i, 0, 0, deadline);
    SpawnKeeps(s, i, 0, 0, deadline);
    var s' := SpawnIn(s, i, 0, 0, deadline);
    InvEnablesSchedulers(s');
    PartitionDistinct(s);
    assert s'.run[|s.run|] == i;
    assert forall t: nat :: t in s'.run <==> t in s.run || t == i;
    assert forall t: nat :: t in s.run ==> s'.tcb[t] == s.tcb[t];
    hide KernelInv, Distinct, InTable, SpawnIn;
    if s.tcb[i].critical {
      assert !ProportionalShare.Contender(s'.tcb[i]);
    }
  }

  /** A set of tasks spawned with their periods as deadlines meets the demands of
      the guarantee on windows: each spawn adds one that is at the start of its
      first one and leaves those of the others alone. */
  lemma SpawnedInWindow(s: KState, i: nat, period: uint16, capacity: uint16)
    requires KernelInv(s) && i < |s.tcb| < U16 && !s.tcb[i].live && capacity <= period && period > 0
    requires RateMonotonic.AllInWindow(s, s.rt, |s.rt|)
    ensures var s' := SpawnIn(s, i, period, capacity, period);
      && RateMonotonic.AllInWindow(s', s'.rt, |s'.rt|)
      && s'.tcb[i].deadlineRem == s'.tcb[i].period
  {
    SpawnedRealTime(s, i, period, capacity, period);
    SpawnFields(s, i, period, capacity, period);
    var s' := SpawnIn(s, i, period, capacity, period);
    hide KernelInv, SpawnIn, RateMonotonic.InWindow;
    forall y | 0 <= y < |s'.rt|
      ensures s'.rt[y] < |s'.tcb| && RateMonotonic.InWindow(s'.tcb[s'.rt[y]])
    {
      if y < |s.rt| {
        assert s.rt[y] == s'.rt[y] && s.rt[y] in s.rt;
      }
    }
  }
}
