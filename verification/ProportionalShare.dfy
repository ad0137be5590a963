/** Proportional share of the best effort scheduler over whole runs
    (sched_priorityrr, sys/kernel/scheduler.c:180-220): with a fixed set of
    ready tasks, a task is picked in inverse proportion to its priority
    number, nobody starves, and the 8-bit subtraction never wraps. */
module ProportionalShare {
  import opened Queues
  import opened Sequences
  import opened Tasks
  import opened SchedulerSpec
  import opened TaskOpsSpec
  import opened Arithmetic

  predicate Contender(x: Tcb) {
    x.state != Blocked && !x.critical && 1 <= x.priority <= 254
  }

  /** A best effort set in which every task competes. */
  ghost predicate FairSet(s: KState) {
    && s.run != [] && Distinct(s.run) && InTable(s.tcb, s.run)
    && forall t :: t in s.run ==> t < |s.tcb| && Contender(s.tcb[t])
  }

  ghost predicate SameShares(x: Tcb, y: Tcb) {
    y.priority == x.priority && y.priorityRem == x.priorityRem && y.bgjobs == x.bgjobs
  }

  /** One call of the scheduler, after which anything may happen to the tasks
      except being blocked, raised to critical or given another priority. */
  ghost predicate ShareStep(s: KState, s': KState) {
    && |s'.tcb| == |s.tcb|
    && (RunnableBE(s) ==>
         var r := PriorityRR(s).0;
         && |r.tcb| == |s.tcb|
         && s'.run == r.run
         && forall t :: t in s.run && t < |s.tcb| ==> SameShares(r.tcb[t], s'.tcb[t]))
  }

  ghost predicate ShareRun(states: seq<KState>) {
    && states != []
    && (forall i :: 0 <= i < |states| ==> FairSet(states[i]))
    && (forall i :: 0 <= i < |states| - 1 ==> ShareStep(states[i], states[i + 1]))
    && forall t :: t in states[0].run ==> t < |states[0].tcb| && states[0].tcb[t].priorityRem == states[0].tcb[t].priority
  }

  /** How often t was picked since s0. */
  function Picks(s0: KState, s: KState, t: nat): int
    requires t < |s0.tcb| && t < |s.tcb|
  {
    s.tcb[t].bgjobs - s0.tcb[t].bgjobs
  }

  /** The virtual time of t. */
  function Level(s0: KState, s: KState, t: nat): int
    requires t < |s0.tcb| && t < |s.tcb|
  {
    (Picks(s0, s, t) + 1) * s.tcb[t].priority - s.tcb[t].priorityRem
  }

  /** All tasks are at the same virtual time `level`. */
  ghost predicate Aligned(s0: KState, s: KState, level: int) {
    && |s.tcb| == |s0.tcb|
    && (forall t :: t in s.run <==> t in s0.run)
    && forall t :: t in s.run ==>
         && t < |s.tcb| && s.tcb[t].priority == s0.tcb[t].priority
         && s.tcb[t].priorityRem <= s.tcb[t].priority
         && Level(s0, s, t) == level
  }

  /** What one call does to each task: the pick starts over, every other task
      loses the pick's remaining priority, which is the least of all. */
  lemma StepEffect(s: KState, t: nat)
    requires FairSet(s) && RunnableBE(s) && t in s.run
    ensures var r := PriorityRR(s); var c := r.1;
            && |r.0.tcb| == |s.tcb| && c in s.run && c < |s.tcb| && t < |s.tcb|
            && s.tcb[c].priorityRem <= s.tcb[t].priorityRem
            && r.0.tcb[t] == if t == c then Picked(s.tcb[t])
                             else s.tcb[t].(priorityRem := s.tcb[t].priorityRem - s.tcb[c].priorityRem)
  {
    hide ChargeAll, Best;
    var q := Rot(s.run);
    RotDistinct(s.run);
    NoCritical(s, q);
    SearchExact(s);
    var b := Best(s.tcb, q, |q|);
    var j :| 0 <= j < |q| && q[j] == t;
    assert Highest(s.tcb, b) <= s.tcb[q[j]].priorityRem;
    ChargeAllAt(s.tcb, q, b.value, t);
    NoWrap(s.tcb[t], s.tcb[b.value].priorityRem);
  }

  lemma NoCritical(s: KState, q: seq<nat>)
    requires FairSet(s) && InTable(s.tcb, q) && forall t :: t in q ==> t in s.run
    ensures FirstCritical(s.tcb, q, 0) == |q|
  {
    forall j | 0 <= j < |q|
      ensures !CriticalReady(s.tcb[q[j]])
    {
      assert q[j] in q;
    }
  }

  lemma StepMembers(s: KState)
    requires FairSet(s) && RunnableBE(s)
    ensures forall t :: t in PriorityRR(s).0.run <==> t in s.run
  {
    RotDistinct(s.run);
    PriorityRRQueues(s);
    forall t: nat {
      SameMembers(PriorityRR(s).0.run, s.run, t);
    }
  }

  /** There is always a task to pick. */
  lemma AlignedRunnable(s0: KState, s: KState, level: int)
    requires FairSet(s) && Aligned(s0, s, level)
    ensures RunnableBE(s)
  {
    assert s.run[0] in s.run && Contender(s.tcb[s.run[0]]);
  }

  /** A call moves every task to the same new virtual time. */
  lemma StepAligned(s0: KState, s: KState, s': KState, level: int) returns (next: int)
    requires FairSet(s) && ShareStep(s, s') && Aligned(s0, s, level)
    ensures Aligned(s0, s', next) && next >= level
  {
    hide PriorityRR, FairSet, Level, ShareStep, RunnableBE, SameShares;
    AlignedRunnable(s0, s, level);
    var c := PriorityRR(s).1;
    PickInSet(s);
    next := level + s.tcb[c].priorityRem;
    ShareStepMembers(s, s');
    forall t | t in s'.run
      ensures t < |s'.tcb| && s'.tcb[t].priority == s0.tcb[t].priority
      ensures s'.tcb[t].priorityRem <= s'.tcb[t].priority
      ensures Level(s0, s', t) == next
    {
      TaskAligned(s0, s, s', t);
    }
  }

  lemma ShareStepMembers(s: KState, s': KState)
    requires FairSet(s) && RunnableBE(s) && ShareStep(s, s')
    ensures |s'.tcb| == |s.tcb| && forall t :: t in s'.run <==> t in s.run
  {
    hide PriorityRR, FairSet, RunnableBE;
    StepMembers(s);
  }

  lemma TaskAligned(s0: KState, s: KState, s': KState, t: nat)
    requires FairSet(s) && RunnableBE(s) && ShareStep(s, s') && |s.tcb| == |s0.tcb|
    requires t in s.run && t < |s.tcb| && s.tcb[t].priorityRem <= s.tcb[t].priority
    ensures var c := PriorityRR(s).1;
            && |s'.tcb| == |s.tcb| && c < |s.tcb|
            && s'.tcb[t].priority == s.tcb[t].priority && s'.tcb[t].priorityRem <= s'.tcb[t].priority
            && Level(s0, s', t) == Level(s0, s, t) + s.tcb[c].priorityRem
  {
    hide PriorityRR, FairSet, RunnableBE;
    var c := PriorityRR(s).1;
    StepEffect(s, t);
    assert SameShares(PriorityRR(s).0.tcb[t], s'.tcb[t]);
    if t == c {
      var p := s.tcb[t].priority;
      assert (Picks(s0, s, t) + 2) * p == (Picks(s0, s, t) + 1) * p + p;
    }
  }

  lemma StartAligned(s: KState)
    requires FairSet(s)
    requires forall t :: t in s.run ==> t < |s.tcb| && s.tcb[t].priorityRem == s.tcb[t].priority
    ensures Aligned(s, s, 0)
  {
  }

  /** After any number of calls all tasks have the same virtual time. */
  lemma {:induction false} RunAligned(states: seq<KState>, n: nat) returns (level: int)
    requires ShareRun(states) && n < |states|
    ensures Aligned(states[0], states[n], level)
  {
    hide FairSet, ShareStep, Aligned;
    if n == 0 {
      StartAligned(states[0]);
      level := 0;
    } else {
      var l := RunAligned(states, n - 1);
      assert ShareStep(states[n - 1], states[n]);
      level := StepAligned(states[0], states[n - 1], states[n], l);
    }
  }

  /** Proportional share: at every point of the run the picks of two tasks,
      weighted with their priority numbers, differ by at most the larger one. */
  lemma ShareLaw(states: seq<KState>, n: nat, i: nat, j: nat)
    requires ShareRun(states) && n < |states| && i in states[0].run && j in states[0].run
    ensures i < |states[0].tcb| && j < |states[0].tcb| && |states[n].tcb| == |states[0].tcb|
    ensures var s0, s := states[0], states[n];
            var pi: int, pj: int := s0.tcb[i].priority, s0.tcb[j].priority;
            var d := Picks(s0, s, i) * pi - Picks(s0, s, j) * pj;
            -pi <= d <= pj
  {
    var s0, s := states[0], states[n];
    assert FairSet(s);
    var level := RunAligned(states, n);
    assert i in s.run && j in s.run && Contender(s.tcb[i]) && Contender(s.tcb[j]);
    hide ShareRun, FairSet;
    PairBound(Picks(s0, s, i), s.tcb[i].priority, s.tcb[i].priorityRem,
              Picks(s0, s, j), s.tcb[j].priority, s.tcb[j].priorityRem);
  }

  lemma PairBound(ni: int, pi: int, ri: int, nj: int, pj: int, rj: int)
    requires (ni + 1) * pi - ri == (nj + 1) * pj - rj && 0 <= ri <= pi && 0 <= rj <= pj
    ensures -pi <= ni * pi - nj * pj <= pj
  {
  }

  /** The subtraction of remaining priorities never wraps around. */
  lemma ShareNoWrap(states: seq<KState>, n: nat, t: nat)
    requires ShareRun(states) && n < |states| && t in states[n].run
    ensures RunnableBE(states[n])
    ensures var s := states[n]; var c := PriorityRR(s).1;
            && t < |s.tcb| && c < |s.tcb|
            && (s.tcb[t].priorityRem - s.tcb[c].priorityRem) % U8 == s.tcb[t].priorityRem - s.tcb[c].priorityRem
  {
    hide ShareRun, ShareStep, FairSet, PriorityRR, Aligned, RunnableBE;
    FairAt(states, n);
    var level := RunAligned(states, n);
    AlignedRunnable(states[0], states[n], level);
    NoWrapAt(states[n], t);
  }

  lemma FairAt(states: seq<KState>, n: nat)
    requires ShareRun(states) && n < |states|
    ensures FairSet(states[n])
  {
  }

  lemma NoWrapAt(s: KState, t: nat)
    requires FairSet(s) && RunnableBE(s) && t in s.run
    ensures var c := PriorityRR(s).1;
            && t < |s.tcb| && c < |s.tcb|
            && (s.tcb[t].priorityRem - s.tcb[c].priorityRem) % U8 == s.tcb[t].priorityRem - s.tcb[c].priorityRem
  {
    hide PriorityRR, FairSet, RunnableBE;
    StepEffect(s, t);
  }

  // ----- no starvation -----

  /** Picks of the tasks of q between two states. */
  ghost function TotalPicks(a: KState, b: KState, q: seq<nat>): int {
    if q == [] then 0
    else TotalPicks(a, b, q[1..]) + if q[0] < |a.tcb| && q[0] < |b.tcb| then Picks(a, b, q[0]) else 0
  }

  lemma {:induction false} TotalPicksStep(a: KState, s: KState, s': KState, q: seq<nat>)
    requires FairSet(s) && RunnableBE(s) && ShareStep(s, s') && |a.tcb| == |s.tcb|
    requires Distinct(q) && forall t :: t in q ==> t in s.run
    ensures TotalPicks(a, s', q) == TotalPicks(a, s, q) + if PriorityRR(s).1 in q then 1 else 0
  {
    hide PriorityRR, FairSet;
    if q != [] {
      var t := q[0];
      assert q == [t] + q[1..] && t !in q[1..];
      TotalPicksStep(a, s, s', q[1..]);
      StepEffect(s, t);
      assert SameShares(PriorityRR(s).0.tcb[t], s'.tcb[t]);
    }
  }

  /** Each call picks exactly one task of the set. */
  lemma {:induction false} TotalPicksCount(states: seq<KState>, a: nat, b: nat)
    requires ShareRun(states) && a <= b < |states|
    ensures states != [] && TotalPicks(states[a], states[b], states[0].run) == b - a
    decreases b
  {
    hide ShareRun;
    var q := states[0].run;
    if a == b {
      SelfPicks(states[a], q);
    } else {
      TotalPicksCount(states, a, b - 1);
      OnePick(states, a, b - 1);
    }
  }

  lemma OnePick(states: seq<KState>, a: nat, n: nat)
    requires ShareRun(states) && a <= n < |states| - 1
    ensures var q := states[0].run; TotalPicks(states[a], states[n + 1], q) == TotalPicks(states[a], states[n], q) + 1
  {
    var q := states[0].run;
    var s := states[n];
    assert FairSet(states[0]) && FairSet(s) && ShareStep(s, states[n + 1]);
    var la := RunAligned(states, a);
    var ln := RunAligned(states, n);
    AlignedRunnable(states[0], s, ln);
    hide ShareRun, PriorityRR, FairSet, RunnableBE, TotalPicks;
    FairDistinct(states[0]);
    TotalPicksStep(states[a], s, states[n + 1], q);
    PickInSet(s);
  }

  lemma FairDistinct(s: KState)
    requires FairSet(s)
    ensures Distinct(s.run)
  {
  }

  lemma PickInSet(s: KState)
    requires RunnableBE(s)
    ensures PriorityRR(s).1 in s.run
  {
  }

  lemma {:induction false} SelfPicks(s: KState, q: seq<nat>)
    ensures TotalPicks(s, s, q) == 0
  {
    if q != [] {
      SelfPicks(s, q[1..]);
    }
  }

  /** How many calls the tasks of q other than i can take before i is picked. */
  ghost function WaitBound(s: KState, i: nat, q: seq<nat>): int
    requires i < |s.tcb|
  {
    if q == [] then 0
    else WaitBound(s, i, q[1..]) +
         if q[0] == i || q[0] >= |s.tcb| || s.tcb[q[0]].priority == 0 then 0
         else s.tcb[i].priority / s.tcb[q[0]].priority + 1
  }

  lemma DivBound(n: int, p: int, x: int)
    requires p > 0 && n * p <= x + p && 0 <= x
    ensures n <= x / p + 1
  {
    var d := x / p;
    assert x == d * p + x % p;
    assert (n - 1 - d) * p == n * p - p - d * p;
    OneMultiple(n - 1 - d, p);
  }

  /** While i is not picked, j is picked at most p_i / p_j + 1 times. */
  lemma OthersBound(states: seq<KState>, a: nat, b: nat, i: nat, j: nat)
    requires ShareRun(states) && a <= b < |states| && i in states[0].run && j in states[0].run
    requires |states[a].tcb| == |states[b].tcb| == |states[0].tcb| && i < |states[0].tcb| && j < |states[0].tcb|
    requires Picks(states[a], states[b], i) == 0
    ensures var pi, pj := states[0].tcb[i].priority, states[0].tcb[j].priority;
            pj > 0 && Picks(states[a], states[b], j) <= pi / pj + 1
  {
    var s0, sa, sb := states[0], states[a], states[b];
    var la := RunAligned(states, a);
    var lb := RunAligned(states, b);
    assert FairSet(s0) && FairSet(sa) && FairSet(sb);
    var pi: int, pj: int := s0.tcb[i].priority, s0.tcb[j].priority;
    var n := Picks(sa, sb, j);
    assert Level(s0, sa, i) == la == Level(s0, sa, j) && Level(s0, sb, i) == lb == Level(s0, sb, j);
    assert Picks(s0, sa, i) == Picks(s0, sb, i);
    PicksBound(pi, pj, Picks(s0, sa, i) + 1, Picks(s0, sa, j) + 1, n,
               sa.tcb[i].priorityRem, sb.tcb[i].priorityRem, sa.tcb[j].priorityRem, sb.tcb[j].priorityRem);
    DivBound(n, pj, pi);
  }

  /** Two moments at which both levels agree, with no pick of i between them. */
  lemma PicksBound(pi: int, pj: int, k: int, m: int, n: int, ra: int, rb: int, qa: int, qb: int)
    requires k * pi - ra == m * pj - qa && k * pi - rb == (m + n) * pj - qb
    requires ra - rb <= pi && qb - qa <= pj
    ensures n * pj <= pi + pj
  {
    assert (m + n) * pj == m * pj + n * pj;
  }

  lemma {:induction false} SumBound(states: seq<KState>, a: nat, b: nat, i: nat, q: seq<nat>)
    requires ShareRun(states) && a <= b < |states| && i in states[0].run
    requires forall t :: t in q ==> t in states[0].run
    requires |states[a].tcb| == |states[b].tcb| == |states[0].tcb| && i < |states[0].tcb|
    requires Picks(states[a], states[b], i) == 0
    ensures TotalPicks(states[a], states[b], q) <= WaitBound(states[0], i, q)
  {
    if q != [] {
      SumBound(states, a, b, i, q[1..]);
      assert q[0] in states[0].run;
      assert FairSet(states[0]);
      if q[0] != i {
        OthersBound(states, a, b, i, q[0]);
      }
    }
  }

  /** No starvation: a task that is not picked in the calls from a to b has
      waited at most the sum over the other tasks j of p_i / p_j + 1 calls. */
  lemma NoStarvation(states: seq<KState>, a: nat, b: nat, i: nat)
    requires ShareRun(states) && a <= b < |states| && i in states[0].run
    ensures |states[a].tcb| == |states[b].tcb| == |states[0].tcb| && i < |states[0].tcb|
    ensures Picks(states[a], states[b], i) == 0 ==> b - a <= WaitBound(states[0], i, states[0].run)
  {
    var la := RunAligned(states, a);
    var lb := RunAligned(states, b);
    assert FairSet(states[0]);
    if Picks(states[a], states[b], i) == 0 {
      TotalPicksCount(states, a, b);
      SumBound(states, a, b, i, states[0].run);
    }
  }
}
