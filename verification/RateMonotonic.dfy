/** Laws of the real time scheduler over whole runs (sched_rma,
    sys/kernel/scheduler.c:236-278): the tick always goes to the ready task of
    highest rate, job and window accounting, and the deadline guarantee. */
module RateMonotonic {
  import opened Sequences
  import opened Tasks
  import opened SchedulerSpec
  import opened Arithmetic

  // ----- one tick -----

  /** What a tick does to a task in the RT queue. */
  lemma RmaTask(s: KState, s': KState, id: nat, t: nat)
    requires Rma(s, s', id) && RtWellFormed(s) && t in s'.rt
    ensures t < |s.tcb| == |s'.tcb| && t != 0
    ensures t == id ==> s.tcb[t].capacityRem > 0
    ensures s'.tcb[t] == var y := Account(s.tcb[t], t == id); if t == id then y.(rtjobs := y.rtjobs + 1) else y
  {
    hide FirstEligible, AccountPass;
    SameMembers(s'.rt, s.rt, t);
    var i :| 0 <= i < |s.rt| && s.rt[i] == t;
    assert s'.rt[..|s'.rt|] == s'.rt;
    AccountPassAt(s.tcb, s'.rt, |s'.rt|, t);
    AccountPassAt(s.tcb, s'.rt, |s'.rt|, if id < |s.tcb| then id else 0);
  }

  /** Work conservation: if any task is eligible, one at least as far ahead in
      the queue gets the tick. */
  lemma {:induction false} SomeoneRuns(tcb: seq<Tcb>, q: seq<nat>, x: nat, n: nat)
    requires InTable(tcb, q) && x < n <= |q| && Eligible(tcb[q[x]])
    requires forall i :: 0 <= i < |q| ==> q[i] != 0
    ensures exists y :: 0 <= y <= x && FirstEligible(tcb, q, n) == q[y] && Eligible(tcb[q[y]])
  {
    if n == x + 1 {
      var id := FirstEligible(tcb, q, x);
      if id == 0 {
        assert FirstEligible(tcb, q, n) == q[x];
      } else {
        var y :| 0 <= y < x && q[..x][y] == id;
        assert FirstEligible(tcb, q, n) == q[y];
      }
    } else {
      SomeoneRuns(tcb, q, x, n - 1);
    }
  }

  /** The tick goes to an eligible task of least period, and to nobody only
      when no task is eligible. */
  lemma HighestRateRuns(s: KState, s': KState, id: nat)
    requires Rma(s, s', id) && RtWellFormed(s)
    ensures id == 0 <==> forall t :: t in s.rt && t < |s.tcb| ==> !Eligible(s.tcb[t])
    ensures id != 0 ==> id in s.rt && id < |s.tcb| && Eligible(s.tcb[id])
    ensures forall t :: t in s.rt && t < |s.tcb| && Eligible(s.tcb[t]) ==>
              id < |s.tcb| && s.tcb[id].period <= s.tcb[t].period
  {
    var q := s'.rt;
    assert q[..|q|] == q;
    if id != 0 {
      SameMembers(q, s.rt, id);
    }
    forall t | t in s.rt && t < |s.tcb| && Eligible(s.tcb[t])
      ensures id != 0 && id < |s.tcb| && s.tcb[id].period <= s.tcb[t].period
    {
      RunnerBeats(s, s', id, t);
    }
  }

  lemma RunnerBeats(s: KState, s': KState, id: nat, t: nat)
    requires Rma(s, s', id) && RtWellFormed(s) && t in s.rt && t < |s.tcb| && Eligible(s.tcb[t])
    ensures id != 0 && id < |s.tcb| && s.tcb[id].period <= s.tcb[t].period
  {
    hide FirstEligible, RtWellFormed, RmaOn;
    var q := s'.rt;
    NonZero(s, q);
    SameMembers(q, s.rt, t);
    var x :| 0 <= x < |q| && q[x] == t;
    SomeoneRuns(s.tcb, q, x, |q|);
  }

  lemma RmaQueue(s: KState, r: KState, id: nat)
    requires Rma(s, r, id)
    ensures multiset(r.rt) == multiset(s.rt) && |r.rt| == |s.rt| && |r.tcb| == |s.tcb| && 0 < |s.tcb|
    ensures PeriodSorted(s.tcb, r.rt) && (PeriodSorted(s.tcb, s.rt) ==> r.rt == s.rt)
  {
    assert |r.rt| == |multiset(r.rt)| && |s.rt| == |multiset(s.rt)|;
  }

  lemma NonZero(s: KState, q: seq<nat>)
    requires RtWellFormed(s) && multiset(q) == multiset(s.rt)
    ensures forall i :: 0 <= i < |q| ==> 0 < q[i] < |s.tcb|
  {
    forall i | 0 <= i < |q|
      ensures 0 < q[i] < |s.tcb|
    {
      SameMembers(q, s.rt, q[i]);
      var j :| 0 <= j < |s.rt| && s.rt[j] == q[i];
    }
  }

  // ----- runs -----

  ghost predicate SameRt(x: Tcb, y: Tcb) {
    && y.id == x.id && y.period == x.period && y.capacity == x.capacity
    && y.capacityRem == x.capacityRem && y.deadlineRem == x.deadlineRem
    && y.deadlineMisses == x.deadlineMisses && y.rtjobs == x.rtjobs
  }

  /** One tick, after which tasks may be blocked or resumed at will. */
  ghost predicate RtStep(s: KState, s': KState, r: KState, id: nat) {
    && Rma(s, r, id) && |s'.tcb| == |r.tcb| && s'.rt == r.rt
    && forall t :: t in r.rt && t < |r.tcb| ==> SameRt(r.tcb[t], s'.tcb[t])
  }

  ghost predicate RtTick(s: KState, s': KState) {
    exists r: KState, id: nat :: RtStep(s, s', r, id)
  }

  /** A run over a fixed set of real time tasks. */
  ghost predicate RtRun(states: seq<KState>) {
    && states != [] && RtWellFormed(states[0])
    && forall n :: 0 <= n < |states| - 1 ==> RtTick(states[n], states[n + 1])
  }

  lemma TickWellFormed(s: KState, s': KState)
    requires RtWellFormed(s) && RtTick(s, s')
    ensures RtWellFormed(s') && |s'.tcb| == |s.tcb| && multiset(s'.rt) == multiset(s.rt)
    ensures forall t :: t in s'.rt <==> t in s.rt
  {
    hide Rma, Distinct;
    var r: KState, id: nat :| RtStep(s, s', r, id);
    RmaQueue(s, r, id);
    NonZero(s, r.rt);
    PermutedDistinct(s.rt, r.rt);
    forall i | 0 <= i < |r.rt|
      ensures s'.tcb[r.rt[i]].id == r.rt[i]
    {
      var t := r.rt[i];
      SameMembers(r.rt, s.rt, t);
      var j :| 0 <= j < |s.rt| && s.rt[j] == t;
      RmaTask(s, r, id, t);
      assert SameRt(r.tcb[t], s'.tcb[t]);
    }
  }

  /** The queue is in period order after every tick, and once sorted its order
      is kept by the k rotations of every later tick. */
  lemma TickSorts(s: KState, s': KState)
    requires RtWellFormed(s) && RtTick(s, s')
    ensures PeriodSorted(s'.tcb, s'.rt)
    ensures PeriodSorted(s.tcb, s.rt) ==> s'.rt == s.rt
  {
    hide Rma;
    var r: KState, id: nat :| RtStep(s, s', r, id);
    RmaQueue(s, r, id);
    NonZero(s, r.rt);
    forall i | 0 <= i < |r.rt|
      ensures r.rt[i] < |s'.tcb| && s'.tcb[r.rt[i]].period == s.tcb[r.rt[i]].period
    {
      assert r.rt[i] in r.rt;
      RmaTask(s, r, id, r.rt[i]);
      assert SameRt(r.tcb[r.rt[i]], s'.tcb[r.rt[i]]);
    }
  }

  lemma AccountKeeps(x: Tcb, runs: bool)
    requires runs ==> x.capacityRem > 0
    ensures var y := Account(x, runs);
            y.period == x.period && y.capacity == x.capacity && y.rtjobs == x.rtjobs
  {
  }

  /** The tick as one task sees it: it runs or not, then its window moves on. */
  lemma TickTask(s: KState, s': KState, t: nat) returns (runs: bool)
    requires RtWellFormed(s) && RtTick(s, s') && t in s.rt
    ensures t < |s.tcb| == |s'.tcb|
    ensures runs ==> s.tcb[t].capacityRem > 0 && s.tcb[t].state != Blocked
    ensures var y := Account(s.tcb[t], runs);
            && s'.tcb[t].period == s.tcb[t].period && s'.tcb[t].capacity == s.tcb[t].capacity
            && s'.tcb[t].capacityRem == y.capacityRem && s'.tcb[t].deadlineRem == y.deadlineRem
            && s'.tcb[t].deadlineMisses == y.deadlineMisses
            && s'.tcb[t].rtjobs == s.tcb[t].rtjobs + if runs then 1 else 0
  {
    hide Rma, Account;
    var r: KState, id: nat :| RtStep(s, s', r, id);
    RmaQueue(s, r, id);
    SameMembers(r.rt, s.rt, t);
    AccountKeeps(s.tcb[t], t == id && s.tcb[t].capacityRem > 0);
    RmaTask(s, r, id, t);
    assert SameRt(r.tcb[t], s'.tcb[t]);
    runs := t == id;
    if runs {
      HighestRateRuns(s, r, id);
    }
  }

  // ----- job and window accounting -----

  /** Unspent capacity of the windows of t that close during a run, oldest first. */
  ghost function Unspent(states: seq<KState>, t: nat): (r: seq<int>)
    requires RtRun(states) && t in states[0].rt
    decreases |states|
  {
    if |states| == 1 then []
    else
      var init := states[..|states| - 1];
      PrefixRun(states);
      var a, b := states[|states| - 2], states[|states| - 1];
      RunTask(init, t);
      if a.tcb[t].deadlineRem != 1 then Unspent(init, t)
      else Unspent(init, t) + [a.tcb[t].capacityRem - (b.tcb[t].rtjobs - a.tcb[t].rtjobs)]
  }

  lemma PrefixRun(states: seq<KState>)
    requires RtRun(states) && |states| > 1
    ensures RtRun(states[..|states| - 1])
    ensures RtTick(states[|states| - 2], states[|states| - 1])
  {
    var p := states[..|states| - 1];
    forall n | 0 <= n < |p| - 1
      ensures RtTick(p[n], p[n + 1])
    {
      assert RtTick(states[n], states[n + 1]);
    }
  }

  lemma {:induction false} RunWellFormed(states: seq<KState>, n: nat)
    requires RtRun(states) && n < |states|
    ensures RtWellFormed(states[n]) && |states[n].tcb| == |states[0].tcb|
    ensures forall t :: t in states[n].rt <==> t in states[0].rt
  {
    hide RtTick;
    if n > 0 {
      RunWellFormed(states, n - 1);
      assert RtTick(states[n - 1], states[n]);
      TickWellFormed(states[n - 1], states[n]);
    }
  }

  lemma RunTask(states: seq<KState>, t: nat)
    requires RtRun(states) && t in states[0].rt
    ensures var s := states[|states| - 1];
            t in s.rt && RtWellFormed(s) && t < |s.tcb| == |states[0].tcb|
    ensures t < |states[0].tcb|
  {
    RunWellFormed(states, |states| - 1);
    var j :| 0 <= j < |states[0].rt| && states[0].rt[j] == t;
  }

  function Sum(q: seq<int>): int {
    if q == [] then 0 else Sum(q[..|q| - 1]) + q[|q| - 1]
  }

  function Missed(q: seq<int>): int {
    if q == [] then 0 else Missed(q[..|q| - 1]) + if q[|q| - 1] > 0 then 1 else 0
  }

  /** As hf_spawn leaves a task, whatever its deadline. */
  predicate AtWindowStart(x: Tcb) {
    x.capacityRem == x.capacity && x.rtjobs == 0 && x.deadlineMisses == 0
  }

  /** The capacity of so many windows. */
  function Opened(windows: nat, capacity: nat): int {
    windows * capacity
  }

  lemma OneMoreWindow(windows: nat, capacity: nat)
    ensures Opened(windows + 1, capacity) == Opened(windows, capacity) + capacity
  {
  }

  /** The accounting identities of one task against the windows closed so far. */
  ghost predicate Accounted(x: Tcb, x0: Tcb, u: seq<int>) {
    && x.capacity == x0.capacity && x.period == x0.period
    && x.capacityRem <= x.capacity
    && (forall k :: 0 <= k < |u| ==> 0 <= u[k] <= x.capacity)
    && x.deadlineMisses == Missed(u)
    && x.rtjobs == Opened(|u| + 1, x.capacity) - x.capacityRem - Sum(u)
  }

  lemma AccountedTick(x: Tcb, x0: Tcb, u: seq<int>, runs: bool, y: Tcb)
    requires Accounted(x, x0, u) && (runs ==> x.capacityRem > 0)
    requires var a := Account(x, runs);
             && y.period == x.period && y.capacity == x.capacity
             && y.capacityRem == a.capacityRem && y.deadlineRem == a.deadlineRem
             && y.deadlineMisses == a.deadlineMisses
             && y.rtjobs == x.rtjobs + if runs then 1 else 0
    ensures Accounted(y, x0, if x.deadlineRem != 1 then u else u + [x.capacityRem - (y.rtjobs - x.rtjobs)])
  {
    hide Opened;
    if x.deadlineRem == 1 {
      var left := x.capacityRem - (y.rtjobs - x.rtjobs);
      var u' := u + [left];
      assert u'[..|u'| - 1] == u;
      OneMoreWindow(|u| + 1, x.capacity);
    }
  }

  /** Accounting law: deadline misses are the closed windows with unspent
      capacity, and jobs plus unspent capacity are the capacity of all windows
      opened. */
  lemma {:induction false} AccountingLaw(states: seq<KState>, t: nat)
    requires RtRun(states) && t in states[0].rt && t < |states[0].tcb| && AtWindowStart(states[0].tcb[t])
    ensures t < |states[|states| - 1].tcb|
    ensures Accounted(states[|states| - 1].tcb[t], states[0].tcb[t], Unspent(states, t))
    decreases |states|
  {
    if |states| > 1 {
      PrefixRun(states);
      var init := states[..|states| - 1];
      AccountingLaw(init, t);
      RunTask(init, t);
      var a, b := states[|states| - 2], states[|states| - 1];
      var runs := TickTask(a, b, t);
      AccountedTick(a.tcb[t], states[0].tcb[t], Unspent(init, t), runs, b.tcb[t]);
    }
  }

  lemma {:induction false} SumMissed(u: seq<int>)
    requires forall k :: 0 <= k < |u| ==> 0 <= u[k]
    ensures 0 <= Missed(u) <= |u| && 0 <= Sum(u)
    ensures Sum(u) == 0 <==> Missed(u) == 0
  {
    if u != [] {
      SumMissed(u[..|u| - 1]);
    }
  }

  /** Hence a task runs at most `capacity` jobs per window, and reaches that
      bound exactly when it missed no deadline. */
  lemma JobBound(states: seq<KState>, t: nat)
    requires RtRun(states) && t in states[0].rt && t < |states[0].tcb| && AtWindowStart(states[0].tcb[t])
    ensures t < |states[|states| - 1].tcb|
    ensures var x := states[|states| - 1].tcb[t];
            var bound := Opened(|Unspent(states, t)| + 1, x.capacity) - x.capacityRem;
            x.rtjobs <= bound && (x.rtjobs == bound <==> x.deadlineMisses == 0)
  {
    hide Opened, RtRun, Unspent, AtWindowStart, Sum, Missed;
    AccountingLaw(states, t);
    SumMissed(Unspent(states, t));
  }

  // ----- when windows close -----

  /** The ticks to the end of the first window; a deadline of 0 wraps around. */
  function FirstWindow(deadline: uint16): nat {
    if deadline == 0 then U16 else deadline
  }

  /** The windows that have closed after n ticks, and the ticks that are left of
      the one that is open. */
  function Closed(first: nat, period: nat, n: nat): nat
    requires period > 0
  {
    if n < first then 0 else 1 + (n - first) / period
  }

  function Left(first: nat, period: nat, n: nat): int
    requires period > 0
  {
    if n < first then first - n else period - (n - first) % period
  }

  lemma NextWindow(first: nat, period: nat, n: nat)
    requires period > 0
    ensures Left(first, period, n) >= 1
    ensures if Left(first, period, n) == 1 then
              Closed(first, period, n + 1) == Closed(first, period, n) + 1 && Left(first, period, n + 1) == period
            else
              Closed(first, period, n + 1) == Closed(first, period, n) && Left(first, period, n + 1) == Left(first, period, n) - 1
  {
    if n >= first {
      var m := n - first;
      var d, r := m / period, m % period;
      assert m == d * period + r;
      if r == period - 1 {
        assert m + 1 == (d + 1) * period + 0 by { assert (d + 1) * period == d * period + period; }
        DivUnique(m + 1, period, d + 1);
      } else {
        DivUnique(m + 1, period, d);
      }
    }
  }

  /** Windows follow the clock: the first one closes with the deadline, each
      later one lasts a period, whatever the task itself does. */
  lemma {:induction false} WindowLaw(states: seq<KState>, t: nat)
    requires RtRun(states) && t in states[0].rt && t < |states[0].tcb|
    requires states[0].tcb[t].deadlineRem == states[0].tcb[t].deadline && states[0].tcb[t].period > 0
    ensures t < |states[|states| - 1].tcb|
    ensures var x0, x := states[0].tcb[t], states[|states| - 1].tcb[t];
      && |Unspent(states, t)| == Closed(FirstWindow(x0.deadline), x0.period, |states| - 1)
      && x.deadlineRem == Left(FirstWindow(x0.deadline), x0.period, |states| - 1) % U16
      && x.period == x0.period
    decreases |states|
  {
    hide Left, Closed, RtTick, RtWellFormed;
    var x0 := states[0].tcb[t];
    var first := FirstWindow(x0.deadline);
    if |states| > 1 {
      PrefixRun(states);
      var init := states[..|states| - 1];
      WindowLaw(init, t);
      RunTask(init, t);
      var runs := TickTask(states[|states| - 2], states[|states| - 1], t);
      NextWindow(first, x0.period, |states| - 2);
      LeftFits(first, x0.period, |states| - 2);
    } else {
      FirstOpen(first, x0.period);
    }
  }

  lemma FirstOpen(first: nat, period: nat)
    requires period > 0 && first > 0
    ensures Left(first, period, 0) == first && Closed(first, period, 0) == 0
  {
  }

  lemma LeftFits(first: nat, period: nat, n: nat)
    requires 0 < period < U16 && first <= U16
    ensures Left(first, period, n) <= U16
  {
  }

  // ----- the deadline guarantee -----

  function CeilDiv(a: nat, b: nat): nat
    requires b > 0
  {
    (a + b - 1) / b
  }

  /** Ticks that task i = q[x] and the tasks ahead of it may ask for in one
      window of i: its own capacity, and for a task j ahead that of every window
      of j that can overlap it. */
  function Demand(tcb: seq<Tcb>, q: seq<nat>, x: nat, window: nat): int
    requires x <= |q| && InTable(tcb, q)
    requires forall y :: 0 <= y < x ==> tcb[q[y]].period > 0
  {
    if x == 0 then 0
    else
      var j := tcb[q[x - 1]];
      Demand(tcb, q, x - 1, window) + (CeilDiv(window, j.period) + 1) * j.capacity
  }

  ghost predicate InWindow(x: Tcb) {
    x.deadlineRem > 0 && x.period > 0 && x.capacityRem <= x.capacity
  }

  /** How many of the next d ticks open a new window of x. */
  function Opens(x: Tcb, d: nat): nat
    requires x.period > 0
  {
    if d < x.deadlineRem then 0 else 1 + (d - x.deadlineRem) / x.period
  }

  /** The most jobs x can run in the next d ticks. */
  function Supply(x: Tcb, d: nat): int
    requires x.period > 0
  {
    x.capacityRem + Opens(x, d) * x.capacity
  }

  /** Unless a tick is given to x, a tick does not raise what it can still run
      until the same moment; giving it one lowers that by one. */
  lemma SupplyTick(x: Tcb, runs: bool, d: nat)
    requires InWindow(x) && (runs ==> x.capacityRem > 0) && d > 0
    ensures var y := Account(x, runs);
            InWindow(y) && y.period == x.period && y.capacity == x.capacity
            && Supply(y, d - 1) <= Supply(x, d) - if runs then 1 else 0
  {
    var y := Account(x, runs);
    if x.deadlineRem == 1 {
      OpensReset(x.period, d);
      var m := (d - 1) / x.period;
      assert (1 + m) * x.capacity == m * x.capacity + x.capacity;
    }
  }

  /** Opening a window now or counting it as the next one makes no difference. */
  lemma OpensReset(p: int, d: int)
    requires p > 0 && d > 0
    ensures (if d - 1 < p then 0 else 1 + (d - 1 - p) / p) == (d - 1) / p
  {
    if d - 1 >= p {
      DivStep(d - 1 - p, p);
    } else {
      DivUnique(d - 1, p, 0);
    }
  }

  lemma SupplyStart(x: Tcb, window: nat)
    requires InWindow(x)
    ensures Supply(x, window) <= (CeilDiv(window, x.period) + 1) * x.capacity
  {
    OpensBound(x.deadlineRem, x.period, window);
    var n, m := Opens(x, window), CeilDiv(window, x.period);
    assert (m + 1) * x.capacity == m * x.capacity + x.capacity;
    assert (m - n) * x.capacity >= 0;
    assert n * x.capacity <= m * x.capacity;
  }

  lemma OpensBound(dr: int, p: int, d: int)
    requires 1 <= dr && 1 <= p && 0 <= d
    ensures (if d < dr then 0 else 1 + (d - dr) / p) <= (d + p - 1) / p
  {
    if d >= dr {
      var a, b := (d - dr) / p, (d + p - 1) / p;
      DivStep(d - dr, p);
      DivMono(d - dr + p, d + p - 1, p);
    }
  }

  /** What the first x tasks of the queue can run in the next d ticks. */
  ghost function Ahead(tcb: seq<Tcb>, q: seq<nat>, x: nat, d: nat): int
    requires x <= |q| && InTable(tcb, q)
    requires forall y :: 0 <= y < x ==> tcb[q[y]].period > 0
  {
    if x == 0 then 0 else Ahead(tcb, q, x - 1, d) + Supply(tcb[q[x - 1]], d)
  }

  /** The first x tasks of the queue are in a window; nothing is said of those
      behind. */
  ghost predicate AllInWindow(s: KState, q: seq<nat>, x: nat) {
    x <= |q| && InTable(s.tcb, q) && forall y :: 0 <= y < x ==> InWindow(s.tcb[q[y]])
  }

  lemma {:induction false} AheadStart(s: KState, q: seq<nat>, x: nat, window: nat)
    requires AllInWindow(s, q, x)
    ensures Ahead(s.tcb, q, x, window) <= Demand(s.tcb, q, x, window)
  {
    if x > 0 {
      AheadStart(s, q, x - 1, window);
      SupplyStart(s.tcb[q[x - 1]], window);
    }
  }

  /** The TCBs seen by the theorem move like this in a tick given to `id`. */
  ghost predicate Moved(s: KState, s': KState, q: seq<nat>, id: nat) {
    && InTable(s.tcb, q) && |s'.tcb| == |s.tcb|
    && forall y :: 0 <= y < |q| ==> MovedAt(s, s', q[y], id)
  }

  lemma {:induction false} AheadTick(s: KState, s': KState, q: seq<nat>, id: nat, x: nat, d: nat)
    requires Moved(s, s', q, id) && AllInWindow(s, q, x) && AllInWindow(s', q, x) && d > 0
    ensures Ahead(s'.tcb, q, x, d - 1) <= Ahead(s.tcb, q, x, d) - if id in q[..x] then 1 else 0
  {
    if x > 0 {
      AheadTick(s, s', q, id, x - 1, d);
      var t := q[x - 1];
      assert q[..x] == q[..x - 1] + [t];
      SupplyTick(s.tcb[t], t == id, d);
      assert Supply(s'.tcb[t], d - 1) == Supply(Account(s.tcb[t], t == id), d - 1);
    }
  }

  lemma {:induction false} DemandSame(a: seq<Tcb>, b: seq<Tcb>, q: seq<nat>, x: nat, window: nat)
    requires x <= |q| && InTable(a, q) && InTable(b, q)
    requires forall y :: 0 <= y < x ==>
               b[q[y]].period == a[q[y]].period > 0 && b[q[y]].capacity == a[q[y]].capacity
    ensures Demand(a, q, x, window) == Demand(b, q, x, window)
  {
    if x > 0 {
      DemandSame(a, b, q, x - 1, window);
    }
  }

  /** The invariant of the guarantee for the task at position x: as long as it
      has capacity left, it and the tasks ahead of it cannot ask for more ticks
      than its window still has. */
  ghost predicate OnTime(s: KState, q: seq<nat>, x: nat) {
    && x < |q| && AllInWindow(s, q, x + 1)
    && var i := s.tcb[q[x]];
       && i.capacity + Demand(s.tcb, q, x, i.period) <= i.period
       && (i.capacityRem > 0 ==> i.capacityRem + Ahead(s.tcb, q, x, i.deadlineRem) <= i.deadlineRem)
  }

  lemma MovedWindows(s: KState, s': KState, q: seq<nat>, id: nat, x: nat)
    requires Moved(s, s', q, id) && AllInWindow(s, q, x)
    ensures AllInWindow(s', q, x)
  {
    forall y | 0 <= y < x
      ensures InWindow(s'.tcb[q[y]])
    {
      SupplyTick(s.tcb[q[y]], q[y] == id, 1);
    }
  }

  lemma {:induction false} AheadNonNeg(s: KState, q: seq<nat>, x: nat, d: nat)
    requires AllInWindow(s, q, x)
    ensures Ahead(s.tcb, q, x, d) >= 0
  {
    if x > 0 {
      AheadNonNeg(s, q, x - 1, d);
      assert Opens(s.tcb[q[x - 1]], d) * s.tcb[q[x - 1]].capacity >= 0;
    }
  }

  /** One tick: the invariant is kept and no deadline of q[x] is missed. */
  lemma OnTimeTick(s: KState, s': KState, q: seq<nat>, id: nat, x: nat)
    requires OnTime(s, q, x) && Moved(s, s', q, id)
    requires s.tcb[q[x]].capacityRem > 0 ==> id in q[..x + 1]
    ensures OnTime(s', q, x)
    ensures s'.tcb[q[x]].deadlineMisses == s.tcb[q[x]].deadlineMisses
  {
    hide Ahead, Demand;
    MovedWindows(s, s', q, id, x + 1);
    var i, i' := s.tcb[q[x]], s'.tcb[q[x]];
    var d := i.deadlineRem;
    DemandSame(s.tcb, s'.tcb, q, x, i.period);
    AheadTick(s, s', q, id, x, d);
    AheadNonNeg(s', q, x, d - 1);
    AheadStart(s', q, x, i.period);
    assert q[..x + 1] == q[..x] + [q[x]];
  }

  /** Rate-monotonic guarantee: if in period order the capacity of task i and
      of every window of a task ahead that can overlap a window of i fit in the
      period of i, and i is never blocked, then i never misses a deadline,
      whatever the other tasks do. */
  lemma {:induction false} RateMonotonicGuarantee(states: seq<KState>, q: seq<nat>, x: nat, n: nat)
    requires RtRun(states) && 1 < |states| && n < |states|
    requires q == states[1].rt && x < |q| && AllInWindow(states[0], q, x + 1)
    requires states[0].tcb[q[x]].deadlineRem == states[0].tcb[q[x]].period
    requires states[0].tcb[q[x]].capacity + Demand(states[0].tcb, q, x, states[0].tcb[q[x]].period)
             <= states[0].tcb[q[x]].period
    requires forall m :: 0 <= m < |states| && q[x] < |states[m].tcb| ==> states[m].tcb[q[x]].state != Blocked
    ensures q[x] < |states[n].tcb|
    ensures states[n].tcb[q[x]].deadlineMisses == states[0].tcb[q[x]].deadlineMisses
    ensures OnTime(states[n], q, x) && (n > 0 ==> states[n].rt == q)
  {
    hide OnTime, Moved, RtTick, Demand;
    if n == 0 {
      GuaranteeStart(states[0], q, x);
    } else {
      RateMonotonicGuarantee(states, q, x, n - 1);
      OnTimeBounds(states[n - 1], q, x);
      RunWellFormed(states, n - 1);
      assert RtTick(states[n - 1], states[n]);
      if n > 1 {
        assert RtTick(states[n - 2], states[n - 1]);
        RunWellFormed(states, n - 2);
        TickSorts(states[n - 2], states[n - 1]);
        TickSorts(states[n - 1], states[n]);
      }
      var id := TickMoves(states[n - 1], states[n], x);
      OnTimeTick(states[n - 1], states[n], q, id, x);
      OnTimeBounds(states[n], q, x);
    }
  }

  lemma OnTimeBounds(s: KState, q: seq<nat>, x: nat)
    requires OnTime(s, q, x)
    ensures x < |q| && q[x] < |s.tcb|
  {
  }

  lemma GuaranteeStart(s: KState, q: seq<nat>, x: nat)
    requires x < |q| && AllInWindow(s, q, x + 1) && s.tcb[q[x]].deadlineRem == s.tcb[q[x]].period
    requires s.tcb[q[x]].capacity + Demand(s.tcb, q, x, s.tcb[q[x]].period) <= s.tcb[q[x]].period
    ensures OnTime(s, q, x)
  {
    AheadStart(s, q, x, s.tcb[q[x]].period);
  }

  /** A tick in the terms of the theorem. */
  lemma TickMoves(s: KState, s': KState, x: nat) returns (id: nat)
    requires RtWellFormed(s) && RtTick(s, s') && x < |s'.rt|
    ensures Moved(s, s', s'.rt, id)
    ensures Eligible(s.tcb[s'.rt[x]]) ==> id in s'.rt[..x + 1]
  {
    var r: KState, k: nat :| RtStep(s, s', r, k);
    id := k;
    hide Rma, Account, FirstEligible;
    var q := s'.rt;
    RmaQueue(s, r, id);
    NonZero(s, q);
    hide RtWellFormed;
    forall y | 0 <= y < |q|
      ensures MovedAt(s, s', q[y], id)
    {
      TaskMoves(s, s', r, id, q[y]);
    }
    if Eligible(s.tcb[q[x]]) {
      SomeoneRuns(s.tcb, q, x, |q|);
      RmaPick(s, r, id);
      var y :| 0 <= y <= x && FirstEligible(s.tcb, q, |q|) == q[y];
      assert q[..x + 1][y] == id;
    }
  }

  lemma TaskMoves(s: KState, s': KState, r: KState, id: nat, t: nat)
    requires RtWellFormed(s) && RtStep(s, s', r, id) && t in r.rt
    ensures MovedAt(s, s', t, id)
  {
    hide Rma, Account, FirstEligible;
    RmaQueue(s, r, id);
    SameMembers(r.rt, s.rt, t);
    RmaTask(s, r, id, t);
    AccountKeeps(s.tcb[t], t == id);
    assert SameRt(r.tcb[t], s'.tcb[t]);
    hide RtWellFormed;
    if t == id {
      HighestRateRuns(s, r, id);
    }
  }

  ghost predicate MovedAt(s: KState, s': KState, t: nat, id: nat) {
    && t < |s.tcb| == |s'.tcb|
    && (t == id ==> Eligible(s.tcb[t]))
    && var a := Account(s.tcb[t], t == id);
       && s'.tcb[t].period == s.tcb[t].period && s'.tcb[t].capacity == s.tcb[t].capacity
       && s'.tcb[t].capacityRem == a.capacityRem && s'.tcb[t].deadlineRem == a.deadlineRem
       && s'.tcb[t].deadlineMisses == a.deadlineMisses
  }

  lemma RmaPick(s: KState, r: KState, id: nat)
    requires Rma(s, r, id)
    ensures id == FirstEligible(s.tcb, r.rt, |r.rt|)
  {
  }
}
