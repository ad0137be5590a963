/** The MUTEX_TYPE 1 lock (sys/sync/mutex.c:71-104): Peterson's filter lock for
    N tasks, taking one C load or store per step, so that the scan over k is not
    atomic and any number of tasks interleave. `waiting` is given the N slots
    that the lock indexes. */
module FilterLock {
  /** Where a task is in hf_mtxlock, or past it, or outside. */
  datatype Pc =
    | Outside
    | SetLevel(l: nat)                // about to store level[i] = l
    | SetWaiting(l: nat)              // about to store waiting[l] = i
    | ReadLevel(l: nat, k: nat)       // about to load level[k]
    | ReadWaiting(l: nat, k: nat)     // about to load waiting[l]
    | Critical

  datatype Lock = Lock(level: seq<nat>, waiting: seq<nat>, pc: seq<Pc>)

  function NextLevel(l: nat, n: nat): Pc {
    if l < n then SetLevel(l) else Critical
  }

  function NextScan(l: nat, k: nat, n: nat): Pc {
    if k < n then ReadLevel(l, k) else NextLevel(l + 1, n)
  }

  ghost predicate WellFormed(s: Lock) {
    && |s.level| == |s.waiting| == |s.pc|
    && forall i :: 0 <= i < |s.pc| ==> InRange(s.pc[i], |s.pc|)
  }

  predicate InRange(pc: Pc, n: nat) {
    match pc
    case Outside => true
    case SetLevel(l) => 1 <= l < n
    case SetWaiting(l) => 1 <= l < n
    case ReadLevel(l, k) => 1 <= l < n && k < n
    case ReadWaiting(l, k) => 1 <= l < n && k < n
    case Critical => true
  }

  /** hf_mtxinit. */
  function Init(n: nat): Lock {
    Lock(seq(n, _ => 0), seq(n, _ => 0), seq(n, _ => Outside))
  }

  /** Task i takes its next step: it calls hf_mtxlock when outside, calls
      hf_mtxunlock when in the critical section, and otherwise executes one
      load or store of hf_mtxlock. */
  function Step(s: Lock, i: nat): Lock
    requires WellFormed(s) && i < |s.pc|
  {
    var n := |s.pc|;
    match s.pc[i]
    case Outside => s.(pc := s.pc[i := NextLevel(1, n)])
    case SetLevel(l) => s.(level := s.level[i := l], pc := s.pc[i := SetWaiting(l)])
    case SetWaiting(l) => s.(waiting := s.waiting[l := i], pc := s.pc[i := ReadLevel(l, 0)])
    case ReadLevel(l, k) =>
      if k == i || s.level[k] < l then s.(pc := s.pc[i := NextScan(l, k + 1, n)])
      else s.(pc := s.pc[i := ReadWaiting(l, k)])
    case ReadWaiting(l, k) =>
      if s.waiting[l] != i then s.(pc := s.pc[i := NextScan(l, k + 1, n)])
      else s.(pc := s.pc[i := ReadLevel(l, k)])
    case Critical => s.(level := s.level[i := 0], pc := s.pc[i := Outside])
  }

  lemma StepWellFormed(s: Lock, i: nat)
    requires WellFormed(s) && i < |s.pc|
    ensures WellFormed(Step(s, i)) && |Step(s, i).pc| == |s.pc|
  {
  }

  // ----- the invariant -----

  /** The task has finished the scan of level l. */
  predicate Passed(pc: Pc, l: nat) {
    match pc
    case Outside => false
    case SetLevel(m) => m > l
    case SetWaiting(m) => m > l
    case ReadLevel(m, _) => m > l
    case ReadWaiting(m, _) => m > l
    case Critical => true
  }

  /** The task has written waiting[l] and not left since. */
  predicate Entered(pc: Pc, l: nat) {
    Passed(pc, l) || (pc.ReadLevel? && pc.l == l) || (pc.ReadWaiting? && pc.l == l)
  }

  /** The scan of level l is past task k. */
  predicate Cleared(pc: Pc, l: nat, k: nat) {
    Passed(pc, l) || (pc.ReadLevel? && pc.l == l && k < pc.k) || (pc.ReadWaiting? && pc.l == l && k < pc.k)
  }

  function LevelOf(pc: Pc, n: nat): int {
    match pc
    case Outside => 0
    case SetLevel(l) => l - 1
    case SetWaiting(l) => l
    case ReadLevel(l, _) => l
    case ReadWaiting(l, _) => l
    case Critical => n - 1
  }

  ghost predicate Levels(s: Lock) {
    WellFormed(s) && forall i :: 0 <= i < |s.pc| ==> s.level[i] == LevelOf(s.pc[i], |s.pc|)
  }

  /** What is known at level l of the task w that wrote waiting[l] last: nobody
      its scan is past has entered the level, and if anybody has entered, w is
      among them. */
  ghost predicate LastWriter(s: Lock, l: nat)
    requires WellFormed(s) && l < |s.pc|
  {
    var w := s.waiting[l];
    && w < |s.pc|
    && (forall k :: 0 <= k < |s.pc| && k != w && Cleared(s.pc[w], l, k) ==> !Entered(s.pc[k], l))
    && (forall i :: 0 <= i < |s.pc| && Entered(s.pc[i], l) ==> Entered(s.pc[w], l))
  }

  ghost predicate Inv(s: Lock) {
    Levels(s) && forall l :: 1 <= l < |s.pc| ==> LastWriter(s, l)
  }

  lemma InitInv(n: nat)
    ensures Inv(Init(n))
  {
  }

  lemma LevelsStep(s: Lock, i: nat)
    requires Levels(s) && i < |s.pc|
    ensures Levels(Step(s, i))
  {
    StepWellFormed(s, i);
  }

  lemma LastWriterStep(s: Lock, i: nat, l: nat)
    requires Inv(s) && i < |s.pc| && 1 <= l < |s.pc|
    ensures WellFormed(Step(s, i)) && |Step(s, i).pc| == |s.pc| && LastWriter(Step(s, i), l)
  {
    StepWellFormed(s, i);
    assert LastWriter(s, l);
    assert s.level[i] == LevelOf(s.pc[i], |s.pc|);
    var s' := Step(s, i);
    var w, w' := s.waiting[l], s'.waiting[l];
    assert w' == if s.pc[i] == SetWaiting(l) then i else w;
    forall k | 0 <= k < |s.pc| && k != w' && Cleared(s'.pc[w'], l, k)
      ensures !Entered(s'.pc[k], l)
    {
      if w' == i {
        assert s.level[k] == LevelOf(s.pc[k], |s.pc|);
      }
    }
    forall j | 0 <= j < |s.pc| && Entered(s'.pc[j], l)
      ensures Entered(s'.pc[w'], l)
    {
    }
  }

  /** Every step of every task keeps the invariant. */
  lemma StepInv(s: Lock, i: nat)
    requires Inv(s) && i < |s.pc|
    ensures Inv(Step(s, i))
  {
    LevelsStep(s, i);
    forall l | 1 <= l < |s.pc| {
      LastWriterStep(s, i, l);
    }
  }

  // ----- mutual exclusion -----

  ghost function PassedSet(s: Lock, l: nat): set<nat> {
    set i: nat | i < |s.pc| && Passed(s.pc[i], l)
  }

  lemma {:induction false} BoundedSet(a: set<nat>, n: nat)
    requires forall i :: i in a ==> i < n
    ensures |a| <= n
  {
    if n > 0 {
      BoundedSet(a - {n - 1}, n - 1);
      assert a - {n - 1} == a || |a - {n - 1}| == |a| - 1;
    } else {
      assert a == {};
    }
  }

  lemma SubsetSize(a: set<nat>, b: set<nat>)
    requires a <= b
    ensures |a| <= |b|
  {
    assert b == a + (b - a);
  }

  /** The filter: at most N - l tasks are past level l. */
  lemma {:induction false} FilterLaw(s: Lock, l: nat)
    requires Inv(s) && l < |s.pc|
    ensures |PassedSet(s, l)| <= |s.pc| - l
  {
    if l == 0 {
      BoundedSet(PassedSet(s, 0), |s.pc|);
    } else if PassedSet(s, l) != {} {
      FilterLaw(s, l - 1);
      assert LastWriter(s, l);
      var w := s.waiting[l];
      var i :| i in PassedSet(s, l);
      assert Entered(s.pc[i], l);
      if w in PassedSet(s, l) {
        assert PassedSet(s, l) == {w};
      } else {
        assert w in PassedSet(s, l - 1);
        assert PassedSet(s, l) <= PassedSet(s, l - 1) - {w};
        SubsetSize(PassedSet(s, l), PassedSet(s, l - 1) - {w});
      }
    }
  }

  lemma AtMostOne(a: set<nat>, i: nat, j: nat)
    requires |a| <= 1 && i in a && j in a
    ensures i == j
  {
    if i != j {
      SubsetSize({i, j}, a);
    }
  }

  lemma CriticalAlone(s: Lock, i: nat, j: nat)
    requires Inv(s) && i < |s.pc| && j < |s.pc| && s.pc[i] == Critical && s.pc[j] == Critical
    ensures i == j
  {
    FilterLaw(s, |s.pc| - 1);
    AtMostOne(PassedSet(s, |s.pc| - 1), i, j);
  }

  /** The state after the tasks named by the schedule took one step each. */
  function Run(n: nat, schedule: seq<nat>): (s: Lock)
    ensures WellFormed(s) && |s.pc| == n
  {
    if schedule == [] then Init(n)
    else
      var s := Run(n, schedule[..|schedule| - 1]);
      var i := schedule[|schedule| - 1];
      if i < n then StepWellFormed(s, i); Step(s, i) else s
  }

  lemma {:induction false} RunInv(n: nat, schedule: seq<nat>)
    ensures Inv(Run(n, schedule))
  {
    if schedule == [] {
      InitInv(n);
    } else {
      var p := schedule[..|schedule| - 1];
      RunInv(n, p);
      if schedule[|schedule| - 1] < n {
        StepInv(Run(n, p), schedule[|schedule| - 1]);
      }
    }
  }

  /** Mutual exclusion: whatever the number of tasks and however their single
      loads and stores interleave, at most one is past hf_mtxlock and before
      hf_mtxunlock. */
  lemma MutualExclusion(n: nat, schedule: seq<nat>, i: nat, j: nat)
    requires i < n && j < n
    ensures var s := Run(n, schedule); s.pc[i] == Critical && s.pc[j] == Critical ==> i == j
  {
    RunInv(n, schedule);
    var s := Run(n, schedule);
    if s.pc[i] == Critical && s.pc[j] == Critical {
      CriticalAlone(s, i, j);
    }
  }

  // ----- absence of deadlock -----

  /** The test task i is at cannot succeed until another task moves. */
  predicate Spins(s: Lock, i: nat)
    requires WellFormed(s) && i < |s.pc|
  {
    match s.pc[i]
    case ReadLevel(l, k) => k != i && s.level[k] >= l && s.waiting[l] == i
    case ReadWaiting(l, k) => k != i && s.level[k] >= l && s.waiting[l] == i
    case _ => false
  }

  /** A task inside the lock at the greatest level. */
  lemma {:induction false} TopTask(s: Lock, m: nat) returns (t: nat)
    requires Levels(s) && m <= |s.pc|
    requires exists i :: 0 <= i < m && s.pc[i] != Outside
    ensures t < m && s.pc[t] != Outside
    ensures forall i :: 0 <= i < m && s.pc[i] != Outside ==> s.level[i] <= s.level[t]
  {
    if exists i :: 0 <= i < m - 1 && s.pc[i] != Outside {
      t := TopTask(s, m - 1);
      if s.pc[m - 1] != Outside && s.level[m - 1] > s.level[t] {
        t := m - 1;
      }
    } else {
      t := m - 1;
    }
  }

  /** No deadlock: in no reachable state do all tasks that want the lock spin. */
  lemma NoDeadlock(n: nat, schedule: seq<nat>)
    ensures var s := Run(n, schedule);
            (exists i :: 0 <= i < n && s.pc[i] != Outside) ==>
              exists i :: 0 <= i < n && s.pc[i] != Outside && !Spins(s, i)
  {
    RunInv(n, schedule);
    var s := Run(n, schedule);
    if exists i :: 0 <= i < n && s.pc[i] != Outside {
      var t := TopTask(s, n);
      if Spins(s, t) {
        var k := s.pc[t].k;
        assert s.level[k] == LevelOf(s.pc[k], n) && s.level[t] == LevelOf(s.pc[t], n);
        assert !Spins(s, k);
      }
    }
  }

  // ----- the lock in memory -----

  /** mutex_t with the program counters of the tasks that use it. */
  class FilterMutex {
    const level: array<nat>
    const waiting: array<nat>
    ghost var pc: seq<Pc>

    ghost predicate Valid()
      reads this, level, waiting
    {
      level != waiting && level.Length == waiting.Length == |pc| && WellFormed(View())
    }

    ghost function View(): Lock
      reads this, level, waiting
    {
      Lock(level[..], waiting[..], pc)
    }

    constructor (n: nat)
      ensures Valid() && fresh(level) && fresh(waiting)
      ensures View() == Init(n)
    {
      level := new nat[n];
      waiting := new nat[n];
      pc := seq(n, _ => Outside);
      new;
      var i := 0;
      while i < n
        invariant 0 <= i <= n && fresh(level) && fresh(waiting) && level != waiting
        invariant forall j :: 0 <= j < i ==> level[j] == 0 && waiting[j] == 0
        invariant level.Length == waiting.Length == n && pc == seq(n, _ => Outside)
      {
        level[i] := 0;
        waiting[i] := 0;
        i := i + 1;
      }
      assert level[..] == seq(n, _ => 0);
      assert waiting[..] == seq(n, _ => 0);
    }

    /** The store and the loads of hf_mtxlock; `free` is what the wait loop
        makes of the value loaded. */
    method StoreLevel(i: nat, l: nat)
      requires Valid() && i < |pc| && pc[i] == SetLevel(l)
      modifies this, level
      ensures Valid() && View() == Step(old(View()), i)
    {
      StepWellFormed(View(), i);
      level[i] := l;
      pc := pc[i := SetWaiting(l)];
    }

    method StoreWaiting(i: nat, l: nat)
      requires Valid() && i < |pc| && pc[i] == SetWaiting(l)
      modifies this, waiting
      ensures Valid() && View() == Step(old(View()), i)
    {
      StepWellFormed(View(), i);
      waiting[l] := i;
      pc := pc[i := ReadLevel(l, 0)];
    }

    method LoadLevel(i: nat, l: nat, k: nat) returns (free: bool)
      requires Valid() && i < |pc| && pc[i] == ReadLevel(l, k)
      modifies this
      ensures Valid() && View() == Step(old(View()), i)
      ensures free == (pc[i] == NextScan(l, k + 1, |pc|))
    {
      StepWellFormed(View(), i);
      free := k == i || level[k] < l;
      pc := pc[i := if free then NextScan(l, k + 1, |pc|) else ReadWaiting(l, k)];
    }

    method LoadWaiting(i: nat, l: nat, k: nat) returns (free: bool)
      requires Valid() && i < |pc| && pc[i] == ReadWaiting(l, k)
      modifies this
      ensures Valid() && View() == Step(old(View()), i)
      ensures free == (pc[i] != ReadLevel(l, k))
    {
      StepWellFormed(View(), i);
      free := waiting[l] != i;
      pc := pc[i := if free then NextScan(l, k + 1, |pc|) else ReadLevel(l, k)];
    }

    method Unlock(i: nat)
      requires Valid() && i < |pc| && pc[i] == Critical
      modifies this, level
      ensures Valid() && View() == Step(old(View()), i)
    {
      StepWellFormed(View(), i);
      level[i] := 0;
      pc := pc[i := Outside];
    }
  }
}
