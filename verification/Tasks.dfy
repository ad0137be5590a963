/** Task control blocks and the abstract kernel state (sys/include/kernel.h).

    krnl_tcb is an array of structures and the C code passes around pointers
    into it; here such a pointer is the index of the entry. Widths that can
    wrap (priority_rem, capacity_rem, deadline_rem, delay) are kept in range by
    explicit reductions; the statistics counters are unbounded. */
module Tasks {
  import opened Sequences

  const U8: int := 0x100
  const U16: int := 0x1_0000
  const U32: int := 0x1_0000_0000

  type uint8 = x: int | 0 <= x < U8
  type uint16 = x: int | 0 <= x < U16
  type uint32 = x: int | 0 <= x < U32

  const ERR_OK: int := 0
  const ERR_ERROR: int := -1
  const ERR_INVALID_ID: int := -100
  const ERR_INVALID_PARAMETER: int := -101
  const ERR_EXCEED_MAX_NUM: int := -103
  const ERR_OUT_OF_MEMORY: int := -104

  datatype TaskState = Idle | Ready | Running | Blocked | Delayed | Waiting

  /** `live` is ptask != 0. */
  datatype Tcb = Tcb(
    id: uint16,
    live: bool,
    state: TaskState,
    priority: uint8,
    priorityRem: uint8,
    critical: bool,
    delay: uint32,
    rtjobs: nat,
    bgjobs: nat,
    deadlineMisses: nat,
    period: uint16,
    capacity: uint16,
    deadline: uint16,
    capacityRem: uint16,
    deadlineRem: uint16
  )

  const CLEAR_TCB: Tcb := Tcb(U16 - 1, false, Idle, 0, 0, false, 0, 0, 0, 0, 0, 0, 0, 0, 0)

  /** What the kernel globals stand for: the TCB table, the contents of the run
      (best effort), real time and delay queues, and the task counter. */
  datatype KState = KState(tcb: seq<Tcb>, run: seq<nat>, rt: seq<nat>, dl: seq<nat>, tasks: int)

  ghost function Queued(s: KState): multiset<nat> {
    multiset(s.run) + multiset(s.rt) + multiset(s.dl)
  }

  ghost predicate IsLive(s: KState, t: nat) {
    t < |s.tcb| && s.tcb[t].live
  }

  /** Every live task is in exactly one of the three queues, once; dead ones are
      in none; the period decides between the run queue and the RT queue. */
  ghost predicate Partition(s: KState) {
    && (forall t: nat :: Queued(s)[t] == if IsLive(s, t) then 1 else 0)
    && (forall t: nat :: t in s.run ==> t < |s.tcb| && s.tcb[t].period == 0)
    && (forall t: nat :: t in s.rt ==> t < |s.tcb| && s.tcb[t].period > 0)
    && (forall t: nat :: t in s.dl ==> t < |s.tcb| && s.tcb[t].delay > 0)
    && (forall t: nat :: IsLive(s, t) ==> s.tcb[t].id == t)
    && s.tasks == |s.run| + |s.rt| + |s.dl|
  }

  /** The idle task is always in the run queue. */
  ghost predicate IdleQueued(s: KState) {
    0 in s.run && 0 < |s.tcb|
  }

  /** The best effort search can pick the idle task, now and after it has run. */
  ghost predicate IdlePickable(s: KState) {
    0 < |s.tcb| && s.tcb[0].state != Blocked && s.tcb[0].priorityRem < 255 && s.tcb[0].priority < 255
  }

  lemma PartitionDistinct(s: KState)
    requires Partition(s)
    ensures Distinct(s.run) && Distinct(s.rt) && Distinct(s.dl)
    ensures forall t: nat :: IsLive(s, t) <==> t in s.run || t in s.rt || t in s.dl
    ensures forall t: nat :: !(t in s.run && t in s.rt) && !(t in s.run && t in s.dl) && !(t in s.rt && t in s.dl)
  {
    forall t: nat
      ensures multiset(s.run)[t] + multiset(s.rt)[t] + multiset(s.dl)[t] <= 1
      ensures IsLive(s, t) <==> t in s.run || t in s.rt || t in s.dl
    {
      assert Queued(s)[t] == multiset(s.run)[t] + multiset(s.rt)[t] + multiset(s.dl)[t];
      assert t in s.run <==> t in multiset(s.run);
      assert t in s.rt <==> t in multiset(s.rt);
      assert t in s.dl <==> t in multiset(s.dl);
    }
    MultiplicityDistinct(s.run);
    MultiplicityDistinct(s.rt);
    MultiplicityDistinct(s.dl);
    forall t: nat
      ensures !(t in s.run && t in s.rt) && !(t in s.run && t in s.dl) && !(t in s.rt && t in s.dl)
    {
      assert t in s.run ==> t in multiset(s.run);
      assert t in s.rt ==> t in multiset(s.rt);
      assert t in s.dl ==> t in multiset(s.dl);
    }
  }

  lemma PartitionFits(s: KState)
    requires Partition(s)
    ensures |s.run| + |s.rt| + |s.dl| <= |s.tcb|
  {
    forall t: nat | t in Queued(s)
      ensures t < |s.tcb|
    {
      assert Queued(s)[t] > 0;
    }
    PigeonHole(Queued(s), |s.tcb|);
    assert |Queued(s)| == |s.run| + |s.rt| + |s.dl|;
  }

  /** A step that leaves the fields the partition depends on alone, and only
      reorders each queue, keeps the partition. */
  ghost predicate SameShape(s: KState, s': KState) {
    && |s'.tcb| == |s.tcb|
    && (forall t :: 0 <= t < |s.tcb| ==>
      && s'.tcb[t].live == s.tcb[t].live
      && s'.tcb[t].id == s.tcb[t].id
      && s'.tcb[t].period == s.tcb[t].period
      && s'.tcb[t].delay == s.tcb[t].delay)
    && multiset(s'.run) == multiset(s.run)
    && multiset(s'.rt) == multiset(s.rt)
    && multiset(s'.dl) == multiset(s.dl)
    && s'.tasks == s.tasks
  }

  lemma SameShapePartition(s: KState, s': KState)
    requires Partition(s) && SameShape(s, s')
    ensures Partition(s')
  {
    assert |s'.run| == |multiset(s'.run)| && |s'.rt| == |multiset(s'.rt)| && |s'.dl| == |multiset(s'.dl)|;
    assert |s.run| == |multiset(s.run)| && |s.rt| == |multiset(s.rt)| && |s.dl| == |multiset(s.dl)|;
    forall t: nat
      ensures t in s'.run ==> t < |s'.tcb| && s'.tcb[t].period == 0
      ensures t in s'.rt ==> t < |s'.tcb| && s'.tcb[t].period > 0
      ensures t in s'.dl ==> t < |s'.tcb| && s'.tcb[t].delay > 0
      ensures IsLive(s', t) == IsLive(s, t)
    {
      SameMembers(s'.run, s.run, t);
      SameMembers(s'.rt, s.rt, t);
      SameMembers(s'.dl, s.dl, t);
    }
  }

  lemma PartitionInTable(s: KState, i: nat)
    requires Partition(s)
    ensures i < |s.run| ==> s.run[i] < |s.tcb|
    ensures i < |s.rt| ==> s.rt[i] < |s.tcb|
    ensures i < |s.dl| ==> s.dl[i] < |s.tcb|
  {
    assert i < |s.run| ==> s.run[i] in s.run;
    assert i < |s.rt| ==> s.rt[i] in s.rt;
    assert i < |s.dl| ==> s.dl[i] in s.dl;
  }
}
