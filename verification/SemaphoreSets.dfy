/** Tasks that call hf_semwait and hf_sempost on several semaphores
    (sys/sync/semaphore.c), whatever else they do. A program is given by its
    points P, its semaphores X, the semaphore that a hf_semwait at a point is
    for (`waitsOn`), and the point after a call (`next`). */
module SemaphoreSets {
  import opened Queues
  import opened Semaphores

  /** The point of each task, whether it waits in the hf_semwait there, and
      the semaphores. */
  datatype Callers<P, X(!new)> = Callers(pc: seq<P>, waiting: seq<bool>, sems: map<X, Sem>)

  ghost predicate Complete<P, X(!new)>(c: Callers<P, X>) {
    |c.pc| == |c.waiting| && forall x: X :: x in c.sems
  }

  /** Task t gets past the hf_semwait it is at. */
  function Through<P, X(!new)>(c: Callers<P, X>, t: nat, next: P -> P): Callers<P, X>
    requires |c.pc| == |c.waiting| && t < |c.pc|
  {
    c.(pc := c.pc[t := next(c.pc[t])], waiting := c.waiting[t := false])
  }

  /** Task t calls hf_semwait. */
  function Waited<P, X(!new)>(c: Callers<P, X>, t: nat, x: X, next: P -> P): Callers<P, X>
    requires |c.pc| == |c.waiting| && t < |c.pc| && x in c.sems
  {
    var c1 := c.(sems := c.sems[x := Wait(c.sems[x], t)]);
    if Blocks(c.sems[x]) then c1.(waiting := c.waiting[t := true]) else Through(c1, t, next)
  }

  /** Task t calls hf_sempost, and the task that it wakes gets through. */
  function Posted<P, X(!new)>(c: Callers<P, X>, t: nat, x: X, next: P -> P): Callers<P, X>
    requires |c.pc| == |c.waiting| && t < |c.pc| && x in c.sems
  {
    var c1 := c.(sems := c.sems[x := Post(c.sems[x])], pc := c.pc[t := next(c.pc[t])]);
    var w := Woken(c.sems[x]);
    if w.Some? && w.value < |c.pc| then Through(c1, w.value, next) else c1
  }

  /** The queue of x holds exactly the tasks that wait for x. */
  ghost predicate QueueOk<P, X(!new)>(c: Callers<P, X>, waitsOn: P -> Option<X>, x: X)
    requires Complete(c)
  {
    && SemOk(c.sems[x])
    && (forall t: nat :: t in c.sems[x].queue <==> t < |c.pc| && c.waiting[t] && waitsOn(c.pc[t]) == Some(x))
  }

  ghost predicate QueuesOk<P, X(!new)>(c: Callers<P, X>, waitsOn: P -> Option<X>) {
    && Complete(c)
    && (forall x :: QueueOk(c, waitsOn, x))
    && (forall t :: 0 <= t < |c.pc| && c.waiting[t] ==> waitsOn(c.pc[t]).Some?)
  }

  /** A task that does not wait goes on without a call. */
  lemma MoveKeeps<P, X(!new)>(c: Callers<P, X>, t: nat, p: P, waitsOn: P -> Option<X>)
    requires QueuesOk(c, waitsOn) && t < |c.pc| && !c.waiting[t]
    ensures QueuesOk(c.(pc := c.pc[t := p]), waitsOn)
  {
    hide SemOk;
    var c' := c.(pc := c.pc[t := p]);
    forall x
      ensures QueueOk(c', waitsOn, x)
    {
      assert QueueOk(c, waitsOn, x);
    }
  }

  lemma WaitKeeps<P, X(!new)>(c: Callers<P, X>, t: nat, x: X, waitsOn: P -> Option<X>, next: P -> P)
    requires QueuesOk(c, waitsOn) && t < |c.pc| && !c.waiting[t] && waitsOn(c.pc[t]) == Some(x)
    ensures QueuesOk(Waited(c, t, x, next), waitsOn)
  {
    hide SemOk;
    var c' := Waited(c, t, x, next);
    assert QueueOk(c, waitsOn, x);
    WaitOk(c.sems[x], t);
    forall y
      ensures QueueOk(c', waitsOn, y)
    {
      assert QueueOk(c, waitsOn, y);
    }
  }

  /** A post cannot panic, and wakes the first task that waits if there is one. */
  lemma PostWakes<P, X(!new)>(c: Callers<P, X>, t: nat, x: X, waitsOn: P -> Option<X>)
    requires QueuesOk(c, waitsOn) && t < |c.pc| && !c.waiting[t]
    ensures !PostPanics(c.sems[x]) && SemOk(Post(c.sems[x]))
    ensures Woken(c.sems[x]).Some? <==> c.sems[x].count < 0
    ensures Woken(c.sems[x]).Some? ==>
      var w := Woken(c.sems[x]).value;
      && w < |c.pc| && w != t && c.waiting[w] && waitsOn(c.pc[w]) == Some(x)
      && c.sems[x].queue == [w] + Post(c.sems[x]).queue && w !in Post(c.sems[x]).queue
    ensures Woken(c.sems[x]).None? ==> Post(c.sems[x]).queue == c.sems[x].queue
  {
    hide SemOk, Woken, Post, PostPanics;
    assert QueueOk(c, waitsOn, x);
    PostOk(c.sems[x]);
    if Woken(c.sems[x]).Some? {
      assert Woken(c.sems[x]).value in c.sems[x].queue;
    }
  }

  /** The points of the tasks and the semaphores after a post. */
  lemma PostEffect<P, X(!new)>(c: Callers<P, X>, t: nat, x: X, waitsOn: P -> Option<X>, next: P -> P)
    requires QueuesOk(c, waitsOn) && t < |c.pc| && !c.waiting[t]
    ensures Complete(Posted(c, t, x, next))
    ensures Posted(c, t, x, next).sems == c.sems[x := Sem(c.sems[x].count + 1, Post(c.sems[x]).queue)]
    ensures Woken(c.sems[x]).None? ==>
      Posted(c, t, x, next).pc == c.pc[t := next(c.pc[t])] && c.sems[x].count >= 0
    ensures Woken(c.sems[x]).Some? ==>
      var w := Woken(c.sems[x]).value;
      && w < |c.pc| && w != t && waitsOn(c.pc[w]) == Some(x) && c.sems[x].count < 0
      && Posted(c, t, x, next).pc == c.pc[t := next(c.pc[t])][w := next(c.pc[w])]
  {
    PostWakes(c, t, x, waitsOn);
    hide SemOk, Woken, PostPanics;
  }

  lemma PostKeeps<P, X(!new)>(c: Callers<P, X>, t: nat, x: X, waitsOn: P -> Option<X>, next: P -> P)
    requires QueuesOk(c, waitsOn) && t < |c.pc| && !c.waiting[t]
    ensures QueuesOk(Posted(c, t, x, next), waitsOn)
  {
    PostWakes(c, t, x, waitsOn);
    hide SemOk, Woken, Post, PostPanics;
    var c', q' := Posted(c, t, x, next), Post(c.sems[x]).queue;
    forall y
      ensures QueueOk(c', waitsOn, y)
    {
      assert QueueOk(c, waitsOn, y) && QueueOk(c, waitsOn, x);
      if Woken(c.sems[x]).Some? {
        assert forall u: nat :: u in c.sems[x].queue <==> u == Woken(c.sems[x]).value || u in q';
      }
    }
  }
}
