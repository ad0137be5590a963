/** Ring-buffer queues of the kernel (sys/lib/queue.c).

    The C queue keeps `size` slots of which one always stays empty, so that
    head == tail means empty. `Contents` is the sequence the ring stands for;
    every operation is specified by what it does to that sequence. A C pointer
    that may be NULL is an Option here. */
module Queues {
  datatype Option<+T> = None | Some(value: T)

  const QUEUE_OK: int := 0
  const QUEUE_ERROR: int := -1

  class Queue<T(0)> {
    const size: nat
    const data: array<T>
    var elem: int
    var head: int
    var tail: int

    ghost predicate Valid()
      reads this, data
    {
      && 1 <= size == data.Length
      && 0 <= head < size
      && 0 <= tail < size
      && elem == (if head <= tail then tail - head else tail - head + size)
    }

    /** The slot of the i-th element. */
    ghost function Slot(i: nat): int
      reads this
    {
      if head + i < size then head + i else head + i - size
    }

    /** The queued elements, first to be removed first. */
    ghost function Contents(): (s: seq<T>)
      requires Valid()
      reads this, data
      ensures |s| == elem < size
      ensures forall i :: 0 <= i < |s| ==> s[i] == data[Slot(i)]
    {
      Ring(data[..], head, tail)
    }

    constructor (capacity: nat)
      ensures Valid() && fresh(data)
      ensures size == capacity + 1
      ensures Contents() == []
    {
      size := capacity + 1;
      data := new T[capacity + 1];
      head, tail, elem := 0, 0, 0;
    }

    method Count() returns (n: int)
      requires Valid()
      ensures n == |Contents()|
    {
      n := elem;
    }

    method AddTail(x: T) returns (r: int)
      requires Valid()
      modifies this, data
      ensures Valid()
      ensures r == (if |old(Contents())| < size - 1 then QUEUE_OK else QUEUE_ERROR)
      ensures Contents() == (if r == QUEUE_OK then old(Contents()) + [x] else old(Contents()))
    {
      WrapOnce(tail + 1, size);
      var next := (tail + 1) % size;
      if next == head { return QUEUE_ERROR; }
      data[tail] := x;
      tail := next;
      elem := elem + 1;
      return QUEUE_OK;
    }

    method RemHead() returns (r: Option<T>)
      requires Valid()
      modifies this
      ensures Valid()
      ensures old(Contents()) == [] ==> r == None && Contents() == []
      ensures old(Contents()) != [] ==>
                r == Some(old(Contents())[0]) && Contents() == old(Contents())[1..]
    {
      if head == tail { return None; }
      WrapOnce(head + 1, size);
      r := Some(data[head]);
      head := (head + 1) % size;
      elem := elem - 1;
    }

    method Get(i: nat) returns (r: Option<T>)
      requires Valid()
      ensures r == if i < |Contents()| then Some(Contents()[i]) else None
    {
      if elem <= i || head == tail { return None; }
      WrapOnce(head + i, size);
      r := Some(data[(head + i) % size]);
    }

    method Set(i: nat, x: T) returns (r: int)
      requires Valid()
      modifies data
      ensures Valid()
      ensures r == (if i < |old(Contents())| then QUEUE_OK else QUEUE_ERROR)
      ensures Contents() == (if r == QUEUE_OK then old(Contents())[i := x] else old(Contents()))
    {
      if elem <= i || head == tail { return QUEUE_ERROR; }
      WrapOnce(head + i, size);
      data[(head + i) % size] := x;
      return QUEUE_OK;
    }

    method Swap(i: nat, j: nat) returns (r: int)
      requires Valid()
      modifies data
      ensures Valid()
      ensures r == (if i < |old(Contents())| && j < |old(Contents())| then QUEUE_OK else QUEUE_ERROR)
      ensures r == QUEUE_OK ==> Contents() == old(Contents())[i := old(Contents())[j]][j := old(Contents())[i]]
      ensures r != QUEUE_OK ==> Contents() == old(Contents())
    {
      if elem <= i || elem <= j || head == tail { return QUEUE_ERROR; }
      var a, b := (head + i) % size, (head + j) % size;
      assert a == Slot(i) && b == Slot(j) by {
        WrapOnce(head + i, size);
        WrapOnce(head + j, size);
      }
      ghost var d := data[..];
      RingSwap(d, head, tail, i, j, a, b);
      hide Ring, Slot;
      var t := data[a];
      data[a] := data[b];
      data[b] := t;
      assert data[..] == d[a := d[b]][b := d[a]];
      return QUEUE_OK;
    }
  }

  /** The elements from slot head up to slot tail, round the end. */
  ghost function Ring<T>(d: seq<T>, head: int, tail: int): seq<T>
    requires 0 <= head <= |d| && 0 <= tail <= |d|
  {
    if head <= tail then d[head..tail] else d[head..] + d[..tail]
  }

  /** Slot k holds element i. */
  predicate IsSlot(k: int, i: int, head: int, size: nat) {
    0 <= k < size && k == if head + i < size then head + i else head + i - size
  }

  lemma RingUpdate<T>(d: seq<T>, head: int, tail: int, i: nat, k: int, x: T)
    requires 0 <= head < |d| && 0 <= tail < |d| && i < |Ring(d, head, tail)| && IsSlot(k, i, head, |d|)
    ensures Ring(d, head, tail)[i] == d[k]
    ensures Ring(d[k := x], head, tail) == Ring(d, head, tail)[i := x]
  {
  }

  lemma RingSwap<T>(d: seq<T>, head: int, tail: int, i: nat, j: nat, a: int, b: int)
    requires 0 <= head < |d| && 0 <= tail < |d| && i < |Ring(d, head, tail)| && j < |Ring(d, head, tail)|
    requires IsSlot(a, i, head, |d|) && IsSlot(b, j, head, |d|)
    ensures var c := Ring(d, head, tail);
            Ring(d[a := d[b]][b := d[a]], head, tail) == c[i := c[j]][j := c[i]]
  {
    RingUpdate(d, head, tail, i, a, d[b]);
    RingUpdate(d, head, tail, j, b, d[b]);
    RingUpdate(d[a := d[b]], head, tail, j, b, d[a]);
    hide Ring, IsSlot;
  }

  /** An index at most one lap past the end wraps by one subtraction. */
  lemma WrapOnce(i: int, n: int)
    requires 0 <= i < 2 * n
    ensures i % n == if i < n then i else i - n
  {
    if i >= n {
      assert i == n + (i - n);
      assert (n + (i - n)) % n == (i - n) % n;
    }
  }

  // ----- turning a queue -----

  /** One remhead/addtail pair. */
  function Rot<T>(q: seq<T>): seq<T>
    requires q != []
  {
    q[1..] + [q[0]]
  }

  function RotBy<T>(q: seq<T>, n: nat): seq<T>
    requires n <= |q|
  {
    q[n..] + q[..n]
  }

  lemma RotMultiset<T>(q: seq<T>, n: nat)
    requires n <= |q|
    ensures multiset(RotBy(q, n)) == multiset(q)
  {
    assert q == q[..n] + q[n..];
  }

  lemma RotMultisetOnce<T>(q: seq<T>)
    requires q != []
    ensures multiset(Rot(q)) == multiset(q)
  {
    assert q == [q[0]] + q[1..];
  }

  lemma RotStep<T>(q: seq<T>, n: nat)
    requires n < |q|
    ensures |RotBy(q, n)| == |q| && RotBy(q, n)[0] == q[n] && Rot(RotBy(q, n)) == RotBy(q, n + 1)
  {
  }

  lemma RotWhole<T>(q: seq<T>)
    ensures RotBy(q, 0) == q && RotBy(q, |q|) == q
    ensures q[..0] == [] && q[..|q|] == q
  {
  }
}
