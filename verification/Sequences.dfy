/** Sequences without repetition, and how often a sequence holds an element. */
module Sequences {
  ghost predicate Distinct(q: seq<nat>) {
    forall i, j :: 0 <= i < j < |q| ==> q[i] != q[j]
  }

  lemma {:induction false} CountOne(q: seq<nat>, t: nat)
    ensures multiset(q)[t] == 0 <==> t !in q
    ensures Distinct(q) && t in q ==> multiset(q)[t] == 1
  {
    if q != [] {
      var p := q[..|q| - 1];
      assert q == p + [q[|q| - 1]];
      CountOne(p, t);
    }
  }

  lemma SameMembers(p: seq<nat>, q: seq<nat>, t: nat)
    requires multiset(p) == multiset(q)
    ensures t in p <==> t in q
  {
    assert t in p <==> t in multiset(p);
    assert t in q <==> t in multiset(q);
  }

  /** Multiplicity at most one is distinctness. */
  lemma MultiplicityDistinct(q: seq<nat>)
    requires forall t: nat :: multiset(q)[t] <= 1
    ensures Distinct(q)
  {
    forall i, j | 0 <= i < j < |q|
      ensures q[i] != q[j]
    {
      var l, r := q[..j], q[j..];
      assert q == l + r;
      assert l[i] in multiset(l) && r[0] in multiset(r);
      assert multiset(q)[q[i]] == multiset(l)[q[i]] + multiset(r)[q[i]] <= 1;
      assert multiset(l)[q[i]] >= 1;
    }
  }

  lemma PermutedDistinct(p: seq<nat>, q: seq<nat>)
    requires multiset(p) == multiset(q) && Distinct(p)
    ensures Distinct(q)
    ensures forall t: nat :: t in q <==> t in p
  {
    forall t: nat
      ensures multiset(q)[t] <= 1
      ensures t in q <==> t in p
    {
      CountOne(p, t);
      CountOne(q, t);
    }
    MultiplicityDistinct(q);
  }

  /** Numbers below n, each at most once, are at most n. */
  lemma {:induction false} PigeonHole(m: multiset<nat>, n: nat)
    requires forall t: nat :: m[t] <= 1
    requires forall t: nat :: t in m ==> t < n
    ensures |m| <= n
  {
    if n == 0 {
      assert m == multiset{};
    } else {
      var m' := m[n - 1 := 0];
      PigeonHole(m', n - 1);
      assert m == m'[n - 1 := m[n - 1]];
    }
  }

  /** With t outside, distinct numbers below n are fewer than n. */
  lemma RoomFor(q: seq<nat>, t: nat, n: nat)
    requires Distinct(q) && (forall u :: u in q ==> u < n) && t !in q && t < n
    ensures |q| < n
  {
    var r: seq<nat> := q + [t];
    forall u: nat
      ensures multiset(r)[u] <= 1 && (u in multiset(r) ==> u < n)
    {
      CountOne(r, u);
    }
    PigeonHole(multiset(r), n);
  }
}
