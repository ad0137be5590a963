/** The in-place merge sort of a linked list (app/coremark/core_list_join.c):
    bottom-up passes that relink `next`, without recursion. */
module MergeSort {
  import opened Sequences

  /** Node a of the list has the data info[a]; `nodes` is the list to sort. */
  datatype Problem<!T> = Problem(info: seq<T>, cmp: (T, T) -> int, nodes: seq<nat>)

  const NULL := -1

  ghost predicate TotalPreorder<T(!new)>(cmp: (T, T) -> int) {
    && (forall x, y :: cmp(x, y) <= 0 || cmp(y, x) <= 0)
    && (forall x, y, z :: cmp(x, y) <= 0 && cmp(y, z) <= 0 ==> cmp(x, z) <= 0)
  }

  ghost predicate Posed<T(!new)>(c: Problem<T>) {
    TotalPreorder(c.cmp) && Distinct(c.nodes) && forall x :: x in c.nodes ==> x < |c.info|
  }

  function IndexOf(s: seq<nat>, x: nat): (i: nat)
    ensures x in s ==> i < |s| && s[i] == x
  {
    if s == [] || s[0] == x then 0 else 1 + IndexOf(s[1..], x)
  }

  predicate Le<T>(c: Problem<T>, a: nat, b: nat) {
    a < |c.info| && b < |c.info| && c.cmp(c.info[a], c.info[b]) <= 0
  }

  /** a comes before b: not greater, and earlier in the list if they are equivalent. */
  predicate Before<T>(c: Problem<T>, a: nat, b: nat) {
    Le(c, a, b) && (Le(c, b, a) ==> IndexOf(c.nodes, a) < IndexOf(c.nodes, b))
  }

  ghost predicate Sorted<T>(c: Problem<T>, s: seq<nat>) {
    forall i, j :: 0 <= i < j < |s| ==> Before(c, s[i], s[j])
  }

  lemma BeforeTransitive<T(!new)>(c: Problem<T>, x: nat, y: nat, z: nat)
    requires TotalPreorder(c.cmp) && Before(c, x, y) && Before(c, y, z)
    ensures Before(c, x, z)
  {
  }

  // ----- what a pass computes -----

  ghost function Merge<T>(c: Problem<T>, a: seq<nat>, b: seq<nat>): (r: seq<nat>)
    ensures |r| == |a| + |b|
  {
    if a == [] then b
    else if b == [] then a
    else if Le(c, a[0], b[0]) then [a[0]] + Merge(c, a[1..], b)
    else [b[0]] + Merge(c, a, b[1..])
  }

  function Min(a: int, b: int): int { if a < b then a else b }

  /** Neighbouring runs of length k merged in pairs. */
  ghost function Pass<T>(c: Problem<T>, s: seq<nat>, k: nat): (r: seq<nat>)
    requires k > 0
    ensures |r| == |s|
    decreases |s|
  {
    if s == [] then []
    else
      var m, h := Min(k, |s|), Min(2 * k, |s|);
      Merge(c, s[..m], s[m..h]) + Pass(c, s[h..], k)
  }

  /** s is the part of the list from lo on, each run of length k sorted. */
  ghost predicate Run<T>(c: Problem<T>, s: seq<nat>, lo: nat) {
    lo + |s| <= |c.nodes| && Sorted(c, s) && multiset(s) == multiset(c.nodes[lo..lo + |s|])
  }

  ghost predicate Runs<T>(c: Problem<T>, s: seq<nat>, lo: nat, k: nat)
    requires k > 0
    decreases |s|
  {
    s != [] ==>
      var h := Min(k, |s|);
      Run(c, s[..h], lo) && Runs(c, s[h..], lo + h, k)
  }

  lemma {:induction false} MergeMultiset<T>(c: Problem<T>, a: seq<nat>, b: seq<nat>)
    ensures multiset(Merge(c, a, b)) == multiset(a) + multiset(b)
    decreases |a| + |b|
  {
    MergeUnfold(c, a, b);
    hide Merge, Le;
    if a == [] || b == [] {
    } else if Le(c, a[0], b[0]) {
      MergeMultiset(c, a[1..], b);
      assert a == [a[0]] + a[1..];
    } else {
      MergeMultiset(c, a, b[1..]);
      assert b == [b[0]] + b[1..];
    }
  }

  lemma MergeUnfold<T>(c: Problem<T>, a: seq<nat>, b: seq<nat>)
    ensures a == [] ==> Merge(c, a, b) == b
    ensures b == [] ==> Merge(c, a, b) == a
    ensures a != [] && b != [] && Le(c, a[0], b[0]) ==> Merge(c, a, b) == [a[0]] + Merge(c, a[1..], b)
    ensures a != [] && b != [] && !Le(c, a[0], b[0]) ==> Merge(c, a, b) == [b[0]] + Merge(c, a, b[1..])
  {
  }

  ghost predicate AllBefore<T>(c: Problem<T>, x: nat, s: seq<nat>) {
    forall i :: 0 <= i < |s| ==> Before(c, x, s[i])
  }

  lemma AllBeforeMerge<T>(c: Problem<T>, x: nat, a: seq<nat>, b: seq<nat>)
    requires AllBefore(c, x, a) && AllBefore(c, x, b)
    ensures AllBefore(c, x, Merge(c, a, b))
  {
    var r := Merge(c, a, b);
    MergeMultiset(c, a, b);
    forall i | 0 <= i < |r|
      ensures Before(c, x, r[i])
    {
      assert r[i] in multiset(r);
      assert r[i] in a || r[i] in b;
    }
  }

  /** Elements of a come earlier in the list than elements of b. */
  ghost predicate Earlier<T>(c: Problem<T>, a: seq<nat>, b: seq<nat>) {
    forall x, y :: x in a && y in b ==> IndexOf(c.nodes, x) < IndexOf(c.nodes, y)
  }

  ghost predicate InRange<T>(c: Problem<T>, s: seq<nat>) {
    forall x :: x in s ==> x < |c.info|
  }

  lemma {:induction false} MergeSorted<T(!new)>(c: Problem<T>, a: seq<nat>, b: seq<nat>)
    requires TotalPreorder(c.cmp) && Sorted(c, a) && Sorted(c, b)
    requires Earlier(c, a, b) && InRange(c, a) && InRange(c, b)
    ensures Sorted(c, Merge(c, a, b))
    decreases |a| + |b|
  {
    if a == [] || b == [] {
    } else {
      var x, y := a[0], b[0];
      assert x in a && y in b;
      if Le(c, x, y) {
        MergeSorted(c, a[1..], b);
        forall i | 0 <= i < |b|
          ensures Before(c, x, b[i])
        {
          if i > 0 { BeforeTransitive(c, x, y, b[i]); }
        }
        AllBeforeMerge(c, x, a[1..], b);
      } else {
        MergeSorted(c, a, b[1..]);
        forall i | 0 <= i < |a|
          ensures Before(c, y, a[i])
        {
          if i > 0 { BeforeTransitive(c, y, x, a[i]); }
        }
        AllBeforeMerge(c, y, a, b[1..]);
      }
    }
  }

  lemma {:induction false} IndexOfAt(s: seq<nat>, i: nat)
    requires Distinct(s) && i < |s|
    ensures IndexOf(s, s[i]) == i
  {
    assert s[i] in s;
  }

  lemma RunMember<T(!new)>(c: Problem<T>, a: seq<nat>, lo: nat, x: nat)
    requires Posed(c) && Run(c, a, lo) && x in a
    ensures lo <= IndexOf(c.nodes, x) < lo + |a| && x < |c.info|
  {
    hide TotalPreorder, Sorted;
    assert x in multiset(a);
    assert x in c.nodes[lo..lo + |a|];
    var i :| lo <= i < lo + |a| && c.nodes[i] == x;
    IndexOfAt(c.nodes, i);
    assert x in c.nodes;
  }

  lemma RunsEarlier<T(!new)>(c: Problem<T>, a: seq<nat>, b: seq<nat>, lo: nat)
    requires Posed(c) && Run(c, a, lo) && Run(c, b, lo + |a|)
    ensures Earlier(c, a, b) && InRange(c, a) && InRange(c, b)
  {
    forall x | x in a
      ensures IndexOf(c.nodes, x) < lo + |a| && x < |c.info|
    {
      RunMember(c, a, lo, x);
    }
    forall y | y in b
      ensures lo + |a| <= IndexOf(c.nodes, y) && y < |c.info|
    {
      RunMember(c, b, lo + |a|, y);
    }
    hide Run, Posed, IndexOf;
  }

  /** Two neighbouring runs merge into one. */
  lemma MergeRuns<T(!new)>(c: Problem<T>, a: seq<nat>, b: seq<nat>, lo: nat)
    requires Posed(c) && Run(c, a, lo) && Run(c, b, lo + |a|)
    ensures Run(c, Merge(c, a, b), lo)
  {
    hide TotalPreorder, Sorted, Distinct, Merge, Earlier, InRange;
    var mid, hi := lo + |a|, lo + |a| + |b|;
    RunsEarlier(c, a, b, lo);
    MergeSorted(c, a, b);
    MergeMultiset(c, a, b);
    assert c.nodes[lo..hi] == c.nodes[lo..mid] + c.nodes[mid..hi];
  }

  lemma EmptyRun<T(!new)>(c: Problem<T>, lo: nat, k: nat)
    requires lo <= |c.nodes| && k > 0
    ensures Run(c, [], lo) && Runs(c, [], lo, k)
  {
    assert c.nodes[lo..lo] == [];
  }

  lemma RunBound<T(!new)>(c: Problem<T>, s: seq<nat>, lo: nat)
    requires Run(c, s, lo)
    ensures lo + |s| <= |c.nodes|
  {
  }

  /** The first two runs, and the others. */
  lemma RunsSplit<T(!new)>(c: Problem<T>, s: seq<nat>, lo: nat, k: nat)
    requires k > 0 && Runs(c, s, lo, k) && s != []
    ensures var m, h := Min(k, |s|), Min(2 * k, |s|);
      Run(c, s[..m], lo) && Run(c, s[m..h], lo + m) && Runs(c, s[h..], lo + h, k)
  {
    hide Run;
    var m, h := Min(k, |s|), Min(2 * k, |s|);
    var rest := s[m..];
    assert Run(c, s[..m], lo) && Runs(c, rest, lo + m, k);
    if rest == [] {
      RunBound(c, s[..m], lo);
      EmptyRun(c, lo + m, k);
      assert m == |s| == h;
      assert s[m..h] == [] && s[h..] == [];
    } else {
      assert rest[..Min(k, |rest|)] == s[m..h] && rest[Min(k, |rest|)..] == s[h..];
    }
  }

  /** A pass turns sorted runs of length k into sorted runs of length 2k. */
  lemma {:induction false} PassRuns<T(!new)>(c: Problem<T>, s: seq<nat>, lo: nat, k: nat)
    requires Posed(c) && k > 0 && Runs(c, s, lo, k)
    ensures Runs(c, Pass(c, s, k), lo, 2 * k)
    decreases |s|
  {
    hide Run, Merge, Posed;
    if s != [] {
      var m, h := Min(k, |s|), Min(2 * k, |s|);
      RunsSplit(c, s, lo, k);
      MergeRuns(c, s[..m], s[m..h], lo);
      PassRuns(c, s[h..], lo + h, k);
      var r := Pass(c, s, k);
      assert r[..h] == Merge(c, s[..m], s[m..h]) && r[h..] == Pass(c, s[h..], k);
    }
  }

  lemma {:induction false} SingleRuns<T>(c: Problem<T>, lo: nat)
    requires lo <= |c.nodes|
    ensures Runs(c, c.nodes[lo..], lo, 1)
    decreases |c.nodes| - lo
  {
    if lo < |c.nodes| {
      SingleRuns(c, lo + 1);
      assert c.nodes[lo..][..1] == c.nodes[lo..lo + 1] && c.nodes[lo..][1..] == c.nodes[lo + 1..];
    }
  }

  // ----- the list in memory -----

  /** The node at place x of the list s, or NULL after its end. */
  ghost function At(s: seq<nat>, x: nat): int {
    if x < |s| then s[x] else NULL
  }

  /** The places of s from lo up to hi are linked to their successors. */
  ghost predicate Tied(next: seq<int>, s: seq<nat>, lo: nat, hi: nat) {
    forall x :: lo <= x < hi && x < |s| ==> s[x] < |next| && next[s[x]] == At(s, x + 1)
  }

  /** s is linked up to its last node, whose link is open. */
  ghost predicate Linked(next: seq<int>, s: seq<nat>) {
    forall x :: 0 <= x < |s| - 1 ==> s[x] < |next| && next[s[x]] == s[x + 1]
  }

  ghost predicate Clear(s: seq<nat>, lo: nat, hi: nat, out: seq<nat>) {
    forall x :: lo <= x < hi && x < |s| ==> s[x] !in out
  }

  ghost predicate Ends(out: seq<nat>, list: int, tail: int) {
    if out == [] then list == tail == NULL else list == out[0] && tail == out[|out| - 1]
  }

  /** The merged list so far: made of nodes of s, none twice. */
  ghost predicate Output(next: seq<int>, s: seq<nat>, out: seq<nat>, list: int, tail: int) {
    && Linked(next, out) && Distinct(out) && Ends(out, list, tail)
    && forall y :: y in out ==> y in s
  }

  ghost predicate Nodes(s: seq<nat>, n: nat) {
    Distinct(s) && forall x :: x in s ==> x < n
  }

  /** Lines 471-477: e is appended to the merged list. */
  method Append(next: array<int>, e: nat, list0: int, tail0: int, ghost s: seq<nat>, ghost out: seq<nat>)
    returns (list: int, tail: int)
    requires Nodes(s, next.Length) && Output(next[..], s, out, list0, tail0) && e in s && e !in out
    modifies next
    ensures Output(next[..], s, out + [e], list, tail)
    ensures forall y :: 0 <= y < next.Length && (y != tail0 || y !in s) ==> next[y] == old(next[y])
  {
    list, tail := list0, tail0;
    if tail != NULL {
      assert tail in out;
      next[tail] := e;
    } else {
      list := e;
    }
    tail := e;
  }

  /** The next step of a merge moves s[k] to the output. */
  lemma MergeTake<T>(c: Problem<T>, s: seq<nat>, i: nat, m: nat, j: nat, h: nat)
    requires i <= m <= |s| && j <= h <= |s| && (i < m || j < h)
    ensures Merge(c, s[i..m], s[j..h]) ==
      if j == h || (i < m && Le(c, s[i], s[j])) then [s[i]] + Merge(c, s[i + 1..m], s[j..h])
      else [s[j]] + Merge(c, s[i..m], s[j + 1..h])
  {
    if i < m { assert s[i..m] == [s[i]] + s[i + 1..m]; }
    if j < h { assert s[j..h] == [s[j]] + s[j + 1..h]; }
    if i == m {
      assert s[i..m] == [];
    } else if j == h {
      assert s[j..h] == [];
      assert s[i + 1..m] == [] || Merge(c, s[i + 1..m], []) == s[i + 1..m];
    } else {
      assert s[i..m][1..] == s[i + 1..m] && s[j..h][1..] == s[j + 1..h];
    }
  }

  lemma MergeMoves<T>(c: Problem<T>, s: seq<nat>, x: nat, m: nat, j: nat, h: nat, out: seq<nat>)
    requires x <= m <= |s| && j <= h <= |s| && (x < m || j < h)
    ensures if j == h || (x < m && Le(c, s[x], s[j]))
      then out + Merge(c, s[x..m], s[j..h]) == out + [s[x]] + Merge(c, s[x + 1..m], s[j..h])
      else out + Merge(c, s[x..m], s[j..h]) == out + [s[j]] + Merge(c, s[x..m], s[j + 1..h])
  {
    MergeTake(c, s, x, m, j, h);
  }

  lemma TiedAt(next: seq<int>, s: seq<nat>, lo: nat, x: nat, hi: nat, out: seq<nat>)
    requires Tied(next, s, lo, hi) && Clear(s, lo, hi, out) && lo <= x < hi <= |s|
    ensures s[x] < |next| && next[s[x]] == At(s, x + 1)
    ensures s[x] !in out && Tied(next, s, x + 1, hi) && Clear(s, x + 1, hi, out)
  {
  }

  /** A store to a node that is not among these keeps them tied. */
  lemma TiedFrame(old_: seq<int>, next: seq<int>, s: seq<nat>, lo: nat, hi: nat, out: seq<nat>, list: int, tail: int)
    requires Tied(old_, s, lo, hi) && |next| == |old_| && forall y :: 0 <= y < |next| && y != tail ==> next[y] == old_[y]
    requires Clear(s, lo, hi, out) && Output(old_, s, out, list, tail)
    ensures Tied(next, s, lo, hi)
  {
    if out != [] { assert tail in out; }
  }

  lemma ClearAppend(s: seq<nat>, lo: nat, hi: nat, out: seq<nat>, k: nat, n: nat)
    requires Clear(s, lo, hi, out) && Nodes(s, n) && k < |s| && !(lo <= k < hi)
    ensures Clear(s, lo, hi, out + [s[k]])
  {
  }

  /** Append, seen by the runs that are still to be merged. */
  method Move(next: array<int>, e: nat, list0: int, tail0: int, ghost s: seq<nat>, ghost out: seq<nat>,
              ghost k: nat, ghost x: nat, ghost m: nat, ghost j: nat)
    returns (list: int, tail: int)
    requires Nodes(s, next.Length) && Output(next[..], s, out, list0, tail0)
    requires m <= |s| && k < |s| && e == s[k] && e !in out && !(x <= k < m) && k < j
    requires Tied(next[..], s, x, m) && Tied(next[..], s, j, |s|) && Clear(s, x, m, out) && Clear(s, j, |s|, out)
    modifies next
    ensures Output(next[..], s, out + [e], list, tail)
    ensures Tied(next[..], s, x, m) && Tied(next[..], s, j, |s|) && Clear(s, x, m, out + [e]) && Clear(s, j, |s|, out + [e])
    ensures forall y :: 0 <= y < next.Length && y !in s ==> next[y] == old(next[y])
  {
    hide Nodes, Output, Tied, Clear;
    ghost var was := next[..];
    list, tail := Append(next, e, list0, tail0, s, out);
    TiedFrame(was, next[..], s, x, m, out, list0, tail0);
    TiedFrame(was, next[..], s, j, |s|, out, list0, tail0);
    ClearAppend(s, x, m, out, k, next.Length);
    ClearAppend(s, j, |s|, out, k, next.Length);
  }

  /** Lines 442-448: insize places along from p, or to the end. */
  method Skip(next: array<int>, insize: nat, p: int, ghost s: seq<nat>, ghost a: nat) returns (q: int, psize: nat)
    requires insize > 0 && a < |s| && p == s[a] && Tied(next[..], s, a, |s|)
    ensures psize == Min(a + insize, |s|) - a && q == At(s, a + psize)
  {
    hide Tied;
    q := p;
    psize := 0;
    var i := 0;
    while i < insize
      invariant 0 <= i == psize <= insize && a + i < |s| + 1 && q == At(s, a + i)
      invariant i < insize ==> a + i < |s|
    {
      TiedAt(next[..], s, a, a + i, |s|, []);
      psize := psize + 1;
      q := next[q];
      if q == NULL { break; }
      i := i + 1;
    }
  }

  /** Lines 442-478: two neighbouring runs, from p on, are merged behind tail. */
  method MergePair<T>(info: seq<T>, cmp: (T, T) -> int, next: array<int>, insize: nat, p0: int, list0: int, tail0: int,
                      ghost c: Problem<T>, ghost s: seq<nat>, ghost a: nat, ghost out0: seq<nat>)
    returns (q: int, list: int, tail: int, ghost out: seq<nat>)
    requires c.info == info && c.cmp == cmp && |info| == next.Length && insize > 0
    requires Nodes(s, next.Length) && a < |s| && p0 == s[a]
    requires Tied(next[..], s, a, |s|) && Clear(s, a, |s|, out0) && Output(next[..], s, out0, list0, tail0)
    modifies next
    ensures var m, h := Min(a + insize, |s|), Min(a + 2 * insize, |s|);
      && out == out0 + Merge(c, s[a..m], s[m..h])
      && q == At(s, h) && Tied(next[..], s, h, |s|) && Clear(s, h, |s|, out)
    ensures Output(next[..], s, out, list, tail)
    ensures forall y :: 0 <= y < next.Length && y !in s ==> next[y] == old(next[y])
  {
    hide Tied, Clear, Output, Merge, Nodes;
    list, tail, out := list0, tail0, out0;
    var p := p0;
    var psize;
    q, psize := Skip(next, insize, p, s, a);
    var qsize := insize;
    ghost var m, h := Min(a + insize, |s|), Min(a + 2 * insize, |s|);
    ghost var x, j := a, m;
    TiedPart(next[..], s, a, |s|, out, a, m);
    TiedPart(next[..], s, a, |s|, out, m, |s|);
    while psize > 0 || (qsize > 0 && q != NULL)
      invariant a <= x <= m <= j <= h <= |s| && psize == m - x && qsize == insize - (j - m) && qsize >= 0
      invariant q == At(s, j) && (x < m ==> p == s[x])
      invariant out + Merge(c, s[x..m], s[j..h]) == out0 + Merge(c, s[a..m], s[m..h])
      invariant Tied(next[..], s, x, m) && Tied(next[..], s, j, |s|)
      invariant Clear(s, x, m, out) && Clear(s, j, |s|, out)
      invariant Output(next[..], s, out, list, tail)
      invariant forall y :: 0 <= y < next.Length && y !in s ==> next[y] == old(next[y])
      decreases psize + qsize
    {
      MergeMoves(c, s, x, m, j, h, out);
      var e;
      ghost var k;
      if x < m { TiedAt(next[..], s, x, x, m, out); }
      if j < |s| { TiedAt(next[..], s, j, j, |s|, out); }
      if psize == 0 {
        e, q, qsize, k, j := q, next[q], qsize - 1, j, j + 1;
      } else if qsize == 0 || q == NULL {
        e, p, psize, k, x := p, next[p], psize - 1, x, x + 1;
      } else if cmp(info[p], info[q]) <= 0 {
        e, p, psize, k, x := p, next[p], psize - 1, x, x + 1;
      } else {
        e, q, qsize, k, j := q, next[q], qsize - 1, j, j + 1;
      }
      list, tail := Move(next, e, list, tail, s, out, k, x, m, j);
      out := out + [e];
    }
    assert Merge(c, s[x..m], s[j..h]) == [];
  }

  lemma TiedPart(next: seq<int>, s: seq<nat>, lo: nat, hi: nat, out: seq<nat>, l: nat, h: nat)
    requires Tied(next, s, lo, hi) && Clear(s, lo, hi, out) && lo <= l && h <= hi
    ensures Tied(next, s, l, h) && Clear(s, l, h, out)
  {
  }

  lemma {:induction false} PassMultiset<T>(c: Problem<T>, s: seq<nat>, k: nat)
    requires k > 0
    ensures multiset(Pass(c, s, k)) == multiset(s)
    decreases |s|
  {
    hide Merge;
    if s != [] {
      var m, h := Min(k, |s|), Min(2 * k, |s|);
      MergeMultiset(c, s[..m], s[m..h]);
      PassMultiset(c, s[h..], k);
      assert s == s[..m] + s[m..h] + s[h..];
      assert multiset(s) == multiset(s[..m]) + multiset(s[m..h]) + multiset(s[h..]);
    }
  }

  lemma Closed(next: seq<int>, s: seq<nat>, out: seq<nat>, list: int, tail: int)
    requires Output(next, s, out, list, tail) && out != [] && Nodes(s, |next|)
    requires 0 <= tail < |next| && next[tail] == NULL
    ensures Tied(next, out, 0, |out|) && Nodes(out, |next|) && list == out[0]
  {
    forall x | 0 <= x < |out|
      ensures out[x] < |next| && next[out[x]] == At(out, x + 1)
    {
      assert out[x] in out;
    }
  }

  lemma Opened(next: seq<int>, next': seq<int>, s: seq<nat>, out: seq<nat>, list: int, tail: int)
    requires Output(next, s, out, list, tail) && out != [] && |next'| == |next|
    requires forall y :: 0 <= y < |next| && y != tail ==> next'[y] == next[y]
    ensures Output(next', s, out, list, tail) && tail in s
  {
    assert tail in out;
  }

  lemma SliceOfSlice(s: seq<nat>, a: nat, i: nat, j: nat)
    requires i <= j && a + j <= |s|
    ensures s[a..][i..j] == s[a + i..a + j] && s[a..][j..] == s[a + j..]
  {
  }

  lemma PassStep<T>(c: Problem<T>, s: seq<nat>, a: nat, k: nat)
    requires k > 0 && a < |s|
    ensures var m, h := Min(a + k, |s|), Min(a + 2 * k, |s|);
      Pass(c, s[a..], k) == Merge(c, s[a..m], s[m..h]) + Pass(c, s[h..], k)
  {
    hide Merge, Pass;
    var m, h := Min(k, |s| - a), Min(2 * k, |s| - a);
    SliceOfSlice(s, a, 0, m);
    SliceOfSlice(s, a, m, h);
    PassUnfold(c, s[a..], k);
  }

  lemma PassUnfold<T>(c: Problem<T>, r: seq<nat>, k: nat)
    requires k > 0 && r != []
    ensures var m, h := Min(k, |r|), Min(2 * k, |r|);
      Pass(c, r, k) == Merge(c, r[0..m], r[m..h]) + Pass(c, r[h..], k)
  {
    hide Merge;
    assert r[..Min(k, |r|)] == r[0..Min(k, |r|)];
  }

  /** Lines 433-484: one pass over the list s. */
  method SortPass<T>(info: seq<T>, cmp: (T, T) -> int, next: array<int>, insize: nat, list0: int,
                     ghost c: Problem<T>, ghost s: seq<nat>)
    returns (list: int, nmerges: nat, ghost out: seq<nat>)
    requires c.info == info && c.cmp == cmp && |info| == next.Length && insize > 0
    requires Nodes(s, next.Length) && s != [] && list0 == s[0] && Tied(next[..], s, 0, |s|)
    modifies next
    ensures out == Pass(c, s, insize) && Nodes(out, next.Length) && multiset(out) == multiset(s)
    ensures |out| == |s| && list == out[0] && Tied(next[..], out, 0, |out|)
    ensures nmerges <= 1 <==> |s| <= 2 * insize
    ensures forall y :: 0 <= y < next.Length && y !in s ==> next[y] == old(next[y])
  {
    hide Tied, Clear, Output, Merge, Nodes, Pass;
    var p, tail := list0, NULL;
    list, nmerges, out := NULL, 0, [];
    ghost var a := 0;
    StartOutput(next[..], s);
    while p != NULL
      invariant 0 <= a <= |s| && p == At(s, a) && (nmerges == 0 <==> a == 0)
      invariant nmerges == 1 ==> a == Min(2 * insize, |s|)
      invariant nmerges >= 2 ==> a > 2 * insize
      invariant out + Pass(c, s[a..], insize) == [] + Pass(c, s, insize)
      invariant Tied(next[..], s, a, |s|) && Clear(s, a, |s|, out) && Output(next[..], s, out, list, tail)
      invariant forall y :: 0 <= y < next.Length && y !in s ==> next[y] == old(next[y])
      decreases |s| - a
    {
      nmerges := nmerges + 1;
      PassStep(c, s, a, insize);
      p, list, tail, out := MergePair(info, cmp, next, insize, p, list, tail, c, s, a, out);
      a := Min(a + 2 * insize, |s|);
    }
    EmptyPass(c, s, insize);
    assert a == |s| && out + [] == out && [] + Pass(c, s, insize) == Pass(c, s, insize);
    PassMultiset(c, s, insize);
    ghost var was := next[..];
    assert tail in s by { Opened(was, was, s, out, list, tail); }
    NodeBound(s, next.Length, tail);
    next[tail] := NULL;
    Opened(was, next[..], s, out, list, tail);
    Closed(next[..], s, out, list, tail);
  }

  lemma NodeBound(s: seq<nat>, n: nat, x: nat)
    requires Nodes(s, n) && x in s
    ensures x < n
  {
  }

  lemma EmptyPass<T>(c: Problem<T>, s: seq<nat>, k: nat)
    requires k > 0
    ensures Pass(c, s[|s|..], k) == [] && s[0..] == s
  {
  }

  lemma StartOutput(next: seq<int>, s: seq<nat>)
    ensures Clear(s, 0, |s|, []) && Output(next, s, [], NULL, NULL)
  {
  }

  /** The whole list is one run. */
  lemma OneRun<T(!new)>(c: Problem<T>, s: seq<nat>, k: nat)
    requires k >= |s| == |c.nodes| && k > 0 && Runs(c, s, 0, k)
    ensures Sorted(c, s)
  {
    if s != [] {
      assert s[..Min(k, |s|)] == s;
    }
  }

  lemma SameNodes(s: seq<nat>, nodes: seq<nat>)
    requires multiset(s) == multiset(nodes)
    ensures forall y :: y in s <==> y in nodes
  {
    forall y
      ensures y in s <==> y in nodes
    {
      assert y in multiset(s) <==> y in multiset(nodes);
    }
  }

  /** core_list_mergesort on a list that is not empty: the list holds the same
      nodes, sorted, equivalent ones in their old order; no other node is
      touched. */
  method CoreListMergesort<T(!new)>(list0: int, info: seq<T>, cmp: (T, T) -> int, next: array<int>, ghost nodes: seq<nat>)
    returns (list: int, ghost out: seq<nat>)
    requires TotalPreorder(cmp) && |info| == next.Length
    requires nodes != [] && Nodes(nodes, next.Length) && list0 == nodes[0] && Tied(next[..], nodes, 0, |nodes|)
    modifies next
    ensures |out| == |nodes| && list == out[0] && Tied(next[..], out, 0, |out|) && multiset(out) == multiset(nodes)
    ensures Sorted(Problem(info, cmp, nodes), out)
    ensures forall y :: 0 <= y < next.Length && y !in nodes ==> next[y] == old(next[y])
  {
    ghost var c := Problem(info, cmp, nodes);
    assert Posed(c);
    hide Tied, Nodes, Posed, Sorted, TotalPreorder, Pass, Run, Runs;
    list, out := list0, nodes;
    var insize := 1;
    SingleRuns(c, 0);
    assert nodes[0..] == nodes;
    while true
      invariant insize > 0 && |out| == |nodes| && multiset(out) == multiset(nodes)
      invariant Nodes(out, next.Length) && list == out[0] && Tied(next[..], out, 0, |out|)
      invariant Runs(c, out, 0, insize)
      invariant forall y :: 0 <= y < next.Length && y !in nodes ==> next[y] == old(next[y])
      decreases 2 * |nodes| - insize
    {
      ghost var s := out;
      SameNodes(s, nodes);
      PassRuns(c, s, 0, insize);
      var nmerges;
      list, nmerges, out := SortPass(info, cmp, next, insize, list, c, s);
      if nmerges <= 1 {
        OneRun(c, out, 2 * insize);
        return;
      }
      insize := insize * 2;
    }
  }

  /** What Sorted means: in order, and stable. */
  lemma SortedAndStable<T(!new)>(c: Problem<T>, out: seq<nat>, i: nat, j: nat, x: nat, y: nat)
    requires Posed(c) && Sorted(c, out) && multiset(out) == multiset(c.nodes)
    requires i < j < |out| && x < |c.nodes| && y < |c.nodes| && c.nodes[x] == out[i] && c.nodes[y] == out[j]
    ensures c.cmp(c.info[out[i]], c.info[out[j]]) <= 0
    ensures c.cmp(c.info[out[j]], c.info[out[i]]) <= 0 ==> x < y
  {
    IndexOfAt(c.nodes, x);
    IndexOfAt(c.nodes, y);
    assert Before(c, out[i], out[j]);
  }
}
