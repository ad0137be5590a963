/** What the cluster map of a uhfs volume (fs/uhfs.c) means: entry m[b] of data
    block b, and the chains that the entries make. */
module ClusterMap {
  import opened Sequences

  const FIXDBLK := 0xfffffffc
  const EOCHBLK := 0xfffffffe
  const FREEBLK := 0xffffffff

  /** c is a chain: each block names the next one, the last the end of the
      chain, and none comes twice. */
  ghost predicate Chain(m: seq<int>, c: seq<nat>) {
    && c != [] && Distinct(c)
    && (forall i :: 0 <= i < |c| ==> c[i] < |m|)
    && (forall i :: 0 <= i < |c| - 1 ==> m[c[i]] == c[i + 1])
    && m[c[|c| - 1]] == EOCHBLK
  }

  ghost predicate OnChain(chains: seq<seq<nat>>, b: nat) {
    exists i :: 0 <= i < |chains| && b in chains[i]
  }

  ghost predicate Apart(chains: seq<seq<nat>>) {
    forall i, j, b :: 0 <= i < |chains| && 0 <= j < |chains| && b in chains[i] && b in chains[j] ==> i == j
  }

  /** A block that can be allocated or is. */
  predicate Used(m: seq<int>, b: nat) {
    b < |m| && m[b] != FREEBLK && m[b] != FIXDBLK
  }

  /** Every block that is neither free nor fixed is on exactly one chain. */
  ghost predicate ChainsOk(m: seq<int>, chains: seq<seq<nat>>) {
    && |m| <= FIXDBLK
    && (forall i :: 0 <= i < |chains| ==> Chain(m, chains[i]))
    && Apart(chains)
    && (forall b: nat :: Used(m, b) <==> OnChain(chains, b))
  }

  function CountFree(m: seq<int>, hi: nat): nat
    requires hi <= |m|
  {
    if hi == 0 then 0 else CountFree(m, hi - 1) + if m[hi - 1] == FREEBLK then 1 else 0
  }

  predicate InMap(m: seq<int>, c: seq<nat>) {
    forall b :: b in c ==> b < |m|
  }

  function FreeAll(m: seq<int>, c: seq<nat>): (r: seq<int>)
    requires InMap(m, c)
    ensures |r| == |m| && forall b :: 0 <= b < |m| ==> r[b] == if b in c then FREEBLK else m[b]
    decreases |c|
  {
    if c == [] then m
    else
      assert c[0] in c && forall b :: b in c[1..] ==> b in c;
      FreeAll(m[c[0] := FREEBLK], c[1..])
  }

  lemma {:induction false} CountUpdate(m: seq<int>, hi: nat, b: nat, v: int)
    requires hi <= |m| && b < |m|
    ensures CountFree(m[b := v], hi) ==
      CountFree(m, hi) + if b >= hi then 0 else (if v == FREEBLK then 1 else 0) - (if m[b] == FREEBLK then 1 else 0)
  {
    if hi > 0 { CountUpdate(m, hi - 1, b, v); }
  }

  lemma {:induction false} CountFreeAll(m: seq<int>, c: seq<nat>)
    requires Distinct(c) && forall b :: b in c ==> Used(m, b)
    ensures InMap(m, c) && CountFree(FreeAll(m, c), |m|) == CountFree(m, |m|) + |c|
    decreases |c|
  {
    if c != [] {
      assert c[0] in c && forall b :: b in c[1..] ==> b in c;
      CountUpdate(m, |m|, c[0], FREEBLK);
      forall b | b in c[1..]
        ensures Used(m[c[0] := FREEBLK], b)
      {
        var j :| 0 <= j < |c[1..]| && c[1..][j] == b;
        assert c[0] != c[j + 1];
      }
      CountFreeAll(m[c[0] := FREEBLK], c[1..]);
    }
  }

  lemma {:induction false} CountPositive(m: seq<int>, hi: nat)
    requires hi <= |m|
    ensures CountFree(m, hi) > 0 <==> exists b :: 0 <= b < hi && m[b] == FREEBLK
  {
    if hi > 0 { CountPositive(m, hi - 1); }
  }

  /** Entries outside a chain do not matter to it. */
  lemma ChainFrame(m: seq<int>, m': seq<int>, c: seq<nat>)
    requires Chain(m, c) && |m'| == |m| && forall b :: b in c ==> b < |m| && m'[b] == m[b]
    ensures Chain(m', c)
  {
    forall i | 0 <= i < |c|
      ensures c[i] < |m| && m'[c[i]] == m[c[i]]
    {
      assert c[i] in c;
    }
  }

  lemma ChainUsed(m: seq<int>, chains: seq<seq<nat>>, i: nat, b: nat)
    requires ChainsOk(m, chains) && i < |chains| && b in chains[i]
    ensures Used(m, b)
  {
    assert OnChain(chains, b);
  }

  lemma FreeNotOn(m: seq<int>, chains: seq<seq<nat>>, k: nat)
    requires ChainsOk(m, chains) && k < |m| && m[k] == FREEBLK
    ensures forall i :: 0 <= i < |chains| ==> k !in chains[i]
  {
    assert !Used(m, k);
    assert !OnChain(chains, k);
  }

  /** m' agrees with m on chain i. */
  lemma ChainStays(m: seq<int>, chains: seq<seq<nat>>, m': seq<int>, i: nat)
    requires ChainsOk(m, chains) && i < |chains| && |m'| == |m|
    requires forall b :: b in chains[i] && b < |m| ==> m'[b] == m[b]
    ensures Chain(m', chains[i])
  {
    forall b | b in chains[i]
      ensures b < |m|
    {
      ChainUsed(m, chains, i, b);
    }
    ChainFrame(m, m', chains[i]);
  }

  /** A free block that is made a chain of its own. */
  lemma AllocChains(m: seq<int>, chains: seq<seq<nat>>, k: nat)
    requires ChainsOk(m, chains) && k < |m| && m[k] == FREEBLK
    ensures ChainsOk(m[k := EOCHBLK], chains + [[k]])
    ensures CountFree(m[k := EOCHBLK], |m|) == CountFree(m, |m|) - 1
  {
    var m', chains' := m[k := EOCHBLK], chains + [[k]];
    CountUpdate(m, |m|, k, EOCHBLK);
    FreeNotOn(m, chains, k);
    forall i | 0 <= i < |chains'|
      ensures Chain(m', chains'[i])
    {
      if i < |chains| { ChainStays(m, chains, m', i); }
    }
    forall b: nat
      ensures Used(m', b) <==> OnChain(chains', b)
    {
      assert Used(m, b) <==> OnChain(chains, b);
      assert chains'[|chains|] == [k];
      if OnChain(chains, b) {
        var i :| 0 <= i < |chains| && b in chains[i];
        assert b in chains'[i];
      }
    }
  }

  /** Chain i gets block k at its end. */
  ghost function Longer(chains: seq<seq<nat>>, i: nat, k: nat): seq<seq<nat>>
    requires i < |chains|
  {
    chains[i := chains[i] + [k]]
  }

  lemma ExtendOne(m: seq<int>, c: seq<nat>, k: nat)
    requires Chain(m, c) && k < |m| && k !in c
    ensures Chain(m[k := EOCHBLK][c[|c| - 1] := k], c + [k])
  {
    var c', last := c + [k], c[|c| - 1];
    assert last in c;
    forall i | 0 <= i < |c'| - 1
      ensures c'[i] < |m| && m[k := EOCHBLK][last := k][c'[i]] == c'[i + 1]
    {
      assert c[i] in c;
    }
  }

  lemma LongerOn(chains: seq<seq<nat>>, i: nat, k: nat, b: nat)
    requires i < |chains|
    ensures OnChain(Longer(chains, i, k), b) <==> OnChain(chains, b) || b == k
  {
    var chains' := Longer(chains, i, k);
    assert k in chains'[i];
    if OnChain(chains, b) {
      var j :| 0 <= j < |chains| && b in chains[j];
      assert b in chains'[j];
    }
    if OnChain(chains', b) {
      var j :| 0 <= j < |chains'| && b in chains'[j];
      assert b == k || b in chains[j];
    }
  }

  lemma ExtendUsed(m: seq<int>, chains: seq<seq<nat>>, i: nat, k: nat, last: nat, b: nat)
    requires ChainsOk(m, chains) && k < |m| && i < |chains| && Used(m, last)
    ensures Used(m[k := EOCHBLK][last := k], b) <==> OnChain(Longer(chains, i, k), b)
  {
    assert Used(m, b) <==> OnChain(chains, b);
    LongerOn(chains, i, k, b);
  }

  lemma LongerApart(chains: seq<seq<nat>>, i: nat, k: nat)
    requires i < |chains| && Apart(chains) && forall j :: 0 <= j < |chains| ==> k !in chains[j]
    ensures Apart(Longer(chains, i, k))
  {
    var chains' := Longer(chains, i, k);
    forall j, l, b | 0 <= j < |chains'| && 0 <= l < |chains'| && b in chains'[j] && b in chains'[l]
      ensures j == l
    {
      assert b == k || (b in chains[j] && b in chains[l]);
    }
  }

  lemma ExtendEach(m: seq<int>, chains: seq<seq<nat>>, i: nat, k: nat, last: nat, j: nat)
    requires ChainsOk(m, chains) && k < |m| && m[k] == FREEBLK && i < |chains| && j < |chains|
    requires chains[i] != [] && last == chains[i][|chains[i]| - 1] && last < |m|
    ensures Chain(m[k := EOCHBLK][last := k], Longer(chains, i, k)[j])
  {
    FreeNotOn(m, chains, k);
    if j == i {
      ExtendOne(m, chains[i], k);
    } else {
      assert last in chains[i];
      assert last !in chains[j];
      ChainStays(m, chains, m[k := EOCHBLK][last := k], j);
    }
  }

  lemma LastUsed(m: seq<int>, chains: seq<seq<nat>>, i: nat, last: nat)
    requires ChainsOk(m, chains) && i < |chains|
    requires chains[i] != [] && last == chains[i][|chains[i]| - 1]
    ensures Used(m, last)
  {
    assert last in chains[i];
    ChainUsed(m, chains, i, last);
  }

  /** A free block that is linked behind the end of chain i. */
  lemma ExtendChains(m: seq<int>, chains: seq<seq<nat>>, i: nat, k: nat, last: nat)
    requires ChainsOk(m, chains) && k < |m| && m[k] == FREEBLK && i < |chains|
    requires chains[i] != [] && last == chains[i][|chains[i]| - 1]
    ensures last < |m| && last != k && ChainsOk(m[k := EOCHBLK][last := k], Longer(chains, i, k))
    ensures CountFree(m[k := EOCHBLK][last := k], |m|) == CountFree(m, |m|) - 1
  {
    hide Chain, OnChain, Apart, CountFree;
    LastUsed(m, chains, i, last);
    FreeNotOn(m, chains, k);
    CountUpdate(m, |m|, k, EOCHBLK);
    CountUpdate(m[k := EOCHBLK], |m|, last, k);
    LongerApart(chains, i, k);
    var m', chains' := m[k := EOCHBLK][last := k], Longer(chains, i, k);
    forall b: nat
      ensures Used(m', b) <==> OnChain(chains', b)
    {
      ExtendUsed(m, chains, i, k, last, b);
    }
    forall j | 0 <= j < |chains'|
      ensures Chain(m', chains'[j])
    {
      ExtendEach(m, chains, i, k, last, j);
    }
  }

  function Without(chains: seq<seq<nat>>, i: nat): seq<seq<nat>>
    requires i < |chains|
  {
    chains[..i] + chains[i + 1..]
  }

  lemma WithoutOn(chains: seq<seq<nat>>, i: nat, b: nat)
    requires i < |chains| && Apart(chains)
    ensures OnChain(Without(chains, i), b) <==> OnChain(chains, b) && b !in chains[i]
  {
    var chains' := Without(chains, i);
    if OnChain(chains, b) && b !in chains[i] {
      var j :| 0 <= j < |chains| && b in chains[j];
      assert b in chains'[if j < i then j else j - 1];
    }
    if OnChain(chains', b) {
      var j :| 0 <= j < |chains'| && b in chains'[j];
      assert b in chains[if j < i then j else j + 1];
    }
  }

  lemma WithoutApart(chains: seq<seq<nat>>, i: nat)
    requires i < |chains| && Apart(chains)
    ensures Apart(Without(chains, i))
  {
    var chains' := Without(chains, i);
    forall j, l, b | 0 <= j < |chains'| && 0 <= l < |chains'| && b in chains'[j] && b in chains'[l]
      ensures j == l
    {
      assert b in chains[if j < i then j else j + 1] && b in chains[if l < i then l else l + 1];
    }
  }

  lemma FreedStay(m: seq<int>, chains: seq<seq<nat>>, i: nat, j: nat)
    requires ChainsOk(m, chains) && i < |chains| && j < |chains| && i != j
    requires InMap(m, chains[i])
    ensures Chain(FreeAll(m, chains[i]), chains[j])
  {
    hide Chain, Used;
    assert forall b :: b in chains[j] ==> b !in chains[i];
    ChainStays(m, chains, FreeAll(m, chains[i]), j);
  }

  lemma FreedUsed(m: seq<int>, chains: seq<seq<nat>>, i: nat, b: nat)
    requires ChainsOk(m, chains) && i < |chains| && InMap(m, chains[i])
    ensures Used(FreeAll(m, chains[i]), b) <==> OnChain(Without(chains, i), b)
  {
    hide Chain;
    assert Used(m, b) <==> OnChain(chains, b);
    WithoutOn(chains, i, b);
  }

  lemma FreedCount(m: seq<int>, chains: seq<seq<nat>>, i: nat)
    requires ChainsOk(m, chains) && i < |chains|
    ensures InMap(m, chains[i])
    ensures CountFree(FreeAll(m, chains[i]), |m|) == CountFree(m, |m|) + |chains[i]|
  {
    forall b | b in chains[i]
      ensures Used(m, b)
    {
      ChainUsed(m, chains, i, b);
    }
    assert Chain(m, chains[i]);
    CountFreeAll(m, chains[i]);
  }

  /** A chain whose blocks are all freed. */
  lemma FreeChains(m: seq<int>, chains: seq<seq<nat>>, i: nat)
    requires ChainsOk(m, chains) && i < |chains|
    ensures InMap(m, chains[i])
    ensures ChainsOk(FreeAll(m, chains[i]), Without(chains, i))
    ensures CountFree(FreeAll(m, chains[i]), |m|) == CountFree(m, |m|) + |chains[i]|
  {
    hide Chain, Used, OnChain, Apart, FreeAll, CountFree, Without;
    FreedCount(m, chains, i);
    var m', chains' := FreeAll(m, chains[i]), Without(chains, i);
    forall b: nat
      ensures Used(m', b) <==> OnChain(chains', b)
    {
      FreedUsed(m, chains, i, b);
    }
    WithoutAt(chains, i, 0);
    forall j | 0 <= j < |chains'|
      ensures Chain(m', chains'[j])
    {
      WithoutAt(chains, i, j);
      FreedStay(m, chains, i, if j < i then j else j + 1);
    }
    WithoutApart(chains, i);
  }

  lemma WithoutAt(chains: seq<seq<nat>>, i: nat, j: nat)
    requires i < |chains|
    ensures |Without(chains, i)| == |chains| - 1
    ensures j < |chains| - 1 ==> Without(chains, i)[j] == chains[if j < i then j else j + 1]
  {
  }
}
