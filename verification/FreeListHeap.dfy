/** The MEM_ALLOC 1 allocator (sys/lib/malloc.c:119-257): a circular list of free
    blocks in address order, through `base`. Addresses and sizes count quantas
    of eight bytes, the size of a header; the heap starts at address 0. */
module FreeListHeap {
  import opened Queues

  const U32: int := 0x1_0000_0000
  const QUANTA: int := 8
  const MIN_POOL_ALLOC_QUANTAS: int := 16

  datatype Header = Header(next: int, size: int)

  /** A block of the pool, its header included. */
  datatype Tile = Tile(addr: int, size: int, used: bool)

  function Max(a: int, b: int): int { if a > b then a else b }

  // ----- 32-bit arithmetic -----

  /** nquantas of line 214, on 32 bits, and as it is meant. */
  function Quantas(size: int): int { (size + QUANTA - 1) % U32 / QUANTA + 1 }
  function Needed(size: int): int { (size + QUANTA - 1) / QUANTA + 1 }

  /** The test of line 197, on 32 bits, and as it is meant. */
  predicate PoolTest(poolFreePos: int, nquantas: int, heapSize: int) {
    (poolFreePos + Max(nquantas, MIN_POOL_ALLOC_QUANTAS) * QUANTA % U32) % U32 <= heapSize
  }

  predicate PoolHasRoom(pos: int, nquantas: int, heapSize: int) {
    QUANTA * (pos + Max(nquantas, MIN_POOL_ALLOC_QUANTAS)) <= heapSize
  }

  /** The pool end after the request stays below 4 GiB. */
  predicate NoWrap(pos: int, size: int) {
    QUANTA * (pos + Max(Needed(size), MIN_POOL_ALLOC_QUANTAS)) < U32
  }

  /** The size computation and the pool test are right for exactly the requests
      that do not wrap around. */
  lemma PoolTestExact(pos: int, size: int, heapSize: int)
    requires 0 <= size < U32 && 0 <= QUANTA * pos <= heapSize < U32
    ensures (Quantas(size) == Needed(size) && (PoolTest(QUANTA * pos, Quantas(size), heapSize) <==> PoolHasRoom(pos, Needed(size), heapSize)))
            <==> NoWrap(pos, size)
  {
    var n := Max(Needed(size), MIN_POOL_ALLOC_QUANTAS);
    if size + QUANTA - 1 < U32 {
      assert Quantas(size) == Needed(size);
      if NoWrap(pos, size) {
        assert n * QUANTA % U32 == n * QUANTA;
      } else {
        assert U32 <= QUANTA * (pos + n) <= U32 + QUANTA * pos;
        if n * QUANTA < U32 {
          assert (QUANTA * pos + n * QUANTA % U32) % U32 == QUANTA * pos + n * QUANTA - U32;
        } else {
          assert n * QUANTA % U32 == n * QUANTA - U32;
        }
      }
    } else {
      assert Quantas(size) <= 1 < Needed(size);
    }
  }

  // ----- tiles of the pool -----

  function AddrAt(ts: seq<Tile>, pos: int, k: nat): int {
    if k < |ts| then ts[k].addr else pos
  }

  ghost predicate Abuts(ts: seq<Tile>, pos: int, k: nat)
    requires k < |ts|
  {
    ts[k].size >= 1 && AddrAt(ts, pos, k + 1) == ts[k].addr + ts[k].size
  }

  /** The tiles cover [0, pos) exactly. */
  ghost predicate Tiling(ts: seq<Tile>, pos: int) {
    AddrAt(ts, pos, 0) == 0 && forall k :: 0 <= k < |ts| ==> Abuts(ts, pos, k)
  }

  /** No two neighbours are both free. */
  ghost predicate NoPair(ts: seq<Tile>) {
    forall k :: 0 <= k < |ts| - 1 ==> ts[k].used || ts[k + 1].used
  }

  ghost function Live(ts: seq<Tile>): set<Tile> {
    set t | t in ts && t.used
  }

  lemma {:induction false} Ordered(ts: seq<Tile>, pos: int, i: nat, j: nat)
    requires Tiling(ts, pos) && i < j <= |ts|
    ensures ts[i].addr + ts[i].size <= AddrAt(ts, pos, j) && ts[i].size >= 1
    decreases j
  {
    assert Abuts(ts, pos, j - 1);
    if i + 1 < j {
      Ordered(ts, pos, i, j - 1);
    }
  }

  lemma Bounds(ts: seq<Tile>, pos: int, i: nat)
    requires Tiling(ts, pos) && i <= |ts|
    ensures 0 <= AddrAt(ts, pos, i) <= pos
    ensures i < |ts| ==> ts[i].addr + ts[i].size <= pos && ts[i].size >= 1 && AddrAt(ts, pos, i + 1) == ts[i].addr + ts[i].size
  {
    if i > 0 { Ordered(ts, pos, 0, i); }
    if i < |ts| {
      Ordered(ts, pos, i, |ts|);
      assert Abuts(ts, pos, i);
    }
  }

  /** Blocks do not overlap. */
  lemma TilesDisjoint(ts: seq<Tile>, pos: int, s: Tile, t: Tile)
    requires Tiling(ts, pos) && s in ts && t in ts && s != t
    ensures s.addr + s.size <= t.addr || t.addr + t.size <= s.addr
    ensures 0 <= s.addr && s.addr + s.size <= pos
  {
    var i :| 0 <= i < |ts| && ts[i] == s;
    var j :| 0 <= j < |ts| && ts[j] == t;
    Bounds(ts, pos, i);
    if i < j { Ordered(ts, pos, i, j); } else { Ordered(ts, pos, j, i); }
  }

  /** The tiles a .. b become one free tile. */
  function Merge(ts: seq<Tile>, pos: int, a: nat, b: nat): seq<Tile>
    requires a < b <= |ts|
  {
    ts[..a] + [Tile(ts[a].addr, AddrAt(ts, pos, b) - ts[a].addr, false)] + ts[b..]
  }

  /** Where the free block made of tile i begins and ends. */
  function From(ts: seq<Tile>, i: nat): nat
    requires i < |ts|
  {
    if i > 0 && !ts[i - 1].used then i - 1 else i
  }

  function To(ts: seq<Tile>, i: nat): nat
    requires i < |ts|
  {
    if i + 1 < |ts| && !ts[i + 1].used then i + 2 else i + 1
  }

  /** Tile i is given back and joined with its free neighbours. */
  function GiveBack(ts: seq<Tile>, pos: int, i: nat): seq<Tile>
    requires i < |ts|
  {
    Merge(ts, pos, From(ts, i), To(ts, i))
  }

  lemma GiveBackTiling(ts: seq<Tile>, pos: int, i: nat)
    requires Tiling(ts, pos) && i < |ts|
    ensures Tiling(GiveBack(ts, pos, i), pos)
  {
    var a, b := From(ts, i), To(ts, i);
    var m := Merge(ts, pos, a, b);
    Ordered(ts, pos, a, b);
    forall k | 0 <= k < |m|
      ensures Abuts(m, pos, k)
    {
      if k < a {
        assert Abuts(ts, pos, k);
      } else if k > a {
        assert Abuts(ts, pos, k - a - 1 + b);
      }
    }
  }

  lemma NoPairAt(ts: seq<Tile>, k: nat)
    requires NoPair(ts) && k < |ts| - 1
    ensures !ts[k].used ==> ts[k + 1].used
  {
    assert ts[k].used || ts[k + 1].used;
  }

  lemma GiveBackNoPair(ts: seq<Tile>, pos: int, i: nat)
    requires NoPair(ts) && i < |ts| && ts[i].used
    ensures NoPair(GiveBack(ts, pos, i))
  {
    var a, b := From(ts, i), To(ts, i);
    var m := Merge(ts, pos, a, b);
    forall k | 0 <= k < |m| - 1
      ensures m[k].used || m[k + 1].used
    {
      if k + 1 <= a {
        NoPairAt(ts, k);
      } else if k == a {
        NoPairAt(ts, b - 1);
      } else {
        var l := k - a - 1 + b;
        assert ts[l].used || ts[l + 1].used;
      }
    }
  }

  lemma GiveBackLive(ts: seq<Tile>, pos: int, i: nat)
    requires Tiling(ts, pos) && i < |ts| && ts[i].used
    ensures Live(GiveBack(ts, pos, i)) == Live(ts) - {ts[i]}
  {
    var a, b := From(ts, i), To(ts, i);
    var m := Merge(ts, pos, a, b);
    forall t
      ensures t in Live(m) <==> t in Live(ts) && t != ts[i]
    {
      if t in ts && t.used && t != ts[i] {
        var k :| 0 <= k < |ts| && ts[k] == t;
        assert k < a || k >= b;
        assert t == if k < a then m[k] else m[k - b + a + 1];
      }
      if t in m && t.used {
        var k :| 0 <= k < |m| && m[k] == t;
        assert k != a;
        var l := if k < a then k else k - a - 1 + b;
        assert ts[l] == t;
        if l < i { Ordered(ts, pos, l, i); } else { Ordered(ts, pos, i, l); }
      }
    }
  }

  /** The whole free tile k is taken. */
  function Take(ts: seq<Tile>, k: nat): seq<Tile>
    requires k < |ts|
  {
    ts[k := ts[k].(used := true)]
  }

  /** The last n quantas of the free tile k are taken. */
  function Cut(ts: seq<Tile>, k: nat, n: int): seq<Tile>
    requires k < |ts|
  {
    ts[..k] + [Tile(ts[k].addr, ts[k].size - n, false), Tile(ts[k].addr + ts[k].size - n, n, true)] + ts[k + 1..]
  }

  function Alloc(ts: seq<Tile>, k: nat, n: int): seq<Tile>
    requires k < |ts|
  {
    if ts[k].size == n then Take(ts, k) else Cut(ts, k, n)
  }

  /** The block handed out. */
  function Piece(ts: seq<Tile>, k: nat, n: int): Tile
    requires k < |ts|
  {
    Tile(ts[k].addr + ts[k].size - n, n, true)
  }

  lemma AllocTiling(ts: seq<Tile>, pos: int, k: nat, n: int)
    requires Tiling(ts, pos) && k < |ts| && !ts[k].used && 1 <= n <= ts[k].size
    ensures Tiling(Alloc(ts, k, n), pos)
  {
    var m := Alloc(ts, k, n);
    assert Abuts(ts, pos, k);
    forall j | 0 <= j < |m|
      ensures Abuts(m, pos, j)
    {
      if ts[k].size == n {
        assert Abuts(ts, pos, j);
      } else if j < k {
        assert Abuts(ts, pos, j);
      } else if j > k + 1 {
        assert Abuts(ts, pos, j - 1);
      }
    }
  }

  lemma AllocNoPair(ts: seq<Tile>, k: nat, n: int)
    requires NoPair(ts) && k < |ts| && !ts[k].used
    ensures NoPair(Alloc(ts, k, n))
  {
    var m := Alloc(ts, k, n);
    forall j | 0 <= j < |m| - 1
      ensures m[j].used || m[j + 1].used
    {
      if ts[k].size == n || j < k {
        assert ts[j].used || ts[j + 1].used;
      } else if j > k + 1 {
        assert ts[j - 1].used || ts[j].used;
      }
    }
  }

  lemma AllocLive(ts: seq<Tile>, pos: int, k: nat, n: int)
    requires Tiling(ts, pos) && k < |ts| && !ts[k].used && 1 <= n <= ts[k].size
    ensures Live(Alloc(ts, k, n)) == Live(ts) + {Piece(ts, k, n)} && Piece(ts, k, n) !in Live(ts)
  {
    var m, x := Alloc(ts, k, n), Piece(ts, k, n);
    assert x == if ts[k].size == n then m[k] else m[k + 1];
    forall t
      ensures t in Live(m) <==> t in Live(ts) || t == x
    {
      if t in ts && t.used {
        var j :| 0 <= j < |ts| && ts[j] == t;
        assert t == if j < k || ts[k].size == n then m[j] else m[j + 1];
      }
    }
    if x in ts {
      TilesDisjoint(ts, pos, x, ts[k]);
    }
  }

  // ----- the free list -----

  /** The first free tile from k on, |ts| if there is none. */
  function Succ(ts: seq<Tile>, k: nat): (j: nat)
    requires k <= |ts|
    ensures k <= j <= |ts| && (j < |ts| ==> !ts[j].used) && forall x :: k <= x < j ==> ts[x].used
    decreases |ts| - k
  {
    if k == |ts| || !ts[k].used then k else Succ(ts, k + 1)
  }

  /** The last free tile before k, -1 for base if there is none. */
  function Pred(ts: seq<Tile>, k: nat): (j: int)
    requires k <= |ts|
    ensures -1 <= j < k && (j >= 0 ==> !ts[j].used) && forall x :: j < x < k ==> ts[x].used
  {
    if k == 0 then -1 else if !ts[k - 1].used then k - 1 else Pred(ts, k - 1)
  }

  predicate IsNode(ts: seq<Tile>, r: int) {
    r == -1 || (0 <= r < |ts| && !ts[r].used)
  }

  /** The address of a node; both -1 and |ts| stand for base. */
  function Node(ts: seq<Tile>, base: int, r: int): int {
    if 0 <= r < |ts| then ts[r].addr else base
  }

  /** The rank of the node after node r. */
  function After(ts: seq<Tile>, r: int): (s: int)
    requires IsNode(ts, r)
    ensures IsNode(ts, s)
  {
    var s := Succ(ts, r + 1);
    if s == |ts| then -1 else s
  }

  ghost predicate TileStored(m: map<int, Header>, ts: seq<Tile>, base: int, k: nat)
    requires k < |ts|
  {
    && ts[k].addr in m && m[ts[k].addr].size == ts[k].size
    && (!ts[k].used ==> m[ts[k].addr].next == Node(ts, base, Succ(ts, k + 1)))
  }

  /** Memory holds the headers of the tiles, and the free ones are linked in
      address order, through base. */
  ghost predicate Stored(m: map<int, Header>, ts: seq<Tile>, base: int, pos: int, top: int) {
    && (base < 0 || base > top) && 0 <= pos <= top
    && base in m && (forall a :: 0 <= a < top ==> a in m)
    && Tiling(ts, pos)
    && m[base] == Header(Node(ts, base, Succ(ts, 0)), 0)
    && forall k :: 0 <= k < |ts| ==> TileStored(m, ts, base, k)
  }

  lemma SuccIs(ts: seq<Tile>, k: nat, j: nat)
    requires k <= j <= |ts| && (j < |ts| ==> !ts[j].used) && forall x :: k <= x < j ==> ts[x].used
    ensures Succ(ts, k) == j
  {
    var s := Succ(ts, k);
    assert !(s < j) && !(j < s);
  }

  /** Two addresses of nodes are equal only if the nodes are. */
  lemma NodesDiffer(ts: seq<Tile>, base: int, pos: int, top: int, r: int, s: int)
    requires Tiling(ts, pos) && pos <= top && (base < 0 || base > top)
    requires -1 <= r < |ts| && -1 <= s < |ts| && r != s
    ensures Node(ts, base, r) != Node(ts, base, s)
  {
    if r >= 0 { Bounds(ts, pos, r); }
    if s >= 0 { Bounds(ts, pos, s); }
    if 0 <= r < s { Ordered(ts, pos, r, s); }
    if 0 <= s < r { Ordered(ts, pos, s, r); }
  }

  /** What a walk sees at node r. */
  lemma AtNode(m: map<int, Header>, ts: seq<Tile>, base: int, pos: int, top: int, r: int)
    requires Stored(m, ts, base, pos, top) && IsNode(ts, r)
    ensures Node(ts, base, r) in m && m[Node(ts, base, r)].next == Node(ts, base, After(ts, r))
    ensures m[Node(ts, base, r)].size == if r == -1 then 0 else ts[r].size
  {
    if r >= 0 { assert TileStored(m, ts, base, r); }
  }

  /** The break condition of free2 holds exactly at the free block before tile i. */
  lemma BreakAt(ts: seq<Tile>, base: int, pos: int, top: int, i: nat, r: int)
    requires Tiling(ts, pos) && pos <= top && (base < 0 || base > top)
    requires i < |ts| && ts[i].used && IsNode(ts, r)
    ensures var block, p, n := ts[i].addr, Node(ts, base, r), Node(ts, base, After(ts, r));
      ((block > p && block < n) || (p >= n && (block > p || block < n))) <==> r == Pred(ts, i)
  {
    var t, s := Pred(ts, i), After(ts, r);
    Bounds(ts, pos, i);
    if r >= 0 {
      Bounds(ts, pos, r);
      if r < i { Ordered(ts, pos, r, i); } else { Ordered(ts, pos, i, r); }
    }
    if s >= 0 {
      Bounds(ts, pos, s);
      if s < i { Ordered(ts, pos, s, i); } else { Ordered(ts, pos, i, s); }
      if r >= 0 { Ordered(ts, pos, r, s); }
    }
  }

  /** The memory after a block has been linked in and joined with its free
      neighbours (lines 165-177). */
  function Linked(m: map<int, Header>, ts: seq<Tile>, base: int, pos: int, i: nat): map<int, Header>
    requires i < |ts| && ts[i].addr in m && Node(ts, base, Pred(ts, i)) in m
  {
    var block, p := ts[i].addr, Node(ts, base, Pred(ts, i));
    var b := To(ts, i);
    var h := Header(Node(ts, base, Succ(ts, b)), AddrAt(ts, pos, b) - block);
    var m1 := m[block := h];
    if From(ts, i) == i then m1[p := m[p].(next := block)]
    else m1[p := Header(h.next, m[p].size + h.size)]
  }

  /** Successors after tiles have been joined, from tile k of the new list on. */
  lemma GiveBackSucc(ts: seq<Tile>, base: int, pos: int, i: nat, k: nat)
    requires i < |ts| && ts[i].used && k <= |GiveBack(ts, pos, i)|
    ensures var m, a, b := GiveBack(ts, pos, i), From(ts, i), To(ts, i);
      Node(m, base, Succ(m, k)) ==
        if k > a then Node(ts, base, Succ(ts, k - a - 1 + b))
        else if Succ(ts, k) < a then Node(ts, base, Succ(ts, k))
        else ts[a].addr
  {
    var m, a, b := GiveBack(ts, pos, i), From(ts, i), To(ts, i);
    if k > a {
      var s := Succ(ts, k - a - 1 + b);
      SuccIs(m, k, s - b + a + 1);
    } else if Succ(ts, k) < a {
      SuccIs(m, k, Succ(ts, k));
    } else {
      SuccIs(m, k, a);
    }
  }

  /** Linked, address by address. */
  lemma LinkedAt(m: map<int, Header>, ts: seq<Tile>, base: int, pos: int, top: int, i: nat)
    requires Stored(m, ts, base, pos, top) && i < |ts| && ts[i].used
    requires ts[i].addr in m && Node(ts, base, Pred(ts, i)) in m
    ensures var m', block, p, b := Linked(m, ts, base, pos, i), ts[i].addr, Node(ts, base, Pred(ts, i)), To(ts, i);
      && m'.Keys == m.Keys && block != p
      && (forall x :: x in m && x != block && x != p ==> m'[x] == m[x])
      && (if From(ts, i) == i then m'[p] == Header(block, m[p].size) && m'[block] == Header(Node(ts, base, Succ(ts, b)), AddrAt(ts, pos, b) - block)
          else m'[p] == Header(Node(ts, base, Succ(ts, b)), m[p].size + AddrAt(ts, pos, b) - block))
  {
    hide TileStored;
    NodesDiffer(ts, base, pos, top, Pred(ts, i), i);
  }

  lemma MergedTile(ts: seq<Tile>, pos: int, i: nat)
    requires i < |ts|
    ensures var a, b := From(ts, i), To(ts, i);
      && a < |GiveBack(ts, pos, i)|
      && GiveBack(ts, pos, i)[a] == Tile(ts[a].addr, AddrAt(ts, pos, b) - ts[a].addr, false)
      && |GiveBack(ts, pos, i)| == |ts| + a + 1 - b
      && (a != i ==> Pred(ts, i) == a) && (a == i ==> i == 0 || Pred(ts, i) != i - 1)
  {
  }

  lemma {:induction false} LinkedMerged(m: map<int, Header>, ts: seq<Tile>, base: int, pos: int, top: int, i: nat)
    requires Stored(m, ts, base, pos, top) && i < |ts| && ts[i].used
    requires ts[i].addr in m && Node(ts, base, Pred(ts, i)) in m
    ensures From(ts, i) < |GiveBack(ts, pos, i)|
    ensures TileStored(Linked(m, ts, base, pos, i), GiveBack(ts, pos, i), base, From(ts, i))
  {
    hide Linked, GiveBack, Pred, Succ;
    var a := From(ts, i);
    LinkedAt(m, ts, base, pos, top, i);
    MergedTile(ts, pos, i);
    GiveBackSucc(ts, base, pos, i, a + 1);
    assert TileStored(m, ts, base, a);
    assert ts[a].addr in m && m[ts[a].addr].size == ts[a].size;
    Bounds(ts, pos, a);
    hide Stored, TileStored;
    StoredOne(Linked(m, ts, base, pos, i), GiveBack(ts, pos, i), base, a);
  }

  lemma StoredOne(m: map<int, Header>, ts: seq<Tile>, base: int, k: nat)
    requires k < |ts| && ts[k].addr in m && m[ts[k].addr] == Header(Node(ts, base, Succ(ts, k + 1)), ts[k].size)
    ensures TileStored(m, ts, base, k)
  {
  }

  /** The old tile that is tile k of the new list. */
  function Old(ts: seq<Tile>, i: nat, k: nat): int
    requires i < |ts|
  {
    if k < From(ts, i) then k else k - From(ts, i) - 1 + To(ts, i)
  }

  lemma OldAt(ts: seq<Tile>, pos: int, i: nat, k: nat)
    requires i < |ts| && k < |GiveBack(ts, pos, i)| && k != From(ts, i)
    ensures var l := Old(ts, i, k); 0 <= l < |ts| && l != i && GiveBack(ts, pos, i)[k] == ts[l]
  {
  }

  /** Only the free tile before gets another successor. */
  lemma NextKept(ts: seq<Tile>, base: int, pos: int, i: nat, k: nat)
    requires i < |ts| && ts[i].used && k < |GiveBack(ts, pos, i)| && k != From(ts, i)
    ensures var m, l := GiveBack(ts, pos, i), Old(ts, i, k);
      && 0 <= l < |ts| && l != i && m[k] == ts[l]
      && (!ts[l].used ==> Node(m, base, Succ(m, k + 1)) == if l == Pred(ts, i) then ts[i].addr else Node(ts, base, Succ(ts, l + 1)))
      && (l == Pred(ts, i) ==> From(ts, i) == i)
  {
    hide GiveBack, Pred, Succ;
    OldAt(ts, pos, i, k);
    MergedTile(ts, pos, i);
    GiveBackSucc(ts, base, pos, i, k + 1);
  }

  lemma LinkedOther(m: map<int, Header>, ts: seq<Tile>, base: int, pos: int, top: int, i: nat, k: nat)
    requires Stored(m, ts, base, pos, top) && i < |ts| && ts[i].used && k < |GiveBack(ts, pos, i)| && k != From(ts, i)
    requires ts[i].addr in m && Node(ts, base, Pred(ts, i)) in m
    ensures TileStored(Linked(m, ts, base, pos, i), GiveBack(ts, pos, i), base, k)
  {
    hide Linked, Tiling, GiveBack, Old, Succ, Pred;
    var l, r := Old(ts, i, k), Pred(ts, i);
    LinkedAt(m, ts, base, pos, top, i);
    NextKept(ts, base, pos, i, k);
    assert TileStored(m, ts, base, l);
    NodesDiffer(ts, base, pos, top, i, l);
    if l != r { NodesDiffer(ts, base, pos, top, r, l); }
  }

  lemma LinkedBase(m: map<int, Header>, ts: seq<Tile>, base: int, pos: int, top: int, i: nat)
    requires Stored(m, ts, base, pos, top) && i < |ts| && ts[i].used
    requires ts[i].addr in m && Node(ts, base, Pred(ts, i)) in m
    ensures var m', ts' := Linked(m, ts, base, pos, i), GiveBack(ts, pos, i);
      m'.Keys == m.Keys && m'[base] == Header(Node(ts', base, Succ(ts', 0)), 0)
  {
    hide Linked, Tiling, GiveBack;
    LinkedAt(m, ts, base, pos, top, i);
    NodesDiffer(ts, base, pos, top, -1, i);
    if Pred(ts, i) != -1 { NodesDiffer(ts, base, pos, top, -1, Pred(ts, i)); }
    GiveBackSucc(ts, base, pos, i, 0);
  }

  lemma PredKept(ts: seq<Tile>, base: int, pos: int, i: nat)
    requires i < |ts| && ts[i].used
    ensures IsNode(ts, Pred(ts, i))
    ensures IsNode(GiveBack(ts, pos, i), Pred(ts, i)) && Node(GiveBack(ts, pos, i), base, Pred(ts, i)) == Node(ts, base, Pred(ts, i))
  {
  }

  /** free2 keeps memory and tiles in step. */
  lemma LinkedStored(m: map<int, Header>, ts: seq<Tile>, base: int, pos: int, top: int, i: nat)
    requires Stored(m, ts, base, pos, top) && i < |ts| && ts[i].used
    ensures ts[i].addr in m && Node(ts, base, Pred(ts, i)) in m
    ensures Stored(Linked(m, ts, base, pos, i), GiveBack(ts, pos, i), base, pos, top)
    ensures IsNode(GiveBack(ts, pos, i), Pred(ts, i)) && Node(GiveBack(ts, pos, i), base, Pred(ts, i)) == Node(ts, base, Pred(ts, i))
  {
    hide TileStored, Tiling, Linked, GiveBack, Succ, Pred;
    AtNode(m, ts, base, pos, top, Pred(ts, i));
    TileIn(m, ts, base, pos, top, i);
    GiveBackTiling(ts, pos, i);
    LinkedBase(m, ts, base, pos, top, i);
    PredKept(ts, base, pos, i);
    forall k | 0 <= k < |GiveBack(ts, pos, i)|
      ensures TileStored(Linked(m, ts, base, pos, i), GiveBack(ts, pos, i), base, k)
    {
      if k == From(ts, i) {
        LinkedMerged(m, ts, base, pos, top, i);
      } else {
        LinkedOther(m, ts, base, pos, top, i, k);
      }
    }
  }

  lemma TileIn(m: map<int, Header>, ts: seq<Tile>, base: int, pos: int, top: int, k: nat)
    requires k < |ts| && Stored(m, ts, base, pos, top)
    ensures ts[k].addr in m && m[ts[k].addr].size == ts[k].size
  {
    assert TileStored(m, ts, base, k);
  }

  // ----- taking blocks and growing the pool, in memory -----

  lemma PredIs(ts: seq<Tile>, r: int, k: nat)
    requires IsNode(ts, r) && k < |ts| && After(ts, r) == k
    ensures Pred(ts, k) == r && r < k
  {
  }

  lemma TakeSucc(ts: seq<Tile>, base: int, k: nat, j: nat)
    requires k < |ts| && !ts[k].used && j <= |ts|
    ensures Node(Take(ts, k), base, Succ(Take(ts, k), j)) == Node(ts, base, if Succ(ts, j) == k then Succ(ts, k + 1) else Succ(ts, j))
  {
    SuccIs(Take(ts, k), j, if Succ(ts, j) == k then Succ(ts, k + 1) else Succ(ts, j));
  }

  /** Line 226: the tile is unlinked from the node before it. */
  lemma TakeTile(m: map<int, Header>, ts: seq<Tile>, base: int, pos: int, top: int, r: int, k: nat, j: nat)
    requires Stored(m, ts, base, pos, top) && IsNode(ts, r) && k < |ts| && After(ts, r) == k && j < |ts|
    requires Node(ts, base, r) in m && ts[k].addr in m
    ensures var prevp := Node(ts, base, r);
      TileStored(m[prevp := m[prevp].(next := m[ts[k].addr].next)], Take(ts, k), base, j)
  {
    hide Tiling, Pred, Succ;
    PredIs(ts, r, k);
    AtNode(m, ts, base, pos, top, k);
    TakeSucc(ts, base, k, j + 1);
    assert TileStored(m, ts, base, j);
    if j != r { NodesDiffer(ts, base, pos, top, j, r); }
  }

  lemma TakeStored(m: map<int, Header>, ts: seq<Tile>, base: int, pos: int, top: int, r: int, k: nat)
    requires Stored(m, ts, base, pos, top) && IsNode(ts, r) && k < |ts| && After(ts, r) == k
    ensures var prevp, p := Node(ts, base, r), ts[k].addr;
      prevp in m && p in m && Stored(m[prevp := m[prevp].(next := m[p].next)], Take(ts, k), base, pos, top)
    ensures IsNode(Take(ts, k), r) && Node(Take(ts, k), base, r) == Node(ts, base, r)
  {
    hide Tiling;
    var prevp, p := Node(ts, base, r), ts[k].addr;
    PredIs(ts, r, k);
    AtNode(m, ts, base, pos, top, r);
    AtNode(m, ts, base, pos, top, k);
    var m', ts' := m[prevp := m[prevp].(next := m[p].next)], Take(ts, k);
    AllocTake(ts, pos, k);
    TakeSucc(ts, base, k, 0);
    if r != -1 { NodesDiffer(ts, base, pos, top, -1, r); }
    forall j | 0 <= j < |ts'|
      ensures TileStored(m', ts', base, j)
    {
      TakeTile(m, ts, base, pos, top, r, k, j);
    }
    hide TileStored;
  }

  lemma AllocTake(ts: seq<Tile>, pos: int, k: nat)
    requires Tiling(ts, pos) && k < |ts| && !ts[k].used
    ensures Tiling(Take(ts, k), pos)
  {
    assert Abuts(ts, pos, k);
    AllocTiling(ts, pos, k, ts[k].size);
  }

  lemma CutSucc(ts: seq<Tile>, base: int, k: nat, n: int, j: nat)
    requires k < |ts| && !ts[k].used && j <= |ts| + 1 == |Cut(ts, k, n)|
    ensures Node(Cut(ts, k, n), base, Succ(Cut(ts, k, n), j)) == Node(ts, base, Succ(ts, if j <= k then j else if j == k + 1 then k + 1 else j - 1))
  {
    var m := Cut(ts, k, n);
    if j <= k {
      SuccIs(m, j, Succ(ts, j));
    } else {
      SuccIs(m, j, Succ(ts, if j == k + 1 then k + 1 else j - 1) + 1);
    }
  }

  lemma CutTile(m: map<int, Header>, ts: seq<Tile>, base: int, pos: int, top: int, k: nat, n: int, j: nat)
    requires Stored(m, ts, base, pos, top) && k < |ts| && !ts[k].used && 1 <= n < ts[k].size && j <= |ts|
    ensures var p, q := ts[k].addr, ts[k].addr + ts[k].size - n;
      p in m && q in m && TileStored(m[p := m[p].(size := ts[k].size - n)][q := m[q].(size := n)], Cut(ts, k, n), base, j)
  {
    hide Succ;
    var p, q := ts[k].addr, ts[k].addr + ts[k].size - n;
    Bounds(ts, pos, k);
    CutSucc(ts, base, k, n, j + 1);
    assert TileStored(m, ts, base, k);
    if j != k && j != k + 1 {
      var l := if j < k then j else j - 1;
      Bounds(ts, pos, l);
      assert TileStored(m, ts, base, l) && Cut(ts, k, n)[j] == ts[l];
      if l < k { Ordered(ts, pos, l, k); } else { Ordered(ts, pos, k, l); }
    }
    hide Stored, Tiling;
  }

  /** Lines 228-230: the tail of the tile is cut off. */
  lemma CutStored(m: map<int, Header>, ts: seq<Tile>, base: int, pos: int, top: int, r: int, k: nat, n: int)
    requires Stored(m, ts, base, pos, top) && IsNode(ts, r) && k < |ts| && After(ts, r) == k && 1 <= n < ts[k].size
    ensures var p, q := ts[k].addr, ts[k].addr + ts[k].size - n;
      && p in m && q in m && p != q
      && Stored(m[p := m[p].(size := ts[k].size - n)][q := m[q].(size := n)], Cut(ts, k, n), base, pos, top)
    ensures IsNode(Cut(ts, k, n), r) && Node(Cut(ts, k, n), base, r) == Node(ts, base, r)
  {
    hide TileStored;
    var p, q := ts[k].addr, ts[k].addr + ts[k].size - n;
    PredIs(ts, r, k);
    CutTile(m, ts, base, pos, top, k, n, 0);
    Bounds(ts, pos, k);
    AllocTiling(ts, pos, k, n);
    CutSucc(ts, base, k, n, 0);
    var m', ts' := m[p := m[p].(size := ts[k].size - n)][q := m[q].(size := n)], Cut(ts, k, n);
    forall j | 0 <= j < |ts'|
      ensures TileStored(m', ts', base, j)
    {
      CutTile(m, ts, base, pos, top, k, n, j);
    }
    hide Tiling, Cut;
  }

  /** The pool grows by one block in use. */
  function Grow(ts: seq<Tile>, pos: int, n: int): seq<Tile> {
    ts + [Tile(pos, n, true)]
  }

  lemma GrowTiling(ts: seq<Tile>, pos: int, n: int)
    requires Tiling(ts, pos) && NoPair(ts) && n >= 1
    ensures Tiling(Grow(ts, pos, n), pos + n) && NoPair(Grow(ts, pos, n))
    ensures Live(Grow(ts, pos, n)) == Live(ts) + {Tile(pos, n, true)} && Tile(pos, n, true) !in Live(ts)
  {
    var m, x, end := Grow(ts, pos, n), Tile(pos, n, true), pos + n;
    assert m[|ts|] == x;
    forall j | 0 <= j < |m|
      ensures Abuts(m, end, j)
    {
      if j < |ts| { assert Abuts(ts, pos, j); }
    }
    forall k | 0 <= k < |m| - 1
      ensures m[k].used || m[k + 1].used
    {
      if k < |ts| - 1 { NoPairAt(ts, k); }
    }
    forall t
      ensures t in Live(m) <==> t in Live(ts) || t == x
    {
      if t in ts && t.used {
        var j :| 0 <= j < |ts| && ts[j] == t;
        assert t == m[j];
      }
    }
    if x in ts {
      var j :| 0 <= j < |ts| && ts[j] == x;
      Bounds(ts, pos, j);
    }
  }

  lemma GrowStored(m: map<int, Header>, ts: seq<Tile>, base: int, pos: int, top: int, n: int)
    requires Stored(m, ts, base, pos, top) && n >= 1 && pos + n <= top && NoPair(ts)
    ensures pos in m && Stored(m[pos := m[pos].(size := n)], Grow(ts, pos, n), base, pos + n, top)
    ensures forall r :: IsNode(ts, r) ==> IsNode(Grow(ts, pos, n), r) && Node(Grow(ts, pos, n), base, r) == Node(ts, base, r)
  {
    hide Tiling;
    var m', ts' := m[pos := m[pos].(size := n)], Grow(ts, pos, n);
    GrowTiling(ts, pos, n);
    GrowSucc(ts, base, pos, n, 0);
    forall j | 0 <= j < |ts'|
      ensures TileStored(m', ts', base, j)
    {
      if j < |ts| {
        GrowSucc(ts, base, pos, n, j + 1);
        Bounds(ts, pos, j);
        assert TileStored(m, ts, base, j);
      }
    }
  }

  lemma GrowSucc(ts: seq<Tile>, base: int, pos: int, n: int, j: nat)
    requires j <= |ts|
    ensures Node(Grow(ts, pos, n), base, Succ(Grow(ts, pos, n), j)) == Node(ts, base, Succ(ts, j))
  {
    SuccIs(Grow(ts, pos, n), j, if Succ(ts, j) == |ts| then |ts| + 1 else Succ(ts, j));
  }

  // ----- payloads -----

  /** Nothing behind the header of t has changed. */
  ghost predicate Untouched(m: map<int, Header>, m': map<int, Header>, t: Tile) {
    forall a :: t.addr < a < t.addr + t.size && a in m ==> a in m' && m'[a] == m[a]
  }

  /** The header of a tile is not in the payload of one. */
  lemma StartNotInside(ts: seq<Tile>, pos: int, k: nat, t: Tile)
    requires Tiling(ts, pos) && k < |ts| && t in ts
    ensures !(t.addr < ts[k].addr < t.addr + t.size) && 0 <= t.addr && t.addr + t.size <= pos
  {
    Bounds(ts, pos, k);
    var j :| 0 <= j < |ts| && ts[j] == t;
    Bounds(ts, pos, j);
    if j < k { Ordered(ts, pos, j, k); } else if k < j { Ordered(ts, pos, k, j); }
  }

  lemma NodeNotInside(ts: seq<Tile>, base: int, pos: int, top: int, r: int, t: Tile)
    requires Tiling(ts, pos) && -1 <= r < |ts| && t in ts && pos <= top && (base < 0 || base > top)
    ensures !(t.addr < Node(ts, base, r) < t.addr + t.size)
  {
    StartNotInside(ts, pos, if r >= 0 then r else 0, t);
  }

  // ----- the search of hf_malloc -----

  /** A free tile that is large enough. */
  ghost predicate Fits(ts: seq<Tile>, k: nat, n: int) {
    k < |ts| && !ts[k].used && ts[k].size >= n
  }

  ghost predicate SomeFits(ts: seq<Tile>, n: int) {
    exists k: nat :: Fits(ts, k, n)
  }

  /** A walk has come to node rp, behind node r. */
  ghost predicate At(m: map<int, Header>, ts: seq<Tile>, base: int, r: int, rp: int, prevp: int, p: int) {
    && IsNode(ts, r) && rp == After(ts, r)
    && prevp == Node(ts, base, r) && p == Node(ts, base, rp)
    && p in m && m[p] == Header(Node(ts, base, After(ts, rp)), if rp == -1 then 0 else ts[rp].size)
  }

  lemma AtAfter(m: map<int, Header>, ts: seq<Tile>, base: int, pos: int, top: int, r: int)
    requires Stored(m, ts, base, pos, top) && IsNode(ts, r)
    ensures IsNode(ts, After(ts, r)) && Node(ts, base, r) in m && m[Node(ts, base, r)].next == Node(ts, base, After(ts, r))
    ensures At(m, ts, base, r, After(ts, r), Node(ts, base, r), Node(ts, base, After(ts, r)))
  {
    AtNode(m, ts, base, pos, top, r);
    AtNode(m, ts, base, pos, top, After(ts, r));
  }

  /** The free tiles after node f and before node r, around the circle, are too small. */
  ghost predicate Passed(ts: seq<Tile>, f: int, r: int, n: int) {
    forall k :: 0 <= k < |ts| && (if r > f then f < k < r else k > f || k < r) ==> !Fits(ts, k, n)
  }

  /** How far node r is from node f, around the circle. */
  function Ahead(ts: seq<Tile>, f: int, r: int): int {
    if r > f then |ts| - r + f + 3 else f - r
  }

  lemma PassStart(ts: seq<Tile>, f: int, n: int)
    requires IsNode(ts, f)
    ensures Passed(ts, f, After(ts, f), n)
  {
  }

  /** The block at `addr` is the tail of the first free tile that fits, on the
      way from node f around the circle; the next search starts from the node f'
      before that tile. */
  ghost predicate Chosen(ts: seq<Tile>, f: int, n: int, addr: int, f': int) {
    exists k: nat ::
      && Fits(ts, k, n) && addr == ts[k].addr + ts[k].size - n
      && IsNode(ts, f') && After(ts, f') == k
      && forall j: nat | (if k > f then f < j < k else j > f || j < k) :: !Fits(ts, j, n)
  }

  lemma Choose(ts: seq<Tile>, f: int, r: int, k: nat, n: int)
    requires Fits(ts, k, n) && IsNode(ts, r) && After(ts, r) == k && Passed(ts, f, k, n)
    ensures Chosen(ts, f, n, Piece(ts, k, n).addr, r)
  {
    forall j: nat | (if k > f then f < j < k else j > f || j < k)
      ensures !Fits(ts, j, n)
    {
      if j < |ts| { assert !Fits(ts, j, n); }
    }
  }

  /** The free tile next in front of tile t is at this address; base if there is none. */
  ghost predicate FreeBefore(ts: seq<Tile>, base: int, t: Tile, a: int) {
    exists i: nat :: i < |ts| && ts[i] == t && BeforeAt(ts, base, i, a)
  }

  ghost predicate BeforeAt(ts: seq<Tile>, base: int, i: nat, a: int)
    requires i < |ts|
  {
    || (exists j: nat :: j < i && !ts[j].used && a == ts[j].addr && forall x :: j < x < i ==> ts[x].used)
    || (a == base && forall x :: 0 <= x < i ==> ts[x].used)
  }

  lemma PassStep(ts: seq<Tile>, f: int, r: int, n: int)
    requires IsNode(ts, f) && IsNode(ts, r) && Passed(ts, f, r, n) && r != f && (r >= 0 ==> ts[r].size < n)
    ensures Passed(ts, f, After(ts, r), n) && 0 <= Ahead(ts, f, After(ts, r)) < Ahead(ts, f, r)
  {
  }

  lemma PassAll(ts: seq<Tile>, f: int, n: int)
    requires IsNode(ts, f) && Passed(ts, f, f, n) && (f >= 0 ==> ts[f].size < n)
    ensures !SomeFits(ts, n)
  {
  }

  /** The new block is in the list, with its neighbour if that was free. */
  lemma GrownFits(ts: seq<Tile>, pos: int, n: int, k: int) returns (a: nat)
    requires Tiling(ts, pos) && 1 <= k <= n
    ensures Fits(GiveBack(Grow(ts, pos, n), pos + n, |ts|), a, k)
  {
    a := From(Grow(ts, pos, n), |ts|);
    if a < |ts| { Bounds(ts, pos, a); }
  }

  class Heap {
    const base: int
    const heapSize: int
    var mem: map<int, Header>
    var freep: Option<int>
    var poolFreePos: int
    var krnlFree: int
    ghost var ts: seq<Tile>
    ghost var fr: int         // the rank of freep

    ghost const top: int := heapSize / QUANTA

    /** The end of the pool in quantas. */
    ghost function Pos(): int
      reads `poolFreePos
    {
      poolFreePos / QUANTA
    }

    /** The list exists: some hf_malloc has set it up. */
    ghost predicate Listed()
      reads `mem, `freep, `poolFreePos, `ts, `fr
    {
      && 0 <= heapSize < U32 && poolFreePos % QUANTA == 0
      && Stored(mem, ts, base, Pos(), top) && NoPair(ts)
      && IsNode(ts, fr) && freep == Some(Node(ts, base, fr))
    }

    ghost predicate Valid()
      reads `mem, `freep, `poolFreePos, `ts, `fr
    {
      if freep.None? then
        && 0 <= heapSize < U32 && (base < 0 || base > top) && poolFreePos == 0 && ts == []
        && base in mem && forall a :: 0 <= a < top ==> a in mem
      else Listed()
    }

    /** heapinit: nothing in the heap is meaningful yet. */
    constructor (at: int, size: int, memory: map<int, Header>)
      requires 0 <= size < U32 && (at < 0 || at > size / QUANTA)
      requires at in memory && forall a :: 0 <= a < size / QUANTA ==> a in memory
      ensures Valid() && Live(ts) == {} && Pos() == 0 && krnlFree == size && heapSize == size
    {
      base, heapSize, mem, freep, poolFreePos, krnlFree := at, size, memory, None, 0, size;
      ts, fr := [], -1;
    }

    /** Lines 160-163: the free block, or base, after which block belongs. */
    method Search(block: int, ghost i: nat, ghost pos: int) returns (p: int)
      requires Stored(mem, ts, base, pos, top) && IsNode(ts, fr) && freep == Some(Node(ts, base, fr))
      requires i < |ts| && ts[i].used && ts[i].addr == block
      ensures p == Node(ts, base, Pred(ts, i))
    {
      hide Stored;
      ghost var r, t := fr, Pred(ts, i);
      StoredTiling(mem, ts, base, pos, top);
      AtNode(mem, ts, base, pos, top, r);
      p := freep.value;
      while !(block > p && block < mem[p].next)
        invariant IsNode(ts, r) && p == Node(ts, base, r) && p in mem && mem[p].next == Node(ts, base, After(ts, r))
        decreases if r <= t then t - r else |ts| - r + t + 2
      {
        BreakAt(ts, base, pos, top, i, r);
        if p >= mem[p].next && (block > p || block < mem[p].next) { break; }
        r := After(ts, r);
        p := mem[p].next;
        AtNode(mem, ts, base, pos, top, r);
      }
      BreakAt(ts, base, pos, top, i, r);
    }

    /** free2: block is tile i. */
    method Free2(block: int, ghost i: nat, ghost pos: int)
      requires Stored(mem, ts, base, pos, top) && NoPair(ts)
      requires IsNode(ts, fr) && freep == Some(Node(ts, base, fr))
      requires i < |ts| && ts[i].used && ts[i].addr == block
      modifies `mem, `freep, `ts, `fr
      ensures Stored(mem, ts, base, pos, top) && NoPair(ts)
      ensures IsNode(ts, fr) && freep == Some(Node(ts, base, fr))
      ensures ts == GiveBack(old(ts), pos, i) && fr == Pred(old(ts), i)
      ensures freep == Some(Node(old(ts), base, Pred(old(ts), i)))
      ensures forall t :: t in Live(old(ts)) ==> Untouched(old(mem), mem, t)
    {
      hide Stored, NoPair, Live, Untouched;
      var p := Search(block, i, pos);
      fr := Pred(ts, i);
      Join(block, p, i, pos);
      freep := Some(p);
    }

    /** Lines 165-177: the block is linked in behind p. */
    method Join(block: int, p: int, ghost i: nat, ghost pos: int)
      requires Stored(mem, ts, base, pos, top) && NoPair(ts)
      requires i < |ts| && ts[i].used && ts[i].addr == block && p == Node(ts, base, Pred(ts, i))
      modifies `mem, `ts
      ensures Stored(mem, ts, base, pos, top) && NoPair(ts)
      ensures ts == GiveBack(old(ts), pos, i)
      ensures IsNode(ts, Pred(old(ts), i)) && Node(ts, base, Pred(old(ts), i)) == p
      ensures forall t :: t in Live(old(ts)) ==> Untouched(old(mem), mem, t)
    {
      hide Stored, NoPair;
      ghost var m := mem;
      StoredTiling(mem, ts, base, pos, top);
      LinkedStored(mem, ts, base, pos, top, i);
      GiveBackNoPair(ts, pos, i);
      Neighbours(mem, ts, base, pos, top, i);
      forall t | t in Live(ts)
        ensures Untouched(m, Linked(m, ts, base, pos, i), t)
      {
        StartNotInside(ts, pos, i, t);
        NodeNotInside(ts, base, pos, top, Pred(ts, i), t);
      }
      var n := mem[p].next;
      if block + mem[block].size == n {
        mem := mem[block := Header(mem[n].next, mem[block].size + mem[n].size)];
      } else {
        mem := mem[block := mem[block].(next := n)];
      }
      if p + mem[p].size == block {
        mem := mem[p := Header(mem[block].next, mem[p].size + mem[block].size)];
      } else {
        mem := mem[p := mem[p].(next := block)];
      }
      assert mem == Linked(m, ts, base, pos, i);
      ts := GiveBack(ts, pos, i);
    }

    /** hf_free of the live block t. krnl_free is not adjusted. */
    method HfFree(ptr: int, ghost t: Tile)
      requires Valid() && t in Live(ts) && ptr == t.addr + 1
      modifies `mem, `freep, `ts, `fr
      ensures Valid() && Live(ts) == Live(old(ts)) - {t}
      ensures freep.Some? && FreeBefore(old(ts), base, t, freep.value)
      ensures forall u :: u in Live(old(ts)) ==> Untouched(old(mem), mem, u)
    {
      hide Stored;
      ghost var i: nat :| i < |ts| && ts[i] == t;
      StoredTiling(mem, ts, base, Pos(), top);
      GiveBackLive(ts, Pos(), i);
      assert BeforeAt(ts, base, i, Node(ts, base, Pred(ts, i)));
      Free2(ptr - 1, i, Pos());
    }

    /** morecore: at least MIN_POOL_ALLOC_QUANTAS more quantas, as a free block. */
    method Morecore(nquantas: int) returns (p: Option<int>)
      requires Listed() && nquantas >= 1 && QUANTA * (Pos() + Max(nquantas, MIN_POOL_ALLOC_QUANTAS)) < U32
      modifies `mem, `freep, `poolFreePos, `ts, `fr
      ensures Listed() && Live(ts) == Live(old(ts))
      ensures p.Some? <==> PoolHasRoom(old(Pos()), nquantas, heapSize)
      ensures p.None? ==> ts == old(ts) && fr == old(fr) && mem == old(mem) && Pos() == old(Pos())
      ensures p.Some? ==> p == freep && Pos() == old(Pos()) + Max(nquantas, MIN_POOL_ALLOC_QUANTAS)
      ensures p.Some? ==> SomeFits(ts, nquantas)
      ensures forall t :: t in Live(old(ts)) ==> Untouched(old(mem), mem, t)
    {
      hide Stored, NoPair, Live, Untouched, Fits;
      Unmoved(mem, Live(ts));
      ghost var was, pos, m := ts, Pos(), mem;
      StoredTiling(mem, ts, base, pos, top);
      var n := if nquantas < MIN_POOL_ALLOC_QUANTAS then MIN_POOL_ALLOC_QUANTAS else nquantas;
      var totalReqSize := n * QUANTA % U32;
      assert totalReqSize == n * QUANTA && poolFreePos == QUANTA * pos;
      if (poolFreePos + totalReqSize) % U32 <= heapSize {
        var h := poolFreePos / QUANTA;
        GrowStored(mem, ts, base, pos, top, n);
        GrowTiling(ts, pos, n);
        GrowUntouched(mem, ts, pos, n);
        mem := mem[h := mem[h].(size := n)];
        ts := Grow(ts, pos, n);
        ghost var m1 := mem;
        StoredTiling(mem, ts, base, pos + n, top);
        GiveBackLive(ts, pos + n, |was|);
        ghost var a := GrownFits(was, pos, n, nquantas);
        Free2(h, |was|, pos + n);
        UntouchedTrans(m, m1, mem, Live(was));
        LiveBack(was, pos, n);
        poolFreePos := poolFreePos + totalReqSize;
        return freep;
      } else {
        return None;
      }
    }

    /** Lines 225-235: n quantas of the free tile k, which follows node r, are handed out. */
    method HandOut(prevp: int, p0: int, n: int, ghost r: int, ghost k: nat) returns (p: int)
      requires Listed() && IsNode(ts, r) && After(ts, r) == k && Fits(ts, k, n) && n >= 1
      requires prevp == Node(ts, base, r) && p0 == ts[k].addr
      modifies `mem, `freep, `krnlFree, `ts, `fr
      ensures Listed() && Tile(p, n, true) == Piece(old(ts), k, n)
      ensures Live(ts) == Live(old(ts)) + {Tile(p, n, true)} && Tile(p, n, true) !in Live(old(ts))
      ensures krnlFree == (old(krnlFree) - n * QUANTA) % U32
      ensures fr == r && freep == Some(prevp)
      ensures forall t :: t in Live(old(ts)) ==> Untouched(old(mem), mem, t)
    {
      hide Stored, NoPair, Live;
      p := p0;
      ghost var m := mem;
      StoredTiling(mem, ts, base, Pos(), top);
      TileIn(mem, ts, base, Pos(), top, k);
      PredIs(ts, r, k);
      AllocNoPair(ts, k, n);
      AllocLive(ts, Pos(), k, n);
      AllocUntouched(mem, ts, base, Pos(), top, r, k, n);
      if mem[p].size == n {
        TakeStored(mem, ts, base, Pos(), top, r, k);
        mem := mem[prevp := mem[prevp].(next := mem[p].next)];
        ts := Take(ts, k);
        TileIn(mem, ts, base, Pos(), top, k);
      } else {
        CutStored(mem, ts, base, Pos(), top, r, k, n);
        mem := mem[p := mem[p].(size := mem[p].size - n)];
        p := p + mem[p].size;
        mem := mem[p := mem[p].(size := n)];
        ts := Cut(ts, k, n);
      }
      fr := r;
      freep := Some(prevp);
      krnlFree := (krnlFree - mem[p].size * QUANTA) % U32;
    }

    /** hf_malloc, for the requests that do not wrap around. The address is that
        of the payload, n - 1 quantas behind a header. */
    method HfMalloc(size: int) returns (ptr: Option<int>)
      requires Valid() && 0 <= size < U32 && NoWrap(Pos(), size)
      modifies `mem, `freep, `poolFreePos, `krnlFree, `ts, `fr
      ensures Valid()
      ensures var n := Needed(size);
        && (n - 2) * QUANTA < size <= (n - 1) * QUANTA
        && (ptr.None? <==> !PoolHasRoom(old(Pos()), n, heapSize) && !SomeFits(old(ts), n))
        && (ptr.None? ==> Live(ts) == Live(old(ts)) && Pos() == old(Pos()) && krnlFree == old(krnlFree))
        && (ptr.Some? ==>
              && Live(ts) == Live(old(ts)) + {Tile(ptr.value - 1, n, true)} && Tile(ptr.value - 1, n, true) !in Live(old(ts))
              && Pos() == old(Pos()) + (if SomeFits(old(ts), n) then 0 else Max(n, MIN_POOL_ALLOC_QUANTAS))
              && krnlFree == (old(krnlFree) - n * QUANTA) % U32)
        && (ptr.Some? && SomeFits(old(ts), n) ==> Chosen(old(ts), old(fr), n, ptr.value - 1, fr))
      ensures forall t :: t in Live(old(ts)) ==> Untouched(old(mem), mem, t)
    {
      hide Stored, NoPair, Live, Untouched, Fits, SomeFits, NoWrap;
      ghost var was, m := ts, mem;
      if freep.Some? { StoredTiling(mem, ts, base, Pos(), top); }
      SizeRight(Pos(), size, heapSize);
      var nquantas := Quantas(size);
      Unmoved(mem, Live(ts));
      if freep.None? {
        FirstList(mem, base, top);
        mem := mem[base := Header(base, 0)];
        freep := Some(base);
        fr := -1;
        EmptyLive(m, mem);
      }
      ghost var m1 := mem;
      ptr := FirstFit(nquantas);
      UntouchedTrans(m, m1, mem, Live(was));
    }

    /** Lines 223-245: the circle is searched from freep on, once, and once more
        after the pool has grown. */
    method FirstFit(nquantas: int) returns (ptr: Option<int>)
      requires Listed() && nquantas >= 1 && QUANTA * (Pos() + Max(nquantas, MIN_POOL_ALLOC_QUANTAS)) < U32
      modifies `mem, `freep, `poolFreePos, `krnlFree, `ts, `fr
      ensures Listed()
      ensures ptr.None? <==> !PoolHasRoom(old(Pos()), nquantas, heapSize) && !SomeFits(old(ts), nquantas)
      ensures ptr.None? ==> Live(ts) == Live(old(ts)) && Pos() == old(Pos()) && krnlFree == old(krnlFree)
      ensures ptr.Some? ==>
              && Live(ts) == Live(old(ts)) + {Tile(ptr.value - 1, nquantas, true)}
              && Tile(ptr.value - 1, nquantas, true) !in Live(old(ts))
              && Pos() == old(Pos()) + (if SomeFits(old(ts), nquantas) then 0 else Max(nquantas, MIN_POOL_ALLOC_QUANTAS))
              && krnlFree == (old(krnlFree) - nquantas * QUANTA) % U32
      ensures ptr.Some? && SomeFits(old(ts), nquantas) ==> Chosen(old(ts), old(fr), nquantas, ptr.value - 1, fr)
      ensures forall t :: t in Live(old(ts)) ==> Untouched(old(mem), mem, t)
    {
      hide Stored, NoPair, Live, Untouched, Fits, Passed, SomeFits, Node, After, Ahead, PoolHasRoom, Piece, Chosen;
      var prevp := freep.value;
      ghost var r, rp := fr, After(ts, fr);
      ghost var was, m, pos, grown := ts, mem, Pos(), false;
      Unmoved(mem, Live(ts));
      AtAfter(mem, ts, base, Pos(), top, fr);
      var p := mem[prevp].next;
      PassStart(ts, fr, nquantas);
      while true
        invariant Listed() && At(mem, ts, base, r, rp, prevp, p)
        invariant Passed(ts, fr, rp, nquantas) && krnlFree == old(krnlFree) && Live(ts) == Live(was)
        invariant if grown then Pos() == pos + Max(nquantas, MIN_POOL_ALLOC_QUANTAS) else ts == was && fr == old(fr) && Pos() == pos
        invariant grown ==> PoolHasRoom(pos, nquantas, heapSize) && SomeFits(ts, nquantas) && !SomeFits(was, nquantas)
        invariant forall t :: t in Live(was) ==> Untouched(m, mem, t)
        decreases !grown, Ahead(ts, fr, rp)
      {
        if mem[p].size >= nquantas {
          FitsAt(ts, base, rp, nquantas);
          ghost var m1 := mem;
          if ts == was { Choose(ts, fr, r, rp, nquantas); }
          p := HandOut(prevp, p, nquantas, r, rp);
          UntouchedTrans(m, m1, mem, Live(was));
          return Some(p + 1);
        }
        SameNode(mem, ts, base, Pos(), top, fr, rp);
        if freep == Some(p) {
          PassAll(ts, fr, nquantas);
          ghost var m1 := mem;
          var q := Morecore(nquantas);
          UntouchedTrans(m, m1, mem, Live(was));
          if q.None? { return None; }
          grown := true;
          r := fr;
          p := q.value;
          PassStart(ts, fr, nquantas);
        } else {
          PassStep(ts, fr, rp, nquantas);
          r := rp;
        }
        AtAfter(mem, ts, base, Pos(), top, r);
        prevp := p;
        p := mem[p].next;
        rp := After(ts, r);
      }
    }
  }

  lemma SizeRight(pos: int, size: int, heapSize: int)
    requires 0 <= size < U32 && NoWrap(pos, size) && pos >= 0
    ensures Quantas(size) == Needed(size) >= 1 && (Needed(size) - 2) * QUANTA < size <= (Needed(size) - 1) * QUANTA
    ensures QUANTA * (pos + Max(Needed(size), MIN_POOL_ALLOC_QUANTAS)) < U32
  {
  }

  lemma FirstList(m: map<int, Header>, base: int, top: int)
    requires base in m && (forall a :: 0 <= a < top ==> a in m) && (base < 0 || base > top) && top >= 0
    ensures Stored(m[base := Header(base, 0)], [], base, 0, top) && NoPair([])
  {
  }

  lemma EmptyLive(m: map<int, Header>, m': map<int, Header>)
    ensures forall t :: t in Live([]) ==> Untouched(m, m', t)
  {
  }

  lemma FitsAt(ts: seq<Tile>, base: int, r: int, n: int)
    requires IsNode(ts, r) && (if r == -1 then 0 else ts[r].size) >= n >= 1
    ensures r >= 0 && Fits(ts, r, n) && SomeFits(ts, n) && Node(ts, base, r) == ts[r].addr
  {
    assert r >= 0 && Fits(ts, r, n);
  }

  lemma SameNode(m: map<int, Header>, ts: seq<Tile>, base: int, pos: int, top: int, r: int, s: int)
    requires Stored(m, ts, base, pos, top) && IsNode(ts, r) && IsNode(ts, s)
    ensures Node(ts, base, r) == Node(ts, base, s) <==> r == s
  {
    if r != s { NodesDiffer(ts, base, pos, top, r, s); }
  }

  predicate Outside(t: Tile, a: int) {
    !(t.addr < a < t.addr + t.size)
  }

  lemma AllocUntouched(m: map<int, Header>, ts: seq<Tile>, base: int, pos: int, top: int, r: int, k: nat, n: int)
    requires Stored(m, ts, base, pos, top) && IsNode(ts, r) && Fits(ts, k, n) && n >= 1
    ensures forall t :: t in Live(ts) ==>
      Outside(t, Node(ts, base, r)) && Outside(t, ts[k].addr) && Outside(t, ts[k].addr + ts[k].size - n)
  {
    forall t | t in Live(ts)
      ensures Outside(t, Node(ts, base, r)) && Outside(t, ts[k].addr) && Outside(t, ts[k].addr + ts[k].size - n)
    {
      NodeNotInside(ts, base, pos, top, r, t);
      TilesDisjoint(ts, pos, t, ts[k]);
      Bounds(ts, pos, k);
    }
  }

  lemma Unmoved(m: map<int, Header>, live: set<Tile>)
    ensures forall t :: t in live ==> Untouched(m, m, t)
  {
  }

  lemma UntouchedTrans(m0: map<int, Header>, m1: map<int, Header>, m2: map<int, Header>, live: set<Tile>)
    requires forall t :: t in live ==> Untouched(m0, m1, t) && Untouched(m1, m2, t)
    ensures forall t :: t in live ==> Untouched(m0, m2, t)
  {
  }

  lemma GrowUntouched(m: map<int, Header>, ts: seq<Tile>, pos: int, n: int)
    requires Tiling(ts, pos) && pos in m
    ensures forall t :: t in Live(ts) ==> Untouched(m, m[pos := m[pos].(size := n)], t) && t in Live(Grow(ts, pos, n))
  {
    forall t | t in Live(ts)
      ensures Untouched(m, m[pos := m[pos].(size := n)], t) && t in Live(Grow(ts, pos, n))
    {
      StartNotInside(ts, pos, 0, t);
      var j :| 0 <= j < |ts| && ts[j] == t;
      assert Grow(ts, pos, n)[j] == t;
    }
  }

  lemma LiveBack(ts: seq<Tile>, pos: int, n: int)
    requires Live(Grow(ts, pos, n)) == Live(ts) + {Tile(pos, n, true)} && Tile(pos, n, true) !in Live(ts)
    ensures Live(Grow(ts, pos, n)) - {Grow(ts, pos, n)[|ts|]} == Live(ts)
  {
  }

  lemma StoredTiling(m: map<int, Header>, ts: seq<Tile>, base: int, pos: int, top: int)
    requires Stored(m, ts, base, pos, top)
    ensures Tiling(ts, pos) && 0 <= pos <= top && (base < 0 || base > top)
  {
  }

  lemma NextTo(ts: seq<Tile>, base: int, pos: int, top: int, i: nat)
    requires Tiling(ts, pos) && pos <= top && (base < 0 || base > top) && i < |ts| && ts[i].used && NoPair(ts)
    ensures var s, e := Succ(ts, i), ts[i].addr + ts[i].size;
      && Node(ts, base, s) != ts[i].addr && AddrAt(ts, pos, i + 1) == e
      && (e == Node(ts, base, s) <==> To(ts, i) == i + 2)
      && (To(ts, i) == i + 2 ==> s == i + 1 && AddrAt(ts, pos, i + 2) == e + ts[i + 1].size)
      && (To(ts, i) == i + 1 ==> s == Succ(ts, i + 1))
  {
    var s := Succ(ts, i);
    Bounds(ts, pos, i);
    if s < |ts| {
      Bounds(ts, pos, s);
      if s > i + 1 { Ordered(ts, pos, i + 1, s); Bounds(ts, pos, i + 1); }
    }
  }

  /** The test of line 165 finds a free neighbour, and nothing else, unless
      `base` lies right behind the pool and the block is the last one: then it
      would swallow `base`. */
  lemma MergeTestExact(ts: seq<Tile>, base: int, pos: int, i: nat)
    requires Tiling(ts, pos) && (base < 0 || base >= pos) && i < |ts| && ts[i].used && NoPair(ts)
    ensures (ts[i].addr + ts[i].size == Node(ts, base, Succ(ts, i)) <==> To(ts, i) == i + 2)
            <==> !(i == |ts| - 1 && base == pos)
  {
    var s := Succ(ts, i);
    Bounds(ts, pos, i);
    if s < |ts| {
      Bounds(ts, pos, s);
      if s > i + 1 { Ordered(ts, pos, i + 1, s); Bounds(ts, pos, i + 1); }
    } else if i + 1 < |ts| {
      Bounds(ts, pos, i + 1);
    }
  }

  lemma NextToPred(ts: seq<Tile>, base: int, pos: int, top: int, i: nat)
    requires Tiling(ts, pos) && pos <= top && (base < 0 || base > top) && i < |ts| && ts[i].used
    ensures var r := Pred(ts, i);
      && Node(ts, base, r) != ts[i].addr
      && (Node(ts, base, r) + (if r == -1 then 0 else ts[r].size) == ts[i].addr <==> From(ts, i) == i - 1)
      && Succ(ts, r + 1) == Succ(ts, i)
  {
    hide Pred, Succ;
    PredEnds(ts, base, pos, top, i);
    SuccIs(ts, Pred(ts, i) + 1, Succ(ts, i));
    hide Tiling, From;
  }

  lemma {:induction false} PredEnds(ts: seq<Tile>, base: int, pos: int, top: int, i: nat)
    requires Tiling(ts, pos) && pos <= top && (base < 0 || base > top) && i < |ts|
    ensures var r := Pred(ts, i);
      && Node(ts, base, r) != ts[i].addr
      && (Node(ts, base, r) + (if r == -1 then 0 else ts[r].size) == ts[i].addr <==> From(ts, i) == i - 1)
  {
    hide Pred, Tiling;
    var r := Pred(ts, i);
    Bounds(ts, pos, i);
    if r >= 0 {
      Bounds(ts, pos, r);
      if r < i - 1 { Ordered(ts, pos, r + 1, i); Bounds(ts, pos, r + 1); }
    }
  }

  /** What free2 finds around the block. */
  lemma Neighbours(m: map<int, Header>, ts: seq<Tile>, base: int, pos: int, top: int, i: nat)
    requires Stored(m, ts, base, pos, top) && i < |ts| && ts[i].used && NoPair(ts)
    ensures var r, s := Pred(ts, i), Succ(ts, i);
      var block, p, n := ts[i].addr, Node(ts, base, r), Node(ts, base, s);
      && block in m && p in m && n in m && p != block && n != block
      && m[p].next == n && m[block].size == ts[i].size
      && (block + m[block].size == n <==> To(ts, i) == i + 2)
      && (To(ts, i) == i + 2 ==> m[n] == Header(Node(ts, base, Succ(ts, i + 2)), ts[i + 1].size))
      && (To(ts, i) == i + 2 ==> AddrAt(ts, pos, i + 2) == block + ts[i].size + ts[i + 1].size)
      && (To(ts, i) == i + 1 ==> n == Node(ts, base, Succ(ts, i + 1)) && AddrAt(ts, pos, i + 1) == block + ts[i].size)
      && (p + m[p].size == block <==> From(ts, i) == i - 1)
  {
    var r, s := Pred(ts, i), Succ(ts, i);
    StoredTiling(m, ts, base, pos, top);
    NextTo(ts, base, pos, top, i);
    NextToPred(ts, base, pos, top, i);
    AtNode(m, ts, base, pos, top, r);
    TileIn(m, ts, base, pos, top, i);
    AtNode(m, ts, base, pos, top, if s == |ts| then -1 else s);
    hide Stored, Tiling, NoPair;
  }
}
