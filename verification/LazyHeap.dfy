/** The MEM_ALLOC 3 allocator (sys/lib/malloc.c:346-430): a list of blocks
    whose headers lie in the heap itself, first fit, coalesced on demand.

    Memory is an array indexed by byte address that holds the 32-bit word
    starting there: a block header at address a is the word `next` at a and the
    word `size` at a + 4, whose lowest bit says whether the block is in use. */
module LazyHeap {
  import opened Arithmetic

  const U32: int := 0x1_0000_0000
  const HEADER: int := 8

  /** A block as the list describes it: header address, payload bytes, in use. */
  datatype Block = Block(addr: int, size: int, used: bool)

  // ----- 32-bit sizes -----

  function Align4(x: int): int {
    (x + 3) % U32 / 4 * 4
  }

  /** The test of line 390, on 32 bits. */
  predicate FitTest(have: int, size: int) {
    have >= (Align4(size) + HEADER) % U32
  }

  const MAX_REQUEST: int := 0xffff_fff4

  /** The test is the intended one, that a payload of `size` bytes and the header
      of a remainder fit, for exactly the requests up to MAX_REQUEST; above that
      the rounding or the sum wraps around. */
  lemma FitTestExact(size: int)
    requires 0 <= size < U32
    ensures (forall have :: 0 <= have < U32 ==>
              (FitTest(have, size) <==> exists a :: a % 4 == 0 && size <= a < size + 4 && have >= a + HEADER))
            <==> size <= MAX_REQUEST
  {
    if size <= MAX_REQUEST {
      var a := Align4(size);
      assert a % 4 == 0 && size <= a < size + 4;
      forall have | 0 <= have < U32
        ensures FitTest(have, size) <==> exists a :: a % 4 == 0 && size <= a < size + 4 && have >= a + HEADER
      {
        if FitTest(have, size) {
          assert a % 4 == 0 && size <= a < size + 4 && have >= a + HEADER;
        }
      }
    } else {
      var have := 16;
      assert FitTest(have, size);
      assert !exists a :: a % 4 == 0 && size <= a < size + 4 && have >= a + HEADER;
    }
  }

  // ----- block lists -----

  /** The address after block k, or of the sentinel. */
  function AddrAt(bs: seq<Block>, top: int, k: nat): int {
    if k < |bs| then bs[k].addr else top
  }

  /** The blocks tile [base, top) exactly, and the last one is free. */
  ghost predicate Tiling(bs: seq<Block>, base: int, top: int) {
    && bs != [] && bs[0].addr == base && !bs[|bs| - 1].used
    && forall k :: 0 <= k < |bs| ==> Abuts(bs, top, k)
  }

  /** Block k reaches exactly to the next block, or to the sentinel. */
  ghost predicate Abuts(bs: seq<Block>, top: int, k: nat)
    requires k < |bs|
  {
    && bs[k].size >= 0 && bs[k].size % 4 == 0
    && AddrAt(bs, top, k + 1) == bs[k].addr + HEADER + bs[k].size
  }

  ghost function Live(bs: seq<Block>): set<Block> {
    set b | b in bs && b.used
  }

  function FreeBytes(bs: seq<Block>): int {
    if bs == [] then 0
    else FreeBytes(bs[..|bs| - 1]) + if bs[|bs| - 1].used then 0 else bs[|bs| - 1].size + HEADER
  }

  lemma {:induction false} Ordered(bs: seq<Block>, base: int, top: int, i: nat, j: nat)
    requires Tiling(bs, base, top) && i < j <= |bs|
    ensures bs[i].addr + HEADER + bs[i].size <= AddrAt(bs, top, j)
    decreases j
  {
    assert Abuts(bs, top, j - 1);
    if i + 1 < j {
      Ordered(bs, base, top, i, j - 1);
    }
  }

  lemma Bounds(bs: seq<Block>, base: int, top: int, i: nat)
    requires Tiling(bs, base, top) && i <= |bs|
    ensures base <= AddrAt(bs, top, i) <= top
    ensures i < |bs| ==> bs[i].addr + HEADER + bs[i].size <= top
  {
    assert Abuts(bs, top, 0);
    if i > 0 { Ordered(bs, base, top, 0, i); }
    if i < |bs| {
      Ordered(bs, base, top, i, |bs|);
      assert Abuts(bs, top, i);
    }
  }

  /** Two different blocks do not overlap. */
  lemma BlocksDisjoint(bs: seq<Block>, base: int, top: int, a: Block, b: Block)
    requires Tiling(bs, base, top) && a in bs && b in bs && a != b
    ensures a.addr + HEADER + a.size <= b.addr || b.addr + HEADER + b.size <= a.addr
    ensures base <= a.addr && a.addr + HEADER + a.size <= top
  {
    var i :| 0 <= i < |bs| && bs[i] == a;
    var j :| 0 <= j < |bs| && bs[j] == b;
    Bounds(bs, base, top, i);
    assert Abuts(bs, top, i) && Abuts(bs, top, j);
    if i < j { Ordered(bs, base, top, i, j); } else { Ordered(bs, base, top, j, i); }
  }

  lemma {:induction false} FreeBytesConcat(a: seq<Block>, b: seq<Block>)
    ensures FreeBytes(a + b) == FreeBytes(a) + FreeBytes(b)
  {
    if b == [] {
      assert a + b == a;
    } else {
      assert (a + b)[..|a + b| - 1] == a + b[..|b| - 1];
      FreeBytesConcat(a, b[..|b| - 1]);
    }
  }

  // ----- coalescing -----

  ghost predicate AllFree(bs: seq<Block>, i: nat, j: nat)
    requires i <= j <= |bs|
  {
    forall k :: i <= k < j ==> !bs[k].used
  }

  /** The run of blocks i..j becomes one free block. */
  function Merge(bs: seq<Block>, top: int, i: nat, j: nat): seq<Block>
    requires i < j <= |bs|
  {
    bs[..i] + [Block(bs[i].addr, AddrAt(bs, top, j) - bs[i].addr - HEADER, false)] + bs[j..]
  }

  lemma {:induction false} RunBytes(bs: seq<Block>, base: int, top: int, i: nat, j: nat)
    requires Tiling(bs, base, top) && i <= j <= |bs| && AllFree(bs, i, j)
    ensures FreeBytes(bs[i..j]) == AddrAt(bs, top, j) - AddrAt(bs, top, i)
    ensures (AddrAt(bs, top, j) - AddrAt(bs, top, i)) % 4 == 0
    decreases j
  {
    hide Tiling, FreeBytes;
    if i < j {
      RunBytes(bs, base, top, i, j - 1);
      assert bs[i..j] == bs[i..j - 1] + [bs[j - 1]];
      FreeBytesConcat(bs[i..j - 1], [bs[j - 1]]);
      OneBlock(bs[j - 1]);
      AbutsAt(bs, base, top, j - 1);
    } else {
      NoBytes(bs[i..j]);
    }
  }

  lemma NoBytes(bs: seq<Block>)
    requires bs == []
    ensures FreeBytes(bs) == 0
  {
  }

  lemma AbutsAt(bs: seq<Block>, base: int, top: int, k: nat)
    requires Tiling(bs, base, top) && k < |bs|
    ensures bs[k].size >= 0 && bs[k].size % 4 == 0
    ensures AddrAt(bs, top, k) == bs[k].addr && AddrAt(bs, top, k + 1) == bs[k].addr + HEADER + bs[k].size
  {
    assert Abuts(bs, top, k);
  }

  /** Coalescing keeps the tiling, the live blocks and the free byte count. */
  lemma MergeKeeps(bs: seq<Block>, base: int, top: int, i: nat, j: nat)
    requires Tiling(bs, base, top) && i < j <= |bs| && AllFree(bs, i, j)
    ensures var m := Merge(bs, top, i, j);
            Tiling(m, base, top) && Live(m) == Live(bs) && FreeBytes(m) == FreeBytes(bs)
  {
    hide Tiling, FreeBytes, Live, AllFree;
    MergeTiling(bs, base, top, i, j);
    MergeLive(bs, top, i, j);
    RunBytes(bs, base, top, i, j);
    MergeBytes(bs, top, i, j);
  }

  lemma MergeBytes(bs: seq<Block>, top: int, i: nat, j: nat)
    requires i < j <= |bs| && FreeBytes(bs[i..j]) == AddrAt(bs, top, j) - bs[i].addr
    ensures FreeBytes(Merge(bs, top, i, j)) == FreeBytes(bs)
  {
    hide FreeBytes;
    var l, r := bs[..i], bs[j..];
    var one := Merge(bs, top, i, j)[i];
    assert bs == (l + bs[i..j]) + r && Merge(bs, top, i, j) == (l + [one]) + r;
    FreeBytesConcat(l + bs[i..j], r);
    FreeBytesConcat(l, bs[i..j]);
    FreeBytesConcat(l + [one], r);
    FreeBytesConcat(l, [one]);
    OneBlock(one);
  }

  lemma MergeLive(bs: seq<Block>, top: int, i: nat, j: nat)
    requires i < j <= |bs| && AllFree(bs, i, j)
    ensures Live(Merge(bs, top, i, j)) == Live(bs)
  {
    var m := Merge(bs, top, i, j);
    forall b
      ensures b in Live(m) <==> b in Live(bs)
    {
      if b in bs && b.used {
        var k :| 0 <= k < |bs| && bs[k] == b;
        assert b == if k < i then m[k] else m[k - j + i + 1];
      }
    }
  }

  lemma MergeTiling(bs: seq<Block>, base: int, top: int, i: nat, j: nat)
    requires Tiling(bs, base, top) && i < j <= |bs| && AllFree(bs, i, j)
    ensures Tiling(Merge(bs, top, i, j), base, top)
  {
    var m := Merge(bs, top, i, j);
    Ordered(bs, base, top, i, j);
    RunBytes(bs, base, top, i, j);
    assert Abuts(bs, top, i);
    forall k | 0 <= k < |m|
      ensures Abuts(m, top, k)
    {
      if k < i {
        assert Abuts(bs, top, k);
      } else if k > i {
        assert Abuts(bs, top, k - i - 1 + j);
      }
    }
  }

  // ----- allocation -----

  /** The free block i is cut into a used one and a free remainder. */
  function Split(bs: seq<Block>, i: nat, size: int): seq<Block>
    requires i < |bs|
  {
    bs[..i] + [Block(bs[i].addr, size, true),
               Block(bs[i].addr + HEADER + size, bs[i].size - size - HEADER, false)] + bs[i + 1..]
  }

  lemma SplitTiling(bs: seq<Block>, base: int, top: int, i: nat, size: int)
    requires Tiling(bs, base, top) && i < |bs| && !bs[i].used
    requires 0 <= size && size % 4 == 0 && bs[i].size >= size + HEADER
    ensures Tiling(Split(bs, i, size), base, top)
  {
    hide Abuts;
    var m := Split(bs, i, size);
    forall k | 0 <= k < |m|
      ensures Abuts(m, top, k)
    {
      SplitAbuts(bs, base, top, i, size, k);
    }
  }

  lemma SplitAbuts(bs: seq<Block>, base: int, top: int, i: nat, size: int, k: nat)
    requires Tiling(bs, base, top) && i < |bs| && !bs[i].used && k <= |bs|
    requires 0 <= size && size % 4 == 0 && bs[i].size >= size + HEADER
    ensures Abuts(Split(bs, i, size), top, k)
  {
    hide Tiling;
    var m := Split(bs, i, size);
    if k < i {
      AbutsAt(bs, base, top, k);
    } else if k >= i + 2 {
      AbutsAt(bs, base, top, k - 1);
    } else {
      AbutsAt(bs, base, top, i);
      assert (bs[i].size - size - HEADER) % 4 == 0;
    }
  }

  lemma SplitLive(bs: seq<Block>, base: int, top: int, i: nat, size: int)
    requires Tiling(bs, base, top) && i < |bs| && !bs[i].used
    requires 0 <= size && size % 4 == 0 && bs[i].size >= size + HEADER
    ensures Live(Split(bs, i, size)) == Live(bs) + {Block(bs[i].addr, size, true)}
    ensures Block(bs[i].addr, size, true) !in Live(bs)
  {
    var m := Split(bs, i, size);
    forall b
      ensures b in Live(m) <==> b in Live(bs) || b == m[i]
    {
      if b in bs && b.used {
        var k :| 0 <= k < |bs| && bs[k] == b;
        assert b == if k < i then m[k] else m[k + 1];
      }
    }
    if m[i] in bs {
      BlocksDisjoint(bs, base, top, m[i], bs[i]);
    }
  }

  lemma SplitKeeps(bs: seq<Block>, base: int, top: int, i: nat, size: int)
    requires Tiling(bs, base, top) && i < |bs| && !bs[i].used
    requires 0 <= size && size % 4 == 0 && bs[i].size >= size + HEADER
    ensures var m := Split(bs, i, size);
            && Tiling(m, base, top)
            && Live(m) == Live(bs) + {Block(bs[i].addr, size, true)}
            && Block(bs[i].addr, size, true) !in Live(bs)
            && FreeBytes(m) == FreeBytes(bs) - size - HEADER
  {
    hide Tiling, Live, FreeBytes;
    SplitTiling(bs, base, top, i, size);
    SplitLive(bs, base, top, i, size);
    SplitBytes(bs, i, size);
  }

  lemma SplitBytes(bs: seq<Block>, i: nat, size: int)
    requires i < |bs| && !bs[i].used
    ensures FreeBytes(Split(bs, i, size)) == FreeBytes(bs) - size - HEADER
  {
    var m := Split(bs, i, size);
    var l, r := bs[..i], bs[i + 1..];
    assert bs == (l + [bs[i]]) + r && m == ((l + [m[i]]) + [m[i + 1]]) + r;
    FreeBytesConcat(l + [bs[i]], r);
    FreeBytesConcat((l + [m[i]]) + [m[i + 1]], r);
    FreeBytesConcat(l, [bs[i]]);
    FreeBytesConcat(l + [m[i]], [m[i + 1]]);
    FreeBytesConcat(l, [m[i]]);
    OneBlock(bs[i]);
    OneBlock(m[i]);
    OneBlock(m[i + 1]);
  }

  lemma OneBlock(b: Block)
    ensures FreeBytes([b]) == if b.used then 0 else b.size + HEADER
  {
    assert [b][..0] == [];
  }

  /** The used block i is given back. */
  function Release(bs: seq<Block>, i: nat): seq<Block>
    requires i < |bs|
  {
    bs[i := bs[i].(used := false)]
  }

  lemma ReleaseLive(bs: seq<Block>, base: int, top: int, i: nat)
    requires Tiling(bs, base, top) && i < |bs| && bs[i].used
    ensures Tiling(Release(bs, i), base, top)
    ensures Live(Release(bs, i)) == Live(bs) - {bs[i]}
  {
    var m := Release(bs, i);
    forall k | 0 <= k < |m|
      ensures Abuts(m, top, k)
    {
      assert Abuts(bs, top, k);
    }
    forall b
      ensures b in Live(m) <==> b in Live(bs) && b != bs[i]
    {
      if b in bs && b.used && b != bs[i] {
        var k :| 0 <= k < |bs| && bs[k] == b;
        assert b == m[k];
      }
      if b in m && b.used {
        var k :| 0 <= k < |m| && m[k] == b;
        assert k != i && bs[k] == b;
        assert Abuts(bs, top, k) && Abuts(bs, top, i);
        if k < i { Ordered(bs, base, top, k, i); } else { Ordered(bs, base, top, i, k); }
      }
    }
  }

  lemma ReleaseKeeps(bs: seq<Block>, base: int, top: int, i: nat)
    requires Tiling(bs, base, top) && i < |bs| && bs[i].used
    ensures var m := Release(bs, i);
            && Tiling(m, base, top)
            && Live(m) == Live(bs) - {bs[i]}
            && FreeBytes(m) == FreeBytes(bs) + bs[i].size + HEADER
  {
    hide Tiling, Live, FreeBytes;
    ReleaseLive(bs, base, top, i);
    var m := Release(bs, i);
    var l, r := bs[..i], bs[i + 1..];
    assert bs == (l + [bs[i]]) + r && m == (l + [m[i]]) + r;
    FreeBytesConcat(l + [bs[i]], r);
    FreeBytesConcat(l + [m[i]], r);
    FreeBytesConcat(l, [bs[i]]);
    FreeBytesConcat(l, [m[i]]);
    OneBlock(bs[i]);
    OneBlock(m[i]);
  }

  /** A run of free blocks from which a request can be served. */
  ghost predicate Fits(bs: seq<Block>, top: int, i: nat, j: nat, size: int) {
    i < j <= |bs| && AllFree(bs, i, j) && AddrAt(bs, top, j) - bs[i].addr - HEADER >= size + HEADER
  }

  lemma {:induction false} FreeBytesBounds(bs: seq<Block>, base: int, top: int, k: nat)
    requires Tiling(bs, base, top) && k <= |bs|
    ensures 0 <= FreeBytes(bs[..k]) <= AddrAt(bs, top, k) - base
    ensures k == |bs| ==> FreeBytes(bs[..k]) >= HEADER
  {
    if k > 0 {
      FreeBytesBounds(bs, base, top, k - 1);
      assert bs[..k][..k - 1] == bs[..k - 1];
      assert Abuts(bs, top, k - 1);
    }
  }

  /** Bytes taken by live blocks, headers included. */
  function UsedBytes(bs: seq<Block>): int {
    if bs == [] then 0
    else UsedBytes(bs[..|bs| - 1]) + if bs[|bs| - 1].used then bs[|bs| - 1].size + HEADER else 0
  }

  /** No byte leaks: what is free and what is in use make up the heap, whatever
      the sequence of operations that led to the list. */
  lemma {:induction false} Conservation(bs: seq<Block>, base: int, top: int, k: nat)
    requires Tiling(bs, base, top) && k <= |bs|
    ensures FreeBytes(bs[..k]) + UsedBytes(bs[..k]) == AddrAt(bs, top, k) - base
  {
    if k > 0 {
      Conservation(bs, base, top, k - 1);
      assert bs[..k][..k - 1] == bs[..k - 1];
      AbutsAt(bs, base, top, k - 1);
    }
  }

  /** A run of free blocks is inside any stretch of blocks that it meets and
      that is bounded by blocks in use. */
  lemma RunInside(bs: seq<Block>, base: int, top: int, lo: nat, i: nat, j: nat, q: nat, r: nat, size: int)
    requires Tiling(bs, base, top) && lo <= q < r <= |bs| && AllFree(bs, q, r)
    requires forall k :: lo <= k < q ==> bs[k].used
    requires !Fits(bs, top, q, r, size)
    requires lo <= i < j <= r
    ensures !Fits(bs, top, i, j, size)
  {
    if i < q {
      assert bs[i].used;
    } else {
      assert Abuts(bs, top, q);
      if q < i { Ordered(bs, base, top, q, i); }
      if j < r {
        Ordered(bs, base, top, j, r);
        assert Abuts(bs, top, j);
      }
    }
  }

  // ----- the list in memory -----

  /** The header of block k in memory, and where it lies. A free block's `size`
      word says that it is free and nothing else. */
  ghost predicate Header(m: seq<int>, bs: seq<Block>, base: int, top: int, k: nat)
    requires k < |bs|
  {
    && 0 < base <= bs[k].addr && bs[k].addr + HEADER <= top && top + HEADER <= |m|
    && m[bs[k].addr] == AddrAt(bs, top, k + 1)
    && (if bs[k].used then m[bs[k].addr + 4] == bs[k].size + 1 else m[bs[k].addr + 4] % 2 == 0)
  }

  ghost predicate Stored(m: seq<int>, bs: seq<Block>, base: int, top: int) {
    && 0 < base < top && top + HEADER <= |m| < U32
    && Tiling(bs, base, top)
    && (forall k :: 0 <= k < |bs| ==> Header(m, bs, base, top, k))
    && m[top] == 0 && m[top + 4] == 0
  }

  /** The bytes of b's payload are the same in both memories. */
  ghost predicate Untouched(m: seq<int>, m': seq<int>, b: Block) {
    |m'| == |m| && forall a :: b.addr + HEADER <= a < b.addr + HEADER + b.size && 0 <= a < |m| ==> m'[a] == m[a]
  }

  /** What a walk over the list sees at block k. */
  lemma Walk(m: seq<int>, bs: seq<Block>, base: int, top: int, k: nat)
    requires Stored(m, bs, base, top) && k < |bs|
    ensures base <= bs[k].addr && bs[k].addr + HEADER <= top
    ensures m[bs[k].addr] == AddrAt(bs, top, k + 1) && m[bs[k].addr] != 0
    ensures m[bs[k].addr + 4] % 2 == 1 <==> bs[k].used
    ensures bs[k].used ==> k + 1 < |bs| && m[bs[k].addr + 4] == bs[k].size + 1 && bs[k].size % 4 == 0
  {
    assert Header(m, bs, base, top, k) && Abuts(bs, top, k);
    Bounds(bs, base, top, k + 1);
  }

  /** Block k lies apart from block i. */
  lemma Apart(bs: seq<Block>, base: int, top: int, k: nat, i: nat)
    requires Tiling(bs, base, top) && i < |bs| && k < |bs| && k != i
    ensures bs[k].addr + HEADER + bs[k].size <= bs[i].addr || bs[i].addr + HEADER + bs[i].size <= bs[k].addr
    ensures bs[k].size >= 0 && bs[i].size >= 0
  {
    assert Abuts(bs, top, k) && Abuts(bs, top, i);
    if k < i { Ordered(bs, base, top, k, i); } else { Ordered(bs, base, top, i, k); }
  }

  /** A header survives writes that stay clear of it. */
  lemma HeaderKept(m: seq<int>, m': seq<int>, bs: seq<Block>, bs': seq<Block>, base: int, top: int, k: nat, k': nat)
    requires k < |bs| && k' < |bs'| && Header(m, bs, base, top, k) && |m'| == |m|
    requires bs'[k'] == bs[k] && AddrAt(bs', top, k' + 1) == AddrAt(bs, top, k + 1)
    requires m'[bs[k].addr] == m[bs[k].addr] && m'[bs[k].addr + 4] == m[bs[k].addr + 4]
    ensures Header(m', bs', base, top, k')
  {
  }

  lemma MergeHeader(m: seq<int>, bs: seq<Block>, base: int, top: int, i: nat, j: nat, k: nat)
    requires Stored(m, bs, base, top) && i < j <= |bs| && AllFree(bs, i, j) && k < |Merge(bs, top, i, j)|
    requires base <= bs[i].addr && bs[i].addr + HEADER <= AddrAt(bs, top, j) <= top
    requires (AddrAt(bs, top, j) - bs[i].addr) % 4 == 0
    ensures var q, p := bs[i].addr, AddrAt(bs, top, j);
            Header(m[q + 4 := p - q - HEADER][q := p], Merge(bs, top, i, j), base, top, k)
  {
    hide Tiling;
    var q, p := bs[i].addr, AddrAt(bs, top, j);
    var bs' := Merge(bs, top, i, j);
    var m' := m[q + 4 := p - q - HEADER][q := p];
    if k != i {
      var k' := if k < i then k else k - i - 1 + j;
      Apart(bs, base, top, k', i);
      assert bs'[k] == bs[k'] && AddrAt(bs', top, k + 1) == AddrAt(bs, top, k' + 1);
      HeaderKept(m, m', bs, bs', base, top, k', k);
    } else {
      assert Header(m, bs, base, top, i);
      assert AddrAt(bs', top, k + 1) == p;
    }
  }

  /** Writing the header of the merged block stores the merged list. */
  lemma MergeStored(m: seq<int>, bs: seq<Block>, base: int, top: int, i: nat, j: nat)
    requires Stored(m, bs, base, top) && i < j <= |bs| && AllFree(bs, i, j)
    ensures var q, p := bs[i].addr, AddrAt(bs, top, j);
            && base <= q && q + HEADER <= p <= top && (p - q - HEADER) % U32 == p - q - HEADER
            && Stored(m[q + 4 := p - q - HEADER][q := p], Merge(bs, top, i, j), base, top)
            && forall b :: b in Live(bs) ==> Untouched(m, m[q + 4 := p - q - HEADER][q := p], b)
  {
    hide Tiling, Header, AllFree, Merge, FreeBytes;
    var q, p := bs[i].addr, AddrAt(bs, top, j);
    var bs' := Merge(bs, top, i, j);
    Walk(m, bs, base, top, i);
    Bounds(bs, base, top, j);
    Ordered(bs, base, top, i, j);
    RunBytes(bs, base, top, i, j);
    MergeTiling(bs, base, top, i, j);
    AbutsAt(bs, base, top, i);
    var m' := m[q + 4 := p - q - HEADER][q := p];
    forall k | 0 <= k < |bs'|
      ensures Header(m', bs', base, top, k)
    {
      MergeHeader(m, bs, base, top, i, j, k);
    }
    forall b | b in Live(bs)
      ensures Untouched(m, m', b)
    {
      FreeIsNot(bs, i, j, b);
      BlocksDisjoint(bs, base, top, b, bs[i]);
    }
  }

  lemma FreeIsNot(bs: seq<Block>, i: nat, j: nat, b: Block)
    requires i < j <= |bs| && AllFree(bs, i, j) && b.used
    ensures b != bs[i]
  {
  }

  /** Writing the two headers of a split stores the split list. */
  lemma SplitStored(m: seq<int>, bs: seq<Block>, base: int, top: int, i: nat, size: int, stale: int)
    requires Stored(m, bs, base, top) && i < |bs| && !bs[i].used
    requires 0 <= size && size % 4 == 0 && bs[i].size >= size + HEADER && stale % 2 == 0
    ensures var p := bs[i].addr; var rest := p + size + HEADER;
            && base <= p && rest + HEADER <= top && rest % U32 == rest
            && m[p] == AddrAt(bs, top, i + 1)
            && var m' := m[p := rest][p + 4 := size + 1][rest := m[p]][rest + 4 := stale];
               && Stored(m', Split(bs, i, size), base, top)
               && forall b :: b in Live(bs) ==> Untouched(m, m', b)
  {
    hide Tiling, Header, Split, FreeBytes;
    var p := bs[i].addr;
    var rest := p + size + HEADER;
    var bs' := Split(bs, i, size);
    Walk(m, bs, base, top, i);
    Bounds(bs, base, top, i);
    SplitTiling(bs, base, top, i, size);
    AbutsAt(bs, base, top, i);
    var m' := m[p := rest][p + 4 := size + 1][rest := m[p]][rest + 4 := stale];
    forall k | 0 <= k < |bs'|
      ensures Header(m', bs', base, top, k)
    {
      SplitHeader(m, bs, base, top, i, size, stale, k);
    }
    forall b | b in Live(bs)
      ensures Untouched(m, m', b)
    {
      BlocksDisjoint(bs, base, top, b, bs[i]);
    }
  }

  lemma SplitHeader(m: seq<int>, bs: seq<Block>, base: int, top: int, i: nat, size: int, stale: int, k: nat)
    requires Stored(m, bs, base, top) && i < |bs| && k < |Split(bs, i, size)|
    requires 0 <= size && size % 4 == 0 && bs[i].size >= size + HEADER && stale % 2 == 0
    requires base <= bs[i].addr && bs[i].addr + HEADER + bs[i].size <= top
    ensures var p := bs[i].addr; var rest := p + size + HEADER;
            var m' := m[p := rest][p + 4 := size + 1][rest := m[p]][rest + 4 := stale];
            Header(m', Split(bs, i, size), base, top, k)
  {
    hide Tiling;
    var p := bs[i].addr;
    var rest := p + size + HEADER;
    var bs' := Split(bs, i, size);
    var m' := m[p := rest][p + 4 := size + 1][rest := m[p]][rest + 4 := stale];
    if k < i || k >= i + 2 {
      var k' := if k < i then k else k - 1;
      Apart(bs, base, top, k', i);
      assert bs'[k] == bs[k'] && AddrAt(bs', top, k + 1) == AddrAt(bs, top, k' + 1);
      HeaderKept(m, m', bs, bs', base, top, k', k);
    } else {
      assert Header(m, bs, base, top, i);
      assert k == i + 1 ==> AddrAt(bs', top, k + 1) == AddrAt(bs, top, i + 1);
    }
  }

  /** Clearing the lowest bit of the size word releases the block. */
  lemma ReleaseHeader(m: seq<int>, bs: seq<Block>, base: int, top: int, i: nat, k: nat)
    requires Stored(m, bs, base, top) && i < |bs| && bs[i].used && k < |bs|
    requires bs[i].size % 2 == 0
    ensures 0 <= bs[i].addr && bs[i].addr + HEADER <= |m|
    ensures Header(m[bs[i].addr + 4 := bs[i].size], Release(bs, i), base, top, k)
  {
    hide Tiling;
    assert Header(m, bs, base, top, k) && Header(m, bs, base, top, i);
    var bs' := Release(bs, i);
    var m' := m[bs[i].addr + 4 := bs[i].size];
    assert AddrAt(bs', top, k + 1) == AddrAt(bs, top, k + 1);
    if k != i {
      Apart(bs, base, top, k, i);
      HeaderKept(m, m', bs, bs', base, top, k, k);
    }
  }

  lemma ReleaseStored(m: seq<int>, bs: seq<Block>, base: int, top: int, i: nat)
    requires Stored(m, bs, base, top) && i < |bs| && bs[i].used
    ensures var p := bs[i].addr;
            && base <= p && p + HEADER <= top && m[p + 4] - m[p + 4] % 2 == bs[i].size
            && var m' := m[p + 4 := bs[i].size];
               && Stored(m', Release(bs, i), base, top)
               && forall b :: b in Live(bs) ==> Untouched(m, m', b)
  {
    hide Tiling, Header, Release, FreeBytes;
    var p := bs[i].addr;
    var bs' := Release(bs, i);
    Walk(m, bs, base, top, i);
    ReleaseLive(bs, base, top, i);
    AbutsAt(bs, base, top, i);
    var m' := m[p + 4 := bs[i].size];
    ReleaseSize(bs, i);
    forall k | 0 <= k < |bs'|
      ensures Header(m', bs', base, top, k)
    {
      ReleaseHeader(m, bs, base, top, i, k);
    }
    forall b | b in Live(bs)
      ensures Untouched(m, m', b)
    {
      if b != bs[i] {
        BlocksDisjoint(bs, base, top, b, bs[i]);
      }
    }
  }

  lemma ReleaseSize(bs: seq<Block>, i: nat)
    requires i < |bs|
    ensures |Release(bs, i)| == |bs|
  {
  }

  /** What line 406 stores in the remainder, whatever the request. */
  const STALE: int := U32 - HEADER

  lemma StaleSize(size: int)
    requires size >= 0 && size % 4 == 0
    ensures (size + 1 - (size + 1) % 2 - size - HEADER) % U32 == STALE
  {
    var k := size / 4;
    assert (size + 1) % 2 == 1 by {
      DivUnique(size + 1, 2, 2 * k);
    }
    DivUnique(-HEADER, U32, -1);
  }

  lemma InitialStored(m: seq<int>, heap: int, top: int)
    requires 0 < heap && heap + HEADER <= top && (top - heap) % 4 == 0 && top + HEADER <= |m| < U32
    requires m[heap] == top && m[heap + 4] == top - heap - HEADER && m[top] == 0 && m[top + 4] == 0
    ensures Stored(m, [Block(heap, top - heap - HEADER, false)], heap, top)
  {
    var size := top - heap - HEADER;
    AlignedLength(top - heap);
    var bs := [Block(heap, size, false)];
    assert AddrAt(bs, top, 1) == top;
    assert Abuts(bs, top, 0);
    assert Header(m, bs, heap, top, 0);
  }

  lemma AlignedLength(len: int)
    requires len % 4 == 0
    ensures (len - HEADER) % 4 == 0 && (len - HEADER) % 2 == 0
  {
    var k := len / 4;
    DivUnique(len - HEADER, 4, k - 2);
    DivUnique(len - HEADER, 2, 2 * k - 4);
  }

  // ----- the sweep of hf_malloc -----

  /** The sweep of the list `was` from position `start` has reached old position
      oi, which is position pi of the coalesced list `bs`; no run before it can
      serve the request, and what lies ahead is as it was. */
  ghost predicate Swept(was: seq<Block>, bs: seq<Block>, base: int, top: int, start: nat, size: int, pi: nat, oi: nat) {
    && Tiling(was, base, top) && Tiling(bs, base, top)
    && start <= pi <= |bs| && start <= oi <= |was| && start < |bs| && start < |was|
    && bs[pi..] == was[oi..]
    && bs[start].addr == was[start].addr && (start == 0 || bs[start].used)
    && (oi == start || oi == |was| || was[oi].used)
    && Live(bs) == Live(was) && FreeBytes(bs) == FreeBytes(was)
    && (forall i, j :: start <= i < j <= oi ==> !Fits(was, top, i, j, size))
  }

  lemma SweepStart(bs: seq<Block>, base: int, top: int, start: nat, size: int)
    requires Tiling(bs, base, top) && start < |bs| && (start == 0 || bs[start].used)
    ensures Swept(bs, bs, base, top, start, size, start, start)
  {
  }

  /** The next run found by the sweep, in terms of the old list. */
  lemma SweepRun(was: seq<Block>, bs: seq<Block>, base: int, top: int, start: nat, size: int, pi: nat, oi: nat, i: nat, j: nat)
    returns (oi': nat, oj': nat)
    requires Swept(was, bs, base, top, start, size, pi, oi)
    requires pi <= i < j <= |bs| && AllFree(bs, i, j) && forall k :: pi <= k < i ==> bs[k].used
    requires j < |bs| ==> bs[j].used
    ensures oi <= oi' < oj' <= |was| && AllFree(was, oi', oj')
    ensures forall k :: oi <= k < oi' ==> was[k].used
    ensures was[oi'].addr == bs[i].addr && AddrAt(was, top, oj') == AddrAt(bs, top, j)
    ensures oj' < |was| ==> was[oj'].used
    ensures bs[j..] == was[oj'..] && (start == 0 || start < i)
  {
    hide Tiling, Fits, Live, FreeBytes;
    var d := oi - pi;
    oi', oj' := i + d, j + d;
    assert forall k :: pi <= k < |bs| ==> bs[k] == bs[pi..][k - pi] == was[oi..][k - pi] == was[k + d];
    assert bs[j..] == bs[pi..][j - pi..] && was[oj'..] == was[oi..][j - pi..];
  }

  /** A run too small for the request is coalesced and passed. */
  lemma SweepNext(was: seq<Block>, bs: seq<Block>, base: int, top: int, start: nat, size: int, pi: nat, oi: nat, i: nat, j: nat)
    returns (oj: nat)
    requires Swept(was, bs, base, top, start, size, pi, oi)
    requires pi <= i < j <= |bs| && AllFree(bs, i, j) && forall k :: pi <= k < i ==> bs[k].used
    requires j < |bs| ==> bs[j].used
    requires AddrAt(bs, top, j) - bs[i].addr - HEADER < size + HEADER
    ensures oi < oj && Swept(was, Merge(bs, top, i, j), base, top, start, size, i + 1, oj)
    ensures i + 1 < |Merge(bs, top, i, j)| ==> Merge(bs, top, i, j)[i + 1].used
    ensures AddrAt(Merge(bs, top, i, j), top, i + 1) == AddrAt(bs, top, j)
  {
    var oi', oj' := SweepRun(was, bs, base, top, start, size, pi, oi, i, j);
    MergeKeeps(bs, base, top, i, j);
    var m := Merge(bs, top, i, j);
    assert m[i + 1..] == bs[j..];
    forall a, b | start <= a < b <= oj'
      ensures !Fits(was, top, a, b, size)
    {
      if b > oi {
        if a >= oi {
          RunInside(was, base, top, oi, a, b, oi', oj', size);
        } else {
          assert was[oi].used;
        }
      }
    }
    oj := oj';
  }

  lemma NoneLive(b: Block)
    requires !b.used
    ensures Live([b]) == {}
  {
  }

  class Heap {
    const mem: array<int>
    const base: int
    const top: int
    const firstFree: int
    var lastFree: int
    var krnlFree: int
    ghost var bs: seq<Block>
    ghost var start: nat      // position of lastFree in the list

    ghost predicate Valid()
      reads this, mem
    {
      && Stored(mem[..], bs, base, top)
      && start < |bs| && bs[start].addr == lastFree && (start == 0 || bs[start].used)
      && firstFree == base
      && krnlFree == FreeBytes(bs) - HEADER
    }

    /** The free byte counter is the heap less what is in use. */
    lemma FreeCounter()
      requires Valid()
      ensures krnlFree == top - base - HEADER - UsedBytes(bs)
    {
      Conservation(bs, base, top, |bs|);
      assert bs[..|bs|] == bs;
    }

    /** heapinit. */
    constructor (heap: int, len: int)
      requires 0 < heap && 16 <= len && len % 4 == 0 && heap + len < U32
      ensures Valid() && fresh(mem)
      ensures Live(bs) == {} && krnlFree == len - 16
    {
      hide Stored, FreeBytes, Live;
      AlignedLength(len);
      var m := new int[heap + len];
      var q := heap + len - HEADER;
      m[heap] := q;
      m[heap + 4] := len - HEADER - HEADER;
      m[q] := 0;
      m[q + 4] := 0;
      mem := m;
      base, top, firstFree, lastFree := heap, q, heap, heap;
      krnlFree := m[heap + 4];
      bs, start := [Block(heap, q - heap - HEADER, false)], 0;
      InitialStored(m[..], heap, q);
      OneBlock(Block(heap, q - heap - HEADER, false));
      NoneLive(Block(heap, q - heap - HEADER, false));
    }

    /** Lines 380-383: skip the blocks in use. */
    method SkipUsed(p0: int, q0: int, ghost i: nat) returns (p: int, q: int, ghost j: nat)
      requires Stored(mem[..], bs, base, top) && i < |bs| && p0 == bs[i].addr
      requires q0 == p0 || bs[i].used
      ensures i <= j < |bs| && p == q == bs[j].addr && !bs[j].used
      ensures forall k :: i <= k < j ==> bs[k].used
    {
      hide Stored;
      p, q, j := p0, q0, i;
      Walk(mem[..], bs, base, top, j);
      StoredLength(mem[..], bs, base, top);
      while mem[p + 4] % 2 == 1
        invariant i <= j < |bs| && p == bs[j].addr && base <= p && p + HEADER <= top
        invariant mem[p + 4] % 2 == 1 <==> bs[j].used
        invariant q == p || bs[j].used
        invariant forall k :: i <= k < j ==> bs[k].used
        decreases |bs| - j
      {
        Walk(mem[..], bs, base, top, j);
        p := mem[p];
        q := p;
        j := j + 1;
        Walk(mem[..], bs, base, top, j);
      }
    }

    /** Lines 384-385: skip the free blocks. */
    method SkipFree(p0: int, ghost i: nat) returns (p: int, ghost j: nat)
      requires Stored(mem[..], bs, base, top) && i < |bs| && p0 == bs[i].addr && !bs[i].used
      ensures i < j <= |bs| && p == AddrAt(bs, top, j) && AllFree(bs, i, j)
      ensures j < |bs| ==> bs[j].used
      ensures base <= p <= top < mem.Length && (mem[p] != 0 <==> j < |bs|)
    {
      hide Stored;
      p, j := p0, i;
      StoredLength(mem[..], bs, base, top);
      Walk(mem[..], bs, base, top, j);
      while mem[p + 4] % 2 == 0 && mem[p] != 0
        invariant i <= j <= |bs| && p == AddrAt(bs, top, j) && AllFree(bs, i, j)
        invariant base <= p <= top && (mem[p] != 0 <==> j < |bs|)
        invariant j < |bs| ==> (mem[p + 4] % 2 == 1 <==> bs[j].used)
        invariant j == i ==> !bs[j].used
        decreases |bs| - j
      {
        Walk(mem[..], bs, base, top, j);
        Extend(bs, i, j);
        p := mem[p];
        j := j + 1;
        if j < |bs| {
          Walk(mem[..], bs, base, top, j);
        }
      }
    }

    /** Lines 386-389: the free run from q to p becomes one block, whose size is
        computed from the two addresses. */
    method Coalesce(q: int, p: int, ghost i: nat, ghost j: nat)
      requires Stored(mem[..], bs, base, top) && i < j <= |bs| && AllFree(bs, i, j)
      requires q == bs[i].addr && p == AddrAt(bs, top, j)
      modifies mem, `bs
      ensures Stored(mem[..], bs, base, top)
      ensures bs == Merge(old(bs), top, i, j)
      ensures 0 <= q && q + HEADER <= mem.Length && mem[q + 4] == bs[i].size == p - q - HEADER
      ensures forall b :: b in Live(old(bs)) ==> Untouched(old(mem[..]), mem[..], b)
    {
      hide Stored, Untouched, Live;
      ghost var m := mem[..];
      MergeStored(m, bs, base, top, i, j);
      StoredLength(m, bs, base, top);
      mem[q + 4] := (p - q - HEADER) % U32;
      mem[q] := p;
      assert mem[..] == m[q + 4 := p - q - HEADER][q := p];
      bs := Merge(bs, top, i, j);
    }

    /** Lines 380-389: the next free run becomes one block. */
    method JoinRun(p0: int, q0: int, ghost pi: nat) returns (p: int, q: int, ghost i: nat, ghost j: nat)
      requires Stored(mem[..], bs, base, top) && pi < |bs| && p0 == bs[pi].addr
      requires q0 == p0 || bs[pi].used
      modifies mem, `bs
      ensures pi <= i < j <= |old(bs)| && AllFree(old(bs), i, j) && forall k :: pi <= k < i ==> old(bs)[k].used
      ensures j < |old(bs)| ==> old(bs)[j].used
      ensures p == AddrAt(old(bs), top, j) && q == old(bs)[i].addr
      ensures Stored(mem[..], bs, base, top) && bs == Merge(old(bs), top, i, j)
      ensures 0 <= q && q + HEADER <= mem.Length && mem[q + 4] == bs[i].size == p - q - HEADER
      ensures forall b :: b in Live(old(bs)) ==> Untouched(old(mem[..]), mem[..], b)
    {
      hide Stored, Untouched, Live, AllFree, Merge;
      p, q, i := SkipUsed(p0, q0, pi);
      p, j := SkipFree(p, i);
      Coalesce(q, p, i, j);
    }

    /** Lines 401-407: cut the free block at p and link the remainder in. The
        size written into the remainder is wrong, as the one it is computed from
        has been overwritten, but it is even, so the remainder counts as free. */
    method Cut(p: int, size: int, ghost i: nat)
      requires Stored(mem[..], bs, base, top) && i < |bs| && p == bs[i].addr && !bs[i].used
      requires 0 <= size && size % 4 == 0 && bs[i].size >= size + HEADER
      modifies mem, `bs
      ensures Stored(mem[..], bs, base, top)
      ensures bs == Split(old(bs), i, size)
      ensures forall b :: b in Live(old(bs)) ==> Untouched(old(mem[..]), mem[..], b)
    {
      hide Stored, Untouched, Live;
      ghost var m := mem[..];
      StoredLength(m, bs, base, top);
      StaleSize(size);
      SplitStored(m, bs, base, top, i, size, STALE);
      var r := mem[p];
      mem[p] := (p + size + HEADER) % U32;
      mem[p + 4] := size + 1;
      var nsize := (mem[p + 4] - mem[p + 4] % 2 - size - HEADER) % U32;
      var rest := mem[p];
      assert rest == p + size + HEADER && nsize == STALE;
      assert mem[..] == m[p := rest][p + 4 := size + 1];
      mem[rest] := r;
      assert mem[..] == m[p := rest][p + 4 := size + 1][rest := r];
      mem[rest + 4] := nsize;
      bs := Split(bs, i, size);
    }

    /** Lines 401-408: hand out the first n bytes of the free block at p. */
    method Take(p: int, n: int, ghost i: nat)
      requires Stored(mem[..], bs, base, top) && i < |bs| && p == bs[i].addr && !bs[i].used
      requires 0 <= n && n % 4 == 0 && bs[i].size >= n + HEADER
      requires firstFree == base && krnlFree == FreeBytes(bs) - HEADER
      modifies this, mem
      ensures Valid()
      ensures Live(bs) == Live(old(bs)) + {Block(p, n, true)} && Block(p, n, true) !in Live(old(bs))
      ensures lastFree == p && start == i
      ensures krnlFree == old(krnlFree) - n - HEADER >= 0
      ensures forall b :: b in Live(old(bs)) ==> Untouched(old(mem[..]), mem[..], b)
    {
      hide Stored, Untouched, Live, FreeBytes;
      StoredTiling(mem[..], bs, base, top);
      SplitKeeps(bs, base, top, i, n);
      SplitStart(bs, i, n);
      lastFree := p;
      Cut(p, n, i);
      StoredTiling(mem[..], bs, base, top);
      FreeFits(mem[..], bs, base, top);
      krnlFree := (krnlFree - (n + HEADER)) % U32;
      start := i;
    }

    /** hf_free. The block must be a live one. */
    method HfFree(ptr: int, ghost b: Block)
      requires Valid() && b in Live(bs) && ptr == b.addr + HEADER
      modifies this, mem
      ensures Valid()
      ensures Live(bs) == Live(old(bs)) - {b} && Block(b.addr, b.size, false) in bs
      ensures lastFree == base && start == 0
      ensures krnlFree == old(krnlFree) + b.size + HEADER < U32
      ensures forall c :: c in Live(old(bs)) ==> Untouched(old(mem[..]), mem[..], c)
    {
      hide Stored, Untouched, Header, FreeBytes;
      ghost var i: nat :| i < |bs| && bs[i] == b;
      ghost var m := mem[..];
      StoredLength(m, bs, base, top);
      StoredTiling(m, bs, base, top);
      ReleaseStored(m, bs, base, top, i);
      ReleaseKeeps(bs, base, top, i);
      FreeFits(m, Release(bs, i), base, top);
      ReleaseStart(bs, i);
      assert Release(bs, i)[i] == Block(b.addr, b.size, false);
      var p := ptr - HEADER;
      mem[p + 4] := mem[p + 4] - mem[p + 4] % 2;
      assert mem[..] == m[p + 4 := bs[i].size];
      lastFree := firstFree;
      krnlFree := (krnlFree + mem[p + 4] + HEADER) % U32;
      bs := Release(bs, i);
      start := 0;
    }

    /** Lines 376-394: the loop of hf_malloc. It ends at the first run from
        last_free on that fits, joined to block i, or at the sentinel. */
    method Sweep(size: int, n: int) returns (p: int, ghost i: nat, ghost qi: nat, ghost ri: nat)
      requires Valid() && 0 <= size <= MAX_REQUEST && n == Align4(size)
      modifies mem, `bs
      ensures Stored(mem[..], bs, base, top) && Live(bs) == Live(old(bs)) && FreeBytes(bs) == FreeBytes(old(bs))
      ensures forall b :: b in Live(old(bs)) ==> Untouched(old(mem[..]), mem[..], b)
      ensures 0 < p < mem.Length
      ensures mem[p] == 0 ==>
        && start < |bs| && bs[start].addr == lastFree && (start == 0 || bs[start].used)
        && forall i, j :: old(start) <= i < j <= |old(bs)| ==> !Fits(old(bs), top, i, j, n)
      ensures mem[p] != 0 ==>
        && start <= qi && Fits(old(bs), top, qi, ri, n) && p == old(bs)[qi].addr
        && (forall i, j :: start <= i < j <= qi ==> !Fits(old(bs), top, i, j, n))
        && i < |bs| && p == bs[i].addr && !bs[i].used && bs[i].size >= n + HEADER
    {
      hide Stored, Tiling, Untouched, Swept, Fits, AllFree, Live, FreeBytes, Merge, FitTest;
      ghost var was, m0 := bs, mem[..];
      AlignedRequest(size);
      StoredTiling(m0, bs, base, top);
      StoredLength(m0, bs, base, top);
      SweepStart(bs, base, top, start, n);
      p := lastFree;
      var q := p;
      ghost var pi: nat, oi: nat := start, start;
      Walk(m0, bs, base, top, start);
      Unmoved(m0, Live(was));
      i, qi, ri := 0, 0, 0;
      while mem[p] != 0
        invariant Stored(mem[..], bs, base, top) && Swept(was, bs, base, top, start, n, pi, oi)
        invariant pi <= |bs| && oi <= |was| && p == AddrAt(bs, top, pi) && 0 < p <= top && (mem[p] != 0 <==> pi < |bs|)
        invariant q == p || (pi < |bs| ==> bs[pi].used)
        invariant forall b :: b in Live(was) ==> Untouched(m0, mem[..], b)
        decreases |was| - oi
      {
        ghost var bs1, m1 := bs, mem[..];
        ghost var j;
        SweptLive(was, bs, base, top, start, n, pi, oi);
        p, q, i, j := JoinRun(p, q, pi);
        MergeKeeps(bs1, base, top, i, j);
        ghost var a, b := SweepRun(was, bs1, base, top, start, n, pi, oi, i, j);
        UntouchedTrans(m0, m1, mem[..], Live(was));
        StoredLength(mem[..], bs, base, top);
        if FitTest(mem[q + 4], size) {
          qi, ri := a, b;
          Served(was, bs1, bs, base, top, start, n, pi, oi, i, j, a, b);
          Walk(mem[..], bs, base, top, i);
          return q, i, qi, ri;
        }
        oi := SweepNext(was, bs1, base, top, start, n, pi, oi, i, j);
        pi := i + 1;
        if pi < |bs| {
          Walk(mem[..], bs, base, top, pi);
        }
      }
      SweptEnd(was, bs, base, top, start, n, pi, oi);
    }

    /** hf_malloc, for the requests whose rounded size does not wrap around. On
        success `qi` and `ri` are the run of the old list that served it. */
    method HfMalloc(size: int) returns (r: int, ghost qi: nat, ghost ri: nat)
      requires Valid() && 0 <= size <= MAX_REQUEST
      modifies this, mem
      ensures Valid()
      ensures var n := Align4(size);
              if r == 0 then
                && Live(bs) == Live(old(bs)) && krnlFree == old(krnlFree)
                && lastFree == old(lastFree) && start == old(start)
                && forall i, j :: old(start) <= i < j <= |old(bs)| ==> !Fits(old(bs), top, i, j, n)
              else
                && old(start) <= qi && Fits(old(bs), top, qi, ri, n) && r == old(bs)[qi].addr + HEADER
                && (forall i, j :: old(start) <= i < j <= qi ==> !Fits(old(bs), top, i, j, n))
                && Live(bs) == Live(old(bs)) + {Block(r - HEADER, n, true)}
                && Block(r - HEADER, n, true) !in Live(old(bs))
                && lastFree == r - HEADER && krnlFree == old(krnlFree) - n - HEADER >= 0
      ensures forall b :: b in Live(old(bs)) ==> Untouched(old(mem[..]), mem[..], b)
    {
      hide Stored, Untouched, Fits, Live, FreeBytes;
      ghost var was, m0 := bs, mem[..];
      AlignedRequest(size);
      var n := Align4(size);
      ghost var i;
      var p;
      p, i, qi, ri := Sweep(size, n);
      if mem[p] == 0 { return 0, qi, ri; }
      ghost var m1 := mem[..];
      Take(p, n, i);
      UntouchedTrans(m0, m1, mem[..], Live(was));
      return p + HEADER, qi, ri;
    }

    /** A release and the request after it: the search covers the whole list, so
        it fails only if nothing at all fits, and never if the block given back
        is large enough; and it takes the lowest run that fits. */
    method FreeThenMalloc(ptr: int, ghost b: Block, size: int) returns (r: int, ghost free: seq<Block>)
      requires Valid() && b in Live(bs) && ptr == b.addr + HEADER && 0 <= size <= MAX_REQUEST
      modifies this, mem
      ensures Valid() && Live(free) == Live(old(bs)) - {b}
      ensures r == 0 <==> forall i, j :: 0 <= i < j <= |free| ==> !Fits(free, top, i, j, Align4(size))
      ensures b.size >= Align4(size) + HEADER ==> 0 < r <= ptr
    {
      hide Stored, Untouched, Live, FreeBytes, Fits;
      HfFree(ptr, b);
      free := bs;
      StoredTiling(mem[..], bs, base, top);
      ghost var i: nat :| i < |free| && free[i] == Block(b.addr, b.size, false);
      if b.size >= Align4(size) + HEADER { AloneFits(free, base, top, i, Align4(size)); }
      ghost var qi, ri;
      r, qi, ri := HfMalloc(size);
      if r != 0 { FitsAt(free, base, top, qi, ri, i, Align4(size)); }
    }
  }

  /** A free block that is large enough is a run that fits. */
  lemma AloneFits(bs: seq<Block>, base: int, top: int, i: nat, size: int)
    requires Tiling(bs, base, top) && i < |bs| && !bs[i].used && bs[i].size >= size + HEADER
    ensures Fits(bs, top, i, i + 1, size)
  {
    assert Abuts(bs, top, i);
  }

  lemma FitsAt(bs: seq<Block>, base: int, top: int, q: nat, r: nat, i: nat, size: int)
    requires Tiling(bs, base, top) && 0 < base && Fits(bs, top, q, r, size) && i < |bs|
    ensures q < r <= |bs| && bs[q].addr >= base && (q <= i ==> bs[q].addr <= bs[i].addr)
  {
    Bounds(bs, base, top, q);
    assert Abuts(bs, top, q);
    if q < i { Ordered(bs, base, top, q, i); }
  }

  lemma StoredLength(m: seq<int>, bs: seq<Block>, base: int, top: int)
    requires Stored(m, bs, base, top)
    ensures 0 < base < top && top + HEADER <= |m| && m[top] == 0 && m[top + 4] == 0
  {
  }

  lemma Extend(bs: seq<Block>, i: nat, j: nat)
    requires i <= j < |bs| && AllFree(bs, i, j) && !bs[j].used
    ensures AllFree(bs, i, j + 1)
  {
  }

  lemma SplitStart(bs: seq<Block>, i: nat, n: int)
    requires i < |bs|
    ensures var m := Split(bs, i, n); i < |m| && m[i].addr == bs[i].addr && m[i].used
  {
  }

  lemma ReleaseStart(bs: seq<Block>, i: nat)
    requires i < |bs|
    ensures |Release(bs, i)| == |bs| && Release(bs, i)[0].addr == bs[0].addr
  {
  }

  lemma FreeFits(m: seq<int>, bs: seq<Block>, base: int, top: int)
    requires Tiling(bs, base, top) && 0 < base < top < |m| < U32
    ensures HEADER <= FreeBytes(bs) < U32
  {
    FreeBytesBounds(bs, base, top, |bs|);
    assert bs[..|bs|] == bs;
  }

  lemma AlignedRequest(size: int)
    requires 0 <= size <= MAX_REQUEST
    ensures var n := Align4(size); n % 4 == 0 && size <= n && n + HEADER < U32
    ensures forall have: int :: FitTest(have, size) <==> have >= Align4(size) + HEADER
  {
  }

  lemma StoredTiling(m: seq<int>, bs: seq<Block>, base: int, top: int)
    requires Stored(m, bs, base, top)
    ensures Tiling(bs, base, top) && 0 < base < top < |m| < U32 && bs != [] && bs[0].addr == base
  {
  }

  lemma Unmoved(m: seq<int>, live: set<Block>)
    ensures forall b :: b in live ==> Untouched(m, m, b)
  {
  }

  lemma UntouchedTrans(m0: seq<int>, m1: seq<int>, m2: seq<int>, live: set<Block>)
    requires forall b :: b in live ==> Untouched(m0, m1, b) && Untouched(m1, m2, b)
    ensures forall b :: b in live ==> Untouched(m0, m2, b)
  {
  }

  lemma SweptLive(was: seq<Block>, bs: seq<Block>, base: int, top: int, start: nat, size: int, pi: nat, oi: nat)
    requires Swept(was, bs, base, top, start, size, pi, oi)
    ensures Live(bs) == Live(was) && FreeBytes(bs) == FreeBytes(was) && Tiling(bs, base, top)
  {
  }

  /** The sweep reached the sentinel: nothing fits. */
  lemma SweptEnd(was: seq<Block>, bs: seq<Block>, base: int, top: int, start: nat, size: int, pi: nat, oi: nat)
    requires Swept(was, bs, base, top, start, size, pi, oi) && pi == |bs|
    ensures Live(bs) == Live(was) && FreeBytes(bs) == FreeBytes(was)
    ensures start < |bs| && bs[start].addr == AddrAt(was, top, start) && (start == 0 || bs[start].used)
    ensures forall i, j :: start <= i < j <= |was| ==> !Fits(was, top, i, j, size)
  {
    hide Fits, Tiling;
    assert |was[oi..]| == |bs[pi..]| == 0;
  }

  /** The run just coalesced is the first one that fits. */
  lemma Served(was: seq<Block>, bs1: seq<Block>, bs: seq<Block>, base: int, top: int, start: nat, size: int,
               pi: nat, oi: nat, i: nat, j: nat, a: nat, b: nat)
    requires Swept(was, bs1, base, top, start, size, pi, oi)
    requires i < j <= |bs1| && bs == Merge(bs1, top, i, j)
    requires AddrAt(bs1, top, j) - bs1[i].addr - HEADER >= size + HEADER
    requires oi <= a < b <= |was| && AllFree(was, a, b) && forall k :: oi <= k < a ==> was[k].used
    requires was[a].addr == bs1[i].addr && AddrAt(was, top, b) == AddrAt(bs1, top, j)
    ensures start <= a && Fits(was, top, a, b, size)
    ensures forall x, y :: start <= x < y <= a ==> !Fits(was, top, x, y, size)
    ensures i < |bs| && !bs[i].used && bs[i].addr == was[a].addr && bs[i].size >= size + HEADER
  {
    forall x, y | start <= x < y <= a
      ensures !Fits(was, top, x, y, size)
    {
      if y > oi {
        assert was[if x >= oi then x else oi].used;
      }
    }
  }
}
