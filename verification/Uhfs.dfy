/** The cluster map of a uhfs volume on its disk (fs/uhfs.c): a map block in
    front of every region of w - 1 data blocks, all of it seen through one
    block buffer. The block size is the sector size, w words of 32 bits. */
module Uhfs {
  import opened ClusterMap
  import Arithmetic

  // ----- where the entry of a block is -----

  predicate IsCmb(k: nat, w: nat) {
    w >= 2 && k >= 1 && (k - 1) % w == 0
  }

  /** The map block of block b: ((b - 1) & ~(w - 1)) + 1. */
  function CmbOf(b: nat, w: nat): int {
    if w >= 2 then (b - 1) / w * w + 1 else 0
  }

  /** The place of its entry there: (b - 1) & (w - 1). */
  function IdxOf(b: nat, w: nat): int {
    if w >= 2 then (b - 1) % w else 0
  }

  predicate IsData(b: nat, w: nat) {
    b >= 1 && IdxOf(b, w) != 0
  }

  lemma Split(b: nat, w: nat)
    requires w >= 2 && b >= 1
    ensures 1 <= CmbOf(b, w) <= b && IsCmb(CmbOf(b, w), w)
    ensures 0 <= IdxOf(b, w) < w && CmbOf(b, w) + IdxOf(b, w) == b
  {
    var q := (b - 1) / w;
    assert b - 1 == q * w + (b - 1) % w;
    assert q >= 0 && q * w >= 0;
    Arithmetic.DivUnique(q * w, w, q);
  }

  lemma Join(k: nat, i: nat, w: nat)
    requires IsCmb(k, w) && i < w
    ensures CmbOf(k + i, w) == k && IdxOf(k + i, w) == i
  {
    var q := (k - 1) / w;
    assert k - 1 == q * w;
    Arithmetic.DivUnique(k - 1 + i, w, q);
  }

  lemma CmbNext(k: nat, w: nat)
    requires IsCmb(k, w)
    ensures IsCmb(k + w, w)
  {
    Arithmetic.DivStep(k - 1, w);
  }

  // ----- the map on the disk -----

  predicate Sized(d: seq<seq<int>>, w: nat) {
    && w >= 2 && |d| >= 3 && |d| + w <= FIXDBLK
    && forall k :: 0 <= k < |d| ==> |d[k]| == w
  }

  function NextCmb(k: nat, w: nat, n: nat): int {
    if k + w < n then k + w else EOCHBLK
  }

  /** Map block k: the link to the next one, and no entry for a block that the
      disk does not have. */
  ghost predicate CmbOk(d: seq<seq<int>>, w: nat, k: nat)
    requires Sized(d, w) && k < |d|
  {
    && d[k][0] == NextCmb(k, w, |d|)
    && forall i :: 1 <= i < w && k + i >= |d| ==> d[k][i] == FIXDBLK
  }

  ghost predicate Mapped(d: seq<seq<int>>, w: nat) {
    Sized(d, w) && forall k :: 0 <= k < |d| && IsCmb(k, w) ==> CmbOk(d, w, k)
  }

  function EntryAt(d: seq<seq<int>>, w: nat, b: nat): int
    requires Sized(d, w) && b < |d|
  {
    if b < 1 then FIXDBLK
    else
      Split(b, w);
      if IdxOf(b, w) == 0 then FIXDBLK else d[CmbOf(b, w)][IdxOf(b, w)]
  }

  /** The entries of all blocks; a block that is not a data block is fixed. */
  function Entries(d: seq<seq<int>>, w: nat): (m: seq<int>)
    requires Sized(d, w)
    ensures |m| == |d|
  {
    seq(|d|, b requires 0 <= b < |d| => EntryAt(d, w, b))
  }

  lemma EntryIs(d: seq<seq<int>>, w: nat, k: nat, i: nat)
    requires Sized(d, w) && IsCmb(k, w) && i < w && k + i < |d|
    ensures EntryAt(d, w, k + i) == if i == 0 then FIXDBLK else d[k][i]
  {
    Join(k, i, w);
  }

  /** An entry is stored. */
  lemma StoreEntry(d: seq<seq<int>>, w: nat, k: nat, j: nat, v: int)
    requires Mapped(d, w) && IsCmb(k, w) && 1 <= j < w && k + j < |d|
    ensures var d' := d[k := d[k][j := v]];
      Mapped(d', w) && Entries(d', w) == Entries(d, w)[k + j := v]
  {
    var d' := d[k := d[k][j := v]];
    assert Sized(d', w);
    forall l | 0 <= l < |d'| && IsCmb(l, w)
      ensures CmbOk(d', w, l)
    {
      assert CmbOk(d, w, l);
    }
    forall b | 0 <= b < |d|
      ensures EntryAt(d', w, b) == if b == k + j then v else EntryAt(d, w, b)
    {
      if b >= 1 {
        Split(b, w);
        Join(k, j, w);
      }
    }
  }

  /** A data block, or block 0, is written. */
  lemma StoreData(d: seq<seq<int>>, w: nat, b: nat, blk: seq<int>)
    requires Mapped(d, w) && b < |d| && !IsCmb(b, w) && |blk| == w
    ensures Mapped(d[b := blk], w) && Entries(d[b := blk], w) == Entries(d, w)
  {
    var d' := d[b := blk];
    assert Sized(d', w);
    forall l | 0 <= l < |d'| && IsCmb(l, w)
      ensures CmbOk(d', w, l)
    {
      assert CmbOk(d, w, l);
    }
    forall c | 0 <= c < |d|
      ensures EntryAt(d', w, c) == EntryAt(d, w, c)
    {
      if c >= 1 { Split(c, w); }
    }
  }

  /** No free entry below block hi. */
  ghost predicate NoneFree(m: seq<int>, hi: nat) {
    forall b :: 0 <= b < hi && b < |m| ==> m[b] != FREEBLK
  }

  /** The free entries of region k in the order of their blocks. */
  lemma ScanRegion(d: seq<seq<int>>, w: nat, k: nat, j: nat)
    requires Mapped(d, w) && IsCmb(k, w) && k < |d| && 1 <= j <= w
    requires NoneFree(Entries(d, w), k) && forall i :: 1 <= i < j ==> d[k][i] != FREEBLK
    ensures NoneFree(Entries(d, w), k + j)
    ensures j < w && d[k][j] == FREEBLK ==> k + j < |d| && Entries(d, w)[k + j] == FREEBLK
  {
    forall b | k <= b < k + j && b < |d|
      ensures Entries(d, w)[b] != FREEBLK
    {
      EntryIs(d, w, k, b - k);
    }
    assert CmbOk(d, w, k);
    if j < w && k + j < |d| {
      EntryIs(d, w, k, j);
    }
  }

  function Min(a: int, b: int): int { if a < b then a else b }

  lemma CountRegion(d: seq<seq<int>>, w: nat, k: nat, j: nat)
    requires Mapped(d, w) && IsCmb(k, w) && k < |d| && j < w
    ensures CountFree(Entries(d, w), Min(k + j + 1, |d|)) ==
      CountFree(Entries(d, w), Min(k + j, |d|)) + if 1 <= j && d[k][j] == FREEBLK then 1 else 0
  {
    assert CmbOk(d, w, k);
    if k + j < |d| {
      EntryIs(d, w, k, j);
    }
  }

  // ----- the volume -----

  class Volume {
    const w: nat
    const disk: array<seq<int>>
    const buf: array<int>
    var pos: int
    ghost var chains: seq<seq<nat>>

    ghost predicate Device()
      reads this, disk, buf
    {
      Sized(disk[..], w) && buf.Length == w
    }

    ghost function Map(): seq<int>
      requires Device()
      reads this, disk, buf
    {
      Entries(disk[..], w)
    }

    ghost predicate Valid()
      reads this, disk, buf
    {
      Device() && Mapped(disk[..], w) && ChainsOk(Map(), chains)
    }

    /** A disk with any contents. */
    constructor (words: nat, blocks: seq<seq<int>>)
      requires Sized(blocks, words)
      ensures Device() && disk[..] == blocks && w == words && fresh(disk) && fresh(buf)
    {
      w, pos, chains := words, 0, [];
      disk := new seq<int>[|blocks|](i requires 0 <= i < |blocks| => blocks[i]);
      buf := new int[words];
    }

    /** hf_dev_read of one block. */
    method Read()
      requires Device() && 0 <= pos < disk.Length
      modifies `pos, buf
      ensures buf[..] == disk[old(pos)] && pos == old(pos) + 1
    {
      var blk := disk[pos];
      forall i | 0 <= i < buf.Length { buf[i] := blk[i]; }
      pos := pos + 1;
    }

    /** hf_dev_write of one block. */
    method Write()
      requires Device() && 0 <= pos < disk.Length
      modifies `pos, disk
      ensures disk[..] == old(disk[..])[old(pos) := buf[..]] && pos == old(pos) + 1
      ensures Device()
    {
      disk[pos] := buf[..];
      pos := pos + 1;
    }

    /** memset or memcpy of a whole block. */
    method Fill(blk: seq<int>)
      requires |blk| == buf.Length
      modifies buf
      ensures buf[..] == blk
    {
      forall i | 0 <= i < buf.Length { buf[i] := blk[i]; }
    }

    /** getfreeblock: the lowest free block becomes the end of a chain; 0 if
        none is free. */
    method GetFreeBlock() returns (r: nat)
      requires Device() && Mapped(disk[..], w)
      modifies `pos, buf, disk
      ensures Device() && Mapped(disk[..], w)
      ensures r == 0 ==> NoneFree(old(Map()), disk.Length) && disk[..] == old(disk[..])
      ensures r != 0 ==> r < disk.Length && old(Map())[r] == FREEBLK && NoneFree(old(Map()), r)
      ensures r != 0 ==> Map() == old(Map())[r := EOCHBLK]
      ensures forall b :: 0 <= b < disk.Length && !IsCmb(b, w) ==> disk[b] == old(disk[b])
      ensures r != 0 ==> !IsCmb(r, w)
    {
      hide Mapped, Entries, IsCmb;
      ghost var d := disk[..];
      var chainBlk := 1;
      var j := 1;
      FirstCmb(w);
      NoneBelowFirst(d, w);
      while true
        invariant chainBlk == EOCHBLK || (0 <= chainBlk < disk.Length && IsCmb(chainBlk, w))
        invariant NoneFree(Entries(d, w), if chainBlk == EOCHBLK then |d| else chainBlk)
        invariant disk[..] == d && Device()
        decreases if chainBlk == EOCHBLK then 0 else disk.Length - chainBlk
      {
        if chainBlk == EOCHBLK { return 0; }
        pos := chainBlk;
        Read();
        j := 1;
        while j < w && buf[j] != FREEBLK
          invariant 1 <= j <= w && forall i :: 1 <= i < j ==> d[chainBlk][i] != FREEBLK
        {
          j := j + 1;
        }
        ScanRegion(d, w, chainBlk, j);
        if j < w { break; }
        CmbAt(d, w, chainBlk);
        CmbNext(chainBlk, w);
        chainBlk := buf[0];
      }
      buf[j] := EOCHBLK;
      pos := chainBlk;
      Write();
      StoreEntry(d, w, chainBlk, j, EOCHBLK);
      assert disk[..] == d[chainBlk := d[chainBlk][j := EOCHBLK]];
      NotCmb(chainBlk, j, w);
      return chainBlk + j;
    }

    /** The number of free data blocks. */
    ghost function Free(): nat
      requires Device()
      reads this, disk, buf
    {
      CountFree(Map(), |Map()|)
    }

    /** Lines 336-338: the free entries of the map block at k are counted. */
    method CountCmb(ghost k: nat, freeblks0: int) returns (freeblks: int)
      requires Device() && Mapped(disk[..], w) && IsCmb(k, w) && k < disk.Length && buf[..] == disk[k]
      requires freeblks0 == CountFree(Map(), k)
      ensures freeblks == CountFree(Map(), Min(k + w, disk.Length))
    {
      hide Mapped, Entries, IsCmb, CountFree;
      ghost var d := disk[..];
      freeblks := freeblks0;
      CountRegion(d, w, k, 0);
      var j := 1;
      while j < w
        invariant 1 <= j <= w && freeblks == CountFree(Entries(d, w), Min(k + j, |d|))
      {
        CountRegion(d, w, k, j);
        assert buf[j] == d[k][j];
        if buf[j] == FREEBLK { freeblks := freeblks + 1; }
        j := j + 1;
      }
    }

    /** hf_getfree: -1 if the volume is not mounted. */
    method HfGetFree(mounted: bool) returns (freeblks: int)
      requires Device() && Mapped(disk[..], w)
      modifies `pos, buf
      ensures freeblks == (if mounted then Free() else -1) && Free() == old(Free()) && disk[..] == old(disk[..])
    {
      if !mounted { return -1; }
      hide Mapped, Entries, IsCmb, CountFree;
      ghost var d := disk[..];
      freeblks := 0;
      FirstCmb(w);
      CountBelowFirst(d, w);
      pos := 1;
      ghost var chainBlk := 1;
      while true
        invariant pos == chainBlk && 0 <= chainBlk < disk.Length && IsCmb(chainBlk, w)
        invariant disk[..] == d && Device()
        invariant freeblks == CountFree(Entries(d, w), chainBlk)
        decreases disk.Length - chainBlk
      {
        Read();
        freeblks := CountCmb(chainBlk, freeblks);
        CmbAt(d, w, chainBlk);
        CmbNext(chainBlk, w);
        assert buf[0] == NextCmb(chainBlk, w, |d|);
        if buf[0] == EOCHBLK { break; }
        pos := buf[0];
        chainBlk := chainBlk + w;
      }
    }

    /** hf_mkdir and hf_create: a new chain of one block (lines 419-427). The
        new block is filled with `blank`. */
    method NewChain(blank: seq<int>) returns (k: nat)
      requires Valid() && |blank| == w
      modifies this, buf, disk
      ensures Valid()
      ensures k == 0 <==> old(Free()) == 0
      ensures k == 0 ==> Map() == old(Map()) && chains == old(chains)
      ensures k != 0 ==> k < disk.Length && chains == old(chains) + [[k]] && Free() == old(Free()) - 1 && disk[k] == blank
      ensures forall b :: 0 <= b < disk.Length && b != k && !IsCmb(b, w) ==> disk[b] == old(disk[b])
    {
      hide Mapped, Entries, IsCmb, ChainsOk, CountFree;
      ghost var m := Map();
      k := GetFreeBlock();
      FreeIffNone(m);
      if k == 0 { return; }
      AllocChains(m, chains, k);
      StoreData(disk[..], w, k, blank);
      pos := k;
      Fill(blank);
      Write();
      chains := chains + [[k]];
    }

    /** hf_mkdir and hf_create: chain i, which ends in block `last`, gets one
        more block (lines 460-482). */
    method ExtendChain(ghost i: nat, last: nat, blank: seq<int>) returns (k: nat)
      requires Valid() && |blank| == w && i < |chains| && chains[i] != [] && last == chains[i][|chains[i]| - 1]
      modifies this, buf, disk
      ensures Valid()
      ensures k == 0 <==> old(Free()) == 0
      ensures k == 0 ==> Map() == old(Map()) && chains == old(chains)
      ensures k != 0 ==> k < disk.Length && chains == Longer(old(chains), i, k) && Free() == old(Free()) - 1 && disk[k] == blank
      ensures forall b :: 0 <= b < disk.Length && b != k && !IsCmb(b, w) ==> disk[b] == old(disk[b])
    {
      hide Mapped, Entries, IsCmb, ChainsOk, CountFree, Longer;
      ghost var m := Map();
      k := GetFreeBlock();
      FreeIffNone(m);
      if k == 0 { return; }
      LastUsed(m, chains, i, last);
      ExtendChains(m, chains, i, k, last);
      StoreData(disk[..], w, k, blank);
      pos := k;
      Fill(blank);
      Write();
      var _ := SetEntry(last, k);
      chains := Longer(chains, i, k);
    }

    /** One entry is read, changed and written back (lines 475-479 and 684-689). */
    method SetEntry(b: nat, v: int) returns (next: int)
      requires Device() && Mapped(disk[..], w) && b < disk.Length && Map()[b] != FIXDBLK
      modifies `pos, buf, disk
      ensures Device() && Mapped(disk[..], w) && Map() == old(Map())[b := v] && next == old(Map())[b]
      ensures forall c :: 0 <= c < disk.Length && !IsCmb(c, w) ==> disk[c] == old(disk[c])
    {
      hide Mapped, IsCmb, Sized;
      ghost var d := disk[..];
      var chainBlk, place := CmbOf(b, w), IdxOf(b, w);
      SplitData(d, w, b);
      pos := chainBlk;
      Read();
      next := buf[place];
      buf[place] := v;
      pos := chainBlk;
      Write();
      StoreEntry(d, w, chainBlk, place, v);
      assert disk[..] == d[chainBlk := d[chainBlk][place := v]];
    }

    /** The freeing loops of hf_unlink and hf_rmdir: all blocks of chain i,
        which starts in block `first`, become free. */
    method FreeChain(ghost i: nat, first: nat)
      requires Valid() && i < |chains| && first == chains[i][0]
      modifies this, buf, disk
      ensures Valid() && chains == Without(old(chains), i)
      ensures Free() == old(Free()) + |old(chains)[i]|
      ensures forall b :: 0 <= b < disk.Length && !IsCmb(b, w) ==> disk[b] == old(disk[b])
    {
      hide Mapped, Entries, IsCmb, CountFree, Without, FreeAll;
      ghost var m, all, c := Map(), chains, chains[i];
      FreeChains(m, chains, i);
      assert Chain(m, c);
      var blk, next := first, 0;
      ghost var x := 0;
      NoneFreed(m);
      while true
        invariant 0 <= x < |c| && blk == c[x] && chains == all
        invariant Device() && Mapped(disk[..], w) && Map() == FreeAll(m, c[..x])
        invariant forall b :: 0 <= b < disk.Length && !IsCmb(b, w) ==> disk[b] == old(disk[b])
        decreases |c| - x
      {
        NotYetFreed(m, all, i, x);
        next := SetEntry(blk, FREEBLK);
        x := x + 1;
        blk := next;
        if next == EOCHBLK { break; }
      }
      assert c[..x] == c;
      chains := Without(all, i);
    }

    /** Lines 202-213: the map block of the region at k, in the buffer. Sizes
        are in bytes and products on 32 bits, as in the source. */
    method FillCmb(k: nat, blkSize: nat, vsize: nat)
      requires Device() && k < disk.Length && blkSize == 4 * w && vsize == disk.Length * blkSize
      requires IsCmb(k, w) && NoWrap(disk.Length, w, blkSize)
      modifies buf
      ensures buf[0] == NextCmb(k, w, disk.Length)
      ensures forall i :: 1 <= i < w ==> buf[i] == if k + i < disk.Length then FREEBLK else FIXDBLK
    {
      hide IsCmb, NoWrap, LinkTest, EntryTest;
      TestsRight(disk.Length, w, blkSize, k);
      if LinkTest(k, w, blkSize, vsize) {
        buf[0] := k + blkSize / 4;
      } else {
        buf[0] := EOCHBLK;
      }
      var i := 1;
      while i < blkSize / 4
        invariant 1 <= i <= w && buf[0] == NextCmb(k, w, disk.Length)
        invariant forall j :: 1 <= j < i ==> buf[j] == if k + j < disk.Length then FREEBLK else FIXDBLK
      {
        if EntryTest(k, i, blkSize, vsize) {
          buf[i] := FREEBLK;
        } else {
          buf[i] := FIXDBLK;
        }
        i := i + 1;
      }
    }

    /** Lines 218-221: the data blocks of the region at k are cleared. */
    method ClearRegion(k: nat, blkSize: nat, vsize: nat)
      requires Device() && k < disk.Length && blkSize == 4 * w && vsize == disk.Length * blkSize && pos == k + 1
      requires IsCmb(k, w) && NoWrap(disk.Length, w, blkSize)
      modifies `pos, buf, disk
      ensures Device() && pos == Min(k + w, disk.Length)
      ensures forall b :: 0 <= b < disk.Length ==> disk[b] == if k < b < k + w then Zeros(w) else old(disk[b])
    {
      hide IsCmb, NoWrap, EntryTest, Zeros;
      TestsRight(disk.Length, w, blkSize, k);
      ZerosLength(w);
      Fill(Zeros(w));
      var i := 1;
      while i < blkSize / 4
        invariant 1 <= i <= w && Device() && pos == Min(k + i, disk.Length) && buf[..] == Zeros(w)
        invariant forall b :: 0 <= b < disk.Length ==> disk[b] == if k < b < k + i then Zeros(w) else old(disk[b])
      {
        if EntryTest(k, i, blkSize, vsize) {
          Write();
        }
        i := i + 1;
      }
    }

    /** Lines 193-222: superblock, map blocks and cleared data blocks. */
    method MakeRegions(super: seq<int>, blkSize: nat)
      requires Device() && |super| == w && blkSize == 4 * w && NoWrap(disk.Length, w, blkSize)
      modifies `pos, buf, disk
      ensures Device() && Mapped(disk[..], w) && disk[0] == super
      ensures forall b :: 0 <= b < disk.Length ==> Map()[b] == if IsData(b, w) then FREEBLK else FIXDBLK
      ensures forall b :: 1 <= b < disk.Length && !IsCmb(b, w) ==> disk[b] == Zeros(w)
    {
      hide Sized, IsCmb, CmbOk, EntryAt, NewRegion, IsData, NoWrap, Zeros;
      SizedFacts(disk[..], w);
      SecondData(w);
      var vsize := disk.Length * blkSize;
      pos := 0;
      Fill(super);
      Write();
      var k := 1;
      while k < disk.Length
        invariant Device() && IsCmb(k, w) && pos == Min(k, disk.Length) && disk[0] == super
        invariant forall l :: 0 <= l < k && l < disk.Length && IsCmb(l, w) ==> NewRegion(disk[..], w, l)
        invariant forall b :: 1 <= b < k && b < disk.Length && !IsCmb(b, w) ==> disk[b] == Zeros(w)
      {
        ghost var d := disk[..];
        FillCmb(k, blkSize, vsize);
        ghost var cmb := buf[..];
        Write();
        ClearRegion(k, blkSize, vsize);
        NewRegions(d, disk[..], w, k, cmb);
        CmbNext(k, w);
        k := k + blkSize / 4;
      }
      NewMap(disk[..], w);
    }

    /** Lines 225-236: the root directory, and its entry in the first map block. */
    method MakeRoot(blank: seq<int>)
      requires Device() && |blank| == w && Mapped(disk[..], w)
      modifies `pos, buf, disk
      ensures Device() && Mapped(disk[..], w) && Map() == old(Map())[2 := EOCHBLK] && disk[2] == blank
      ensures forall b :: 0 <= b < disk.Length && b != 2 && !IsCmb(b, w) ==> disk[b] == old(disk[b])
    {
      hide Mapped, IsCmb, Entries;
      SizedFacts(disk[..], w);
      SecondData(w);
      Fill(blank);
      pos := 2;
      StoreData(disk[..], w, 2, blank);
      Write();
      pos := 1;
      ghost var d := disk[..];
      Read();
      buf[1] := EOCHBLK;
      pos := 1;
      Write();
      StoreEntry(d, w, 1, 1, EOCHBLK);
      assert disk[..] == d[1 := d[1][1 := EOCHBLK]];
    }

    /** hf_mkfs from line 193 on: `super` is the superblock and `blank` a
        directory block without entries. */
    method HfMkfs(super: seq<int>, blank: seq<int>, blkSize: nat)
      requires Device() && |super| == w && |blank| == w && blkSize == 4 * w
      requires NoWrap(disk.Length, w, blkSize)
      modifies this, buf, disk
      ensures Valid() && chains == [[2]]
      ensures forall b :: 0 <= b < disk.Length ==>
        Map()[b] == if b == 2 then EOCHBLK else if IsData(b, w) then FREEBLK else FIXDBLK
      ensures disk[0] == super && disk[2] == blank
      ensures forall b :: 3 <= b < disk.Length && !IsCmb(b, w) ==> disk[b] == Zeros(w)
    {
      hide Sized, Mapped, IsCmb, Entries, NoWrap, Zeros;
      SizedFacts(disk[..], w);
      SecondData(w);
      MakeRegions(super, blkSize);
      MakeRoot(blank);
      chains := [[2]];
      RootChain(Map());
    }
  }

  const U32: int := 0x1_0000_0000

  /** The tests of line 202 and of lines 209 and 220, with 32-bit products. */
  predicate LinkTest(k: nat, w: nat, blkSize: nat, vsize: nat) {
    (k + w) * blkSize % U32 < vsize
  }

  predicate EntryTest(k: nat, i: nat, blkSize: nat, vsize: nat) {
    (k - 1 + i) * blkSize % U32 < vsize - blkSize
  }

  /** The end of the last region, rounded up to a whole one, is below 4 GiB. */
  predicate NoWrap(n: nat, w: nat, blkSize: nat) {
    n >= 2 && w >= 2 && (CmbOf(n - 1, w) + w) * blkSize < U32
  }

  ghost predicate TestsAt(n: nat, w: nat, blkSize: nat, k: nat) {
    && (LinkTest(k, w, blkSize, n * blkSize) <==> k + w < n)
    && forall i :: 1 <= i < w ==> (EntryTest(k, i, blkSize, n * blkSize) <==> k + i < n)
  }

  lemma LastRegion(n: nat, w: nat, k: nat)
    requires IsCmb(k, w) && k < n && n >= 2
    ensures k <= CmbOf(n - 1, w) < n && n <= CmbOf(n - 1, w) + w
  {
    Split(n - 1, w);
    Join(k, 0, w);
    hide IsCmb;
    RegionMono(k, n - 1, w);
  }

  lemma RegionMono(a: nat, b: nat, w: nat)
    requires 1 <= a <= b && w >= 2
    ensures CmbOf(a, w) <= CmbOf(b, w)
  {
    Arithmetic.DivMono(a - 1, b - 1, w);
    Arithmetic.DivMono(0, a - 1, w);
    Arithmetic.DivUnique(0, w, 0);
    MulMono((a - 1) / w, (b - 1) / w, w);
  }

  lemma MulMono(a: nat, b: nat, c: nat)
    requires a <= b
    ensures a * c <= b * c
  {
    assert (b - a) * c >= 0;
  }

  lemma SmallMod(x: int)
    requires 0 <= x < U32
    ensures x % U32 == x
  {
  }

  /** Without a wrap the tests say what they are meant to. */
  lemma TestsRight(n: nat, w: nat, blkSize: nat, k: nat)
    requires IsCmb(k, w) && k < n && NoWrap(n, w, blkSize) && blkSize > 0
    ensures TestsAt(n, w, blkSize, k)
  {
    hide IsCmb;
    LastRegion(n, w, k);
    var last := CmbOf(n - 1, w);
    MulMono(k + w, last + w, blkSize);
    SmallMod((k + w) * blkSize);
    MulLess(k + w, n, blkSize);
    forall i | 1 <= i < w
      ensures EntryTest(k, i, blkSize, n * blkSize) <==> k + i < n
    {
      MulMono(k - 1 + i, last + w, blkSize);
      SmallMod((k - 1 + i) * blkSize);
      LessOne(k + i, n, blkSize);
    }
  }

  /** The tests are right for every region of a volume below 4 GiB exactly if no
      product wraps around. */
  lemma TestsExact(n: nat, w: nat, blkSize: nat)
    requires n >= 2 && w >= 2 && blkSize == 4 * w < 0x1_0000 && n * blkSize < U32
    ensures (forall k: nat :: IsCmb(k, w) && k < n ==> TestsAt(n, w, blkSize, k)) <==> NoWrap(n, w, blkSize)
  {
    if NoWrap(n, w, blkSize) {
      forall k: nat | IsCmb(k, w) && k < n
        ensures TestsAt(n, w, blkSize, k)
      {
        TestsRight(n, w, blkSize, k);
      }
    } else {
      Split(n - 1, w);
      WrapsWrongly(n, w, blkSize, CmbOf(n - 1, w));
    }
  }

  lemma WrapsWrongly(n: nat, w: nat, blkSize: nat, k: nat)
    requires k < n && w > 0 && blkSize == 4 * w < 0x1_0000 && n * blkSize < U32 <= (k + w) * blkSize
    ensures !TestsAt(n, w, blkSize, k)
  {
    MulLess(k, n, blkSize);
    MulMono(w, 0x4000, blkSize);
    assert (k + w) * blkSize == k * blkSize + w * blkSize;
    Arithmetic.DivUnique((k + w) * blkSize, U32, 1);
    if k + w < n { MulLess(k + w, n, blkSize); }
  }

  lemma ZerosLength(w: nat)
    ensures |Zeros(w)| == w
  {
  }

  function Zeros(w: nat): (z: seq<int>)
    ensures |z| == w && forall i :: 0 <= i < w ==> z[i] == 0
  {
    seq(w, _ => 0)
  }

  lemma MulLess(a: nat, b: nat, c: nat)
    requires c > 0
    ensures a * c < b * c <==> a < b
  {
    if a < b {
      assert (b - a) * c > 0;
    } else {
      assert (a - b) * c >= 0;
    }
  }

  lemma LessOne(a: nat, b: nat, c: nat)
    requires c > 0
    ensures (a - 1) * c < b * c - c <==> a < b
  {
    MulLess(a, b, c);
    assert (a - 1) * c == a * c - c;
  }

  /** Map block l as hf_mkfs leaves it: all that the disk has is free. */
  ghost predicate NewRegion(d: seq<seq<int>>, w: nat, l: nat)
    requires Sized(d, w) && l < |d|
  {
    CmbOk(d, w, l) && forall i :: 1 <= i < w && l + i < |d| ==> d[l][i] == FREEBLK
  }

  lemma NewRegions(d: seq<seq<int>>, d': seq<seq<int>>, w: nat, k: nat, cmb: seq<int>)
    requires Sized(d, w) && Sized(d', w) && |d'| == |d| && k < |d| && IsCmb(k, w) && |cmb| == w
    requires forall l :: 0 <= l < k && IsCmb(l, w) ==> NewRegion(d, w, l)
    requires cmb[0] == NextCmb(k, w, |d|) && forall i :: 1 <= i < w ==> cmb[i] == if k + i < |d| then FREEBLK else FIXDBLK
    requires forall b :: 0 <= b < |d| ==> d'[b] == if k < b < k + w then Zeros(w) else d[k := cmb][b]
    ensures forall l :: 0 <= l < k + w && l < |d| && IsCmb(l, w) ==> NewRegion(d', w, l)
  {
    forall l | 0 <= l < k + w && l < |d| && IsCmb(l, w)
      ensures NewRegion(d', w, l)
    {
      if l < k {
        assert NewRegion(d, w, l);
        assert d'[l] == d[l];
      } else if l == k {
        assert d'[k] == cmb;
      } else {
        NotCmb(k, l - k, w);
      }
    }
  }

  lemma NewMap(d: seq<seq<int>>, w: nat)
    requires Sized(d, w) && forall l :: 0 <= l < |d| && IsCmb(l, w) ==> NewRegion(d, w, l)
    ensures Mapped(d, w)
    ensures forall b :: 0 <= b < |d| ==> Entries(d, w)[b] == if IsData(b, w) then FREEBLK else FIXDBLK
  {
    forall l | 0 <= l < |d| && IsCmb(l, w)
      ensures CmbOk(d, w, l)
    {
      assert NewRegion(d, w, l);
    }
    forall b | 0 <= b < |d|
      ensures EntryAt(d, w, b) == if IsData(b, w) then FREEBLK else FIXDBLK
    {
      if b >= 1 {
        Split(b, w);
        assert NewRegion(d, w, CmbOf(b, w));
      }
    }
  }

  lemma SizedFacts(d: seq<seq<int>>, w: nat)
    requires Sized(d, w)
    ensures w >= 2 && 3 <= |d| <= FIXDBLK
  {
  }

  lemma SecondData(w: nat)
    requires w >= 2
    ensures IsData(2, w) && !IsCmb(2, w) && IsCmb(1, w) && !IsCmb(0, w)
  {
    FirstCmb(w);
    NotCmb(1, 1, w);
    Join(1, 1, w);
  }

  lemma RootChain(m: seq<int>)
    requires 2 < |m| <= FIXDBLK && m[2] == EOCHBLK
    requires forall b :: 0 <= b < |m| && b != 2 ==> m[b] == FREEBLK || m[b] == FIXDBLK
    ensures ChainsOk(m, [[2]])
  {
    assert [[2]][0] == [2];
    forall b: nat
      ensures Used(m, b) <==> OnChain([[2]], b)
    {
      if b == 2 { assert b in [[2]][0]; }
    }
  }

  lemma FirstCmb(w: nat)
    requires w >= 2
    ensures IsCmb(1, w)
  {
    Arithmetic.DivUnique(0, w, 0);
  }

  lemma NoneBelowFirst(d: seq<seq<int>>, w: nat)
    requires Sized(d, w)
    ensures NoneFree(Entries(d, w), 1)
  {
  }

  lemma NotCmb(k: nat, j: nat, w: nat)
    requires IsCmb(k, w) && 1 <= j < w
    ensures !IsCmb(k + j, w)
  {
    Join(k, j, w);
  }

  lemma CmbAt(d: seq<seq<int>>, w: nat, k: nat)
    requires Mapped(d, w) && IsCmb(k, w) && k < |d|
    ensures d[k][0] == NextCmb(k, w, |d|)
  {
    assert CmbOk(d, w, k);
  }

  lemma CountBelowFirst(d: seq<seq<int>>, w: nat)
    requires Sized(d, w)
    ensures CountFree(Entries(d, w), 1) == 0
  {
    assert CountFree(Entries(d, w), 0) == 0;
  }

  lemma FreeIffNone(m: seq<int>)
    ensures NoneFree(m, |m|) <==> CountFree(m, |m|) == 0
  {
    CountPositive(m, |m|);
  }

  lemma SplitData(d: seq<seq<int>>, w: nat, b: nat)
    requires Sized(d, w) && b < |d| && Entries(d, w)[b] != FIXDBLK
    ensures 1 <= CmbOf(b, w) < |d| && |d[CmbOf(b, w)]| == w && IsCmb(CmbOf(b, w), w)
    ensures 1 <= IdxOf(b, w) < w && CmbOf(b, w) + IdxOf(b, w) == b
    ensures Entries(d, w)[b] == d[CmbOf(b, w)][IdxOf(b, w)]
  {
    Split(b, w);
  }

  lemma NoneFreed(m: seq<int>)
    ensures FreeAll(m, []) == m
  {
  }

  lemma FreeOneMore(m: seq<int>, c: seq<nat>, x: nat)
    requires x < |c| && InMap(m, c)
    ensures InMap(m, c[..x]) && InMap(m, c[..x + 1]) && c[x] in c
    ensures FreeAll(m, c[..x + 1]) == FreeAll(m, c[..x])[c[x] := FREEBLK]
  {
    assert c[x] in c;
    assert c[..x + 1] == c[..x] + [c[x]];
    assert forall b :: b in c[..x + 1] ==> b in c;
    assert forall b :: b in c[..x] ==> b in c;
  }

  /** The first x blocks of a chain are freed: block x still has its link. */
  lemma NotYetFreed(m: seq<int>, chains: seq<seq<nat>>, i: nat, x: nat)
    requires ChainsOk(m, chains) && i < |chains| && x < |chains[i]|
    ensures InMap(m, chains[i]) && InMap(m, chains[i][..x]) && InMap(m, chains[i][..x + 1])
    ensures var c := chains[i];
      && c[x] < |m| && FreeAll(m, c[..x])[c[x]] == m[c[x]] && m[c[x]] != FIXDBLK
      && FreeAll(m, c[..x + 1]) == FreeAll(m, c[..x])[c[x] := FREEBLK]
      && (if x == |c| - 1 then m[c[x]] == EOCHBLK else m[c[x]] == c[x + 1] && c[x + 1] < |m| <= FIXDBLK)
  {
    var c := chains[i];
    assert Chain(m, c);
    forall b | b in c
      ensures b < |m|
    {
      ChainUsed(m, chains, i, b);
    }
    assert c[x] in c;
    ChainUsed(m, chains, i, c[x]);
    FreeOneMore(m, c, x);
    assert c[x] !in c[..x];
  }
}
