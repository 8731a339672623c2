/**
 The invariant of a mounted filesystem: free counts agree with the bitmaps on the device, nothing that is in use is
 free, different inodes own different blocks, and every directory is a row of well-formed blocks. The lemmas say what
 each kind of write keeps.
 */
module Invariant {
  import opened Bytes
  import opened Bitmap
  import opened Extent
  import opened ExtentTree
  import opened InodeRecord
  import opened Layout
  import opened FileTree
  import opened DirRow

  /** The counters held in memory: per group, and in the superblock. */
  datatype Counts = Counts(blockFree: seq<nat>, inodeFree: seq<nat>, usedDirs: seq<nat>, sbBlocks: nat, sbInodes: nat)

  /** The live inodes, each with the blocks that reading it can touch. */
  type Owners = map<nat, set<nat>>

  function Sum(s: seq<nat>): nat {
    if s == [] then 0 else Sum(s[..|s| - 1]) + s[|s| - 1]
  }

  lemma {:induction false} SumUpdate(s: seq<nat>, k: nat, v: nat)
    requires k < |s|
    ensures Sum(s[k := v]) == Sum(s) - s[k] + v
  {
    if k == |s| - 1 {
      assert s[k := v][..k] == s[..k];
    } else {
      assert s[k := v][..|s| - 1] == s[..|s| - 1][k := v];
      SumUpdate(s[..|s| - 1], k, v);
    }
  }

  /** The block, or the inode number, that bit `i` of group `k` stands for. */
  function BlockAt(g: Geometry, k: nat, i: nat): nat { OffsetOf(k, g.blocksPerGroup) + g.firstDataBlock + i }

  function InodeAt(g: Geometry, k: nat, i: nat): nat { OffsetOf(k, g.inodesPerGroup) + i + 1 }

  /** Block `b` stands for a bit of the group that holds it, */
  lemma BlockPlace(g: Geometry, b: nat)
    requires g.blocksPerGroup > 0 && g.firstDataBlock <= b
    ensures BlockAt(g, (b - g.firstDataBlock) / g.blocksPerGroup, (b - g.firstDataBlock) % g.blocksPerGroup) == b
  {
    hide OffsetOf;
    OffsetSplit(b - g.firstDataBlock, g.blocksPerGroup);
  }

  /** ... and bit `i` of group `k` for record `i` of the inode table of that group. */
  lemma InodePlace(g: Geometry, k: nat, i: nat)
    requires k < |g.loc| && i < g.inodesPerGroup
    ensures var ino := InodeAt(g, k, i);
      && g.GroupOf(ino) == k && g.IndexOf(ino) == i
      && g.InodeOffset(ino) == OffsetOf(g.loc[k].inodeTable, g.blockSize) + OffsetOf(i, g.inodeSize)
  {
    hide OffsetOf;
    var ino := InodeAt(g, k, i);
    OffsetSplit(ino - 1, g.inodesPerGroup);
    PositionsDistinct(g.inodesPerGroup, g.GroupOf(ino), g.IndexOf(ino), k, i);
  }

  /** (group, bit) to absolute number is injective across groups. */
  lemma PositionsDistinct(size: nat, j: nat, a: nat, k: nat, b: nat)
    requires a < size && b < size && OffsetOf(j, size) + a == OffsetOf(k, size) + b
    ensures j == k && a == b
  {
    OffsetsOrdered(j, k, size);
    OffsetsOrdered(k, j, size);
  }

  ghost predicate FreeBlockBit(g: Geometry, blocks: Blocks, k: nat, i: nat) {
    k < |g.loc| && i < g.blocksPerGroup && g.loc[k].blockBitmap in blocks && !IsSet(blocks[g.loc[k].blockBitmap], i)
  }

  ghost predicate FreeInodeBit(g: Geometry, blocks: Blocks, k: nat, i: nat) {
    k < |g.loc| && i < g.inodesPerGroup && g.loc[k].inodeBitmap in blocks && !IsSet(blocks[g.loc[k].inodeBitmap], i)
  }

  ghost predicate ViewOk(g: Geometry, w: View) {
    && BlocksOfSize(w.blocks, g.blockSize)
    && (forall b :: 0 <= b < g.totalBlocks ==> b in w.blocks)
    && (forall ino :: ino in w.inodes <==> 1 <= ino <= g.InodeCount())
  }

  /** Each group's counters are the clear bits of its bitmaps, and the superblock's are their sums. */
  ghost predicate CountsOk(g: Geometry, blocks: Blocks, c: Counts) {
    && |c.blockFree| == |g.loc| && |c.inodeFree| == |g.loc| && |c.usedDirs| == |g.loc|
    && (forall k :: 0 <= k < |g.loc| ==>
      && g.loc[k].blockBitmap in blocks && c.blockFree[k] == CountClear(blocks[g.loc[k].blockBitmap], g.blocksPerGroup)
      && g.loc[k].inodeBitmap in blocks && c.inodeFree[k] == CountClear(blocks[g.loc[k].inodeBitmap], g.inodesPerGroup))
    && c.sbBlocks == Sum(c.blockFree) && c.sbInodes == Sum(c.inodeFree)
    && Sum(c.usedDirs) + Sum(c.inodeFree) <= g.InodeCount()
  }

  /** No live inode owns block `b`. */
  ghost predicate Unowned(own: Owners, b: nat) {
    forall ino :: ino in own ==> b !in own[ino]
  }

  ghost predicate NotFree(g: Geometry, blocks: Blocks, b: nat) {
    forall k: nat, i: nat :: FreeBlockBit(g, blocks, k, i) ==> BlockAt(g, k, i) != b
  }

  /** What a clear bit stands for is not metadata, not padding, and not in use. */
  ghost predicate FreeIsUnused(g: Geometry, blocks: Blocks, own: Owners) {
    && g.blockSize > 0
    && (forall k: nat, i: nat :: FreeBlockBit(g, blocks, k, i) ==>
      g.Usable(BlockAt(g, k, i)) && Unowned(own, BlockAt(g, k, i)))
    && (forall k: nat, i: nat :: FreeInodeBit(g, blocks, k, i) ==> InodeAt(g, k, i) !in own)
  }

  ghost predicate OwnersOk(g: Geometry, own: Owners) {
    && g.blockSize > 0
    && ROOT_INODE in own
    && (forall ino :: ino in own ==> 1 <= ino <= g.InodeCount() && forall b :: b in own[ino] ==> g.Usable(b))
    && (forall i, j :: i in own && j in own && i != j ==> own[i] !! own[j])
  }

  /** The root node of an inode holds no more entries than fit in `i_block`. */
  predicate RootFits(n: Inode) {
    n.Header().Some? && n.Header().value.IsLeaf() ==> n.Header().value.max <= ROOT_MAX_ENTRIES
  }

  ghost predicate DirOk(blocks: Blocks, n: Inode, live: set<nat>) {
    match ResolveExtents(blocks, n)
    case Ok(leaves) =>
      RowOk(blocks, DataBlocks(leaves), live) && forall b :: b in DataBlocks(leaves) ==> b !in TreeNodes(blocks, n)
    case Err(_) => true
  }

  ghost predicate InodeOk(w: View, own: Owners, ino: nat) {
    && ino in own && ino in w.inodes
    && own[ino] == Footprint(w.blocks, w.inodes[ino])
    && RootFits(w.inodes[ino])
    && (w.inodes[ino].IsDir() ==> DirOk(w.blocks, w.inodes[ino], own.Keys))
  }

  ghost predicate Inv(g: Geometry, w: View, c: Counts, own: Owners) {
    && g.Ok()
    && ViewOk(g, w)
    && CountsOk(g, w.blocks, c)
    && FreeIsUnused(g, w.blocks, own)
    && OwnersOk(g, own)
    && forall ino {:trigger InodeOk(w, own, ino)} :: ino in own ==> InodeOk(w, own, ino)
  }

  // --- What stays the same ---

  /** Every live inode outside `except` keeps its record and the contents of its blocks. */
  ghost predicate OthersKept(v: View, before: Owners, w: View, after: Owners, except: set<nat>) {
    && before.Keys <= after.Keys
    && forall ino :: ino in before && ino !in except ==>
      && after[ino] == before[ino]
      && ino in v.inodes && ino in w.inodes && w.inodes[ino] == v.inodes[ino]
      && SameOn(v.blocks, w.blocks, before[ino])
  }

  lemma OthersKeptTrans(u: View, a: Owners, v: View, b: Owners, w: View, c: Owners, x: set<nat>, y: set<nat>,
                        z: set<nat>)
    requires OthersKept(u, a, v, b, x) && OthersKept(v, b, w, c, y) && x <= z && (y * a.Keys) <= z
    ensures OthersKept(u, a, w, c, z)
  {
    forall ino | ino in a && ino !in z
      ensures c[ino] == a[ino] && ino in u.inodes && ino in w.inodes && w.inodes[ino] == u.inodes[ino]
        && SameOn(u.blocks, w.blocks, a[ino])
    {
      assert ino in b && ino !in y;
    }
  }

  /** Blocks a file or directory may use, and all inode records, are untouched. */
  ghost predicate UsableKept(g: Geometry, v: View, w: View) {
    && g.blockSize > 0
    && w.inodes == v.inodes && w.blocks.Keys == v.blocks.Keys
    && forall b :: b in v.blocks && g.Usable(b) ==> w.blocks[b] == v.blocks[b]
  }

  lemma KeptInode(v: View, before: Owners, w: View, after: Owners, ino: nat)
    requires InodeOk(v, before, ino) && before.Keys <= after.Keys && ino in after && after[ino] == before[ino]
    requires ino in w.inodes && w.inodes[ino] == v.inodes[ino] && SameOn(v.blocks, w.blocks, before[ino])
    ensures InodeOk(w, after, ino)
  {
    hide TreeNodes, DataSet, ResolveExtents, DataBlocks, RowOk, RootFits, Inode.IsDir;
    var n := v.inodes[ino];
    TreeFrame(v.blocks, w.blocks, n);
    if n.IsDir() && ResolveExtents(v.blocks, n).Ok? {
      var row := DataBlocks(ResolveExtents(v.blocks, n).value);
      RowIsOwned(v.blocks, n);
      RowFrame(v.blocks, w.blocks, row, before.Keys, after.Keys);
    }
  }

  lemma RowIsOwned(blocks: Blocks, n: Inode)
    requires ResolveExtents(blocks, n).Ok?
    ensures forall b | b in DataBlocks(ResolveExtents(blocks, n).value) :: b in Footprint(blocks, n)
    ensures forall b | b in Footprint(blocks, n) ::
      b in TreeNodes(blocks, n) || b in DataBlocks(ResolveExtents(blocks, n).value)
  {
    hide TreeNodes, ResolveExtents, DataBlocks;
  }

  lemma RowFrame(a: Blocks, b: Blocks, row: seq<nat>, live: set<nat>, more: set<nat>)
    requires RowOk(a, row, live) && live <= more
    requires forall x | x in row :: x in a ==> x in b && a[x] == b[x]
    ensures RowOk(b, row, more)
  {
    hide DirBlockOk;
    RowOkMonotone(a, row, live, more);
  }

  /** When every owner keeps what it owns, every inode stays well formed. */
  lemma KeptInodes(v: View, before: Owners, w: View, after: Owners, except: set<nat>)
    requires forall ino :: ino in before ==> InodeOk(v, before, ino)
    requires OthersKept(v, before, w, after, except)
    ensures forall ino :: ino in before && ino !in except ==> InodeOk(w, after, ino)
  {
    hide InodeOk, SameOn;
    forall ino | ino in before && ino !in except
      ensures InodeOk(w, after, ino)
    {
      KeptInode(v, before, w, after, ino);
    }
  }

  lemma UsableKeptMeansKept(g: Geometry, v: View, w: View, own: Owners)
    requires UsableKept(g, v, w) && OwnersOk(g, own) && ViewOk(g, v)
    ensures OthersKept(v, own, w, own, {})
  {
    hide Geometry.Usable, Geometry.InodeCount, BlocksOfSize;
  }

  // --- Allocation ---

  /** The blocks after bit `i` of the bitmap in block `at` is set. */
  function WithBitSet(blocks: Blocks, at: nat, i: nat): (r: Blocks)
    requires at in blocks
    ensures r.Keys == blocks.Keys && |r[at]| == |blocks[at]|
    ensures forall b :: b in blocks && b != at ==> r[b] == blocks[b]
  {
    blocks[at := WithBit(blocks[at], i)]
  }

  lemma BitmapBlocks(g: Geometry, k: nat)
    requires g.Ok() && k < |g.loc|
    ensures g.loc[k].blockBitmap < g.totalBlocks && g.loc[k].inodeBitmap < g.totalBlocks
    ensures !g.Usable(g.loc[k].blockBitmap) && !g.Usable(g.loc[k].inodeBitmap)
    ensures !g.InSomeTable(g.loc[k].blockBitmap) && !g.InSomeTable(g.loc[k].inodeBitmap)
    ensures g.blocksPerGroup <= 8 * g.blockSize && g.inodesPerGroup <= 8 * g.blockSize
    ensures forall j :: 0 <= j < |g.loc| ==>
      g.loc[j].blockBitmap != g.loc[k].inodeBitmap && g.loc[k].blockBitmap != g.loc[j].inodeBitmap
    ensures forall j :: 0 <= j < |g.loc| && j != k ==>
      g.loc[j].blockBitmap != g.loc[k].blockBitmap && g.loc[j].inodeBitmap != g.loc[k].inodeBitmap
  {
    hide Geometry.TableLen, Geometry.InodeCount;
  }

  lemma BitmapWriteKeeps(g: Geometry, w: View, own: Owners, at: nat, i: nat)
    requires g.Ok() && ViewOk(g, w) && at in w.blocks && !g.Usable(at)
    ensures UsableKept(g, w, w.(blocks := WithBitSet(w.blocks, at, i)))
      && ViewOk(g, w.(blocks := WithBitSet(w.blocks, at, i)))
  {
    hide Geometry.Usable, Geometry.InodeCount, WithBitSet, Geometry.TableLen;
    var r := WithBitSet(w.blocks, at, i);
    assert g.blockSize > 0;
    forall b | b in r ensures |r[b]| == g.blockSize { assert |w.blocks[b]| == g.blockSize; }
  }

  lemma CountAt(blocks: Blocks, at: nat, i: nat, n: nat)
    requires at in blocks && i < n <= 8 * |blocks[at]| && !IsSet(blocks[at], i)
    ensures CountClear(WithBitSet(blocks, at, i)[at], n) == CountClear(blocks[at], n) - 1
  {
    CountAfterSet(blocks[at], i, n);
  }

  /** Taking the free block that bit `i` of group `k` stands for. */
  function BlockTaken(g: Geometry, w: View, k: nat, i: nat): View
    requires k < |g.loc| && g.loc[k].blockBitmap in w.blocks
  {
    w.(blocks := WithBitSet(w.blocks, g.loc[k].blockBitmap, i))
  }

  function InodeTaken(g: Geometry, w: View, k: nat, i: nat): View
    requires k < |g.loc| && g.loc[k].inodeBitmap in w.blocks
  {
    w.(blocks := WithBitSet(w.blocks, g.loc[k].inodeBitmap, i))
  }

  lemma FreeBitsAfterBlock(g: Geometry, w: View, k: nat, i: nat)
    requires g.Ok() && ViewOk(g, w) && FreeBlockBit(g, w.blocks, k, i)
    ensures forall j: nat, a: nat {:trigger FreeBlockBit(g, BlockTaken(g, w, k, i).blocks, j, a)} ::
      FreeBlockBit(g, BlockTaken(g, w, k, i).blocks, j, a) <==> FreeBlockBit(g, w.blocks, j, a) && !(j == k && a == i)
    ensures forall j: nat, a: nat :: FreeInodeBit(g, BlockTaken(g, w, k, i).blocks, j, a) <==>
      FreeInodeBit(g, w.blocks, j, a)
  {
    hide IsSet, Geometry.Ok, ViewOk;
    BitmapBlocks(g, k);
    assert |w.blocks[g.loc[k].blockBitmap]| == g.blockSize by { InBlocks(g, w, k); }
  }

  lemma InBlocks(g: Geometry, w: View, k: nat)
    requires g.Ok() && ViewOk(g, w) && k < |g.loc|
    ensures g.loc[k].blockBitmap in w.blocks && |w.blocks[g.loc[k].blockBitmap]| == g.blockSize
    ensures g.loc[k].inodeBitmap in w.blocks && |w.blocks[g.loc[k].inodeBitmap]| == g.blockSize
  {
    BitmapBlocks(g, k);
  }

  lemma FreeBitsAfterInode(g: Geometry, w: View, k: nat, i: nat)
    requires g.Ok() && ViewOk(g, w) && FreeInodeBit(g, w.blocks, k, i)
    ensures forall j: nat, a: nat {:trigger FreeInodeBit(g, InodeTaken(g, w, k, i).blocks, j, a)} ::
      FreeInodeBit(g, InodeTaken(g, w, k, i).blocks, j, a) <==> FreeInodeBit(g, w.blocks, j, a) && !(j == k && a == i)
    ensures forall j: nat, a: nat :: FreeBlockBit(g, InodeTaken(g, w, k, i).blocks, j, a) <==>
      FreeBlockBit(g, w.blocks, j, a)
  {
    hide IsSet, Geometry.Ok, ViewOk;
    BitmapBlocks(g, k);
    assert |w.blocks[g.loc[k].inodeBitmap]| == g.blockSize by { InBlocks(g, w, k); }
  }

  function CountBlock(c: Counts, k: nat): Counts
    requires k < |c.blockFree| && c.blockFree[k] > 0 && c.sbBlocks > 0
  {
    c.(blockFree := c.blockFree[k := c.blockFree[k] - 1], sbBlocks := c.sbBlocks - 1)
  }

  function CountInode(c: Counts, k: nat): Counts
    requires k < |c.inodeFree| && c.inodeFree[k] > 0 && c.sbInodes > 0
  {
    c.(inodeFree := c.inodeFree[k := c.inodeFree[k] - 1], sbInodes := c.sbInodes - 1)
  }

  lemma {:induction false} SumAtLeast(s: seq<nat>, k: nat)
    requires k < |s|
    ensures Sum(s) >= s[k]
  {
    if k < |s| - 1 {
      SumAtLeast(s[..|s| - 1], k);
    }
  }

  lemma CountsAfterBlock(g: Geometry, w: View, c: Counts, k: nat, i: nat)
    requires g.Ok() && ViewOk(g, w) && CountsOk(g, w.blocks, c) && FreeBlockBit(g, w.blocks, k, i)
    ensures c.blockFree[k] > 0 && c.sbBlocks > 0
    ensures CountsOk(g, BlockTaken(g, w, k, i).blocks, CountBlock(c, k))
  {
    hide IsSet, Geometry.Ok, ViewOk, CountClear, WithBitSet, Geometry.InodeCount, Sum;
    BitmapBlocks(g, k);
    InBlocks(g, w, k);
    CountAt(w.blocks, g.loc[k].blockBitmap, i, g.blocksPerGroup);
    SumAtLeast(c.blockFree, k);
    SumUpdate(c.blockFree, k, c.blockFree[k] - 1);
  }

  lemma CountsAfterInode(g: Geometry, w: View, c: Counts, k: nat, i: nat)
    requires g.Ok() && ViewOk(g, w) && CountsOk(g, w.blocks, c) && FreeInodeBit(g, w.blocks, k, i)
    ensures c.inodeFree[k] > 0 && c.sbInodes > 0
    ensures CountsOk(g, InodeTaken(g, w, k, i).blocks, CountInode(c, k))
    ensures Sum(c.usedDirs) + Sum(CountInode(c, k).inodeFree) < g.InodeCount()
  {
    hide IsSet, Geometry.Ok, ViewOk, CountClear, WithBitSet, Geometry.InodeCount, Sum;
    BitmapBlocks(g, k);
    InBlocks(g, w, k);
    CountAt(w.blocks, g.loc[k].inodeBitmap, i, g.inodesPerGroup);
    SumAtLeast(c.inodeFree, k);
    SumUpdate(c.inodeFree, k, c.inodeFree[k] - 1);
  }

  /** A block that may be given to an inode: usable, owned by nobody, and marked allocated. */
  ghost predicate Loose(g: Geometry, w: View, own: Owners, b: nat) {
    g.blockSize > 0 && g.Usable(b) && Unowned(own, b) && NotFree(g, w.blocks, b)
  }

  /** An inode number that may become live. */
  ghost predicate LooseInode(g: Geometry, w: View, own: Owners, ino: nat) {
    1 <= ino <= g.InodeCount() && ino !in own
      && forall k: nat, i: nat :: FreeInodeBit(g, w.blocks, k, i) ==> InodeAt(g, k, i) != ino
  }

  /** Allocating a block keeps the invariant, and the block handed out was in use by nobody. */
  lemma TakeBlock(g: Geometry, w: View, c: Counts, own: Owners, k: nat, i: nat)
    requires Inv(g, w, c, own) && FreeBlockBit(g, w.blocks, k, i)
    ensures c.blockFree[k] > 0 && c.sbBlocks > 0
    ensures Inv(g, BlockTaken(g, w, k, i), CountBlock(c, k), own)
    ensures UsableKept(g, w, BlockTaken(g, w, k, i)) && OthersKept(w, own, BlockTaken(g, w, k, i), own, {})
    ensures Loose(g, BlockTaken(g, w, k, i), own, BlockAt(g, k, i))
  {
    hide Geometry.Ok, ViewOk, CountsOk, UsableKept, InodeOk, OwnersOk, FreeBlockBit, FreeInodeBit, OthersKept,
      Geometry.Usable, Unowned;
    BlockBitInBlocks(g, w, k, i);
    var v := BlockTaken(g, w, k, i);
    BitmapBlocks(g, k);
    BitmapWriteKeeps(g, w, own, g.loc[k].blockBitmap, i);
    UsableKeptMeansKept(g, w, v, own);
    KeptInodes(w, own, v, own, {});
    CountsAfterBlock(g, w, c, k, i);
    FreeBitsAfterBlock(g, w, k, i);
    forall j: nat, a: nat | FreeBlockBit(g, v.blocks, j, a)
      ensures BlockAt(g, j, a) != BlockAt(g, k, i)
    {
      if BlockAt(g, j, a) == BlockAt(g, k, i) {
        BitsBounded(g, v.blocks, j, a);
        BitsBounded(g, w.blocks, k, i);
        PositionsDistinct(g.blocksPerGroup, j, a, k, i);
      }
    }
  }

  lemma BlockBitInBlocks(g: Geometry, w: View, k: nat, i: nat)
    ensures FreeBlockBit(g, w.blocks, k, i) ==> k < |g.loc| && g.loc[k].blockBitmap in w.blocks
    ensures FreeInodeBit(g, w.blocks, k, i) ==> k < |g.loc| && g.loc[k].inodeBitmap in w.blocks
  {
  }

  lemma BitsBounded(g: Geometry, blocks: Blocks, k: nat, i: nat)
    ensures FreeBlockBit(g, blocks, k, i) ==> k < |g.loc| && i < g.blocksPerGroup
    ensures FreeInodeBit(g, blocks, k, i) ==> k < |g.loc| && i < g.inodesPerGroup
  {
  }

  lemma TakeInode(g: Geometry, w: View, c: Counts, own: Owners, k: nat, i: nat)
    requires Inv(g, w, c, own) && FreeInodeBit(g, w.blocks, k, i)
    ensures c.inodeFree[k] > 0 && c.sbInodes > 0
    ensures Inv(g, InodeTaken(g, w, k, i), CountInode(c, k), own)
    ensures Sum(c.usedDirs) + Sum(CountInode(c, k).inodeFree) < g.InodeCount()
    ensures UsableKept(g, w, InodeTaken(g, w, k, i)) && OthersKept(w, own, InodeTaken(g, w, k, i), own, {})
    ensures LooseInode(g, InodeTaken(g, w, k, i), own, InodeAt(g, k, i))
  {
    hide Geometry.Ok, ViewOk, CountsOk, UsableKept, InodeOk, OwnersOk, FreeBlockBit, FreeInodeBit, OthersKept,
      Geometry.Usable, Unowned, Sum;
    BlockBitInBlocks(g, w, k, i);
    var v := InodeTaken(g, w, k, i);
    BitmapBlocks(g, k);
    BitmapWriteKeeps(g, w, own, g.loc[k].inodeBitmap, i);
    UsableKeptMeansKept(g, w, v, own);
    KeptInodes(w, own, v, own, {});
    CountsAfterInode(g, w, c, k, i);
    FreeBitsAfterInode(g, w, k, i);
    InodeAtBounded(g, w.blocks, k, i);
    forall j: nat, a: nat | FreeInodeBit(g, v.blocks, j, a)
      ensures InodeAt(g, j, a) != InodeAt(g, k, i)
    {
      if InodeAt(g, j, a) == InodeAt(g, k, i) {
        BitsBounded(g, v.blocks, j, a);
        BitsBounded(g, w.blocks, k, i);
        PositionsDistinct(g.inodesPerGroup, j, a, k, i);
      }
    }
  }

  lemma InodeAtBounded(g: Geometry, blocks: Blocks, k: nat, i: nat)
    requires FreeInodeBit(g, blocks, k, i)
    ensures 1 <= InodeAt(g, k, i) <= g.InodeCount()
  {
    OffsetsOrdered(k, |g.loc|, g.inodesPerGroup);
  }

  // --- Writing blocks and inode records ---

  ghost predicate SameBitmaps(g: Geometry, a: Blocks, b: Blocks) {
    forall k :: 0 <= k < |g.loc| ==>
      && g.loc[k].blockBitmap in a && g.loc[k].blockBitmap in b && a[g.loc[k].blockBitmap] == b[g.loc[k].blockBitmap]
      && g.loc[k].inodeBitmap in a && g.loc[k].inodeBitmap in b && a[g.loc[k].inodeBitmap] == b[g.loc[k].inodeBitmap]
  }

  lemma SameFreeBits(g: Geometry, a: Blocks, b: Blocks)
    requires SameBitmaps(g, a, b)
    ensures forall k: nat, i: nat :: FreeBlockBit(g, a, k, i) <==> FreeBlockBit(g, b, k, i)
    ensures forall k: nat, i: nat :: FreeInodeBit(g, a, k, i) <==> FreeInodeBit(g, b, k, i)
  {
    hide IsSet;
  }

  lemma SameCounts(g: Geometry, a: Blocks, b: Blocks, c: Counts)
    requires SameBitmaps(g, a, b) && CountsOk(g, a, c)
    ensures CountsOk(g, b, c)
  {
    hide CountClear, Sum, Geometry.InodeCount;
  }

  /** Nothing free is owned after the change either. */
  ghost predicate FreeStaysUnused(g: Geometry, blocks: Blocks, own: Owners) {
    && (forall k: nat, i: nat :: FreeBlockBit(g, blocks, k, i) ==> Unowned(own, BlockAt(g, k, i)))
    && (forall k: nat, i: nat :: FreeInodeBit(g, blocks, k, i) ==> InodeAt(g, k, i) !in own)
  }

  /** A change that leaves the bitmaps alone keeps the invariant if it does so for the inodes it touches. */
  lemma ChangeKeepsInv(g: Geometry, v: View, c: Counts, before: Owners, w: View, after: Owners, touched: set<nat>)
    requires Inv(g, v, c, before) && ViewOk(g, w) && SameBitmaps(g, v.blocks, w.blocks)
    requires OwnersOk(g, after) && FreeStaysUnused(g, v.blocks, after) && OthersKept(v, before, w, after, touched)
    requires forall ino :: ino in after && (ino in touched || ino !in before) ==> InodeOk(w, after, ino)
    ensures Inv(g, w, c, after)
  {
    hide Geometry.Ok, ViewOk, InodeOk, OwnersOk, FreeBlockBit, FreeInodeBit, OthersKept, Geometry.Usable, Unowned,
      SameBitmaps, CountsOk, BlockAt, InodeAt;
    SameFreeBits(g, v.blocks, w.blocks);
    SameCounts(g, v.blocks, w.blocks, c);
    KeptInodes(v, before, w, after, touched);
    assert OthersKept(v, before, w, after, touched);
    assert forall ino :: ino in after ==> InodeOk(w, after, ino);
  }

  lemma LooseFacts(g: Geometry, w: View, own: Owners)
    requires FreeIsUnused(g, w.blocks, own)
    ensures FreeStaysUnused(g, w.blocks, own)
  {
    hide FreeBlockBit, FreeInodeBit, Unowned, BlockAt, InodeAt, Geometry.Usable;
  }

  /** Writing a usable block that is nobody's, or that belongs to inode `ino` alone. */
  lemma BlockWriteFacts(g: Geometry, w: View, own: Owners, b: nat, data: seq<byte>)
    requires g.Ok() && ViewOk(g, w) && g.Usable(b) && |data| == g.blockSize
    ensures b in w.blocks && !g.InSomeTable(b)
    ensures ViewOk(g, w.(blocks := w.blocks[b := data])) && SameBitmaps(g, w.blocks, w.blocks[b := data])
  {
    hide Geometry.TableLen, Geometry.InodeCount;
    var v := w.blocks[b := data];
    forall k | 0 <= k < |g.loc|
      ensures g.loc[k].blockBitmap in w.blocks && g.loc[k].blockBitmap != b
      ensures g.loc[k].inodeBitmap in w.blocks && g.loc[k].inodeBitmap != b
    {
      BitmapBlocks(g, k);
    }
    forall x | x in v ensures |v[x]| == g.blockSize { assert x != b ==> |w.blocks[x]| == g.blockSize; }
  }

  lemma WriteUnowned(g: Geometry, w: View, c: Counts, own: Owners, b: nat, data: seq<byte>)
    requires Inv(g, w, c, own) && g.Usable(b) && Unowned(own, b) && |data| == g.blockSize
    ensures Inv(g, w.(blocks := w.blocks[b := data]), c, own)
    ensures OthersKept(w, own, w.(blocks := w.blocks[b := data]), own, {})
    ensures SameBitmaps(g, w.blocks, w.blocks[b := data])
  {
    hide Geometry.Ok, ViewOk, OwnersOk, FreeBlockBit, FreeInodeBit, Geometry.Usable, CountsOk, FreeIsUnused,
      FreeStaysUnused, Footprint, RootFits, DirOk, SameBitmaps, Inode.IsDir;
    var v := w.(blocks := w.blocks[b := data]);
    assert forall ino :: ino in own ==> InodeOk(w, own, ino);
    BlockWriteFacts(g, w, own, b, data);
    LooseFacts(g, w, own);
    ChangeKeepsInv(g, w, c, own, v, own, {});
  }

  /** Writing a block that inode `ino` owns; `ino` itself must be shown well formed afterwards. */
  lemma WriteOwned(g: Geometry, w: View, c: Counts, own: Owners, ino: nat, b: nat, data: seq<byte>)
    requires Inv(g, w, c, own) && ino in own && b in own[ino] && |data| == g.blockSize
    requires InodeOk(w.(blocks := w.blocks[b := data]), own, ino)
    ensures g.Usable(b)
    ensures Inv(g, w.(blocks := w.blocks[b := data]), c, own)
    ensures OthersKept(w, own, w.(blocks := w.blocks[b := data]), own, {ino})
  {
    hide Geometry.Ok, ViewOk, FreeBlockBit, FreeInodeBit, Geometry.Usable, CountsOk, FreeIsUnused, FreeStaysUnused,
      Footprint, RootFits, DirOk, SameBitmaps, Inode.IsDir, Geometry.InodeCount;
    var v := w.(blocks := w.blocks[b := data]);
    assert forall j :: j in own ==> InodeOk(w, own, j);
    BlockWriteFacts(g, w, own, b, data);
    LooseFacts(g, w, own);
    ChangeKeepsInv(g, w, c, own, v, own, {ino});
  }

  /** A record write: the maps agree except on record `ino` and on blocks of inode tables. */
  ghost predicate RecordWritten(g: Geometry, v: View, w: View, ino: nat, n: Inode) {
    && g.blockSize > 0
    && w.inodes == v.inodes[ino := n] && w.blocks.Keys == v.blocks.Keys
    && (forall b :: b in v.blocks ==> |w.blocks[b]| == |v.blocks[b]|)
    && forall b :: b in v.blocks && !g.InSomeTable(b) ==> w.blocks[b] == v.blocks[b]
  }

  /** Blocks that may make up the new footprint of `ino`. */
  ghost predicate MayOwn(g: Geometry, w: View, own: Owners, ino: nat, s: set<nat>) {
    && g.blockSize > 0
    && forall b :: b in s ==>
      g.Usable(b) && NotFree(g, w.blocks, b) && forall j :: j in own && j != ino ==> b !in own[j]
  }

  lemma RecordWriteFacts(g: Geometry, v: View, w: View, own: Owners, ino: nat, n: Inode)
    requires g.Ok() && ViewOk(g, v) && RecordWritten(g, v, w, ino, n) && 1 <= ino <= g.InodeCount() && OwnersOk(g, own)
    ensures ViewOk(g, w) && SameBitmaps(g, v.blocks, w.blocks)
    ensures forall j :: j in own && j != ino ==>
      j in v.inodes && j in w.inodes && w.inodes[j] == v.inodes[j] && SameOn(v.blocks, w.blocks, own[j])
  {
    hide Geometry.TableLen, Geometry.InodeCount, Geometry.InTable;
    forall k | 0 <= k < |g.loc|
      ensures g.loc[k].blockBitmap in v.blocks && !g.InSomeTable(g.loc[k].blockBitmap)
      ensures g.loc[k].inodeBitmap in v.blocks && !g.InSomeTable(g.loc[k].inodeBitmap)
    {
      BitmapBlocks(g, k);
    }
    forall x | x in w.blocks ensures |w.blocks[x]| == g.blockSize { assert |v.blocks[x]| == g.blockSize; }
  }

  lemma OwnersAfter(g: Geometry, w: View, own: Owners, ino: nat, s: set<nat>)
    requires FreeIsUnused(g, w.blocks, own) && OwnersOk(g, own) && MayOwn(g, w, own, ino, s)
    requires ino in own || LooseInode(g, w, own, ino)
    ensures OwnersOk(g, own[ino := s]) && FreeStaysUnused(g, w.blocks, own[ino := s])
  {
    hide Geometry.Usable, FreeBlockBit, FreeInodeBit, Geometry.InodeCount, BlockAt, InodeAt;
  }

  /** Writing the record of a live or newly allocated inode whose footprint is its own or loose blocks. */
  lemma WriteRecord(g: Geometry, v: View, c: Counts, own: Owners, w: View, ino: nat, n: Inode, s: set<nat>)
    requires Inv(g, v, c, own) && RecordWritten(g, v, w, ino, n)
    requires ino in own || LooseInode(g, v, own, ino)
    requires MayOwn(g, v, own, ino, s) && InodeOk(w, own[ino := s], ino)
    ensures Inv(g, w, c, own[ino := s]) && OthersKept(v, own, w, own[ino := s], {ino})
    ensures SameBitmaps(g, v.blocks, w.blocks)
  {
    hide Geometry.Ok, ViewOk, FreeBlockBit, FreeInodeBit, Geometry.Usable, CountsOk, FreeIsUnused, FreeStaysUnused,
      InodeOk, SameBitmaps, RecordWritten, MayOwn, SameOn, Geometry.InodeCount, InodeAt;
    assert 1 <= ino <= g.InodeCount();
    RecordWriteFacts(g, v, w, own, ino, n);
    OwnersAfter(g, v, own, ino, s);
    ChangeKeepsInv(g, v, c, own, w, own[ino := s], {ino});
  }

  // --- What has been handed out ---

  ghost predicate NotFreeInode(g: Geometry, blocks: Blocks, ino: nat) {
    forall k: nat, i: nat :: FreeInodeBit(g, blocks, k, i) ==> InodeAt(g, k, i) != ino
  }

  ghost predicate Distinct(s: seq<nat>) {
    forall i, j :: 0 <= i < j < |s| ==> s[i] != s[j]
  }

  /** The log holds, once each, exactly the blocks that were free at the start and no longer are; all are usable. */
  ghost predicate BlocksLogged(g: Geometry, start: Blocks, now: Blocks, log: seq<nat>) {
    && g.blockSize > 0 && Distinct(log)
    && (forall k: nat, i: nat :: FreeBlockBit(g, start, k, i) ==> FreeBlockBit(g, now, k, i) || BlockAt(g, k, i) in log)
    && (forall k: nat, i: nat :: FreeBlockBit(g, now, k, i) ==>
      FreeBlockBit(g, start, k, i) && BlockAt(g, k, i) !in log)
    && (forall b :: b in log ==> g.Usable(b) && !NotFree(g, start, b))
  }

  /** The same for inode numbers. */
  ghost predicate InodesLogged(g: Geometry, start: Blocks, now: Blocks, log: seq<nat>) {
    && Distinct(log)
    && (forall k: nat, i: nat :: FreeInodeBit(g, start, k, i) ==> FreeInodeBit(g, now, k, i) || InodeAt(g, k, i) in log)
    && (forall k: nat, i: nat :: FreeInodeBit(g, now, k, i) ==>
      FreeInodeBit(g, start, k, i) && InodeAt(g, k, i) !in log)
    && (forall n :: n in log ==> !NotFreeInode(g, start, n))
  }

  ghost predicate LogsOk(g: Geometry, start: Blocks, now: Blocks, blockLog: seq<nat>, inodeLog: seq<nat>) {
    BlocksLogged(g, start, now, blockLog) && InodesLogged(g, start, now, inodeLog)
  }

  /** Where a run began: the blocks and the two free counts. */
  datatype Start = Start(blocks: Blocks, freeBlocks: nat, freeInodes: nat)

  /** Every block and every inode that left the free counts is in the logs. */
  predicate Conserved(start: Start, c: Counts, blocks: nat, inodes: nat) {
    c.sbBlocks + blocks == start.freeBlocks && c.sbInodes + inodes == start.freeInodes
  }

  lemma LogsStart(g: Geometry, blocks: Blocks)
    requires g.blockSize > 0
    ensures LogsOk(g, blocks, blocks, [], [])
  {
    hide FreeBlockBit, FreeInodeBit, BlockAt, InodeAt;
  }

  /** Bits only ever change from clear to set. */
  ghost predicate OnlyAllocates(g: Geometry, a: Blocks, b: Blocks) {
    && (forall k: nat, i: nat :: FreeBlockBit(g, b, k, i) ==> FreeBlockBit(g, a, k, i))
    && (forall k: nat, i: nat :: FreeInodeBit(g, b, k, i) ==> FreeInodeBit(g, a, k, i))
  }

  lemma OnlyAllocatesSelf(g: Geometry, a: Blocks)
    ensures OnlyAllocates(g, a, a)
  {
  }

  lemma OnlyAllocatesTrans(g: Geometry, a: Blocks, b: Blocks, c: Blocks)
    requires OnlyAllocates(g, a, b) && OnlyAllocates(g, b, c)
    ensures OnlyAllocates(g, a, c)
  {
    hide FreeBlockBit, FreeInodeBit;
  }

  /** Blocks of superblock and descriptor table, and blocks past the volume, stay as they are. */
  ghost predicate OutsideKept(g: Geometry, a: Blocks, b: Blocks) {
    forall x: nat :: x in a && (x < g.gdtEnd || g.totalBlocks <= x) ==> x in b && b[x] == a[x]
  }

  /** What every operation but a sync does to the blocks of the device as a whole. */
  ghost predicate Allocates(g: Geometry, a: Blocks, b: Blocks) {
    OnlyAllocates(g, a, b) && OutsideKept(g, a, b)
  }

  lemma AllocatesSelf(g: Geometry, a: Blocks)
    ensures Allocates(g, a, a)
  {
  }

  lemma AllocatesTrans(g: Geometry, a: Blocks, b: Blocks, c: Blocks)
    requires Allocates(g, a, b) && Allocates(g, b, c)
    ensures Allocates(g, a, c)
  {
    hide OnlyAllocates;
    OnlyAllocatesTrans(g, a, b, c);
  }

  /** Writing a block that files and directories may use, */
  lemma UsableWriteAllocates(g: Geometry, blocks: Blocks, b: nat, data: seq<byte>)
    requires g.blockSize > 0 && g.Usable(b) && SameBitmaps(g, blocks, blocks[b := data])
    ensures Allocates(g, blocks, blocks[b := data])
  {
    hide OnlyAllocates, SameBitmaps, Geometry.InSomeTable;
    SameBitmapsOnlyAllocate(g, blocks, blocks[b := data]);
  }

  /** ... or the record of an inode, */
  lemma RecordWriteAllocates(g: Geometry, v: View, w: View, ino: nat, n: Inode)
    requires g.Ok() && RecordWritten(g, v, w, ino, n) && SameBitmaps(g, v.blocks, w.blocks)
    ensures Allocates(g, v.blocks, w.blocks)
  {
    hide OnlyAllocates, SameBitmaps, Geometry.SizesOk, Geometry.TableLen;
    SameBitmapsOnlyAllocate(g, v.blocks, w.blocks);
    forall x: nat | x in v.blocks && (x < g.gdtEnd || g.totalBlocks <= x)
      ensures w.blocks[x] == v.blocks[x]
    {
      assert forall k: nat :: k < |g.loc| ==> !g.InTable(k, x);
    }
  }

  /** ... or a bit of a bitmap. */
  lemma BitmapWriteAllocates(g: Geometry, blocks: Blocks, k: nat, i: nat)
    requires g.Ok() && k < |g.loc|
    ensures g.loc[k].blockBitmap in blocks ==> OutsideKept(g, blocks, WithBitSet(blocks, g.loc[k].blockBitmap, i))
    ensures g.loc[k].inodeBitmap in blocks ==> OutsideKept(g, blocks, WithBitSet(blocks, g.loc[k].inodeBitmap, i))
  {
    hide Geometry.SizesOk, Geometry.TableLen, WithBitSet;
  }

  lemma LogsKept(g: Geometry, start: Blocks, a: Blocks, b: Blocks, blockLog: seq<nat>, inodeLog: seq<nat>)
    requires LogsOk(g, start, a, blockLog, inodeLog) && SameBitmaps(g, a, b)
    ensures LogsOk(g, start, b, blockLog, inodeLog)
  {
    hide FreeBlockBit, FreeInodeBit, Distinct, Geometry.Usable, BlockAt, InodeAt, SameBitmaps, NotFree, NotFreeInode;
    SameFreeBits(g, a, b);
  }

  lemma SameBitmapsOnlyAllocate(g: Geometry, a: Blocks, b: Blocks)
    requires SameBitmaps(g, a, b)
    ensures OnlyAllocates(g, a, b)
    ensures forall x :: NotFree(g, a, x) ==> NotFree(g, b, x)
  {
    hide FreeBlockBit, FreeInodeBit, SameBitmaps;
    SameFreeBits(g, a, b);
  }

  /** A block that was free cannot have been handed out before. */
  lemma LogBlock(g: Geometry, w: View, k: nat, i: nat, start: Blocks, blockLog: seq<nat>, inodeLog: seq<nat>)
    requires g.Ok() && ViewOk(g, w) && FreeBlockBit(g, w.blocks, k, i) && LogsOk(g, start, w.blocks, blockLog, inodeLog)
    requires g.Usable(BlockAt(g, k, i)) && NotFree(g, BlockTaken(g, w, k, i).blocks, BlockAt(g, k, i))
    ensures OnlyAllocates(g, w.blocks, BlockTaken(g, w, k, i).blocks)
    ensures BlockAt(g, k, i) !in blockLog
    ensures LogsOk(g, start, BlockTaken(g, w, k, i).blocks, blockLog + [BlockAt(g, k, i)], inodeLog)
  {
    hide FreeBlockBit, FreeInodeBit, Geometry.Ok, ViewOk, Geometry.Usable, BlockAt, InodeAt;
    FreeBitsAfterBlock(g, w, k, i);
    BlockBitInBlocks(g, w, k, i);
    assert FreeBlockBit(g, start, k, i);
  }

  lemma LogInode(g: Geometry, w: View, k: nat, i: nat, start: Blocks, blockLog: seq<nat>, inodeLog: seq<nat>)
    requires g.Ok() && ViewOk(g, w) && FreeInodeBit(g, w.blocks, k, i) && LogsOk(g, start, w.blocks, blockLog, inodeLog)
    requires NotFreeInode(g, InodeTaken(g, w, k, i).blocks, InodeAt(g, k, i))
    ensures OnlyAllocates(g, w.blocks, InodeTaken(g, w, k, i).blocks)
    ensures InodeAt(g, k, i) !in inodeLog
    ensures LogsOk(g, start, InodeTaken(g, w, k, i).blocks, blockLog, inodeLog + [InodeAt(g, k, i)])
  {
    hide FreeBlockBit, FreeInodeBit, Geometry.Ok, ViewOk, Geometry.Usable, BlockAt, InodeAt;
    FreeBitsAfterInode(g, w, k, i);
    BlockBitInBlocks(g, w, k, i);
    assert FreeInodeBit(g, start, k, i);
  }

  // --- The probe over groups ---

  lemma ModIs(x: nat, q: nat, r: nat, n: nat)
    requires r < n && x == OffsetOf(q, n) + r
    ensures x % n == r
  {
    OffsetSplit(x, n);
    PositionsDistinct(n, q, r, x / n, x % n);
  }

  function Probe(preferred: nat, offset: nat, n: nat): (k: nat)
    requires n > 0
    ensures k < n
  {
    (preferred + offset) % n
  }

  /** The probe starts at the preferred group and goes up from there, from the last group on to the first. */
  lemma ProbeInOrder(preferred: nat, offset: nat, n: nat)
    requires n > 0
    ensures preferred < n ==> Probe(preferred, 0, n) == preferred
    ensures var k := Probe(preferred, offset, n);
      Probe(preferred, offset + 1, n) == if k + 1 == n then 0 else k + 1
  {
    hide OffsetOf;
    if preferred < n {
      OffsetNext(0, n);
      ModIs(preferred, 0, preferred, n);
    }
    var x := preferred + offset;
    OffsetSplit(x, n);
    OffsetNext(x / n, n);
    if x % n + 1 == n {
      ModIs(x + 1, x / n + 1, 0, n);
    } else {
      ModIs(x + 1, x / n, x % n + 1, n);
    }
  }

  /** It reaches every group, */
  lemma ProbeReaches(preferred: nat, n: nat, k: nat) returns (offset: nat)
    requires k < n
    ensures offset < n && Probe(preferred, offset, n) == k
  {
    hide OffsetOf;
    var q, r := preferred / n, preferred % n;
    OffsetSplit(preferred, n);
    OffsetNext(q, n);
    if r <= k {
      offset := k - r;
      ModIs(preferred + offset, q, k, n);
    } else {
      offset := k + n - r;
      ModIs(preferred + offset, q + 1, k, n);
    }
  }

  /** ... and none of them twice. */
  lemma ProbeOnce(preferred: nat, n: nat, a: nat, b: nat)
    requires a < b < n
    ensures Probe(preferred, a, n) != Probe(preferred, b, n)
  {
    hide OffsetOf;
    var x, y := preferred + a, preferred + b;
    OffsetSplit(x, n);
    OffsetSplit(y, n);
    if x % n == y % n {
      OffsetsOrdered(x / n, y / n, n);
      OffsetsOrdered(y / n, x / n, n);
    }
  }
}
