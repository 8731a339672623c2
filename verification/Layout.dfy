/**
 The device and its layout: which bytes are which block and which inode record. Everything above this file works on the
 two maps of a `View`, blocks by number and inodes by number; the lemmas here say how one write changes them.
 */
module Layout {
  import opened Bytes
  import opened InodeRecord
  import opened ExtentTree

  datatype GroupLoc = GroupLoc(blockBitmap: nat, inodeBitmap: nat, inodeTable: nat)

  /** The parts of the superblock and descriptors that locate things; no operation changes them. */
  datatype Geometry = Geometry(
    blockSize: nat, inodeSize: nat, blocksPerGroup: nat, inodesPerGroup: nat, firstDataBlock: nat, totalBlocks: nat,
    gdtEnd: nat, loc: seq<GroupLoc>)
  {
    function InodeCount(): nat { OffsetOf(|loc|, inodesPerGroup) }

    /** Blocks an inode table occupies, the last one possibly in part. */
    function TableLen(): nat
      requires blockSize > 0
    {
      (OffsetOf(inodesPerGroup, inodeSize) + blockSize - 1) / blockSize
    }

    ghost predicate InTable(k: nat, b: nat)
      requires blockSize > 0 && k < |loc|
    {
      loc[k].inodeTable <= b < loc[k].inodeTable + TableLen()
    }

    ghost predicate InSomeTable(b: nat)
      requires blockSize > 0
    {
      exists k: nat :: k < |loc| && InTable(k, b)
    }

    /** Superblock, descriptor table, bitmaps and inode tables. */
    ghost predicate IsMeta(b: nat)
      requires blockSize > 0
    {
      b < gdtEnd || InSomeTable(b) || exists k :: 0 <= k < |loc| && (b == loc[k].blockBitmap || b == loc[k].inodeBitmap)
    }

    /** A block of the filesystem that files and directories may use. */
    ghost predicate Usable(b: nat)
      requires blockSize > 0
    {
      b < totalBlocks && !IsMeta(b)
    }

    ghost predicate SizesOk() {
      && 1024 <= blockSize < TWO16
      && INODE_BASE_SIZE <= inodeSize
      && 0 < blocksPerGroup <= 8 * blockSize && 0 < inodesPerGroup <= 8 * blockSize
      && InodeCount() < TWO32 && totalBlocks < 0x1_0000_0000_0000
      && 0 < |loc|
    }

    /** Metadata regions lie inside the filesystem, after the descriptor table, and do not overlap. */
    ghost predicate Ok() {
      && SizesOk()
      && (forall k :: 0 <= k < |loc| ==>
        && gdtEnd <= loc[k].blockBitmap < totalBlocks && gdtEnd <= loc[k].inodeBitmap < totalBlocks
        && gdtEnd <= loc[k].inodeTable && loc[k].inodeTable + TableLen() <= totalBlocks)
      && (forall j, k :: 0 <= j < |loc| && 0 <= k < |loc| ==>
        && loc[j].blockBitmap != loc[k].inodeBitmap
        && (j != k ==> loc[j].blockBitmap != loc[k].blockBitmap && loc[j].inodeBitmap != loc[k].inodeBitmap)
        && !InTable(j, loc[k].blockBitmap) && !InTable(j, loc[k].inodeBitmap))
      && (forall j, k :: 0 <= j < k < |loc| ==>
        loc[j].inodeTable + TableLen() <= loc[k].inodeTable || loc[k].inodeTable + TableLen() <= loc[j].inodeTable)
    }

    function GroupOf(ino: nat): nat
      requires inodesPerGroup > 0 && 1 <= ino
    {
      (ino - 1) / inodesPerGroup
    }

    function IndexOf(ino: nat): nat
      requires inodesPerGroup > 0 && 1 <= ino
    {
      (ino - 1) % inodesPerGroup
    }

    /** Where the record of an inode starts, in bytes. */
    function InodeOffset(ino: nat): nat
      requires inodesPerGroup > 0 && 1 <= ino && GroupOf(ino) < |loc|
    {
      OffsetOf(loc[GroupOf(ino)].inodeTable, blockSize) + OffsetOf(IndexOf(ino), inodeSize)
    }
  }

  /** Where item `i` starts in a row of items of one size: a block on the device, a record in its table. */
  function OffsetOf(i: nat, size: nat): nat { i * size }

  // --- Arithmetic of offsets ---

  lemma BlockFits(len: nat, bs: nat, b: nat)
    requires bs > 0
    ensures b < len / bs <==> OffsetOf(b, bs) + bs <= len
  {
    var q := len / bs;
    OffsetSplit(len, bs);
    if b < q { OffsetsOrdered(b, q, bs); } else if q < b { OffsetsOrdered(q, b, bs); }
  }

  lemma OffsetsOrdered(a: nat, b: nat, bs: nat)
    ensures a <= b ==> OffsetOf(a, bs) <= OffsetOf(b, bs)
    ensures a < b ==> OffsetOf(a, bs) + bs <= OffsetOf(b, bs)
  {
    if a < b {
      assert (a + 1) * bs <= b * bs;
    }
  }

  lemma OffsetSplit(n: nat, size: nat)
    requires size > 0
    ensures n == OffsetOf(n / size, size) + n % size && n % size < size
  {
  }

  lemma GroupOfInode(g: Geometry, ino: nat)
    requires g.inodesPerGroup > 0 && 1 <= ino
    ensures g.GroupOf(ino) < |g.loc| <==> ino <= g.InodeCount()
    ensures ino == OffsetOf(g.GroupOf(ino), g.inodesPerGroup) + g.IndexOf(ino) + 1 && g.IndexOf(ino) < g.inodesPerGroup
  {
    var d, q, n := g.inodesPerGroup, g.GroupOf(ino), |g.loc|;
    OffsetSplit(ino - 1, d);
    if q < n { OffsetsOrdered(q, n, d); } else if n < q { OffsetsOrdered(n, q, d); }
  }

  lemma TableCovers(g: Geometry)
    requires g.blockSize > 0
    ensures OffsetOf(g.inodesPerGroup, g.inodeSize) <= OffsetOf(g.TableLen(), g.blockSize)
  {
    OffsetSplit(OffsetOf(g.inodesPerGroup, g.inodeSize) + g.blockSize - 1, g.blockSize);
  }

  lemma OffsetSum(a: nat, b: nat, bs: nat)
    ensures OffsetOf(a + b, bs) == OffsetOf(a, bs) + OffsetOf(b, bs)
  {
  }

  /** An inode record lies inside its table, and the table inside the device and past the descriptor table. */
  lemma InodeFits(g: Geometry, ino: nat)
    requires g.Ok() && 1 <= ino <= g.InodeCount()
    ensures g.inodesPerGroup > 0 && g.blockSize > 0 && g.GroupOf(ino) < |g.loc|
    ensures OffsetOf(g.loc[g.GroupOf(ino)].inodeTable, g.blockSize) <= g.InodeOffset(ino)
    ensures g.InodeOffset(ino) + g.inodeSize <= OffsetOf(g.loc[g.GroupOf(ino)].inodeTable + g.TableLen(), g.blockSize)
    ensures OffsetOf(g.gdtEnd, g.blockSize) <= g.InodeOffset(ino)
    ensures g.InodeOffset(ino) + g.inodeSize <= OffsetOf(g.totalBlocks, g.blockSize)
  {
    hide Geometry.TableLen, Geometry.GroupOf, Geometry.IndexOf, Geometry.InodeCount, Geometry.Ok, OffsetOf;
    SizesPositive(g);
    GroupOfInode(g, ino);
    TableBounds(g, g.GroupOf(ino));
    var table := g.loc[g.GroupOf(ino)].inodeTable;
    TableCovers(g);
    OffsetsOrdered(g.IndexOf(ino), g.inodesPerGroup, g.inodeSize);
    OffsetSum(table, g.TableLen(), g.blockSize);
    OffsetsOrdered(table + g.TableLen(), g.totalBlocks, g.blockSize);
    OffsetsOrdered(g.gdtEnd, table, g.blockSize);
  }

  lemma SizesPositive(g: Geometry)
    requires g.Ok()
    ensures g.blockSize > 0 && g.inodesPerGroup > 0
  {
  }

  lemma TableBounds(g: Geometry, k: nat)
    requires g.Ok() && k < |g.loc|
    ensures g.blockSize > 0 && g.inodesPerGroup > 0
    ensures g.gdtEnd <= g.loc[k].inodeTable && g.loc[k].inodeTable + g.TableLen() <= g.totalBlocks
  {
    hide Geometry.TableLen, Geometry.InodeCount;
  }

  /** The records of two inodes do not overlap. */
  lemma InodesApart(g: Geometry, i: nat, j: nat)
    requires g.Ok() && 1 <= i <= g.InodeCount() && 1 <= j <= g.InodeCount() && i != j
    ensures g.GroupOf(i) < |g.loc| && g.GroupOf(j) < |g.loc|
    ensures g.InodeOffset(i) + g.inodeSize <= g.InodeOffset(j) || g.InodeOffset(j) + g.inodeSize <= g.InodeOffset(i)
  {
    hide Geometry.TableLen, Geometry.GroupOf, Geometry.IndexOf, Geometry.InodeCount, OffsetOf;
    InodeFits(g, i);
    InodeFits(g, j);
    GroupOfInode(g, i);
    GroupOfInode(g, j);
    var ki, kj := g.GroupOf(i), g.GroupOf(j);
    if ki == kj {
      if g.IndexOf(i) < g.IndexOf(j) {
        OffsetsOrdered(g.IndexOf(i), g.IndexOf(j), g.inodeSize);
      } else {
        OffsetsOrdered(g.IndexOf(j), g.IndexOf(i), g.inodeSize);
      }
    } else {
      OffsetsOrdered(g.loc[ki].inodeTable + g.TableLen(), g.loc[kj].inodeTable, g.blockSize);
      OffsetsOrdered(g.loc[kj].inodeTable + g.TableLen(), g.loc[ki].inodeTable, g.blockSize);
    }
  }

  /** A block outside the tables does not overlap any inode record. */
  lemma BlockMissesInode(g: Geometry, b: nat, ino: nat)
    requires g.Ok() && 1 <= ino <= g.InodeCount() && !g.InSomeTable(b)
    ensures g.GroupOf(ino) < |g.loc|
    ensures OffsetOf(b, g.blockSize) + g.blockSize <= g.InodeOffset(ino)
      || g.InodeOffset(ino) + g.inodeSize <= OffsetOf(b, g.blockSize)
  {
    hide Geometry.TableLen, Geometry.GroupOf, Geometry.IndexOf, Geometry.InodeCount, Geometry.InodeOffset, OffsetOf;
    InodeFits(g, ino);
    var k := g.GroupOf(ino);
    assert !g.InTable(k, b);
    OffsetsOrdered(b, g.loc[k].inodeTable, g.blockSize);
    OffsetsOrdered(g.loc[k].inodeTable + g.TableLen(), b, g.blockSize);
  }

  // --- The two maps ---

  datatype View = View(blocks: Blocks, inodes: map<nat, Inode>)

  ghost predicate Fits(disk: seq<byte>, g: Geometry) {
    g.Ok() && OffsetOf(g.totalBlocks, g.blockSize) <= |disk|
  }

  ghost function BlockBytes(disk: seq<byte>, bs: nat, b: nat): seq<byte>
    requires OffsetOf(b, bs) + bs <= |disk|
  {
    disk[OffsetOf(b, bs)..OffsetOf(b, bs) + bs]
  }

  ghost function RecordBytes(disk: seq<byte>, g: Geometry, ino: nat): (r: seq<byte>)
    requires Fits(disk, g) && 1 <= ino <= g.InodeCount()
    ensures |r| == g.inodeSize
  {
    InodeFits(g, ino);
    disk[g.InodeOffset(ino)..g.InodeOffset(ino) + g.inodeSize]
  }

  ghost function BlocksOf(disk: seq<byte>, bs: nat): Blocks
    requires bs > 0
  {
    map b: nat | b < |disk| / bs :: BlockFits(|disk|, bs, b); BlockBytes(disk, bs, b)
  }

  ghost function InodesOf(disk: seq<byte>, g: Geometry): map<nat, Inode>
    requires Fits(disk, g)
  {
    map ino: nat | 1 <= ino <= g.InodeCount() :: FromBytes(RecordBytes(disk, g, ino), g.inodeSize).value
  }

  ghost function ViewOf(disk: seq<byte>, g: Geometry): View
    requires Fits(disk, g)
  {
    View(BlocksOf(disk, g.blockSize), InodesOf(disk, g))
  }

  // --- What one write does to the maps ---

  lemma BlockAfterWrite(disk: seq<byte>, off: nat, data: seq<byte>, bs: nat, b: nat)
    requires off + |data| <= |disk| && OffsetOf(b, bs) + bs <= |disk|
    ensures OffsetOf(b, bs) + bs <= off || off + |data| <= OffsetOf(b, bs) ==>
      BlockBytes(Splice(disk, off, data), bs, b) == BlockBytes(disk, bs, b)
    ensures off == OffsetOf(b, bs) && |data| == bs ==> BlockBytes(Splice(disk, off, data), bs, b) == data
  {
    hide OffsetOf;
    SpliceSlices(disk, off, data, OffsetOf(b, bs), OffsetOf(b, bs) + bs);
  }

  lemma RecordAfterWrite(disk: seq<byte>, off: nat, data: seq<byte>, g: Geometry, ino: nat)
    requires Fits(disk, g) && off + |data| <= |disk| && 1 <= ino <= g.InodeCount()
    ensures g.GroupOf(ino) < |g.loc|
    ensures g.InodeOffset(ino) + g.inodeSize <= off || off + |data| <= g.InodeOffset(ino) ==>
      RecordBytes(Splice(disk, off, data), g, ino) == RecordBytes(disk, g, ino)
    ensures off == g.InodeOffset(ino) && |data| == g.inodeSize ==> RecordBytes(Splice(disk, off, data), g, ino) == data
  {
    hide Geometry.GroupOf, Geometry.InodeCount, Geometry.InodeOffset, OffsetOf, Geometry.TableLen;
    InodeFits(g, ino);
    SpliceSlices(disk, off, data, g.InodeOffset(ino), g.InodeOffset(ino) + g.inodeSize);
  }

  lemma WriteBlockView(g: Geometry, disk: seq<byte>, b: nat, data: seq<byte>)
    requires Fits(disk, g) && |data| == g.blockSize && OffsetOf(b, g.blockSize) + g.blockSize <= |disk|
    ensures var d := Splice(disk, OffsetOf(b, g.blockSize), data);
      && BlocksOf(d, g.blockSize) == BlocksOf(disk, g.blockSize)[b := data]
      && (!g.InSomeTable(b) ==> InodesOf(d, g) == InodesOf(disk, g))
  {
    hide Geometry.GroupOf, Geometry.InodeCount, Geometry.InodeOffset, OffsetOf, Geometry.TableLen,
      Geometry.InSomeTable, FromBytes, BlockBytes, RecordBytes, Splice;
    var bs, off := g.blockSize, OffsetOf(b, g.blockSize);
    var d := Splice(disk, off, data);
    BlockFits(|disk|, bs, b);
    forall c: nat | c < |disk| / bs
      ensures OffsetOf(c, bs) + bs <= |disk| && BlockBytes(d, bs, c) == if c == b then data else BlockBytes(disk, bs, c)
    {
      BlockFits(|disk|, bs, c);
      OffsetsOrdered(b, c, bs);
      OffsetsOrdered(c, b, bs);
      BlockAfterWrite(disk, off, data, bs, c);
    }
    if !g.InSomeTable(b) {
      forall ino: nat | 1 <= ino <= g.InodeCount()
        ensures RecordBytes(d, g, ino) == RecordBytes(disk, g, ino)
      {
        BlockMissesInode(g, b, ino);
        RecordAfterWrite(disk, off, data, g, ino);
      }
    }
  }

  lemma WriteInodeView(g: Geometry, disk: seq<byte>, ino: nat, n: Inode)
    requires Fits(disk, g) && 1 <= ino <= g.InodeCount()
    ensures g.GroupOf(ino) < |g.loc| && g.InodeOffset(ino) + g.inodeSize <= |disk|
    ensures var d := Splice(disk, g.InodeOffset(ino), ToBytes(n, g.inodeSize));
      && InodesOf(d, g) == InodesOf(disk, g)[ino := Stored(n, g.inodeSize)]
      && BlocksOf(d, g.blockSize).Keys == BlocksOf(disk, g.blockSize).Keys
      && forall b: nat :: b in BlocksOf(disk, g.blockSize) && !g.InSomeTable(b) ==>
        BlocksOf(d, g.blockSize)[b] == BlocksOf(disk, g.blockSize)[b]
  {
    hide Geometry.GroupOf, Geometry.InodeCount, Geometry.InodeOffset, OffsetOf, Geometry.TableLen,
      Geometry.InSomeTable, FromBytes, BlockBytes, RecordBytes, Splice, ToBytes, Stored;
    InodeFits(g, ino);
    var bs, off, data := g.blockSize, g.InodeOffset(ino), ToBytes(n, g.inodeSize);
    var d := Splice(disk, off, data);
    InodeRoundTrip(n, g.inodeSize);
    forall i: nat | 1 <= i <= g.InodeCount()
      ensures RecordBytes(d, g, i) == if i == ino then data else RecordBytes(disk, g, i)
    {
      if i != ino { InodesApart(g, i, ino); }
      RecordAfterWrite(disk, off, data, g, i);
    }
    forall b: nat | b < |disk| / bs && !g.InSomeTable(b)
      ensures OffsetOf(b, bs) + bs <= |disk| && BlockBytes(d, bs, b) == BlockBytes(disk, bs, b)
    {
      BlockFits(|disk|, bs, b);
      BlockMissesInode(g, b, ino);
      BlockAfterWrite(disk, off, data, bs, b);
    }
  }

  /** Writes below the end of the descriptor table change no inode and no block past it. */
  lemma WriteLowView(g: Geometry, disk: seq<byte>, off: nat, data: seq<byte>)
    requires Fits(disk, g) && off + |data| <= OffsetOf(g.gdtEnd, g.blockSize) <= |disk|
    ensures var d := Splice(disk, off, data);
      && InodesOf(d, g) == InodesOf(disk, g)
      && BlocksOf(d, g.blockSize).Keys == BlocksOf(disk, g.blockSize).Keys
      && forall b: nat :: b in BlocksOf(disk, g.blockSize) && g.gdtEnd <= b ==>
        BlocksOf(d, g.blockSize)[b] == BlocksOf(disk, g.blockSize)[b]
  {
    hide Geometry.GroupOf, Geometry.InodeCount, Geometry.InodeOffset, OffsetOf, Geometry.TableLen, FromBytes,
      BlockBytes, RecordBytes, Splice;
    var bs := g.blockSize;
    var d := Splice(disk, off, data);
    forall i: nat | 1 <= i <= g.InodeCount()
      ensures RecordBytes(d, g, i) == RecordBytes(disk, g, i)
    {
      InodeFits(g, i);
      RecordAfterWrite(disk, off, data, g, i);
    }
    forall b: nat | b < |disk| / bs && g.gdtEnd <= b
      ensures OffsetOf(b, bs) + bs <= |disk| && BlockBytes(d, bs, b) == BlockBytes(disk, bs, b)
    {
      BlockFits(|disk|, bs, b);
      OffsetsOrdered(g.gdtEnd, b, bs);
      BlockAfterWrite(disk, off, data, bs, b);
    }
  }
}
