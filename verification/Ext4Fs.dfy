/**
 `Ext4Fs` (src/readwrite.rs): the device, the superblock and the group descriptors, and the operations on them. The
 device is a range of bytes; a read or write that does not fit in it fails with `IoError` and changes nothing.
 */
module Ext4 {
  import opened Bytes
  import opened Wrappers
  import opened Bitmap
  import opened Extent
  import opened ExtentTree
  import opened InodeRecord
  import opened Directory
  import opened Layout
  import opened Path
  import opened FileTree
  import opened DirRow
  import opened Invariant
  import opened Grow
  import opened Ops
  import opened Persist

  type Superblock = SuperblockRecord.Superblock
  function LocOf(d: Group): GroupLoc { GroupLoc(d.BlockBitmap(), d.InodeBitmap(), d.InodeTable()) }

  /** First block past the descriptor table. */
  function GdtEnd(sb: Superblock, n: nat): nat
    requires sb.BlockSize() > 0
  {
    (sb.GdtOffset() + OffsetOf(n, sb.GroupDescSize()) + sb.BlockSize() - 1) / sb.BlockSize()
  }

  function GeometryOf(sb: Superblock, groups: seq<Group>): Geometry {
    Geometry(sb.BlockSize(), sb.rest.inodeSize as int, sb.blocksPerGroup, sb.inodesPerGroup, sb.firstDataBlock,
             sb.TotalBlocks(), if sb.BlockSize() > 0 then GdtEnd(sb, |groups|) else 0,
             seq(|groups|, i requires 0 <= i < |groups| => LocOf(groups[i])))
  }

  function CountsOf(sb: Superblock, groups: seq<Group>): Counts {
    Counts(
      seq(|groups|, i requires 0 <= i < |groups| => groups[i].FreeBlocksCount()),
      seq(|groups|, i requires 0 <= i < |groups| => groups[i].FreeInodesCount()),
      seq(|groups|, i requires 0 <= i < |groups| => groups[i].UsedDirsCount()),
      sb.FreeBlocks(), sb.freeInodesCount)
  }

  /** What an operation that needs one inode takes off the count of free ones. */
  function OneIfAny(free: nat): nat { if free == 0 then 0 else 1 }

  /** `saturating_sub(1)`. */
  function SaturatingDec(c: nat): nat { if c == 0 then 0 else c - 1 }

  /** The record of an inode is what the bytes at this place of the device say. */
  ghost predicate ReadAt(device: seq<byte>, g: Geometry, ino: nat, r: Result<Inode>) {
    && 1 <= ino && g.inodesPerGroup > 0 && g.GroupOf(ino) < |g.loc|
    && var at := OffsetOf(g.loc[(ino - 1) / g.inodesPerGroup].inodeTable, g.blockSize)
      + OffsetOf((ino - 1) % g.inodesPerGroup, g.inodeSize);
    && at + g.inodeSize <= |device| && r.Ok? && FromBytes(device[at..at + g.inodeSize], g.inodeSize) == Some(r.value)
  }

  lemma ReadsAt(device: seq<byte>, g: Geometry, ino: nat, n: Inode)
    requires 1 <= ino && g.inodesPerGroup > 0 && g.GroupOf(ino) < |g.loc|
      && g.InodeOffset(ino) + g.inodeSize <= |device|
      && FromBytes(device[g.InodeOffset(ino)..g.InodeOffset(ino) + g.inodeSize], g.inodeSize) == Some(n)
    ensures ReadAt(device, g, ino, Ok(n))
  {
    hide OffsetOf, FromBytes;
  }

  class Ext4Fs {
    var device: seq<byte>
    var sb: Superblock
    var groups: seq<Group>

    /** The live inodes and the blocks each one owns. */
    ghost var own: Owners
    /** Where the present run began, and what the allocators have handed out since. */
    ghost var start: Start
    ghost var blockLog: seq<nat>
    ghost var inodeLog: seq<nat>
    /** Superblock and descriptors as mounted, counters aside. */
    ghost var fixed: Fixed

    constructor (device: seq<byte>, sb: Superblock, groups: seq<Group>, ghost own: Owners, ghost start: Start,
                 ghost blockLog: seq<nat>, ghost inodeLog: seq<nat>)
      ensures this.device == device && this.sb == sb && this.groups == groups
      ensures this.own == own && this.start == start && this.blockLog == blockLog && this.inodeLog == inodeLog
      ensures this.fixed == FixedOf(sb, groups)
    {
      this.device, this.sb, this.groups := device, sb, groups;
      this.own, this.start, this.blockLog, this.inodeLog := own, start, blockLog, inodeLog;
      this.fixed := FixedOf(sb, groups);
    }

    ghost function Geo(): Geometry
      reads this`sb, this`groups
    {
      GeometryOf(sb, groups)
    }

    ghost function Cnt(): Counts
      reads this`sb, this`groups
    {
      CountsOf(sb, groups)
    }

    ghost predicate Mounted()
      reads this`sb, this`groups, this`device
    {
      Fits(device, Geo())
    }

    ghost function Vw(): View
      reads this`sb, this`groups, this`device
    {
      if Mounted() then ViewOf(device, Geo()) else View(map[], map[])
    }

    // --- The device ---

    method ReadBytes(offset: nat, len: nat) returns (r: Result<seq<byte>>)
      ensures r == if offset + len <= |device| then Ok(device[offset..offset + len]) else Err(IoError)
    {
      if offset + len > |device| {
        return Err(IoError);
      }
      return Ok(device[offset..offset + len]);
    }

    method WriteBytes(offset: nat, data: seq<byte>) returns (r: Result<()>)
      modifies this`device
      ensures if offset + |data| <= old(|device|) then r == Ok(()) && device == Splice(old(device), offset, data)
              else r == Err(IoError) && device == old(device)
    {
      if offset + |data| > |device| {
        return Err(IoError);
      }
      device := Splice(device, offset, data);
      return Ok(());
    }

    method ReadBlock(b: nat) returns (r: Result<seq<byte>>)
      requires Mounted()
      ensures r == if b in Vw().blocks then Ok(Vw().blocks[b]) else Err(IoError)
    {
      var bs := sb.BlockSize();
      BlockFits(|device|, bs, b);
      r := ReadBytes(OffsetOf(b, bs), bs);
    }

    method WriteBlock(b: nat, data: seq<byte>) returns (r: Result<()>)
      requires Mounted() && |data| == sb.BlockSize()
      modifies this`device
      ensures Mounted()
      ensures r == if b in old(Vw()).blocks then Ok(()) else Err(IoError)
      ensures r.Err? ==> device == old(device)
      ensures r.Ok? ==> Vw().blocks == old(Vw()).blocks[b := data]
      ensures r.Ok? && !Geo().InSomeTable(b) ==> Vw().inodes == old(Vw()).inodes
    {
      hide Geometry.Ok, InodesOf, BlocksOf;
      ghost var w := Vw();
      var bs := sb.BlockSize();
      SizesPositive(Geo());
      InBlocksOf(device, bs, b);
      r := WriteBytes(OffsetOf(b, bs), data);
      if r.Ok? {
        WriteBlockView(Geo(), old(device), b, data);
      }
    }

    /** `inode_table * block_size + index * inode_size`, after the range checks of `read_inode` and `write_inode`. */
    method LocateInode(ino: nat) returns (r: Result<nat>)
      requires Mounted()
      ensures ino == 0 ==> r == Err(NotFound)
      ensures ino > Geo().InodeCount() ==> r == Err(Corrupt)
      ensures 1 <= ino <= Geo().InodeCount() ==> Geo().GroupOf(ino) < |Geo().loc| && r == Ok(Geo().InodeOffset(ino))
    {
      if ino == 0 {
        return Err(NotFound);
      }
      SizesPositive(Geo());
      GroupOfInode(Geo(), ino);
      var group := (ino - 1) / sb.inodesPerGroup;
      var index := (ino - 1) % sb.inodesPerGroup;
      if group >= |groups| {
        return Err(Corrupt);
      }
      return Ok(OffsetOf(groups[group].InodeTable(), sb.BlockSize()) + OffsetOf(index, sb.rest.inodeSize as int));
    }

    method ReadInode(ino: nat) returns (r: Result<Inode>)
      requires Mounted()
      ensures r == FetchInode(Vw(), ino)
      ensures ino == 0 ==> r == Err(NotFound)
      ensures ino > Geo().InodeCount() ==> r == Err(Corrupt)
      ensures 1 <= ino <= Geo().InodeCount() ==> ReadAt(device, Geo(), ino, r)
    {
      hide Geometry.Ok, FromBytes, Geometry.InodeOffset, Geometry.GroupOf, Geometry.InodeCount, ReadAt;
      var off := LocateInode(ino);
      if off.Err? {
        return Err(off.error);
      }
      InodeFits(Geo(), ino);
      RecordLength(Geo());
      var buf := ReadBytes(off.value, sb.rest.inodeSize as int);
      if buf.Err? {
        return Err(IoError);
      }
      assert buf.value == RecordBytes(device, Geo(), ino);
      ParsesWhenLong(buf.value, sb.rest.inodeSize as int);
      var n := FromBytes(buf.value, sb.rest.inodeSize as int);
      ReadsAt(device, Geo(), ino, n.value);
      return if n == None then Err(Corrupt) else Ok(n.value);
    }

    method WriteInode(ino: nat, n: Inode) returns (r: Result<()>)
      requires Mounted()
      modifies this`device
      ensures Mounted()
      ensures r == if ino == 0 then Err(NotFound) else if ino > Geo().InodeCount() then Err(Corrupt) else Ok(())
      ensures r.Err? ==> device == old(device)
      ensures r.Ok? ==> RecordWritten(Geo(), old(Vw()), Vw(), ino, Stored(n, Geo().inodeSize))
    {
      hide Geometry.Ok, InodesOf, BlocksOf, Geometry.InodeOffset, Geometry.GroupOf, Geometry.InodeCount,
        InodeRecord.ToBytes;
      var off := LocateInode(ino);
      if off.Err? {
        return Err(off.error);
      }
      RecordLength(Geo());
      WriteInodeView(Geo(), device, ino, n);
      var buf := InodeRecord.ToBytes(n, sb.rest.inodeSize as int);
      r := WriteBytes(off.value, buf);
      SizesPositive(Geo());
      BlockLengths(old(device), Geo());
      BlockLengths(device, Geo());
    }

    // --- Reading ---

    method ResolveExtentTreeRecursive(node: seq<byte>, depth: nat) returns (r: Result<seq<ExtentLeaf>>)
      requires Mounted()
      ensures r == Resolve(Vw().blocks, node, depth)
      decreases depth
    {
      hide ViewOf, Mounted, Leaves, Indices, ExtentIndex.PhysicalBlock;
      if depth == 0 {
        var leaves := ParseLeaves(node);
        return Ok(leaves);
      }
      var indices := ParseIndices(node);
      var allLeaves: seq<ExtentLeaf> := [];
      for i := 0 to |indices|
        invariant ResolveChildren(Vw().blocks, indices[..i], depth - 1) == Ok(allLeaves)
      {
        assert indices[..i + 1][..i] == indices[..i];
        ChildErrorSticks(Vw().blocks, indices, i + 1, depth - 1);
        var child := ReadBlock(indices[i].PhysicalBlock());
        if child.Err? {
          return Err(child.error);
        }
        var leaves := ResolveExtentTreeRecursive(child.value, depth - 1);
        if leaves.Err? {
          return leaves;
        }
        allLeaves := allLeaves + leaves.value;
      }
      assert indices[..|indices|] == indices;
      return Ok(allLeaves);
    }

    method ResolveExtents(n: Inode) returns (r: Result<seq<ExtentLeaf>>)
      requires Mounted()
      ensures r == ExtentTree.ResolveExtents(Vw().blocks, n)
    {
      hide ViewOf, Mounted, Leaves, Resolve, HeaderAt;
      if !n.UsesExtents() {
        return Err(UnsupportedFeature);
      }
      var header := n.Header();
      if header == None {
        return Err(Corrupt);
      }
      if header.value.IsLeaf() {
        var leaves := ParseLeaves(n.iBlock);
        return Ok(leaves);
      }
      r := ResolveExtentTreeRecursive(n.iBlock, header.value.depth as int);
    }

    method ReadInodeData(n: Inode) returns (r: Result<seq<byte>>)
      requires Mounted()
      ensures Geo().blockSize > 0 && r == ReadData(Vw(), n, Geo().blockSize)
    {
      hide ViewOf, Mounted, ExtentTree.ResolveExtents, MapLogical, Inode.Size, Geometry.Ok;
      PositiveBlockSize();
      var size := n.Size();
      if size == 0 {
        return Ok([]);
      }
      var extents := ResolveExtents(n);
      if extents.Err? {
        return Err(extents.error);
      }
      var totalBlocks := BlocksToRead(size, sb.BlockSize());
      var data: seq<byte> := [];
      var logical := 0;
      while logical < totalBlocks
        invariant 0 <= logical <= totalBlocks < TWO32
        invariant ReadBlocks(Vw().blocks, extents.value, logical) == Ok(data)
      {
        ReadErrorSticks(Vw().blocks, extents.value, logical + 1, totalBlocks);
        var leaf := FindLeafForBlock(extents.value, logical);
        var phys := if leaf == None then None else leaf.value.MapBlock(logical);
        assert phys == MapLogical(extents.value, logical) by { MapIs(extents.value, logical); }
        if phys == None {
          return Err(Corrupt);
        }
        var block := ReadBlock(phys.value);
        if block.Err? {
          return Err(block.error);
        }
        data := data + block.value;
        logical := logical + 1;
      }
      return Ok(if size < |data| then data[..size] else data);
    }

    lemma PositiveBlockSize()
      requires Mounted()
      ensures Geo().blockSize > 0 && Geo().blockSize == sb.BlockSize()
    {
    }

    method LookupInDir(dir: Inode, name: seq<byte>) returns (r: Result<(nat, Inode)>)
      requires Mounted()
      ensures r == FileTree.LookupInDir(Vw(), dir, name)
    {
      hide ViewOf, Mounted, ExtentTree.ResolveExtents, Lookup, DataBlocks, RowUpTo, ScanFor;
      var extents := ResolveExtents(dir);
      if extents.Err? {
        return Err(extents.error);
      }
      var leaves := extents.value;
      ghost var row := DataBlocks(leaves);
      NothingScanned(Vw().blocks, name);
      for k := 0 to |leaves|
        invariant ScanFor(Vw().blocks, DataBlocks(leaves[..k]), name) == Ok(None)
      {
        var leaf := leaves[k];
        RowUpToEnds(leaves, k);
        for j := 0 to leaf.BlockCount()
          invariant ScanFor(Vw().blocks, RowUpTo(leaves, k, j), name) == Ok(None)
        {
          RowUpToNext(leaves, k, j);
          ScanNext(Vw().blocks, row, RowUpTo(leaves, k, j), leaf.PhysicalStart() + j, name);
          var block := ReadBlock(leaf.PhysicalStart() + j);
          if block.Err? {
            return Err(block.error);
          }
          var item := LookupInBlock(block.value, name);
          if item.Some? {
            var ino := item.value.1.inode;
            var n := ReadInode(ino);
            return if n.Err? then Err(n.error) else Ok((ino, n.value));
          }
        }
      }
      assert leaves[..|leaves|] == leaves;
      return Err(NotFound);
    }

    method LookupPath(path: seq<byte>) returns (r: Result<(nat, Inode)>)
      requires Mounted()
      ensures r == FileTree.LookupPath(Vw(), path)
    {
      hide ViewOf, Mounted, FileTree.LookupInDir, Components, FetchInode, Inode.IsDir;
      if path == [] || path[0] != SLASH {
        return Err(InvalidPath);
      }
      var currentIno := ROOT_INODE;
      var root := ReadInode(ROOT_INODE);
      if root.Err? {
        return Err(root.error);
      }
      var current := root.value;
      var components := Components(path[1..]);
      for i := 0 to |components|
        invariant FileTree.LookupPath(Vw(), path) == Walk(Vw(), currentIno, current, components[i..])
      {
        if !current.IsDir() {
          return Err(NotADirectory);
        }
        var found := LookupInDir(current, components[i]);
        if found.Err? {
          return Err(found.error);
        }
        assert components[i..][1..] == components[i + 1..];
        currentIno, current := found.value.0, found.value.1;
      }
      return Ok((currentIno, current));
    }

    method ReadFile(path: seq<byte>) returns (r: Result<seq<byte>>)
      requires Mounted()
      ensures Geo().blockSize > 0 && r == FileTree.ReadFile(Vw(), path, Geo().blockSize)
    {
      hide ViewOf, Mounted, FileTree.LookupPath, ReadData, Inode.IsDir, Geometry.Ok;
      PositiveBlockSize();
      var found := LookupPath(path);
      if found.Err? {
        return Err(found.error);
      }
      if found.value.1.IsDir() {
        return Err(IsADirectory);
      }
      r := ReadInodeData(found.value.1);
    }

    // --- Allocation ---

    ghost predicate Valid()
      reads this
    {
      && Mounted()
      && Inv(Geo(), Vw(), Cnt(), own)
      && LogsOk(Geo(), start.blocks, Vw().blocks, blockLog, inodeLog)
      && Conserved(start, Cnt(), |blockLog|, |inodeLog|)
      && FixedOf(sb, groups) == fixed
    }

    /** Writes the bitmap with the new bit back, and lowers the two free counters. */
    method MarkBlock(group: nat, bit: nat, bitmap: seq<byte>) returns (abs: nat)
      requires Valid() && FreeBlockBit(Geo(), Vw().blocks, group, bit)
      requires group < |groups| && bitmap == WithBit(Vw().blocks[groups[group].BlockBitmap()], bit)
      modifies this`device, this`sb, this`groups, this`blockLog
      ensures Valid() && Geo() == old(Geo())
      ensures Allocates(Geo(), old(Vw()).blocks, Vw().blocks)
      ensures old(sb.FreeBlocks()) > 0 && sb.FreeBlocks() == old(sb.FreeBlocks()) - 1
        && SameInodeCounts(old(Cnt()), Cnt())
      ensures TookBlock(Geo(), old(Vw()), old(Cnt()), Vw(), Cnt(), group, bit)
      ensures abs == BlockAt(Geo(), group, bit) && blockLog == old(blockLog) + [abs] && abs !in old(blockLog)
      ensures Loose(Geo(), Vw(), own, abs) && UsableKept(Geo(), old(Vw()), Vw())
        && OthersKept(old(Vw()), own, Vw(), own, {})
    {
      hide ViewOf, Inv, LogsOk, UsableKept, OthersKept, Loose, Allocates, Fits, FreeBlockBit, CountClear, IsSet,
        Sum;
      ghost var g, w, c := Geo(), Vw(), Cnt();
      GroupFacts(g, w, c, own, group);
      TakeBlock(g, w, c, own, group, bit);
      LogTakenBlock(g, w, c, own, group, bit, start.blocks, blockLog, inodeLog);
      var _ := WriteBlock(groups[group].BlockBitmap(), bitmap);
      assert Vw() == BlockTaken(g, w, group, bit);
      CountersAfterBlock(sb, groups, group);
      groups := groups[group := groups[group].SetFreeBlocksCount(SaturatingDec(groups[group].FreeBlocksCount()))];
      sb := sb.SetFreeBlocks(SaturatingDec(sb.FreeBlocks()));
      abs := OffsetOf(group, sb.blocksPerGroup) + sb.firstDataBlock + bit;
      blockLog := blockLog + [abs];
    }

    /**
     A block from the first group, probing from `preferred`, whose bitmap has a clear bit. It fails exactly when every
     bitmap is full, that is, when the superblock counts no free block.
     */
    method AllocateBlock(preferred: nat) returns (r: Result<nat>)
      requires Valid()
      modifies this`device, this`sb, this`groups, this`blockLog
      ensures Valid() && Geo() == old(Geo()) && FixedOf(sb, groups) == old(FixedOf(sb, groups))
      ensures Allocates(Geo(), old(Vw()).blocks, Vw().blocks)
      ensures r.Err? ==>
        r.error == NoFreeBlocks && device == old(device) && sb == old(sb) && groups == old(groups)
          && blockLog == old(blockLog)
      ensures r.Err? <==> old(sb.FreeBlocks()) == 0
      ensures r.Err? <==> forall k: nat, i: nat :: !FreeBlockBit(Geo(), old(Vw()).blocks, k, i)
      ensures r.Ok? ==> sb.FreeBlocks() == old(sb.FreeBlocks()) - 1 && SameInodeCounts(old(Cnt()), Cnt())
      ensures r.Ok? ==> blockLog == old(blockLog) + [r.value] && r.value !in old(blockLog)
      ensures r.Ok? ==> TookFirstBlock(Geo(), old(Vw()), old(Cnt()), Vw(), Cnt(), preferred, r.value)
      ensures r.Ok? ==>
        Loose(Geo(), Vw(), own, r.value) && UsableKept(Geo(), old(Vw()), Vw())
          && OthersKept(old(Vw()), own, Vw(), own, {})
    {
      hide ViewOf, Inv, LogsOk, UsableKept, OthersKept, Loose, Allocates, Fits, FreeBlockBit, BlockAt, CountClear,
        IsSet, Sum, Probe;
      ghost var g, w, c := Geo(), Vw(), Cnt();
      AllocatesSelf(g, w.blocks);
      var n := |groups|;
      for offset := 0 to n
        invariant device == old(device) && sb == old(sb) && groups == old(groups) && blockLog == old(blockLog)
        invariant forall o :: 0 <= o < offset ==> BlockGroupFull(g, w.blocks, Probe(preferred, o, n))
      {
        var group := Probe(preferred, offset, n);
        GroupFacts(g, w, c, own, group);
        if groups[group].FreeBlocksCount() == 0 {
          assert c.blockFree[group] == 0;
          continue;
        }
        var bitmapBlock := ReadBlock(groups[group].BlockBitmap());
        if bitmapBlock.Err? {
          return Err(IoError);
        }
        ghost var bm := bitmapBlock.value;
        var bitmap := new byte[|bitmapBlock.value|](x requires 0 <= x < |bitmapBlock.value| => bitmapBlock.value[x]);
        assert bitmap[..] == bm;
        var bit := AllocateOne(bitmap, 0, sb.blocksPerGroup);
        if bit.Some? {
          FreeBitIs(g, w.blocks, group, bit.value);
          var abs := MarkBlock(group, bit.value, bitmap[..]);
          FirstBlockIs(g, w, c, Vw(), Cnt(), preferred, offset, bit.value, bm);
          return Ok(abs);
        }
      }
      forall k: nat | k < n
        ensures BlockGroupFull(g, w.blocks, k)
      {
        var o := ProbeReaches(preferred, n, k);
      }
      NoBlockFree(g, w, c, own);
      return Err(NoFreeBlocks);
    }

    /** Writes the inode bitmap with the new bit back, and lowers the two free counters. */
    method MarkInode(group: nat, bit: nat, bitmap: seq<byte>) returns (ino: nat)
      requires Valid() && FreeInodeBit(Geo(), Vw().blocks, group, bit)
      requires group < |groups| && bitmap == WithBit(Vw().blocks[groups[group].InodeBitmap()], bit)
      modifies this`device, this`sb, this`groups, this`inodeLog
      ensures Valid() && Geo() == old(Geo())
      ensures Allocates(Geo(), old(Vw()).blocks, Vw().blocks)
      ensures old(sb.freeInodesCount) > 0 && sb == old(sb).(freeInodesCount := old(sb).freeInodesCount - 1)
      ensures Cnt().usedDirs == old(Cnt()).usedDirs && Sum(Cnt().usedDirs) + Sum(Cnt().inodeFree) < Geo().InodeCount()
      ensures TookInode(Geo(), old(Vw()), old(Cnt()), Vw(), Cnt(), group, bit)
      ensures ino == InodeAt(Geo(), group, bit) && inodeLog == old(inodeLog) + [ino] && ino !in old(inodeLog)
      ensures LooseInode(Geo(), Vw(), own, ino) && UsableKept(Geo(), old(Vw()), Vw())
        && OthersKept(old(Vw()), own, Vw(), own, {})
    {
      hide ViewOf, Inv, LogsOk, UsableKept, OthersKept, LooseInode, Allocates, Fits, FreeInodeBit, CountClear,
        IsSet, Sum;
      ghost var g, w, c := Geo(), Vw(), Cnt();
      GroupFacts(g, w, c, own, group);
      TakeInode(g, w, c, own, group, bit);
      LogTakenInode(g, w, c, own, group, bit, start.blocks, blockLog, inodeLog);
      var _ := WriteBlock(groups[group].InodeBitmap(), bitmap);
      assert Vw() == InodeTaken(g, w, group, bit);
      CountersAfterInode(sb, groups, group);
      groups := groups[group := groups[group].SetFreeInodesCount(SaturatingDec(groups[group].FreeInodesCount()))];
      sb := sb.(freeInodesCount := SaturatingDec(sb.freeInodesCount));
      ino := OffsetOf(group, sb.inodesPerGroup) + bit + 1;
      inodeLog := inodeLog + [ino];
    }

    /** A new inode number, with the same probe as for blocks; it fails exactly when every inode bitmap is full. */
    method AllocateInode(preferred: nat) returns (r: Result<nat>)
      requires Valid()
      modifies this`device, this`sb, this`groups, this`inodeLog
      ensures Valid() && Geo() == old(Geo()) && FixedOf(sb, groups) == old(FixedOf(sb, groups))
      ensures Allocates(Geo(), old(Vw()).blocks, Vw().blocks)
      ensures r.Err? ==>
        r.error == NoFreeInodes && device == old(device) && sb == old(sb) && groups == old(groups)
          && inodeLog == old(inodeLog)
      ensures r.Err? <==> old(sb.freeInodesCount) == 0
      ensures r.Err? <==> forall k: nat, i: nat :: !FreeInodeBit(Geo(), old(Vw()).blocks, k, i)
      ensures r.Ok? ==>
        sb == old(sb).(freeInodesCount := sb.freeInodesCount) && sb.freeInodesCount == old(sb.freeInodesCount) - 1
      ensures r.Ok? ==>
        Cnt().usedDirs == old(Cnt()).usedDirs && Sum(Cnt().usedDirs) + Sum(Cnt().inodeFree) < Geo().InodeCount()
      ensures r.Ok? ==> inodeLog == old(inodeLog) + [r.value] && r.value !in old(inodeLog)
      ensures Cnt().sbInodes == old(Cnt()).sbInodes - OneIfAny(old(Cnt()).sbInodes)
      ensures r.Ok? ==> TookFirstInode(Geo(), old(Vw()), old(Cnt()), Vw(), Cnt(), preferred, r.value)
      ensures r.Ok? ==>
        LooseInode(Geo(), Vw(), own, r.value) && UsableKept(Geo(), old(Vw()), Vw())
          && OthersKept(old(Vw()), own, Vw(), own, {})
    {
      hide ViewOf, Inv, LogsOk, UsableKept, OthersKept, LooseInode, Allocates, Fits, FreeInodeBit, InodeAt,
        CountClear, IsSet, Sum, Probe;
      ghost var g, w, c := Geo(), Vw(), Cnt();
      AllocatesSelf(g, w.blocks);
      var n := |groups|;
      for offset := 0 to n
        invariant device == old(device) && sb == old(sb) && groups == old(groups) && inodeLog == old(inodeLog)
        invariant forall o :: 0 <= o < offset ==> InodeGroupFull(g, w.blocks, Probe(preferred, o, n))
      {
        var group := Probe(preferred, offset, n);
        GroupFacts(g, w, c, own, group);
        if groups[group].FreeInodesCount() == 0 {
          assert c.inodeFree[group] == 0;
          continue;
        }
        var bitmapBlock := ReadBlock(groups[group].InodeBitmap());
        if bitmapBlock.Err? {
          return Err(IoError);
        }
        ghost var bm := bitmapBlock.value;
        var bitmap := new byte[|bitmapBlock.value|](x requires 0 <= x < |bitmapBlock.value| => bitmapBlock.value[x]);
        assert bitmap[..] == bm;
        var bit := AllocateOne(bitmap, 0, sb.inodesPerGroup);
        if bit.Some? {
          FreeBitIs(g, w.blocks, group, bit.value);
          var ino := MarkInode(group, bit.value, bitmap[..]);
          FirstInodeIs(g, w, c, Vw(), Cnt(), preferred, offset, bit.value, bm);
          return Ok(ino);
        }
      }
      forall k: nat | k < n
        ensures InodeGroupFull(g, w.blocks, k)
      {
        var o := ProbeReaches(preferred, n, k);
      }
      NoInodeFree(g, w, c, own);
      return Err(NoFreeInodes);
    }

    /** From here on the logs record what this run hands out. */
    ghost method BeginRun()
      requires Valid()
      modifies this`start, this`blockLog, this`inodeLog
      ensures Valid() && blockLog == [] && inodeLog == []
      ensures start == Start(Vw().blocks, sb.FreeBlocks(), sb.freeInodesCount)
    {
      hide Inv, LogsOk, ViewOf, Fits;
      InvIsOk(Geo(), Vw(), Cnt(), own);
      LogsStart(Geo(), Vw().blocks);
      start, blockLog, inodeLog := Start(Vw().blocks, sb.FreeBlocks(), sb.freeInodesCount), [], [];
    }

    // --- Writing ---

    /** `write_block` on a block that is allocated but belongs to no inode yet. */
    method WriteLooseBlock(b: nat, data: seq<byte>)
      requires Valid() && Loose(Geo(), Vw(), own, b) && |data| == Geo().blockSize
      modifies this`device
      ensures Valid() && b in old(Vw()).blocks && Vw() == old(Vw()).(blocks := old(Vw()).blocks[b := data])
      ensures Allocates(Geo(), old(Vw()).blocks, Vw().blocks) && OthersKept(old(Vw()), own, Vw(), own, {})
      ensures Loose(Geo(), Vw(), own, b)
    {
      hide ViewOf, Inv, LogsOk, OthersKept, Allocates, Fits, SameBitmaps, Geometry.Usable, NotFree;
      ghost var g, w, c := Geo(), Vw(), Cnt();
      InvIsOk(g, w, c, own);
      BlockWriteFacts(g, w, own, b, data);
      WriteUnowned(g, w, c, own, b, data);
      SameBitmapsOnlyAllocate(g, w.blocks, w.blocks[b := data]);
      UsableWriteAllocates(g, w.blocks, b, data);
      LogsKept(g, start.blocks, w.blocks, w.blocks[b := data], blockLog, inodeLog);
      var _ := WriteBlock(b, data);
      assert Vw() == w.(blocks := w.blocks[b := data]);
    }

    /** `write_inode` of an inode whose tree is a root node over blocks it may own; the inode is live afterwards. */
    method StoreInode(ino: nat, n: Inode)
      requires Valid() && (ino in own || LooseInode(Geo(), Vw(), own, ino))
      requires LeafRoot(n) && RootFits(n) && MayOwn(Geo(), Vw(), own, ino, SetOf(RootBlocks(n)))
      requires n.IsDir() ==> RowOk(Vw().blocks, RootBlocks(n), own.Keys + {ino})
      modifies this`device, this`own
      ensures Valid() && own == old(own)[ino := SetOf(RootBlocks(n))]
      ensures RecordWritten(Geo(), old(Vw()), Vw(), ino, Stored(n, Geo().inodeSize))
      ensures Allocates(Geo(), old(Vw()).blocks, Vw().blocks) && OthersKept(old(Vw()), old(own), Vw(), own, {ino})
      ensures forall b :: b in RootBlocks(n) && b in old(Vw()).blocks ==>
        b in Vw().blocks && Vw().blocks[b] == old(Vw()).blocks[b]
    {
      hide ViewOf, Inv, LogsOk, OthersKept, Allocates, Fits, SameBitmaps, MayOwn, RecordWritten, LeafRoot,
        RootFits, RootBlocks, RowOk, Inode.IsDir, SetOf;
      ghost var g, w, c := Geo(), Vw(), Cnt();
      LiveOrLoose(g, w, c, own, ino);
      var _ := WriteInode(ino, n);
      StoreLeafRoot(g, w, c, own, Vw(), ino, n);
      InvIsOk(g, w, c, own);
      RecordWriteAllocates(g, w, Vw(), ino, Stored(n, g.inodeSize));
      LogsKept(g, start.blocks, w.blocks, Vw().blocks, blockLog, inodeLog);
      own := own[ino := SetOf(RootBlocks(n))];
    }

    /** One more single-block extent, written to the inode's record; an error leaves everything as it was. */
    method AppendExtent(ino: nat, n: Inode, phys: nat) returns (r: Result<()>, m: Inode)
      requires Valid() && (ino in own || LooseInode(Geo(), Vw(), own, ino)) && RootFits(n)
      requires Loose(Geo(), Vw(), own, phys)
      requires LeafRoot(n) ==> SetOf(RootBlocks(n)) <= if ino in own then own[ino] else {}
      requires n.IsDir() && LeafRoot(n) ==> RowOk(Vw().blocks, RootBlocks(n) + [phys], own.Keys + {ino})
      modifies this`device, this`own
      ensures Valid()
      ensures Allocates(Geo(), old(Vw()).blocks, Vw().blocks) && OthersKept(old(Vw()), old(own), Vw(), own, {ino})
      ensures AppendTo(n, phys).Err? ==>
        r == Err(AppendTo(n, phys).error) && m == n && device == old(device) && own == old(own)
      ensures AppendTo(n, phys).Ok? ==>
        r == Ok(()) && m == AppendTo(n, phys).value == n.(iBlock := m.iBlock) && LeafRoot(m) && RootFits(m)
      ensures AppendTo(n, phys).Ok? ==>
        LeafRoot(n) && RootBlocks(m) == RootBlocks(n) + [phys] && own == old(own)[ino := SetOf(RootBlocks(m))]
      ensures AppendTo(n, phys).Ok? ==> OrderGrows(n, m, phys)
      ensures AppendTo(n, phys).Ok? ==> RecordWritten(Geo(), old(Vw()), Vw(), ino, Stored(m, Geo().inodeSize))
      ensures AppendTo(n, phys).Ok? ==>
        forall b :: b in RootBlocks(m) && b in old(Vw()).blocks ==>
          b in Vw().blocks && Vw().blocks[b] == old(Vw()).blocks[b]
    {
      hide OrderGrows, ViewOf, Inv, LogsOk, OthersKept, Allocates, Fits, SameBitmaps, MayOwn, RecordWritten,
        LeafRoot, RootFits, RootBlocks, RowOk, Inode.IsDir, WithLeaf, Leaves, NextLogical, OneBlockLeaf, Inode.Header,
        Loose;
      ghost var g, w, c := Geo(), Vw(), Cnt();
      m := n;
      AllocatesSelf(g, w.blocks);
      OthersKeptSelf(g, w, c, own, {ino});
      var header := n.Header();
      if header == None {
        return Err(Corrupt), m;
      }
      if !header.value.IsLeaf() {
        return Err(UnsupportedFeature), m;
      }
      if header.value.entries >= header.value.max {
        return Err(UnsupportedFeature), m;
      }
      LooseIsSmall(g, w, c, own, phys);
      AppendToFacts(n, phys);
      AppendKeepsOrder(n, phys);
      RootCapacity(header.value.entries as int) by { RootFitsIs(n); }
      var leaves := ParseLeaves(n.iBlock);
      m := n.(iBlock := WithLeaf(n.iBlock, header.value.entries, OneBlockLeaf(NextLogical(leaves), phys)));
      MayOwnMore(g, w, c, own, ino, SetOf(RootBlocks(m)), phys);
      SameMode(n, m);
      StoreInode(ino, m);
      return Ok(()), m;
    }

    /** What callers need of the invariant, so that its definition can stay out of their proofs. */
    lemma OpenValid(ino: nat)
      requires Valid() && ino in own
      ensures Mounted() && Inv(Geo(), Vw(), Cnt(), own) && 1 <= ino && ino in Vw().inodes
      ensures Geo().blockSize == sb.BlockSize() && Geo().inodesPerGroup == sb.inodesPerGroup
        && Geo().inodeSize == sb.rest.inodeSize as int
      ensures 1024 <= Geo().blockSize < TWO16 && Geo().inodesPerGroup > 0 && |Geo().loc| == |groups|
    {
      InvIsOk(Geo(), Vw(), Cnt(), own);
      hide Inv;
      OwnedIsUsable(Geo(), Vw(), Cnt(), own, ino);
    }

    lemma OpenRoot()
      requires Valid()
      ensures Mounted() && Inv(Geo(), Vw(), Cnt(), own) && ROOT_INODE in own && ROOT_INODE in Vw().inodes
      ensures Geo().blockSize == sb.BlockSize() && 1024 <= Geo().blockSize < TWO16
    {
      InvIsOk(Geo(), Vw(), Cnt(), own);
    }

    lemma OpenFixed()
      requires Valid()
      ensures FixedOf(sb, groups) == fixed
    {
    }

    lemma OpenLogs()
      requires Valid()
      ensures LogsOk(Geo(), start.blocks, Vw().blocks, blockLog, inodeLog)
      ensures sb.FreeBlocks() + |blockLog| == start.freeBlocks && sb.freeInodesCount + |inodeLog| == start.freeInodes
    {
    }

    /** `allocate_block` and then `write_block` of the block it handed out. */
    method AllocateAndWrite(preferred: nat, data: seq<byte>) returns (r: Result<nat>)
      requires Valid() && |data| == Geo().blockSize
      modifies this`device, this`sb, this`groups, this`blockLog
      ensures Valid() && Geo() == old(Geo()) && SameInodeCounts(old(Cnt()), Cnt())
      ensures Allocates(Geo(), old(Vw()).blocks, Vw().blocks) && OthersKept(old(Vw()), own, Vw(), own, {})
      ensures r.Err? ==>
        r.error == NoFreeBlocks && device == old(device) && sb == old(sb) && groups == old(groups)
          && blockLog == old(blockLog)
      ensures r.Err? <==> old(sb.FreeBlocks()) == 0
      ensures r.Ok? ==> blockLog == old(blockLog) + [r.value] && !NotFree(Geo(), old(Vw()).blocks, r.value)
      ensures r.Ok? ==> sb.FreeBlocks() == old(sb.FreeBlocks()) - 1
      ensures r.Ok? ==> NextFree(Geo(), old(Vw()).blocks, preferred, [], r.value)
      ensures r.Ok? ==> Loose(Geo(), Vw(), own, r.value) && r.value in Vw().blocks && Vw().blocks[r.value] == data
      ensures Vw().inodes == old(Vw()).inodes
    {
      hide ViewOf, Inv, LogsOk, OthersKept, Allocates, Fits, Loose, FreeBlockBit, BlockAt, TookFirstBlock,
        NotFree, NextFree;
      ghost var g, w, c := Geo(), Vw(), Cnt();
      OthersKeptSelf(g, w, c, own, {});
      r := AllocateBlock(preferred);
      if r.Ok? {
        ghost var w1 := Vw();
        TookNext(g, w, c, Vw(), Cnt(), preferred, r.value);
        WasFree(g, w, c, Vw(), Cnt(), preferred, r.value);
        WriteLooseBlock(r.value, data);
        AllocatesTrans(g, w.blocks, w1.blocks, Vw().blocks);
        OthersKeptTrans(w, own, w1, own, Vw(), own, {}, {}, {});
      }
    }

    /** `append_extent` of a loose block that holds just the new record, and then the new size of the directory. */
    method AttachDirBlock(dirIno: nat, dir: Inode, b: nat, e: DirEntry) returns (r: Result<()>, dir': Inode)
      requires Valid() && dirIno in own && dirIno in Vw().inodes && Vw().inodes[dirIno] == dir && RootFits(dir)
        && dir.Header().Some?
      requires Loose(Geo(), Vw(), own, b)
      requires LeafRoot(dir) ==>
        && SetOf(RootBlocks(dir)) == own[dirIno] && JoinsDir(Vw(), own, dirIno, b, e)
        && RowOk(Vw().blocks, RootBlocks(dir) + [b], own.Keys + {dirIno})
      modifies this`device, this`own
      ensures Valid() && own.Keys == old(own).Keys
      ensures Allocates(Geo(), old(Vw()).blocks, Vw().blocks)
      ensures r == if HasRoom(dir) then Ok(()) else Err(UnsupportedFeature)
      ensures r.Ok? ==> OrderGrows(dir, dir', b)
      ensures r.Err? ==> device == old(device) && own == old(own) && dir' == dir
      ensures r.Ok? ==> OthersKept(old(Vw()), old(own), Vw(), own, {dirIno}) && LeafRoot(dir)
      ensures r.Ok? ==> dirIno in Vw().inodes && DirResized(dir, dir', Vw().inodes[dirIno], Geo().blockSize)
      ensures r.Ok? ==> LeafRoot(dir') && RootBlocks(dir') == RootBlocks(dir) + [b]
      ensures old(Vw()).blocks.Keys == Vw().blocks.Keys
      ensures r.Ok? ==> forall x :: x in RootBlocks(dir') && x in Vw().blocks ==> Vw().blocks[x] == old(Vw()).blocks[x]
    {
      hide Inode.Header, ViewOf, Inv, LogsOk, OthersKept, Allocates, Fits, Loose, LeafRoot, RootFits, RootBlocks,
        RowOk, JoinsDir, AppendTo, SetOf, MayOwn, Stored, Inode.Size, Inode.IsDir, HasRoom, DirResized;
      ghost var g, w, own0 := Geo(), Vw(), own;
      dir' := dir;
      var bs := sb.BlockSize();
      var m: Inode;
      RoomIs(dir, b);
      r, m := AppendExtent(dirIno, dir, b);
      ghost var w3, own3 := Vw(), own;
      if r.Err? {
        return r, dir';
      }
      SameSize(dir, m);
      SameOrder(dir, m, m.SetSize((m.Size() + bs) % TWO64), b);
      var resized := m.SetSize((m.Size() + bs) % TWO64);
      BeforeResize(g, w, w3, Cnt(), own0, own3, dirIno, m, resized, RootBlocks(dir) + [b]);
      StoreInode(dirIno, resized);
      dir' := resized;
      ResizedIs(dir, m, bs, g.inodeSize);
      AllocatesTrans(g, w.blocks, w3.blocks, Vw().blocks);
      OthersKeptTrans(w, own0, w3, own3, Vw(), own, {dirIno}, {dirIno}, {dirIno});
    }

    /** The second half of `add_dir_entry`: a new block for the directory, with this record alone in it. */
    method AddDirBlock(dirIno: nat, dir: Inode, entry: DirEntry) returns (r: Result<()>, dir': Inode)
      requires Valid() && dirIno in own && dirIno in Vw().inodes && Vw().inodes[dirIno] == dir && dir.IsDir()
      requires entry.nameLen == |entry.name| && entry.inode != 0 && entry.inode in own
      requires FindIno(Vw().blocks, dir, entry.name) == Ok(None)
      modifies this`device, this`sb, this`groups, this`own, this`blockLog
      ensures Valid() && Geo() == old(Geo()) && own.Keys == old(own).Keys && SameInodeCounts(old(Cnt()), Cnt())
      ensures r == if old(sb.FreeBlocks()) == 0 then Err(NoFreeBlocks)
        else if HasRoom(dir) then Ok(()) else Err(UnsupportedFeature)
      ensures old(blockLog) <= blockLog
        && sb.FreeBlocks() == old(sb.FreeBlocks()) - (if old(sb.FreeBlocks()) == 0 then 0 else 1)
      ensures r.Ok? ==> DirGrew(Geo(), old(Vw()), Vw(), dirIno, dir, dir', old(blockLog), blockLog)
      ensures Allocates(Geo(), old(Vw()).blocks, Vw().blocks)
      ensures r.Err? ==> OthersKept(old(Vw()), old(own), Vw(), own, {}) && dir' == dir
      ensures r.Ok? ==> OthersKept(old(Vw()), old(own), Vw(), own, {dirIno})
      ensures r.Ok? ==> dirIno in Vw().inodes
      ensures r.Ok? ==> Gained(old(Vw()).blocks, dir, Vw().blocks, Vw().inodes[dirIno], entry.name, entry.inode, true)
      ensures r.Ok? ==> HoldsRecord(Vw().blocks, Vw().inodes[dirIno], entry)
    {
      hide OrderGrows, Inode.Header, Ext4Fs.Valid, Ext4Fs.Mounted, Ext4Fs.Vw, Ext4Fs.Cnt, Ext4Fs.Geo, Inv, OthersKept,
        Allocates, Fits, Loose, LeafRoot, RootFits, RootBlocks, RowOk, Gained, Footprint, FindIno,
        DirEntry.ActualSize, Inode.IsDir, JoinsDir, SetOf, SameOn, Encodable, Splice, Zeros, Directory.ToBytes,
        HasRoom, NextFree, Inode.Size, NotFree, DirGrew, HoldsRecord, DirResized;
      ghost var g, w, c, own0, log0 := Geo(), Vw(), Cnt(), own, blockLog;
      OpenValid(dirIno);
      var group := (dirIno - 1) / sb.inodesPerGroup;
      var bs := sb.BlockSize();
      var e := entry.(recLen := bs % TWO16);
      RecordFillsBlock(entry, bs);
      var bytes := Directory.ToBytes(e);
      FullSplice(bytes);
      var buf := Splice(Zeros(bs), 0, bytes);
      var newBlock := AllocateAndWrite(group, buf);
      if newBlock.Err? {
        return Err(newBlock.error), dir;
      }
      var b := newBlock.value;
      ghost var w2, c2 := Vw(), Cnt();
      OpenValid(dirIno);
      FoundHasHeader(w.blocks, dir, entry.name);
      BeforeJoin(g, w, c, w2, c2, own, dirIno, b, e);
      r, dir' := AttachDirBlock(dirIno, dir, b, e);
      AllocatesTrans(g, w.blocks, w2.blocks, Vw().blocks);
      if r.Ok? {
        OthersKeptTrans(w, own0, w2, own0, Vw(), own, {}, {dirIno}, {dirIno});
        ResizedTree(dir, dir', Vw().inodes[dirIno], bs);
        AfterJoin(g, w, w2, c2, own0, dirIno, b, e, dir', Vw(), Vw().inodes[dirIno]);
        HoldsAnyLength(Vw().blocks, Vw().inodes[dirIno], entry, bs % TWO16);
        GrewIs(g, w, Vw(), dirIno, dir, dir', log0, b);
      }
    }

    /** The scan of `add_dir_entry`: the first block of the directory with space for `needed` bytes, and where in it. */
    method FindSpot(dir: Inode, needed: u16) returns (r: Result<Option<(nat, nat, u16)>>, block: seq<byte>)
      requires Mounted()
      ensures match SpotFor(Vw().blocks, dir, needed)
              case Err(e) => r == Err(e)
              case Ok(None) => r == Ok(None)
              case Ok(Some(spot)) =>
                r == Ok(Some((spot.0, spot.1.off, spot.1.len))) && spot.0 in Vw().blocks && block == Vw().blocks[spot.0]
    {
      hide ViewOf, Mounted, ExtentTree.ResolveExtents, DataBlocks, RowUpTo, DirSlot, FindSlot;
      block := [];
      var extents := ResolveExtents(dir);
      if extents.Err? {
        return Err(extents.error), block;
      }
      var leaves := extents.value;
      ghost var row := DataBlocks(leaves);
      NoSlotYet(Vw().blocks, needed);
      for k := 0 to |leaves|
        invariant DirSlot(Vw().blocks, DataBlocks(leaves[..k]), needed) == Ok(None)
      {
        var leaf := leaves[k];
        RowUpToEnds(leaves, k);
        for j := 0 to leaf.BlockCount()
          invariant DirSlot(Vw().blocks, RowUpTo(leaves, k, j), needed) == Ok(None)
        {
          RowUpToNext(leaves, k, j);
          var phys := leaf.PhysicalStart() + j;
          SlotNext(Vw().blocks, row, RowUpTo(leaves, k, j), phys, needed);
          var data := ReadBlock(phys);
          if data.Err? {
            return Err(data.error), block;
          }
          block := data.value;
          var space := FindSpaceInBlock(block, needed);
          if space.Some? {
            var (off, available) := space.value;
            if off + available as int <= |block| {
              return Ok(Some((phys, off, available))), block;
            }
          }
        }
      }
      assert leaves[..|leaves|] == leaves;
      return Ok(None), block;
    }

    /** The record, its length set to that of the slot, written over `block` at `off`. */
    method InsertRecord(dirIno: nat, entry: DirEntry, phys: nat, block: seq<byte>, off: nat, available: u16,
                        ghost s: Slot)
      requires Valid() && dirIno in own && dirIno in Vw().inodes && Vw().inodes[dirIno].IsDir()
      requires entry.nameLen == |entry.name| && entry.inode != 0 && entry.inode in own
      requires FindIno(Vw().blocks, Vw().inodes[dirIno], entry.name) == Ok(None)
      requires SpotFor(Vw().blocks, Vw().inodes[dirIno], entry.ActualSize()) == Ok(Some((phys, s)))
      requires off == s.off && available == s.len && phys in Vw().blocks && block == Vw().blocks[phys]
      modifies this`device
      ensures Valid() && Allocates(Geo(), old(Vw()).blocks, Vw().blocks)
        && OthersKept(old(Vw()), own, Vw(), own, {dirIno})
      ensures Vw().inodes == old(Vw()).inodes
      ensures Gained(old(Vw()).blocks, Vw().inodes[dirIno], Vw().blocks, Vw().inodes[dirIno], entry.name, entry.inode,
                     s.reuse)
      ensures HoldsRecord(Vw().blocks, Vw().inodes[dirIno], entry)
    {
      hide HoldsRecord, ViewOf, Inv, LogsOk, OthersKept, Allocates, Fits, SpotFor, DirEntry.ActualSize, Inode.IsDir,
        Gained, SameBitmaps, Geometry.Usable, Geometry.InSomeTable, FindIno, FixedOf;
      ghost var g, w, c := Geo(), Vw(), Cnt();
      InvIsOk(g, w, c, own);
      InsertKeepsInv(g, w, c, own, dirIno, entry);
      var modified := Splice(block, off, Directory.ToBytes(entry.(recLen := available)));
      UsableWriteAllocates(g, w.blocks, phys, modified);
      LogsKept(g, start.blocks, w.blocks, w.blocks[phys := modified], blockLog, inodeLog);
      BlockWriteFacts(g, w, own, phys, modified);
      var _ := WriteBlock(phys, modified);
      assert Vw() == w.(blocks := w.blocks[phys := modified]);
    }

    /**
     Searches the directory's blocks for space and writes the record there, or adds a block for it. Afterwards the name
     is found exactly when the record went into a deleted record or into a new block; no other lookup changes.
     */
    method AddDirEntry(dirIno: nat, dir: Inode, entry: DirEntry) returns (r: Result<()>, dir': Inode)
      requires Valid() && dirIno in own && dirIno in Vw().inodes && Vw().inodes[dirIno] == dir && dir.IsDir()
      requires entry.nameLen == |entry.name| && entry.inode != 0 && entry.inode in own
      requires FindIno(Vw().blocks, dir, entry.name).Ok? ==> FindIno(Vw().blocks, dir, entry.name) == Ok(None)
      modifies this`device, this`sb, this`groups, this`own, this`blockLog
      ensures Valid() && Geo() == old(Geo()) && own.Keys == old(own).Keys && SameInodeCounts(old(Cnt()), Cnt())
      ensures Allocates(Geo(), old(Vw()).blocks, Vw().blocks)
      ensures r.Err? ==> OthersKept(old(Vw()), old(own), Vw(), own, {}) && dir' == dir
      ensures r.Ok? ==> OthersKept(old(Vw()), old(own), Vw(), own, {dirIno})
      ensures r.Ok? ==>
        && dirIno in Vw().inodes && SameTree(dir', Vw().inodes[dirIno]) && Regrown(dir, dir', dir.linksCount)
        && Regrown(dir, Vw().inodes[dirIno], dir.linksCount)
      ensures r.Ok? ==> FindIno(old(Vw()).blocks, dir, entry.name) == Ok(None)
      ensures r == EntryOutcome(old(Vw()).blocks, dir, entry.ActualSize(), old(sb.FreeBlocks()))
      ensures sb.FreeBlocks()
        == old(sb.FreeBlocks()) - EntryTaken(old(Vw()).blocks, dir, entry.ActualSize(), old(sb.FreeBlocks()))
      ensures old(blockLog) <= blockLog
      ensures r.Ok? ==>
        if EntryCost(old(Vw()).blocks, dir, entry.ActualSize()) == Some(0)
        then dir' == dir && blockLog == old(blockLog) && Vw().inodes == old(Vw()).inodes
        else DirGrew(Geo(), old(Vw()), Vw(), dirIno, dir, dir', old(blockLog), blockLog)
      ensures r.Ok? ==> HoldsRecord(Vw().blocks, Vw().inodes[dirIno], entry)
      ensures r.Ok? ==> Gained(old(Vw()).blocks, dir, Vw().blocks, Vw().inodes[dirIno], entry.name, entry.inode,
                               Reachable(old(Vw()).blocks, dir, entry.ActualSize()))
      ensures r.Ok? ==>
        var found := Findable(DirItems(old(Vw()).blocks, dir), entry.ActualSize());
        FindIno(Vw().blocks, Vw().inodes[dirIno], entry.name) == Ok(if found then Some(entry.inode as nat) else None)
    {
      hide Ext4Fs.Valid, Ext4Fs.Mounted, Ext4Fs.Vw, Ext4Fs.Cnt, Ext4Fs.Geo, OrderGrows, Inv, OthersKept,
        Allocates, Fits, ExtentTree.ResolveExtents, DataBlocks, DirSlot, DirEntry.ActualSize, Inode.IsDir, Gained,
        HasRoom, Inode.Size, FindIno, Findable, NoHost, RowItems, HoldsRecord, DirGrew;
      ghost var g, w, c, log0 := Geo(), Vw(), Cnt(), blockLog;
      dir' := dir;
      OpenValid(dirIno);
      AllocatesSelf(g, w.blocks);
      OthersKeptSelf(g, w, c, own, {});
      FindsInLive(g, w, c, own, dirIno, entry.name);
      var needed := entry.ActualSize();
      var spot, block := FindSpot(dir, needed);
      if spot.Err? {
        return Err(spot.error), dir';
      }
      SpotMeansFound(w.blocks, dir, needed);
      ReachableIs(g, w, c, own, dirIno, needed);
      if spot.value.Some? {
        var (phys, off, available) := spot.value.value;
        InsertRecord(dirIno, entry, phys, block, off, available, SpotFor(w.blocks, dir, needed).value.value.1);
        GainedName(w.blocks, dir, Vw().blocks, dir, entry.name, entry.inode, Reachable(w.blocks, dir, needed));
        return Ok(()), dir';
      }
      r, dir' := AddDirBlock(dirIno, dir, entry);
      if r.Ok? {
        GrewFacts(g, w, Vw(), dirIno, dir, dir', log0, blockLog);
        GainedName(w.blocks, dir, Vw().blocks, Vw().inodes[dirIno], entry.name, entry.inode, true);
      }
    }

    /** One round of the block loop of `write_file`: a block with the next part of the data, and an extent for it. */
    method AppendData(ino: nat, n: Inode, group: nat, data: seq<byte>, i: nat, ghost bl: seq<nat>)
      returns (r: Result<()>, m: Inode, ghost next: seq<nat>)
      requires Valid() && ino in own && FileSoFar(n, bl) && i == |bl| && OffsetOf(i, Geo().blockSize) <= |data|
      requires Stores(Vw().blocks, bl, data, Geo().blockSize) && (i > 0 ==> own[ino] == SetOf(bl))
      modifies this`device, this`sb, this`groups, this`own, this`blockLog
      ensures Valid() && Geo() == old(Geo()) && own.Keys == old(own).Keys && SameInodeCounts(old(Cnt()), Cnt())
      ensures Allocates(Geo(), old(Vw()).blocks, Vw().blocks) && OthersKept(old(Vw()), old(own), Vw(), own, {ino})
      ensures r == if old(sb.FreeBlocks()) == 0 then Err(NoFreeBlocks)
        else if i >= 4 then Err(UnsupportedFeature) else Ok(())
      ensures sb.FreeBlocks() == old(sb.FreeBlocks()) - (if r == Err(NoFreeBlocks) then 0 else 1)
      ensures old(blockLog) <= blockLog && |blockLog| == |old(blockLog)| + if r == Err(NoFreeBlocks) then 0 else 1
      ensures FileSoFar(m, next) && Stores(Vw().blocks, next, data, Geo().blockSize) && m == n.(iBlock := m.iBlock)
      ensures r.Err? ==> m == n && next == bl && own == old(own) && Vw().inodes == old(Vw()).inodes
      ensures r == Err(NoFreeBlocks) ==> Vw() == old(Vw())
      ensures r.Ok? ==>
        && next == bl + [blockLog[|old(blockLog)|]] && !NotFree(Geo(), old(Vw()).blocks, next[i])
        && NextFree(Geo(), old(Vw()).blocks, group, [], next[i])
        && own[ino] == SetOf(next) && ino in Vw().inodes && Vw().inodes[ino] == Stored(m, Geo().inodeSize)
    {
      hide Ext4Fs.Valid, Ext4Fs.Mounted, Ext4Fs.Vw, Ext4Fs.Cnt, Ext4Fs.Geo, Inv, OthersKept, Allocates, Fits,
        Loose, LeafRoot, RootFits, RootBlocks, RowOk, Inode.IsDir, SetOf, SameOn, FileSoFar, Stores, Chunk, OffsetOf,
        AppendTo, MayOwn, Inode.Header, Leaves, Stored, NotFree, OrderGrows, NextFree;
      ghost var g, w0, own0 := Geo(), Vw(), own;
      OpenValid(ino);
      m, next := n, bl;
      OthersKeptSelf(g, w0, Cnt(), own, {ino});
      var block := Chunk(data, sb.BlockSize(), i);
      var phys := AllocateAndWrite(group, block);
      if phys.Err? {
        return Err(phys.error), m, next;
      }
      ghost var w1 := Vw();
      OpenValid(ino);
      OneMoreChunk(g, w0, own, w1, Cnt(), ino, bl, data, g.blockSize, n, phys.value);
      FileFacts(n, bl);
      r, m := AppendExtent(ino, n, phys.value);
      AllocatesTrans(g, w0.blocks, w1.blocks, Vw().blocks);
      OthersKeptTrans(w0, own0, w1, own0, Vw(), own, {}, {ino}, {ino});
      if r.Err? {
        return;
      }
      next := bl + [phys.value];
      FileFacts(m, next);
      StoresKept(w1.blocks, Vw().blocks, next, data, g.blockSize);
      RecordIsDir(g, w1, Vw(), ino, m);
    }

    /**
     The block loop of `write_file` and the final inode write: an empty tree, one block and one extent at a time, each
     extent written to the inode's record at once. The blocks handed out, `bl`, hold the data in order and are mapped in
     order, also when the loop stops early; what the inode owned before stays allocated and belongs to nobody.
     */
    method WriteContents(ino: nat, inode: Inode, data: seq<byte>) returns (r: Result<()>, ghost bl: seq<nat>)
      requires Valid() && ino in own && !inode.IsDir() && |data| + TWO16 < TWO64
      modifies this`device, this`sb, this`groups, this`own, this`blockLog
      ensures Valid() && Geo() == old(Geo()) && own.Keys == old(own).Keys && SameInodeCounts(old(Cnt()), Cnt())
      ensures Allocates(Geo(), old(Vw()).blocks, Vw().blocks)
      ensures OthersKept(old(Vw()), old(own), Vw(), own, {ino})
      ensures old(blockLog) + bl <= blockLog
        && |blockLog| == |old(blockLog)| + |bl| + if r == Err(UnsupportedFeature) then 1 else 0
      ensures InProbeOrder(Geo(), old(Vw()).blocks, Geo().GroupOf(ino), bl)
      ensures ContentsDone(Geo(), old(Vw()), old(own), Vw(), own, ino, inode, data, sb.BlockSize(),
                           old(sb.FreeBlocks()), sb.FreeBlocks(), r, bl)
    {
      hide Ext4Fs.Valid, Ext4Fs.Mounted, Ext4Fs.Vw, Ext4Fs.Cnt, Ext4Fs.Geo, Inv, OthersKept, Allocates, Fits,
        Loose, LeafRoot, RootFits, RootBlocks, RowOk, Inode.IsDir, SetOf, SameOn, Splice, Zeros, FileSoFar, Stores,
        Chunk, BlocksFor, OffsetOf, MayOwn, ReadData, Inode.WithEmptyTree, Inode.Header, Leaves, Stored, WrittenAs,
        NotFree, FileHolds, Leaked, Inode.Size, InProbeOrder, BlocksLogged, InodesLogged, Retreed, ContentsDone,
        ContentsOutcome, BlocksTaken, ContentsTaken, Finished, WereFree;
      ghost var g, w0, c0, own0, free0, log0 := Geo(), Vw(), Cnt(), own, sb.FreeBlocks(), blockLog;
      OpenValid(ino);
      OpenLogs();
      ghost var start0 := start;
      NoneInOrder(g, w0.blocks, g.GroupOf(ino));
      var bs := sb.BlockSize();
      var blocksNeeded := BlocksFor(|data|, bs);
      var group := (ino - 1) / sb.inodesPerGroup;
      var n := inode.WithEmptyTree();
      bl := [];
      FileStarts(inode);
      AllocatesSelf(g, w0.blocks);
      OthersKeptSelf(g, w0, c0, own, {ino});
      NothingStored(w0.blocks, data, bs);
      NoneWereFree(g, w0.blocks);
      for i := 0 to blocksNeeded
        invariant Valid() && Geo() == g && own.Keys == own0.Keys && SameInodeCounts(c0, Cnt()) && sb.BlockSize() == bs
        invariant Allocates(g, w0.blocks, Vw().blocks) && OthersKept(w0, own0, Vw(), own, {ino})
        invariant |bl| == i && i <= 4 && FileSoFar(n, bl) && Stores(Vw().blocks, bl, data, bs) && blockLog == log0 + bl
        invariant sb.FreeBlocks() == free0 - i && WereFree(g, w0.blocks, bl)
        invariant start == start0 && InProbeOrder(g, w0.blocks, group, bl)
        invariant Retreed(inode, n)
        invariant i > 0 ==> own[ino] == SetOf(bl) && ino in Vw().inodes && Vw().inodes[ino] == Stored(n, g.inodeSize)
        invariant i == 0 ==> own == own0 && Vw() == w0
      {
        ghost var w1, own1, bl1 := Vw(), own, bl;
        BlocksForBounds(|data|, bs, i);
        OpenLogs();
        var m: Inode;
        r, m, bl := AppendData(ino, n, group, data, i, bl);
        StepTwo(g, w0, own0, w1, own1, Vw(), own, ino);
        if r.Err? {
          OpenValid(ino);
          StopsHere(blocksNeeded, free0, i, r);
          Stopped(g, w0, c0, own0, Vw(), Cnt(), own, ino, inode, n, bl, data, bs, free0, sb.FreeBlocks(), r);
          return;
        }
        MoreWereFree(g, w0.blocks, w1.blocks, bl1, bl);
        NextAfter(g, start0.blocks, w0.blocks, w1.blocks, log0, bl1, group, bl[i]);
        StillRetreed(inode, n, m);
        n := m;
        OpenValid(ino);
      }
      FinishContents(ino, inode, n, data, blocksNeeded, bl, w0, c0, own0, free0);
      return Ok(()), bl;
    }

    /** The record of the file once all blocks are attached; `u` is the view before the first of them was. */
    method FinishContents(ino: nat, inode: Inode, n: Inode, data: seq<byte>, blocksNeeded: nat, ghost bl: seq<nat>,
                          ghost u: View, ghost cu: Counts, ghost before: Owners, ghost free: nat)
      requires Valid() && ino in own && own.Keys == before.Keys && Inv(Geo(), u, cu, before)
      requires Allocates(Geo(), u.blocks, Vw().blocks) && OthersKept(u, before, Vw(), own, {ino})
      requires FileSoFar(n, bl) && Retreed(inode, n) && WereFree(Geo(), u.blocks, bl)
      requires Stores(Vw().blocks, bl, data, sb.BlockSize()) && (|bl| > 0 ==> own[ino] == SetOf(bl))
      requires sb.BlockSize() > 0 && |bl| == blocksNeeded == BlocksFor(|data|, sb.BlockSize()) <= 4
      requires sb.FreeBlocks() == free - |bl| && |data| + TWO16 < TWO64
      modifies this`device, this`own
      ensures Valid() && own.Keys == before.Keys
      ensures Allocates(Geo(), u.blocks, Vw().blocks) && OthersKept(u, before, Vw(), own, {ino})
      ensures ContentsDone(Geo(), u, before, Vw(), own, ino, inode, data, sb.BlockSize(), free, sb.FreeBlocks(),
                           Ok(()), bl)
    {
      hide Ext4Fs.Valid, Ext4Fs.Mounted, Ext4Fs.Vw, Ext4Fs.Cnt, Ext4Fs.Geo, Inv, OthersKept, Allocates, Fits,
        LeafRoot, RootFits, RootBlocks, RowOk, Inode.IsDir, SetOf, FileSoFar, Stores, BlocksFor, MayOwn, Inode.Header,
        Leaves, Stored, WereFree, Inode.Size, Retreed, ContentsDone, Finished;
      ghost var g, w, own0 := Geo(), Vw(), own;
      OpenValid(ino);
      var bs := sb.BlockSize();
      var done := Finished(n, |data|, blocksNeeded, bs);
      FinishedIs(n, |data|, blocksNeeded, bs);
      StillFile(n, done, bl);
      FileFacts(done, bl);
      NothingStored(w.blocks, data, bs);
      MayOwnSame(g, w, Cnt(), own, ino, SetOf(bl));
      StoreInode(ino, done);
      StepTwo(g, u, before, w, own0, Vw(), own, ino);
      StoresKept(w.blocks, Vw().blocks, bl, data, bs);
      OpenValid(ino);
      ContentsWritten(g, u, cu, before, w, Vw(), Cnt(), own, ino, inode, n, bl, data, bs, free, sb.FreeBlocks());
    }

    /** A new inode with the record of an empty file. */
    method AllocateFile(parent: nat, name: seq<byte>) returns (r: Result<nat>, inode: Inode)
      requires Valid() && parent in own && parent in Vw().inodes
      modifies this`device, this`sb, this`groups, this`own, this`inodeLog
      ensures Valid() && Geo() == old(Geo()) && Cnt().usedDirs == old(Cnt()).usedDirs
      ensures Allocates(Geo(), old(Vw()).blocks, Vw().blocks) && OthersKept(old(Vw()), old(own), Vw(), own, {})
      ensures FindsKept(old(Vw()), old(own), Vw()) && old(own).Keys <= own.Keys
      ensures parent in Vw().inodes && Vw().inodes[parent] == old(Vw()).inodes[parent]
      ensures SameOn(old(Vw()).blocks, Vw().blocks, Footprint(old(Vw()).blocks, Vw().inodes[parent]))
      ensures FindIno(Vw().blocks, Vw().inodes[parent], name) == FindIno(old(Vw()).blocks, Vw().inodes[parent], name)
      ensures if old(sb.freeInodesCount) == 0 then r == Err(NoFreeInodes) else r.Ok?
      ensures sb.FreeBlocks() == old(sb.FreeBlocks())
      ensures Cnt().sbInodes == old(Cnt()).sbInodes - OneIfAny(old(Cnt()).sbInodes)
      ensures r.Ok? ==>
        r.value in own && r.value !in old(own) && 0 < r.value < TWO32 && !inode.IsDir() && IsEmptyFile(Vw(), r.value)
      ensures r.Ok? ==> inode == NewFile(0x1A4) && Vw().inodes[r.value] == Stored(inode, Geo().inodeSize)
      ensures r.Ok? ==> FirstInode(Geo(), old(Vw()).blocks, Geo().GroupOf(parent), r.value)
    {
      hide Ext4Fs.Valid, Ext4Fs.Mounted, Ext4Fs.Vw, Ext4Fs.Cnt, Ext4Fs.Geo, Inv, OthersKept, Allocates, Fits,
        LeafRoot, RootFits, RootBlocks, RowOk, Inode.IsDir, SetOf, SameOn, LooseInode, FindIno, FindsKept, Footprint,
        NewFile, MayOwn, UsableKept, InodeAt, FreeInodeBit, RecordWritten, Stored, Sum, Inode.UsesExtents,
        Inode.Header, Leaves, Inode.Size, FirstInode, TookFirstInode;
      ghost var g, w0, c0, own0 := Geo(), Vw(), Cnt(), own;
      OpenValid(parent);
      inode := NewFile(0x1A4);
      NothingHappened(g, w0, c0, own0, parent);
      var group := (parent - 1) / sb.inodesPerGroup;
      r := AllocateInode(group);
      if r.Err? {
        return;
      }
      var ino := r.value;
      ghost var w1, c1 := Vw(), Cnt();
      OpenValid(parent);
      InvIsOk(g, w1, c1, own);
      LooseNumber(g, w1, own, ino);
      TookFirst(g, w0, c0, w1, c1, group, ino);
      NewFileOwnsNothing(0x1A4);
      MayOwnSame(g, w1, c1, own, ino, {});
      StoreInode(ino, inode);
      OpenValid(parent);
      NewInodeKept(g, w0, c0, own0, w1, c1, Vw(), Cnt(), own, parent, ino, {}, name);
      RecordIsDir(g, w1, Vw(), ino, inode);
      NewFileIsEmpty(inode, g.inodeSize);
    }

    /** The "not found" branch of `write_file`: a new inode, its record, and its entry in the parent. */
    method CreateFile(parent: nat, dir: Inode, name: seq<byte>) returns (r: Result<nat>, inode: Inode)
      requires Valid() && parent in own && parent in Vw().inodes && Vw().inodes[parent] == dir && dir.IsDir()
      requires FindIno(Vw().blocks, dir, name) == Ok(None) && 0 < |name| <= EXT4_NAME_LEN
      modifies this`device, this`sb, this`groups, this`own, this`blockLog, this`inodeLog
      ensures Valid() && Geo() == old(Geo()) && Cnt().usedDirs == old(Cnt()).usedDirs
      ensures Allocates(Geo(), old(Vw()).blocks, Vw().blocks)
        && OthersKept(old(Vw()), old(own), Vw(), own, {parent})
      ensures FindsKept(old(Vw()), old(own), Vw())
      ensures NameDone(old(Vw()), Vw(), parent, name, old(sb.freeInodesCount), old(sb.FreeBlocks()), sb.FreeBlocks(), r)
      ensures Cnt().sbInodes == old(Cnt()).sbInodes - OneIfAny(old(Cnt()).sbInodes)
      ensures old(blockLog) <= blockLog
      ensures r.Ok? ==>
        r.value in own && r.value !in old(own) && r.value != 0 && inode == NewFile(0x1A4) && IsEmptyFile(Vw(), r.value)
    {
      hide Ext4Fs.Valid, Ext4Fs.Mounted, Ext4Fs.Vw, Ext4Fs.Cnt, Ext4Fs.Geo, Inv, OthersKept, Allocates, Fits,
        Inode.IsDir, SameOn, Gained, Reachable, FindIno, FindsKept, Footprint, DirEntry.ActualSize, EntryCost,
        NeededFor, NewFile, Stored, OtherNamesKept, EntryOutcome, SameDir, Inode.Size, Inode.Header,
        Inode.UsesExtents, Leaves, SameTree, Regrown, HasRecord, HoldsRecord, DirGrew, NameDone, EntryTaken,
        PlainRecord, FirstInode;
      ghost var g, w0, own0 := Geo(), Vw(), own;
      ghost var free0, inodes0 := sb.FreeBlocks(), sb.freeInodesCount;
      r, inode := AllocateFile(parent, name);
      ghost var w2, c2, own2 := Vw(), Cnt(), own;
      RegrownSelf(dir);
      if r.Err? {
        KeptWider(w0, own0, w2, own2, parent);
        NamesFrame(w0.blocks, w2.blocks, dir);
        SameDirKeepOthers(w0.blocks, dir, w2.blocks, dir, name);
        NameRefused(w0, w2, parent, name, inodes0, free0, sb.FreeBlocks(), r.error);
        return;
      }
      var ino := r.value;
      OpenValid(parent);
      var entry := NewEntry(ino, name, FT_REG_FILE, 0);
      NeededIsActual(ino, name, FT_REG_FILE);
      SpotFrame(w0.blocks, w2.blocks, dir, NeededFor(name));
      var added, dir' := AddDirEntry(parent, dir, entry);
      OpenValid(parent);
      NamesFrame(w0.blocks, w2.blocks, dir);
      RegrownMode(dir, dir', dir.linksCount);
      EntryAdded(g, w0, own0, w2, c2, own2, Vw(), Cnt(), own, parent, dir, dir', added.Ok?, name, ino, NeededFor(name));
      if added.Err? {
        NameRefused(w0, Vw(), parent, name, inodes0, free0, sb.FreeBlocks(), added.error);
        return Err(added.error), inode;
      }
      EntryIsHeld(Vw(), parent, name, ino, FT_REG_FILE);
      NameAdded(w0, Vw(), parent, name, inodes0, free0, sb.FreeBlocks(), ino);
    }

    /**
     Replaces the contents of a file, or creates it in an existing directory. Whatever the outcome, live inodes other
     than the target `t` and, on creation, its parent keep their records and blocks. The blocks handed out for the data
     are `bl`, all from the log. A file that existed reads back as `data` exactly when the data fits in four blocks and
     that many are free; when the loop stops early it reads as what was written so far, cut to the old size, or fails if
     the old size reaches further. A file that was created reads back exactly when its directory record went into a
     deleted record or a new block.
     */
    method WriteFile(path: seq<byte>, data: seq<byte>) returns (r: Result<()>, ghost t: nat, ghost bl: seq<nat>)
      requires Valid() && |data| + TWO16 < TWO64
      modifies this`device, this`sb, this`groups, this`own, this`blockLog, this`inodeLog
      ensures Valid() && Geo() == old(Geo()) && Cnt().usedDirs == old(Cnt()).usedDirs
      ensures FixedOf(sb, groups) == old(FixedOf(sb, groups)) && LoggedSince(old(blockLog), blockLog, bl)
      ensures Allocates(Geo(), old(Vw()).blocks, Vw().blocks) && FindsKept(old(Vw()), old(own), Vw())
      ensures match PlanWrite(old(Vw()), path)
              case Err(e) =>
                r == Err(e) && device == old(device) && sb == old(sb) && groups == old(groups) && own == old(own)
              case Ok(Overwrite(_, target)) =>
                && t == target && Cnt().sbInodes == old(Cnt()).sbInodes
                && OverwriteDone(Geo(), old(Vw()), old(own), Vw(), own, path, t, bl, data, sb.BlockSize(),
                                 old(sb.FreeBlocks()), sb.FreeBlocks(), r)
              case Ok(Create(p)) =>
                && Cnt().sbInodes == old(Cnt()).sbInodes - OneIfAny(old(Cnt()).sbInodes)
                && CreateDone(old(Vw()), old(own), Vw(), own, path, p, t, bl, data, sb.BlockSize(),
                           old(sb.freeInodesCount), old(sb.FreeBlocks()), sb.FreeBlocks(), r)
      ensures SplitPath(path).Ok? ==>
        WrittenAt(old(Vw()), Vw(), path, t, data, sb.BlockSize(), old(sb.freeInodesCount), old(sb.FreeBlocks()), r)
    {
      hide Ext4Fs.Valid, Ext4Fs.Mounted, Ext4Fs.Vw, Ext4Fs.Cnt, Ext4Fs.Geo, Inv, OthersKept, Allocates, Fits,
        Inode.IsDir, SameOn, Gained, Reachable, FindIno, FindsKept, Footprint, DirEntry.ActualSize, SplitPath,
        FileTree.LookupPath, FileTree.LookupInDir, FileTree.ReadFile, ReadData, BlocksFor, NeededFor, EntryCost,
        EntryOutcome, OtherNamesKept, CreateOutcome, FixedOf, OverwriteDone, CreateDone, ContentsDone, LoggedSince,
        OneIfAny, WrittenAt;
      ghost var g, w0, c0, own0 := Geo(), Vw(), Cnt(), own;
      ghost var free0, inodes0, bs := sb.FreeBlocks(), sb.freeInodesCount, sb.BlockSize();
      t, bl := 0, [];
      LogHas(blockLog, blockLog, blockLog, bl);
      OpenRoot();
      OpenFixed();
      NothingHappened(g, w0, c0, own0, ROOT_INODE);
      var split := SplitPath(path);
      if split.Err? {
        return Err(split.error), t, bl;
      }
      var (parentPath, name) := split.value;
      var parent := LookupPath(parentPath);
      if parent.Err? {
        WriteRefused(w0, path, t, data, bs, inodes0, free0, parent.error);
        return Err(parent.error), t, bl;
      }
      var (p, dir) := parent.value;
      if !dir.IsDir() {
        WriteRefused(w0, path, t, data, bs, inodes0, free0, NotADirectory);
        return Err(NotADirectory), t, bl;
      }
      ParentIsLive(g, w0, c0, own0, path);
      var existing := LookupInDir(dir, name);
      FoundIsLive(g, w0, c0, own0, p, name);
      if existing.Ok? {
        var (ino, inode) := existing.value;
        if inode.IsDir() {
          WriteRefused(w0, path, t, data, bs, inodes0, free0, IsADirectory);
          return Err(IsADirectory), t, bl;
        }
        t := ino;
        ghost var log0 := blockLog;
        r, bl := WriteContents(ino, inode, data);
        LogHas(log0, log0, blockLog, bl);
        OpenRoot();
        OpenFixed();
        FindsKeptByOthers(g, w0, c0, own0, Vw(), Cnt(), own, {ino});
        Overwritten(g, w0, c0, own0, Vw(), own, path, p, ino, bl, data, bs, free0, sb.FreeBlocks(), r);
        WriteOver(g, w0, own0, Vw(), own, path, p, ino, bl, data, bs, inodes0, free0, sb.FreeBlocks(), r);
      } else if existing.error == NotFound {
        r, t, bl := WriteNew(path, p, dir, name, data);
        OpenRoot();
        OpenFixed();
        WroteNew(g, w0, c0, own0, Vw(), own, path, p, t, bl, data, bs, inodes0, free0, sb.FreeBlocks(), r);
      } else {
        WriteRefused(w0, path, t, data, bs, inodes0, free0, existing.error);
        return Err(existing.error), t, bl;
      }
    }

    /** `write_file` on a name that its parent does not have. */
    method WriteNew(path: seq<byte>, p: nat, dir: Inode, name: seq<byte>, data: seq<byte>)
      returns (r: Result<()>, ghost t: nat, ghost bl: seq<nat>)
      requires Valid() && |data| + TWO16 < TWO64 && SplitPath(path).Ok? && name == SplitPath(path).value.1
      requires FileTree.LookupPath(Vw(), SplitPath(path).value.0) == Ok((p, dir)) && dir.IsDir()
      requires FindIno(Vw().blocks, dir, name) == Ok(None)
      modifies this`device, this`sb, this`groups, this`own, this`blockLog, this`inodeLog
      ensures Valid() && Geo() == old(Geo()) && Cnt().usedDirs == old(Cnt()).usedDirs
        && LoggedSince(old(blockLog), blockLog, bl)
      ensures Allocates(Geo(), old(Vw()).blocks, Vw().blocks) && FindsKept(old(Vw()), old(own), Vw())
      ensures Cnt().sbInodes == old(Cnt()).sbInodes - OneIfAny(old(Cnt()).sbInodes)
      ensures CreateDone(old(Vw()), old(own), Vw(), own, path, p, t, bl, data, sb.BlockSize(),
                         old(sb.freeInodesCount), old(sb.FreeBlocks()), sb.FreeBlocks(), r)
    {
      hide Ext4Fs.Valid, Ext4Fs.Mounted, Ext4Fs.Vw, Ext4Fs.Cnt, Ext4Fs.Geo, Inv, OthersKept, Allocates, Fits,
        Inode.IsDir, SameOn, Gained, Reachable, FindIno, FindsKept, Footprint, DirEntry.ActualSize, SplitPath,
        FileTree.LookupPath, FileTree.LookupInDir, FileTree.ReadFile, ReadData, BlocksFor, NeededFor, EntryCost,
        EntryOutcome, NewFile, OtherNamesKept, Inode.Size, CreateDone, ContentsDone, NameDone, LoggedSince,
        IsEmptyFile;
      ghost var g, w0, c0, own0, log0 := Geo(), Vw(), Cnt(), own, blockLog;
      ghost var free0, inodes0 := sb.FreeBlocks(), sb.freeInodesCount;
      t, bl := 0, [];
      OpenRoot();
      ParentIsLive(g, w0, c0, own0, path);
      var ino, inode := CreateFile(p, dir, name);
      ghost var w1, c1, own1, free1, log1 := Vw(), Cnt(), own, sb.FreeBlocks(), blockLog;
      OpenRoot();
      LogHas(log0, log1, log1, bl);
      if ino.Err? {
        NotCreated(g, w0, c0, own0, w1, own1, path, p, t, bl, data, sb.BlockSize(), inodes0, free0, free1, ino);
        return Err(ino.error), t, bl;
      }
      t := ino.value;
      r, bl := WriteContents(ino.value, inode, data);
      LogHas(log0, log1, blockLog, bl);
      OpenRoot();
      AllocatesTrans(g, w0.blocks, w1.blocks, Vw().blocks);
      Created(g, w0, c0, own0, w1, c1, own1, Vw(), Cnt(), own, path, p, t, bl, data, sb.BlockSize(), inodes0, free0,
              free1, sb.FreeBlocks(), ino, r);
    }

    /** The extent, the size and the record of a new directory whose one block has been written. */
    method StoreDir(ino: nat, parent: nat, b: nat)
      requires Valid() && parent in own && 0 < parent < TWO32 && 0 < ino < TWO32 && LooseInode(Geo(), Vw(), own, ino)
      requires 2 * DOT_SIZE as int <= Geo().blockSize < TWO16 && Loose(Geo(), Vw(), own, b)
      requires b in Vw().blocks && Vw().blocks[b] == CreateDotEntries(ino, parent, Geo().blockSize)
      modifies this`device, this`own
      ensures Valid() && own == old(own)[ino := {b}]
      ensures Allocates(Geo(), old(Vw()).blocks, Vw().blocks) && OthersKept(old(Vw()), old(own), Vw(), own, {ino})
      ensures NewDirAs(Vw(), ino, parent, Geo().blockSize)
    {
      hide Ext4Fs.Valid, Ext4Fs.Mounted, Ext4Fs.Vw, Ext4Fs.Cnt, Ext4Fs.Geo, Inv, OthersKept, Allocates, Fits,
        LeafRoot, RootFits, RootBlocks, RowOk, Inode.IsDir, SetOf, LooseInode, NewDir, MayOwn, RecordWritten, Stored,
        Inode.Header, Leaves, Inode.Size, Loose, AppendTo, NewDirAs, CreateDotEntries, Finished;
      ghost var g, w0, own0 := Geo(), Vw(), own;
      OpenValid(parent);
      var inode := NewDir(0x1ED);
      NewDirOwnsNothing(0x1ED);
      var bs := sb.BlockSize();
      DotBlockOk(ino, parent, bs, own.Keys + {ino});
      DotRowOk(w0.blocks, b, own.Keys + {ino});
      EmptyRootTakesOne(inode, b);
      var appended, m := AppendExtent(ino, inode, b);
      ghost var w1, own1 := Vw(), own;
      OpenValid(parent);
      var done := Finished(m, bs, 1, bs);
      FinishedDir(inode, m, bs);
      OneBlockSet(m, done, b);
      BeforeResize(g, w0, w1, Cnt(), own0, own1, ino, m, done, [b]);
      StoreInode(ino, done);
      AllocatesTrans(g, w0.blocks, w1.blocks, Vw().blocks);
      OthersKeptTrans(w0, own0, w1, own1, Vw(), own, {ino}, {ino}, {ino});
      NewDirIs(g, w0, w1, Vw(), ino, parent, bs, b, done);
    }

    /** A new inode with the record of a directory, and its one block with "." and "..". */
    method AllocateDir(parent: nat, name: seq<byte>) returns (r: Result<nat>)
      requires Valid() && parent in own && parent in Vw().inodes
      modifies this`device, this`sb, this`groups, this`own, this`blockLog, this`inodeLog
      ensures Valid() && Geo() == old(Geo()) && Cnt().usedDirs == old(Cnt()).usedDirs
      ensures Allocates(Geo(), old(Vw()).blocks, Vw().blocks) && OthersKept(old(Vw()), old(own), Vw(), own, {})
      ensures FindsKept(old(Vw()), old(own), Vw()) && old(own).Keys <= own.Keys
      ensures parent in Vw().inodes && Vw().inodes[parent] == old(Vw()).inodes[parent]
      ensures SameOn(old(Vw()).blocks, Vw().blocks, Footprint(old(Vw()).blocks, Vw().inodes[parent]))
      ensures FindIno(Vw().blocks, Vw().inodes[parent], name) == FindIno(old(Vw()).blocks, Vw().inodes[parent], name)
      ensures if old(sb.freeInodesCount) == 0 then r == Err(NoFreeInodes)
        else if old(sb.FreeBlocks()) == 0 then r == Err(NoFreeBlocks) else r.Ok?
      ensures sb.FreeBlocks() == old(sb.FreeBlocks()) - (if r.Ok? then 1 else 0)
      ensures Cnt().sbInodes == old(Cnt()).sbInodes - OneIfAny(old(Cnt()).sbInodes)
      ensures r.Ok? ==> r.value in own && r.value !in old(own) && 0 < r.value < TWO32 && 0 < parent < TWO32
      ensures r.Ok? ==> NewDirAs(Vw(), r.value, parent, Geo().blockSize)
      ensures r.Ok? ==> FirstInode(Geo(), old(Vw()).blocks, Geo().GroupOf(parent), r.value)
      ensures r.Ok? ==>
        && old(blockLog) < blockLog && own[r.value] == {blockLog[|old(blockLog)|]}
        && NextFree(Geo(), old(Vw()).blocks, Geo().GroupOf(parent), [], blockLog[|old(blockLog)|])
      ensures r.Ok? ==> Sum(Cnt().usedDirs) + Sum(Cnt().inodeFree) < Geo().InodeCount()
    {
      hide Ext4Fs.Valid, Ext4Fs.Mounted, Ext4Fs.Vw, Ext4Fs.Cnt, Ext4Fs.Geo, Inv, OthersKept, Allocates, Fits,
        Inode.IsDir, SameOn, LooseInode, FindIno, FindsKept, Footprint, UsableKept, InodeAt, FreeInodeBit, Sum, Loose,
        NewDirAs, CreateDotEntries, Geometry.InodeCount, FirstInode, TookFirstInode, NextFree;
      ghost var g, w0, c0, own0 := Geo(), Vw(), Cnt(), own;
      OpenValid(parent);
      NothingHappened(g, w0, c0, own0, parent);
      var group := (parent - 1) / sb.inodesPerGroup;
      r := AllocateInode(group);
      if r.Err? {
        return;
      }
      var ino := r.value;
      ghost var w1, c1 := Vw(), Cnt();
      OpenValid(parent);
      InvIsOk(g, w1, c1, own);
      LooseNumber(g, w1, own, ino);
      ParentNumber(g, w1, c1, own, parent);
      TookFirst(g, w0, c0, w1, c1, group, ino);
      var bs := sb.BlockSize();
      var block := AllocateAndWrite(group, CreateDotEntries(ino, parent, bs));
      ghost var w2, c2 := Vw(), Cnt();
      OpenValid(parent);
      BlockAdded(g, w0, c0, own, w1, w2, c2, parent, name);
      if block.Err? {
        return Err(block.error);
      }
      LooseInodeKept(g, w1, w2, own, ino);
      InodeTakenKeepsNext(g, w0, c0, own0, w1, c1, group, ino, block.value);
      StoreDir(ino, parent, block.value);
      OpenValid(parent);
      NewInodeKept(g, w0, c0, own0, w2, c2, Vw(), Cnt(), own, parent, ino, {block.value}, name);
    }

    /** `write_inode` of a directory's record, without a change to its tree. */
    method StoreDirRecord(ino: nat, n: Inode)
      requires Valid() && ino in own && ino in Vw().inodes && Vw().inodes[ino].IsDir()
      requires Vw().inodes[ino].iBlock == n.iBlock && Vw().inodes[ino].flags == n.flags
        && Vw().inodes[ino].mode == n.mode
      modifies this`device
      ensures Valid() && ino in Vw().inodes && Vw().inodes[ino] == Stored(n, Geo().inodeSize)
        && Vw().inodes[ino].IsDir()
      ensures Allocates(Geo(), old(Vw()).blocks, Vw().blocks) && OthersKept(old(Vw()), own, Vw(), own, {ino})
      ensures FindsKept(old(Vw()), own, Vw())
        && SameDir(old(Vw()).blocks, old(Vw()).inodes[ino], Vw().blocks, Vw().inodes[ino])
        && RecordsKept(old(Vw()).blocks, old(Vw()).inodes[ino], Vw().blocks, Vw().inodes[ino])
    {
      hide ViewOf, Inv, LogsOk, OthersKept, Allocates, Fits, SameBitmaps, FindsKept, SameDir, RecordsKept, Inode.IsDir,
        Geometry.InSomeTable;
      ghost var g, w, c := Geo(), Vw(), Cnt();
      OwnedIsUsable(g, w, c, own, ino);
      var _ := WriteInode(ino, n);
      RecordKeepsNames(g, w, c, own, Vw(), ino, Stored(n, g.inodeSize));
      InvIsOk(g, w, c, own);
      RecordWriteAllocates(g, w, Vw(), ino, Stored(n, g.inodeSize));
      LogsKept(g, start.blocks, w.blocks, Vw().blocks, blockLog, inodeLog);
    }

    /** One more directory in a group; the counter cannot overflow while an allocated inode is not counted yet. */
    method CountDirectory(group: nat)
      requires Valid() && group < |groups| && Sum(Cnt().usedDirs) + Sum(Cnt().inodeFree) < Geo().InodeCount()
      modifies this`groups
      ensures Valid() && Geo() == old(Geo()) && Vw() == old(Vw())
      ensures |old(Cnt()).usedDirs| == |groups| && Cnt() == DirCounted(old(Cnt()), group)
      ensures Sum(Cnt().usedDirs) == Sum(old(Cnt()).usedDirs) + 1
    {
      hide Inv, LogsOk, Fits, ViewOf, Sum, Geometry.InodeCount;
      ghost var g, w, c := Geo(), Vw(), Cnt();
      CountDirKeepsInv(g, w, c, own, group);
      CountersAfterMkdir(sb, groups, group);
      var used := groups[group].UsedDirsCount();
      groups := groups[group := groups[group].SetUsedDirsCount(used + 1)];
    }

    /** The last steps of `mkdir`: one link more for the parent, and one directory more in the parent's group. */
    method RegisterDir(p: nat, dir: Inode)
      requires Valid() && p in own && p in Vw().inodes && Vw().inodes[p].IsDir() && SameTree(dir, Vw().inodes[p])
      requires Sum(Cnt().usedDirs) + Sum(Cnt().inodeFree) < Geo().InodeCount()
      modifies this`device, this`groups
      ensures Valid() && Geo() == old(Geo())
      ensures Allocates(Geo(), old(Vw()).blocks, Vw().blocks) && OthersKept(old(Vw()), own, Vw(), own, {p})
      ensures p in Vw().inodes && Vw().inodes[p].IsDir()
      ensures Regrown(dir, Vw().inodes[p], OneLinkMore(dir.linksCount))
      ensures FindsKept(old(Vw()), own, Vw())
        && SameDir(old(Vw()).blocks, old(Vw()).inodes[p], Vw().blocks, Vw().inodes[p])
        && RecordsKept(old(Vw()).blocks, old(Vw()).inodes[p], Vw().blocks, Vw().inodes[p])
      ensures OneMoreIn(Geo(), p, old(Cnt()), Cnt()) && Cnt().sbInodes == old(Cnt()).sbInodes
    {
      hide Ext4Fs.Valid, Ext4Fs.Mounted, Ext4Fs.Vw, Ext4Fs.Cnt, Ext4Fs.Geo, Inv, OthersKept, Allocates, Fits,
        Inode.IsDir, FindsKept, Sum, SameTree, SameDir, Geometry.InodeCount, RecordsKept;
      ghost var g, w, c := Geo(), Vw(), Cnt();
      SameTreeFields(dir, w.inodes[p]);
      OpenValid(p);
      GroupOfLive(g, w, c, own, p);
      var group := (p - 1) / sb.inodesPerGroup;
      StoreDirRecord(p, dir.(linksCount := if dir.linksCount == 65535 then 65535 else dir.linksCount + 1));
      if 0 <= group < |groups| {
        CountDirectory(group);
      }
    }

    /** `mkdir` in an existing directory that does not have the name. */
    method MkdirIn(path: seq<byte>, p: nat, dir: Inode, name: seq<byte>) returns (r: Result<nat>)
      requires Valid() && SplitPath(path).Ok? && name == SplitPath(path).value.1
      requires FileTree.LookupPath(Vw(), SplitPath(path).value.0) == Ok((p, dir)) && dir.IsDir()
      requires FindIno(Vw().blocks, dir, name).Ok? ==> FindIno(Vw().blocks, dir, name) == Ok(None)
      modifies this`device, this`sb, this`groups, this`own, this`blockLog, this`inodeLog
      ensures Valid() && Geo() == old(Geo())
      ensures Allocates(Geo(), old(Vw()).blocks, Vw().blocks) && FindsKept(old(Vw()), old(own), Vw())
      ensures Cnt().sbInodes == old(Cnt()).sbInodes - OneIfAny(old(Cnt()).sbInodes)
      ensures MkdirDone(Geo(), old(Vw()), old(own), old(Cnt()), Vw(), own, Cnt(), path, p, old(sb.freeInodesCount),
                        old(sb.FreeBlocks()), sb.FreeBlocks(), r)
    {
      hide Ext4Fs.Valid, Ext4Fs.Mounted, Ext4Fs.Vw, Ext4Fs.Cnt, Ext4Fs.Geo, Inv, OthersKept, Allocates, Fits,
        Inode.IsDir, SameOn, Gained, Reachable, FindIno, FindsKept, Footprint, DirEntry.ActualSize, SplitPath,
        FileTree.LookupPath, FileTree.LookupInDir, NeededFor, EntryCost, EntryOutcome, OtherNamesKept, NewDirAs, Sum,
        SameTree, SameDir, Geometry.InodeCount, MkdirDone, EntryTaken, OneIfAny, OneMoreIn, HasRecord, HoldsRecord,
        DirGrew, Regrown, RecordsKept;
      ghost var g, w0, c0, own0 := Geo(), Vw(), Cnt(), own;
      ghost var free0, inodes0 := sb.FreeBlocks(), sb.freeInodesCount;
      OpenRoot();
      ParentIsLive(g, w0, c0, own0, path);
      r := AllocateDir(p, name);
      ghost var w1, c1, own1 := Vw(), Cnt(), own;
      if r.Err? {
        KeptWider(w0, own0, w1, own1, p);
        NamesFrame(w0.blocks, w1.blocks, dir);
        MkdirFailed(g, w0, own0, c0, w1, own1, c1, path, p, inodes0, free0, sb.FreeBlocks(), r.error);
        return;
      }
      var ino := r.value;
      OpenValid(p);
      var entry := NewEntry(ino, name, FT_DIR, 0);
      NeededIsActual(ino, name, FT_DIR);
      SpotFrame(w0.blocks, w1.blocks, dir, NeededFor(name));
      var added, dir' := AddDirEntry(p, dir, entry);
      RegrownMode(dir, dir', dir.linksCount);
      ghost var w2, c2, own2 := Vw(), Cnt(), own;
      OpenValid(p);
      NewIsKnown(w1, ino, p, g.blockSize);
      NamesFrame(w0.blocks, w1.blocks, dir);
      EntryAdded(g, w0, own0, w1, c1, own1, w2, c2, own2, p, dir, dir', added.Ok?, name, ino, NeededFor(name));
      if added.Err? {
        MkdirFailed(g, w0, own0, c0, w2, own2, c2, path, p, inodes0, free0, sb.FreeBlocks(), added.error);
        return Err(added.error);
      }
      EntryIsHeld(w2, p, name, ino, FT_DIR);
      RegisterDir(p, dir');
      OpenValid(p);
      HeldThen(w2, Vw(), p, name, ino, 2);
      RegrownTwice(dir, dir', Vw().inodes[p], OneLinkMore(dir'.linksCount));
      DirectoryMade(g, w0, own0, c0, w1, c1, own1, w2, c2, own2, Vw(), Cnt(), own, path, p, ino, name);
      MkdirSucceeded(g, w0, own0, c0, c2, Vw(), own, Cnt(), path, p, inodes0, free0, sb.FreeBlocks(), ino);
    }

    /**
     Creates a directory. Whatever the outcome, live inodes other than the parent keep their records and blocks. On
     success the new inode is a directory of one block with "." and ".." alone, the parent has one link more, and one
     directory more is counted, in the parent's group. The path leads to it exactly when its directory record went into
     a deleted record or a new block.
     */
    method Mkdir(path: seq<byte>) returns (r: Result<nat>)
      requires Valid()
      modifies this`device, this`sb, this`groups, this`own, this`blockLog, this`inodeLog
      ensures Valid() && Geo() == old(Geo()) && FixedOf(sb, groups) == old(FixedOf(sb, groups))
      ensures Allocates(Geo(), old(Vw()).blocks, Vw().blocks) && FindsKept(old(Vw()), old(own), Vw())
      ensures match PlanMkdir(old(Vw()), path)
              case Err(e) =>
                r == Err(e) && device == old(device) && sb == old(sb) && groups == old(groups) && own == old(own)
              case Ok(p) =>
                && Cnt().sbInodes == old(Cnt()).sbInodes - OneIfAny(old(Cnt()).sbInodes)
                && MkdirDone(Geo(), old(Vw()), old(own), old(Cnt()), Vw(), own, Cnt(), path, p, old(sb.freeInodesCount),
                             old(sb.FreeBlocks()), sb.FreeBlocks(), r)
      ensures SplitPath(path).Ok? ==>
        MadeAt(old(Vw()), Vw(), path, old(sb.freeInodesCount), old(sb.FreeBlocks()), r)
    {
      hide Ext4Fs.Valid, Ext4Fs.Mounted, Ext4Fs.Vw, Ext4Fs.Cnt, Ext4Fs.Geo, Inv, OthersKept, Allocates, Fits,
        Inode.IsDir, Reachable, FindIno, SplitPath, FileTree.LookupPath, FileTree.LookupInDir, NeededFor, EntryCost,
        EntryOutcome, OtherNamesKept, MkdirOutcome, FixedOf, DirMade, OneMoreIn, FindsKept, SameOn, Footprint, MadeAt,
        MkdirDone;
      ghost var g, w0, c0, own0 := Geo(), Vw(), Cnt(), own;
      ghost var free0, inodes0 := sb.FreeBlocks(), sb.freeInodesCount;
      OpenRoot();
      OpenFixed();
      NothingHappened(g, w0, c0, own0, ROOT_INODE);
      var split := SplitPath(path);
      if split.Err? {
        return Err(split.error);
      }
      var (parentPath, name) := split.value;
      var parent := LookupPath(parentPath);
      if parent.Err? {
        MkdirRefused(w0, path, inodes0, free0, parent.error);
        return Err(parent.error);
      }
      var (p, dir) := parent.value;
      if !dir.IsDir() {
        MkdirRefused(w0, path, inodes0, free0, NotADirectory);
        return Err(NotADirectory);
      }
      ParentIsLive(g, w0, c0, own0, path);
      var existing := LookupInDir(dir, name);
      if existing.Ok? {
        MkdirRefused(w0, path, inodes0, free0, AlreadyExists);
        return Err(AlreadyExists);
      }
      NotTaken(g, w0, c0, own0, p, name);
      r := MkdirIn(path, p, dir, name);
      OpenFixed();
      DirWasMade(g, w0, c0, own0, Vw(), Cnt(), own, path, p, inodes0, free0, sb.FreeBlocks(), r);
    }

    // --- Persistence ---

    /** One write below the end of the descriptor table. */
    method WriteLow(offset: nat, data: seq<byte>) returns (r: Result<()>)
      requires Valid() && offset + |data| <= OffsetOf(Geo().gdtEnd, Geo().blockSize)
      modifies this`device
      ensures Valid() && r == Ok(()) && offset + |data| <= |old(device)| && device == Splice(old(device), offset, data)
      ensures UsableKept(Geo(), old(Vw()), Vw()) && SameBitmaps(Geo(), old(Vw()).blocks, Vw().blocks)
    {
      hide Inv, LogsOk, UsableKept, SameBitmaps, Splice, OffsetOf, BlocksOf, InodesOf, Geometry.Ok;
      ghost var g, w, c := Geo(), Vw(), Cnt();
      LowFits(g, w, c, own, device);
      WriteLowView(g, device, offset, data);
      r := WriteBytes(offset, data);
      BlockLengths(old(device), g);
      BlockLengths(device, g);
      LowWriteKeepsInv(g, w, c, own, Vw());
      SameBitmapsOnlyAllocate(g, w.blocks, Vw().blocks);
      LogsKept(g, start.blocks, w.blocks, Vw().blocks, blockLog, inodeLog);
    }

    /**
     Writes the superblock and all descriptors. Afterwards a mount of the device recovers both exactly when they are
     storable; no inode and no block of a file or directory changes.
     */
    method SyncMetadata() returns (r: Result<()>)
      requires Valid()
      modifies this`device
      ensures Valid() && r == Ok(()) && |device| == |old(device)|
      ensures UsableKept(Geo(), old(Vw()), Vw()) && SameBitmaps(Geo(), old(Vw()).blocks, Vw().blocks)
      ensures Synced(device, sb, groups) && MetadataOnly(old(device), device, sb, |groups|)
    {
      hide MetadataOnly, Inv, LogsOk, UsableKept, SameBitmaps, Splice, OffsetOf, ViewOf, Fits, SuperblockWritten,
        DescriptorsWritten, Ext4Fs.Valid, Ext4Fs.Vw, SuperblockRecord.ToBytes, BlockGroup.ToBytes, GeometryOf,
        Superblock.GdtOffset, Superblock.GroupDescSize, Storable, Counted, KeptAll;
      ghost var g, w := Geo(), Vw();
      TableEnds();
      SameSelf();
      r := WriteLow(SuperblockRecord.SUPERBLOCK_OFFSET, SuperblockRecord.ToBytes(sb));
      HoldsWritten(old(device), SuperblockRecord.SUPERBLOCK_OFFSET, SuperblockRecord.ToBytes(sb));
      assert SuperblockWritten(device, sb) by { SuperblockIs(device, sb); }
      NoDescriptors(device, sb, groups);
      NothingWritten(old(device), sb, |groups|);
      MetadataMore(old(device), old(device), sb, |groups|, SuperblockRecord.SUPERBLOCK_OFFSET,
                   SuperblockRecord.ToBytes(sb));
      var size := sb.GroupDescSize();
      var table := sb.GdtOffset();
      for i := 0 to |groups|
        invariant Valid() && r == Ok(()) && |device| == |old(device)|
        invariant UsableKept(g, w, Vw()) && SameBitmaps(g, w.blocks, Vw().blocks)
        invariant SuperblockWritten(device, sb) && DescriptorsWritten(device, sb, groups, i)
        invariant MetadataOnly(old(device), device, sb, |groups|)
      {
        ghost var d, v := device, Vw();
        DescriptorFits(i);
        r := WriteLow(table + OffsetOf(i, size), BlockGroup.ToBytes(groups[i], size));
        OneMoreDescriptor(d, sb, groups, i);
        MetadataMore(old(device), d, sb, |groups|, DescriptorAt(sb, i), DescriptorBytes(sb, groups[i]));
        SameTwice(g, w, v, Vw());
      }
      if Countable(sb) {
        MountAfterSync(device, sb, groups);
      }
    }

    lemma TableEnds()
      requires Valid()
      ensures sb.BlockSize() > 0
        && sb.GdtOffset() + OffsetOf(|groups|, sb.GroupDescSize()) <= OffsetOf(Geo().gdtEnd, Geo().blockSize)
          <= |device|
      ensures SuperblockRecord.SUPERBLOCK_OFFSET + SuperblockRecord.SUPERBLOCK_SIZE <= sb.GdtOffset()
    {
      hide Inv, LogsOk, OffsetOf, ViewOf, Superblock.GdtOffset, Superblock.GroupDescSize, Superblock.BlockSize,
        Geometry.Ok;
      LowFits(Geo(), Vw(), Cnt(), own, device);
      SuperblockRecord.TablePastSuperblock(sb);
      OffsetSplit(sb.GdtOffset() + OffsetOf(|groups|, sb.GroupDescSize()) + sb.BlockSize() - 1, sb.BlockSize());
    }

    lemma DescriptorFits(i: nat)
      requires Valid() && i < |groups|
      ensures sb.BlockSize() > 0
        && DescriptorAt(sb, i) + |DescriptorBytes(sb, groups[i])| <= OffsetOf(Geo().gdtEnd, Geo().blockSize) <= |device|
      ensures sb.GdtOffset() <= DescriptorAt(sb, i)
        && DescriptorAt(sb, i) + |DescriptorBytes(sb, groups[i])| <= DescriptorAt(sb, |groups|)
      ensures 1024 <= DescriptorAt(sb, i)
    {
      hide Inv, LogsOk, OffsetOf, ViewOf, Superblock.GdtOffset, Superblock.BlockSize, Geometry.Ok;
      TableEnds();
      OffsetsOrdered(i, |groups|, sb.GroupDescSize());
    }

    lemma SameSelf()
      requires Valid()
      ensures UsableKept(Geo(), Vw(), Vw()) && SameBitmaps(Geo(), Vw().blocks, Vw().blocks)
    {
      hide ViewOf;
      InvIsOk(Geo(), Vw(), Cnt(), own);
      hide Inv, Fits;
      forall k | 0 <= k < |Geo().loc|
        ensures Geo().loc[k].blockBitmap in Vw().blocks && Geo().loc[k].inodeBitmap in Vw().blocks
      {
        InBlocks(Geo(), Vw(), k);
      }
    }
  }

  /**
   Reads the superblock and the descriptor table; everything else stays on the device. The ghost arguments are what is
   known about the device from elsewhere.
   */
  method Mount(device: seq<byte>, ghost own: Owners, ghost start: Start, ghost blockLog: seq<nat>,
               ghost inodeLog: seq<nat>)
    returns (r: Result<Ext4Fs>)
    requires Mountable(device)
    ensures match Image(device)
            case Err(e) => r == Err(e)
            case Ok((sb, groups)) =>
              && r.Ok? && fresh(r.value) && r.value.device == device && r.value.sb == sb && r.value.groups == groups
              && r.value.own == own && r.value.start == start && r.value.blockLog == blockLog
              && r.value.inodeLog == inodeLog
              && r.value.fixed == FixedOf(sb, groups)
              && forall n: nat :: sb.CoveredBy(n) ==> |groups| == n % TWO32
  {
    hide OffsetOf, SuperblockRecord.FromBytes, BlockGroup.FromBytesAt, Superblock.BlockSize, Superblock.GdtOffset,
      Superblock.GroupDescSize;
    var from := SuperblockRecord.SUPERBLOCK_OFFSET;
    var to := from + SuperblockRecord.SUPERBLOCK_SIZE;
    if |device| < to {
      return Err(IoError);
    }
    var parsed := SuperblockRecord.FromBytes(device[from..to]);
    if parsed == None {
      return Err(InvalidSuperblock);
    }
    var sb := parsed.value;
    var count, size := sb.BlockGroupCount(), sb.GroupDescSize();
    var end := sb.GdtOffset() + OffsetOf(count, size);
    if end > |device| {
      return Err(IoError);
    }
    var buf := device[sb.GdtOffset()..end];
    var groups := BlockGroup.ParseBlockGroupTable(buf, count, size);
    TableIs(buf, count, size, groups);
    if |groups| != count {
      return Err(Corrupt);
    }
    var fs := new Ext4Fs(device, sb, groups, own, start, blockLog, inodeLog);
    ghost var n := SuperblockRecord.BlockGroupCountExact(sb);
    return Ok(fs);
  }

  /** When the groups cover the volume, each of its data blocks is bit `i` of one group `k`. */
  lemma BlockHasGroup(sb: Superblock, groups: seq<Group>, b: nat) returns (k: nat, i: nat)
    requires Countable(sb) && sb.CoveredBy(|groups|) && sb.firstDataBlock <= b < sb.TotalBlocks()
    ensures k < |groups| && i < sb.blocksPerGroup && BlockAt(GeometryOf(sb, groups), k, i) == b
  {
    hide OffsetOf, Superblock.TotalBlocks, Superblock.BlockSize, GdtEnd;
    k, i := (b - sb.firstDataBlock) / sb.blocksPerGroup, (b - sb.firstDataBlock) % sb.blocksPerGroup;
    BlockPlace(GeometryOf(sb, groups), b);
    OffsetSplit(b - sb.firstDataBlock, sb.blocksPerGroup);
    CoverIsOffset(sb, |groups|);
    OffsetsOrdered(|groups|, k, sb.blocksPerGroup);
  }

  lemma CoverIsOffset(sb: Superblock, n: nat)
    requires sb.firstDataBlock <= sb.TotalBlocks() && sb.CoveredBy(n)
    ensures sb.TotalBlocks() - sb.firstDataBlock <= OffsetOf(n, sb.blocksPerGroup)
  {
    hide Superblock.TotalBlocks;
  }

  lemma TableIs(buf: seq<byte>, count: nat, size: nat, groups: seq<Group>)
    requires BlockGroup.IsTable(buf, size, groups) && |groups| <= count
      && (|groups| == count <==> count * size <= |buf|)
    requires OffsetOf(count, size) <= |buf| && size >= BlockGroup.BGD_SIZE_32
    ensures groups == TableOf(buf, count, size)
  {
    hide BlockGroup.FromBytesAt;
    forall i | 0 <= i < count
      ensures groups[i] == TableOf(buf, count, size)[i]
    {
      assert i * size == OffsetOf(i, size);
    }
  }

  lemma NoSlotYet(blocks: Blocks, needed: u16)
    ensures DirSlot(blocks, [], needed) == Ok(None) && DataBlocks([]) == []
  {
  }

  lemma SlotNext(blocks: Blocks, row: seq<nat>, done: seq<nat>, next: nat, needed: u16)
    requires done + [next] <= row && DirSlot(blocks, done, needed) == Ok(None)
    ensures next !in blocks ==> DirSlot(blocks, row, needed) == Err(IoError)
    ensures next in blocks ==>
      match FindSlot(blocks[next], 0, needed)
      case Some(s) =>
        if s.off + s.len as int <= |blocks[next]| then DirSlot(blocks, row, needed) == Ok(Some((next, s)))
        else DirSlot(blocks, done + [next], needed) == Ok(None)
      case None => DirSlot(blocks, done + [next], needed) == Ok(None)
  {
    hide FindSlot;
    assert (done + [next])[..|done|] == done;
    assert row[..|done| + 1] == done + [next];
    if DirSlot(blocks, done + [next], needed) != Ok(None) {
      SlotPrefix(blocks, row, |done| + 1, needed);
    }
  }

  // --- Creating a directory ---

  /** Inode `ino` is a directory of one block that holds "." for itself and ".." for `parent`. */
  ghost predicate NewDirAs(w: View, ino: nat, parent: nat, bs: nat) {
    && 2 * DOT_SIZE as int <= bs < TWO16 && ino < TWO32 && parent < TWO32
    && ino in w.inodes && w.inodes[ino].IsDir() && LeafRoot(w.inodes[ino]) && w.inodes[ino].Size() == bs
    && PlainRecord(w.inodes[ino], 0x41ED, 2) && w.inodes[ino].blocksLo == bs / 512
    && |RootBlocks(w.inodes[ino])| == 1 && RootBlocks(w.inodes[ino])[0] in w.blocks
    && w.blocks[RootBlocks(w.inodes[ino])[0]] == CreateDotEntries(ino, parent, bs)
  }

  lemma NewIsKnown(w: View, ino: nat, parent: nat, bs: nat)
    requires NewDirAs(w, ino, parent, bs)
    ensures ino in w.inodes
  {
  }

  lemma SameTreeFields(a: Inode, b: Inode)
    requires SameTree(a, b)
    ensures a.iBlock == b.iBlock && a.flags == b.flags && a.mode == b.mode
  {
  }

  /** Group of a live inode. */
  lemma GroupOfLive(g: Geometry, w: View, c: Counts, own: Owners, ino: nat)
    requires Inv(g, w, c, own) && ino in own
    ensures g.inodesPerGroup > 0 && 1 <= ino && g.GroupOf(ino) == (ino - 1) / g.inodesPerGroup < |g.loc|
    ensures |c.usedDirs| == |g.loc|
  {
    hide CountClear, Sum, FreeIsUnused, InodeOk, ViewOk, Geometry.InodeCount;
    InvIsOk(g, w, c, own);
    GroupOfInode(g, ino);
  }

  /** Other writes leave the new directory as it is. */
  lemma NewDirKept(g: Geometry, v: View, c: Counts, own: Owners, w: View, after: Owners, ino: nat, parent: nat, bs: nat,
                   x: nat)
    requires Inv(g, v, c, own) && OthersKept(v, own, w, after, {x}) && ino in own && ino != x
      && NewDirAs(v, ino, parent, bs)
    ensures NewDirAs(w, ino, parent, bs)
  {
    hide Inv, LeafRoot, RootBlocks, CreateDotEntries, Inode.Size, Inode.IsDir, Footprint;
    OwnedIsFootprint(g, v, c, own, ino);
    LeafRootTree(v.blocks, v.inodes[ino]);
    assert RootBlocks(v.inodes[ino])[0] in own[ino];
  }

  /** `saturating_add(1)`. */
  function OneLinkMore(links: u16): (r: u16)
    ensures links < 65535 ==> r as int == links as int + 1
    ensures links == 65535 ==> r == links
  {
    if links == 65535 then 65535 else links + 1
  }

  /** What a successful `mkdir` of `path` in directory `p` amounts to. */
  ghost predicate DirMade(u: View, before: Owners, w: View, after: Owners, path: seq<byte>, p: nat, ino: nat, bs: nat) {
    && ino in after && ino !in before && 0 < ino && 0 < p && NewDirAs(w, ino, p, bs)
    && p in u.inodes && p in w.inodes && SplitPath(path).Ok?
    && Regrown(u.inodes[p], w.inodes[p], OneLinkMore(u.inodes[p].linksCount))
    && HasRecord(w, p, SplitPath(path).value.1, ino, 2)
    && Gained(u.blocks, u.inodes[p], w.blocks, w.inodes[p], SplitPath(path).value.1, ino,
              Reachable(u.blocks, u.inodes[p], NeededFor(SplitPath(path).value.1)))
    && FileTree.LookupPath(w, path)
       == if Reachable(u.blocks, u.inodes[p], NeededFor(SplitPath(path).value.1)) then Ok((ino, w.inodes[ino]))
         else Err(NotFound)
  }

  /** `mkdir` in directory `p`; on failure no directory is counted. */
  ghost predicate MkdirDone(g: Geometry, u: View, before: Owners, a: Counts, w: View, after: Owners, b: Counts,
                            path: seq<byte>, p: nat, freeInodes: nat, free: nat, left: nat, r: Result<nat>)
  {
    && OthersKept(u, before, w, after, {p}) && p in u.inodes && p in w.inodes && SplitPath(path).Ok?
    && var name := SplitPath(path).value.1;
    && OtherNamesKept(u.blocks, u.inodes[p], w.blocks, w.inodes[p], name)
    && left == free - MkdirTaken(u.blocks, u.inodes[p], NeededFor(name), freeInodes, free)
    && match MkdirOutcome(u.blocks, u.inodes[p], NeededFor(name), freeInodes, free)
       case Err(e) => r == Err(e) && b.usedDirs == a.usedDirs && SameDir(u.blocks, u.inodes[p], w.blocks, w.inodes[p])
       case Ok(_) =>
         && r.Ok? && OneMoreIn(g, p, a, b) && DirMade(u, before, w, after, path, p, r.value, g.blockSize)
  }

  lemma MkdirFailed(g: Geometry, u: View, own: Owners, a: Counts, w: View, after: Owners, b: Counts, path: seq<byte>,
                    p: nat, freeInodes: nat, free: nat, left: nat, e: Ext4Error)
    requires OthersKept(u, own, w, after, {p}) && p in u.inodes && p in w.inodes && SplitPath(path).Ok?
    requires SameDir(u.blocks, u.inodes[p], w.blocks, w.inodes[p]) && b.usedDirs == a.usedDirs
    requires MkdirOutcome(u.blocks, u.inodes[p], NeededFor(SplitPath(path).value.1), freeInodes, free) == Err(e)
    requires left == free - MkdirTaken(u.blocks, u.inodes[p], NeededFor(SplitPath(path).value.1), freeInodes, free)
    ensures MkdirDone(g, u, own, a, w, after, b, path, p, freeInodes, free, left, Err(e))
  {
    hide OthersKept, SameDir, OtherNamesKept, MkdirOutcome, MkdirTaken, NeededFor, SplitPath, DirMade, OneMoreIn;
    SameDirKeepOthers(u.blocks, u.inodes[p], w.blocks, w.inodes[p], SplitPath(path).value.1);
  }

  lemma MkdirSucceeded(g: Geometry, u: View, own: Owners, a: Counts, m: Counts, w: View, after: Owners, b: Counts,
                       path: seq<byte>, p: nat, freeInodes: nat, free: nat, left: nat, ino: nat)
    requires OthersKept(u, own, w, after, {p}) && m.usedDirs == a.usedDirs && OneMoreIn(g, p, m, b)
      && DirMade(u, own, w, after, path, p, ino, g.blockSize)
    requires OtherNamesKept(u.blocks, u.inodes[p], w.blocks, w.inodes[p], SplitPath(path).value.1)
    requires MkdirOutcome(u.blocks, u.inodes[p], NeededFor(SplitPath(path).value.1), freeInodes, free).Ok?
    requires left == free - MkdirTaken(u.blocks, u.inodes[p], NeededFor(SplitPath(path).value.1), freeInodes, free)
    ensures MkdirDone(g, u, own, a, w, after, b, path, p, freeInodes, free, left, Ok(ino))
  {
    hide OthersKept, OtherNamesKept, MkdirOutcome, MkdirTaken, NeededFor, SplitPath, Gained, Reachable, NewDirAs,
      FileTree.LookupPath, HasRecord, Regrown;
  }

  /** From before a directory is made to the end: what is kept, what is gained, and where the path leads. */
  lemma DirectoryMade(g: Geometry, u: View, own: Owners, cu: Counts, v: View, cv: Counts, more: Owners, w: View,
                      cw: Counts, b: Owners, x: View, cx: Counts, after: Owners, path: seq<byte>, p: nat, ino: nat,
                      name: seq<byte>)
    requires Inv(g, u, cu, own) && Inv(g, v, cv, more) && Inv(g, w, cw, b) && Inv(g, x, cx, after) && after == b
    requires SplitPath(path).Ok? && name == SplitPath(path).value.1
    requires FileTree.LookupPath(u, SplitPath(path).value.0).Ok?
      && FileTree.LookupPath(u, SplitPath(path).value.0).value.0 == p
    requires Allocates(g, u.blocks, w.blocks) && Allocates(g, w.blocks, x.blocks)
    requires OthersKept(u, own, w, b, {p}) && OthersKept(w, b, x, after, {p}) && FindsKept(u, own, w)
      && FindsKept(w, b, x)
    requires OthersKept(v, more, w, b, {p}) && p in own && p in u.inodes && p in w.inodes && p in x.inodes
      && x.inodes[p].IsDir()
    requires ino in more && ino in b && ino != p && ino != 0 && NewDirAs(v, ino, p, g.blockSize)
    requires Gained(u.blocks, u.inodes[p], w.blocks, w.inodes[p], name, ino,
                    Reachable(u.blocks, u.inodes[p], NeededFor(name)))
    requires SameDir(w.blocks, w.inodes[p], x.blocks, x.inodes[p]) && FindIno(u.blocks, u.inodes[p], name) == Ok(None)
    ensures Allocates(g, u.blocks, x.blocks) && OthersKept(u, own, x, after, {p}) && FindsKept(u, own, x)
    ensures NewDirAs(x, ino, p, g.blockSize) && ino in x.inodes
      && OtherNamesKept(u.blocks, u.inodes[p], x.blocks, x.inodes[p], name)
    ensures Gained(u.blocks, u.inodes[p], x.blocks, x.inodes[p], name, ino,
                   Reachable(u.blocks, u.inodes[p], NeededFor(name)))
    ensures FileTree.LookupPath(x, path)
            == if Reachable(u.blocks, u.inodes[p], NeededFor(name)) then Ok((ino, x.inodes[ino])) else Err(NotFound)
  {
    hide Inv, Allocates, OthersKept, FindsKept, FindIno, Footprint, Reachable, Inode.IsDir, NewDirAs, SplitPath,
      FileTree.LookupPath, FileTree.LookupInDir, NeededFor, Gained, OtherNamesKept, SameDir;
    var reachable := Reachable(u.blocks, u.inodes[p], NeededFor(name));
    GainThen(u.blocks, u.inodes[p], w.blocks, w.inodes[p], x.blocks, x.inodes[p], name, ino, reachable);
    GainKeepsOthers(u.blocks, u.inodes[p], x.blocks, x.inodes[p], name, ino, reachable);
    GainedName(u.blocks, u.inodes[p], x.blocks, x.inodes[p], name, ino, reachable);
    AllocatesTrans(g, u.blocks, w.blocks, x.blocks);
    OthersKeptTrans(u, own, w, b, x, after, {p}, {p}, {p});
    NewDirKept(g, v, cv, more, w, b, ino, p, g.blockSize, p);
    NewDirKept(g, w, cw, b, x, after, ino, p, g.blockSize, p);
    NewIsKnown(x, ino, p, g.blockSize);
    KeysKept(u, own, w, b, p);
    FindsKeptTrans(u, own, w, b, x);
    PathBelow(g, u, cu, own, x, path, p);
    LookupIsFind(x, x.inodes[p], name);
  }

  lemma KeysKept(v: View, own: Owners, w: View, after: Owners, x: nat)
    requires OthersKept(v, own, w, after, {x})
    ensures own.Keys <= after.Keys
  {
    hide SameOn;
  }

  function DirCounted(c: Counts, k: nat): Counts
    requires k < |c.usedDirs|
  {
    c.(usedDirs := c.usedDirs[k := c.usedDirs[k] + 1])
  }

  /** One more directory is counted, in the group of inode `p`. */
  ghost predicate OneMoreIn(g: Geometry, p: nat, a: Counts, b: Counts) {
    && 1 <= p && g.inodesPerGroup > 0 && g.GroupOf(p) < |a.usedDirs|
    && b.usedDirs == a.usedDirs[g.GroupOf(p) := a.usedDirs[g.GroupOf(p)] + 1]
    && Sum(b.usedDirs) == Sum(a.usedDirs) + 1
  }

  lemma CountDirKeepsInv(g: Geometry, w: View, c: Counts, own: Owners, k: nat)
    requires Inv(g, w, c, own) && k < |g.loc| && Sum(c.usedDirs) + Sum(c.inodeFree) < g.InodeCount()
    ensures |c.usedDirs| == |g.loc| && Inv(g, w, DirCounted(c, k), own)
    ensures Sum(DirCounted(c, k).usedDirs) == Sum(c.usedDirs) + 1 && c.usedDirs[k] + 1 < TWO32
  {
    hide Sum, CountClear, InodeOk, FreeIsUnused, OwnersOk, ViewOk, Geometry.InTable, Geometry.TableLen;
    SumUpdate(c.usedDirs, k, c.usedDirs[k] + 1);
    SumAtLeast(c.usedDirs, k);
  }

  lemma CountersAfterMkdir(sb: Superblock, groups: seq<Group>, k: nat)
    requires k < |groups| && groups[k].UsedDirsCount() + 1 < TWO32
    ensures var groups' := groups[k := groups[k].SetUsedDirsCount(groups[k].UsedDirsCount() + 1)];
      GeometryOf(sb, groups') == GeometryOf(sb, groups) && FixedOf(sb, groups') == FixedOf(sb, groups)
        && CountsOf(sb, groups') == DirCounted(CountsOf(sb, groups), k)
  {
  }

  lemma NotTaken(g: Geometry, w: View, c: Counts, own: Owners, d: nat, name: seq<byte>)
    requires Inv(g, w, c, own) && d in own && d in w.inodes && w.inodes[d].IsDir()
      && FileTree.LookupInDir(w, w.inodes[d], name).Err?
    ensures FindIno(w.blocks, w.inodes[d], name).Ok? ==> FindIno(w.blocks, w.inodes[d], name) == Ok(None)
  {
    hide Inv, FindIno, FileTree.LookupInDir, Inode.IsDir;
    FoundIsLive(g, w, c, own, d, name);
  }

  lemma ParentNumber(g: Geometry, w: View, c: Counts, own: Owners, ino: nat)
    requires Inv(g, w, c, own) && ino in own
    ensures 1 <= ino < TWO32
  {
    hide CountsOk, FreeIsUnused, ViewOk, InodeOk, Geometry.InTable, Geometry.TableLen;
  }

  lemma DotBlockOk(ino: nat, parent: nat, bs: nat, live: set<nat>)
    requires 2 * DOT_SIZE as int <= bs < TWO16 && ino < TWO32 && parent < TWO32 && ino in live && parent in live
    ensures DirBlockOk(CreateDotEntries(ino, parent, bs), live)
  {
    hide CreateDotEntries, Entries, Tiled;
    DotEntriesIterate(ino, parent, bs);
    var items := Entries(CreateDotEntries(ino, parent, bs), 0);
    var none: seq<(nat, DirEntry)> := [];
    assert items[1..][1..] == none;
    assert EntriesLive(items[1..][1..], live);
    assert EntriesLive(items[1..], live);
  }

  lemma DotRowOk(blocks: Blocks, b: nat, live: set<nat>)
    requires b in blocks && DirBlockOk(blocks[b], live)
    ensures RowOk(blocks, [] + [b], live) && RowOk(blocks, [b], live)
  {
    hide DirBlockOk;
  }

  lemma EmptyRootTakesOne(n: Inode, phys: nat)
    requires LeafRoot(n) && RootFits(n) && n.Header() == Some(EMPTY_ROOT_HEADER)
    ensures AppendTo(n, phys).Ok?
  {
    hide HeaderAt, WithLeaf, Leaves, OneBlockLeaf, NextLogical;
  }

  lemma BlockAdded(g: Geometry, u: View, cu: Counts, own: Owners, v: View, w: View, cw: Counts, parent: nat,
                   name: seq<byte>)
    requires Inv(g, u, cu, own) && Inv(g, w, cw, own) && parent in own && parent in u.inodes
    requires Allocates(g, u.blocks, v.blocks) && Allocates(g, v.blocks, w.blocks)
    requires OthersKept(u, own, v, own, {}) && OthersKept(v, own, w, own, {})
    ensures Allocates(g, u.blocks, w.blocks) && OthersKept(u, own, w, own, {}) && FindsKept(u, own, w)
    ensures parent in w.inodes && w.inodes[parent] == u.inodes[parent]
    ensures SameOn(u.blocks, w.blocks, Footprint(u.blocks, u.inodes[parent]))
    ensures FindIno(w.blocks, w.inodes[parent], name) == FindIno(u.blocks, u.inodes[parent], name)
  {
    hide Allocates, Inode.IsDir, FindIno, FindsKept, Inv, Footprint, OthersKept, SameOn;
    AllocatesTrans(g, u.blocks, v.blocks, w.blocks);
    OthersKeptTrans(u, own, v, own, w, own, {}, {}, {});
    FindsKeptByOthers(g, u, cu, own, w, cw, own, {});
    ParentUnchanged(g, u, cu, own, w, own, parent);
    FindInoFrame(u.blocks, w.blocks, u.inodes[parent], name);
  }

  lemma FinishedDir(n: Inode, m: Inode, bs: u64)
    requires n.IsDir() && m == n.(iBlock := m.iBlock) && PlainRecord(n, 0x41ED, 2)
    ensures var k := Finished(m, bs, 1, bs);
      && k.IsDir() && m.IsDir() && k.Size() == bs && k.iBlock == m.iBlock && k.flags == m.flags && k.mode == m.mode
      && PlainRecord(k, 0x41ED, 2) && (bs < TWO16 ==> k.blocksLo == bs / 512)
  {
  }

  lemma OneBlockSet(m: Inode, k: Inode, b: nat)
    requires RootBlocks(m) == [] + [b]
    ensures RootBlocks(m) == [b] && SetOf([b]) == {b}
  {
  }

  lemma NewDirIs(g: Geometry, v: View, w: View, x: View, ino: nat, parent: nat, bs: nat, b: nat, n: Inode)
    requires 2 * DOT_SIZE as int <= bs < TWO16 && ino < TWO32 && parent < TWO32
    requires RecordWritten(g, w, x, ino, Stored(n, g.inodeSize)) && n.IsDir() && LeafRoot(n) && RootBlocks(n) == [b]
      && n.Size() == bs
    requires PlainRecord(n, 0x41ED, 2) && n.blocksLo == bs / 512
    requires b in v.blocks && v.blocks[b] == CreateDotEntries(ino, parent, bs)
    requires b in w.blocks && w.blocks[b] == v.blocks[b] && b in x.blocks && x.blocks[b] == w.blocks[b]
    ensures NewDirAs(x, ino, parent, bs)
  {
    hide Inode.IsDir, LeafRoot, RootBlocks, CreateDotEntries, Inode.Size, Inode.UsesExtents, Inode.Header;
    RecordIsDir(g, w, x, ino, n);
    SameTreeFacts(x.blocks, n, x.inodes[ino]);
  }

  lemma DotsNamed(ino: u32, parent: u32, bs: nat, name: seq<byte>)
    requires 2 * DOT_SIZE as int <= bs < TWO16 && ino != 0 && parent != 0
    ensures match Lookup(CreateDotEntries(ino, parent, bs), name)
            case Some(item) => (name == DOT && item.1.inode == ino) || (name == DOTDOT && item.1.inode == parent)
            case None => name != DOT && name != DOTDOT
  {
    hide CreateDotEntries, Entries, Tiled;
    DotEntriesIterate(ino, parent, bs);
    var a, b := DotEntry(ino), DotDotEntry(parent, bs);
    var items := Entries(CreateDotEntries(ino, parent, bs), 0);
    var none: seq<Item> := [];
    assert items[0].1 == a && items[1..] == [(DOT_SIZE as int, b)] && items[1..][1..] == none;
    assert a.name[..1] == DOT && b.name[..2] == DOTDOT;
    assert a.Named(name) <==> name == DOT;
    assert b.Named(name) <==> name == DOTDOT;
    assert FindNamed(none, name) == None;
    assert FindNamed(items[1..], name) == if b.Named(name) then Some(items[1..][0]) else None;
    assert FindNamed(items, name) == if a.Named(name) then Some(items[0]) else FindNamed(items[1..], name);
  }

  /** Such a directory finds itself as ".", its parent as "..", and nothing else. */
  lemma NewDirFinds(w: View, ino: nat, parent: nat, bs: nat, name: seq<byte>)
    requires NewDirAs(w, ino, parent, bs) && ino != 0 && parent != 0
    ensures FindIno(w.blocks, w.inodes[ino], name)
            == Ok(if name == DOT then Some(ino) else if name == DOTDOT then Some(parent) else None)
    ensures Entries(w.blocks[RootBlocks(w.inodes[ino])[0]], 0)
            == [(0, DotEntry(ino)), (DOT_SIZE as int, DotDotEntry(parent, bs))]
  {
    hide CreateDotEntries, Lookup, Entries, Tiled, LeafRoot, Leaves, Inode.IsDir, ExtentTree.ResolveExtents,
      TreeNodes;
    var n := w.inodes[ino];
    var b := RootBlocks(n)[0];
    LeafRootTree(w.blocks, n);
    DotEntriesIterate(ino, parent, bs);
    DotsNamed(ino, parent, bs, name);
    assert RootBlocks(n) == [] + [b];
    ScanAppend(w.blocks, [], b, name);
  }

  lemma DotsSlot(ino: u32, parent: u32, bs: nat, needed: u16)
    requires 1024 <= bs < TWO16 && ino != 0 && parent != 0 && 0 < needed as int <= MAX_RECORD
    ensures FindSlot(CreateDotEntries(ino, parent, bs), 0, needed) == Some(Slot(24, (bs - 24) as u16, false))
  {
    hide CreateDotEntries, EntryAt, Tiled;
    var b, first, second := CreateDotEntries(ino, parent, bs), DotEntry(ino), DotDotEntry(parent, bs);
    DotEntriesIterate(ino, parent, bs);
    assert Entries(b, 0)[0] == (0, first) && Entries(b, 0)[1] == (12, second);
    assert EntryAt(b, 0) == Some(first);
    assert Entries(b, 0)[1..] == Entries(b, 12);
    assert EntryAt(b, 12) == Some(second);
    assert FindSlot(b, 12, needed) == Some(Slot(24, (bs - 24) as u16, false));
  }

  /**
   The record of "..", which fills the block, has slack for one more of any length: whatever is created first in a new
   directory goes there, and is not found afterwards.
   */
  lemma NewDirHidesEntries(w: View, ino: nat, parent: nat, bs: nat, needed: u16)
    requires NewDirAs(w, ino, parent, bs) && 1024 <= bs && ino != 0 && parent != 0 && 0 < needed as int <= MAX_RECORD
    ensures !Reachable(w.blocks, w.inodes[ino], needed) && EntryCost(w.blocks, w.inodes[ino], needed) == Some(0)
  {
    hide CreateDotEntries, FindSlot, LeafRoot, Leaves, Inode.IsDir, ExtentTree.ResolveExtents, TreeNodes, HasRoom,
      DirSlot, DataBlocks;
    var n := w.inodes[ino];
    var b := RootBlocks(n)[0];
    LeafRootTree(w.blocks, n);
    DotsSlot(ino, parent, bs, needed);
    RootBlocksIs(n);
    NoSlotYet(w.blocks, needed);
    assert RootBlocks(n) == [] + [b];
    SlotNext(w.blocks, [b], [], b, needed);
    assert DataBlocks(Leaves(n.iBlock)) == [b];
    assert SpotFor(w.blocks, n, needed) == DirSlot(w.blocks, [b], needed);
  }

  // --- Creating an inode ---

  lemma RecordIsDir(g: Geometry, v: View, w: View, ino: nat, n: Inode)
    requires RecordWritten(g, v, w, ino, Stored(n, g.inodeSize))
    ensures ino in w.inodes && w.inodes[ino] == Stored(n, g.inodeSize)
    ensures w.inodes[ino].IsDir() == n.IsDir() && SameTree(n, w.inodes[ino])
  {
    StoredTree(n, g.inodeSize);
  }

  lemma SameTreeIsDir(n: Inode, m: Inode, k: Inode)
    requires n.mode == m.mode && SameTree(m, k)
    ensures k.IsDir() == n.IsDir()
  {
  }

  /** From before an inode is allocated until its record is stored: everything live is as it was. */
  lemma NewInodeKept(g: Geometry, u: View, cu: Counts, own: Owners, v: View, cv: Counts, w: View, cw: Counts,
                     after: Owners, parent: nat, ino: nat, s: set<nat>, name: seq<byte>)
    requires Inv(g, u, cu, own) && Inv(g, v, cv, own) && Inv(g, w, cw, after) && after == own[ino := s] && ino !in own
    requires Allocates(g, u.blocks, v.blocks) && Allocates(g, v.blocks, w.blocks)
    requires OthersKept(u, own, v, own, {}) && OthersKept(v, own, w, after, {ino})
    requires parent in own && parent in u.inodes
    ensures Allocates(g, u.blocks, w.blocks) && OthersKept(u, own, w, after, {}) && FindsKept(u, own, w)
    ensures parent in w.inodes && w.inodes[parent] == u.inodes[parent]
    ensures SameOn(u.blocks, w.blocks, Footprint(u.blocks, u.inodes[parent]))
    ensures FindIno(w.blocks, w.inodes[parent], name) == FindIno(u.blocks, u.inodes[parent], name)
  {
    hide Allocates, Inode.IsDir, FindIno, FindsKept, CountsOk, FreeIsUnused, Geometry.Ok, ViewOk, OwnersOk,
      Footprint, RootFits, DirOk, OthersKept, SameOn;
    AllocatesTrans(g, u.blocks, v.blocks, w.blocks);
    OthersKeptTrans(u, own, v, own, w, after, {}, {ino}, {});
    FindsKeptByOthers(g, u, cu, own, w, cw, after, {});
    ParentUnchanged(g, u, cu, own, w, after, parent);
    FindInoFrame(u.blocks, w.blocks, u.inodes[parent], name);
  }

  lemma NothingHappened(g: Geometry, w: View, c: Counts, own: Owners, parent: nat)
    requires Inv(g, w, c, own) && parent in own && parent in w.inodes
    ensures Allocates(g, w.blocks, w.blocks) && OthersKept(w, own, w, own, {}) && FindsKept(w, own, w)
    ensures SameOn(w.blocks, w.blocks, Footprint(w.blocks, w.inodes[parent]))
  {
    hide Inv, OthersKept, FindsKept, Footprint, Allocates;
    AllocatesSelf(g, w.blocks);
    OthersKeptSelf(g, w, c, own, {});
    FindsKeptByOthers(g, w, c, own, w, c, own, {});
  }

  lemma KeptWider(v: View, own: Owners, w: View, after: Owners, x: nat)
    requires OthersKept(v, own, w, after, {})
    ensures OthersKept(v, own, w, after, {x})
  {
    hide SameOn;
  }

  lemma OtherKept(v: View, own: Owners, w: View, after: Owners, x: nat, one: bool, ino: nat)
    requires OthersKept(v, own, w, after, if one then {x} else {}) && ino in own && ino != x
    ensures ino in v.inodes && ino in w.inodes && w.inodes[ino] == v.inodes[ino]
  {
    hide SameOn;
  }

  /** After the entry of a new inode is in place, or could not be added. */
  lemma EntryAdded(g: Geometry, u: View, own: Owners, v: View, cv: Counts, more: Owners, w: View, cw: Counts,
                   after: Owners, parent: nat, dir: Inode, dir': Inode, added: bool, name: seq<byte>, ino: nat,
                   needed: u16)
    requires Inv(g, v, cv, more) && Inv(g, w, cw, after) && own.Keys <= more.Keys
    requires Allocates(g, u.blocks, v.blocks) && Allocates(g, v.blocks, w.blocks)
    requires OthersKept(u, own, v, more, {}) && FindsKept(u, own, v)
    requires parent in more && parent in v.inodes && v.inodes[parent] == dir && dir.IsDir()
    requires SameOn(u.blocks, v.blocks, Footprint(u.blocks, dir))
      && (added ==> FindIno(v.blocks, dir, name) == Ok(None))
    requires !added ==> OthersKept(v, more, w, after, {})
    requires SameDir(u.blocks, dir, v.blocks, dir)
    requires added ==>
      OthersKept(v, more, w, after, {parent}) && parent in w.inodes && SameTree(dir', w.inodes[parent])
        && dir'.mode == dir.mode
    requires added ==> Gained(v.blocks, dir, w.blocks, w.inodes[parent], name, ino, Reachable(v.blocks, dir, needed))
    requires ino in more && ino != parent && ino in v.inodes
    ensures Allocates(g, u.blocks, w.blocks) && OthersKept(u, own, w, after, {parent}) && FindsKept(u, own, w)
    ensures ino in w.inodes && w.inodes[ino] == v.inodes[ino]
    ensures parent in w.inodes && OtherNamesKept(u.blocks, dir, w.blocks, w.inodes[parent], name)
    ensures !added ==> w.inodes[parent] == dir && SameDir(u.blocks, dir, w.blocks, w.inodes[parent])
    ensures added ==> w.inodes[parent].IsDir()
    ensures added ==> Gained(u.blocks, dir, w.blocks, w.inodes[parent], name, ino, Reachable(u.blocks, dir, needed))
  {
    hide Inv, Allocates, OthersKept, FindsKept, FindIno, Footprint, Gained, Reachable, SameTree, Inode.IsDir,
      SameOn, SameDir, OtherNamesKept;
    AllocatesTrans(g, u.blocks, v.blocks, w.blocks);
    OtherKept(v, more, w, after, parent, added, ino);
    if added {
      OthersKeptTrans(u, own, v, more, w, after, {}, {parent}, {parent});
      SameTreeIsDir(dir, dir', w.inodes[parent]);
      FindsKeptByGain(g, v, cv, more, w, cw, after, parent, name, ino, Reachable(v.blocks, dir, needed));
      GainedAcross(u.blocks, dir, v.blocks, w.inodes[parent], w.blocks, name, ino, needed);
      GainKeepsOthers(u.blocks, dir, w.blocks, w.inodes[parent], name, ino, Reachable(u.blocks, dir, needed));
    } else {
      KeptNames(g, v, cv, more, w, after, parent, ino) by { KeptWider(v, more, w, after, ino); }
      NamesTwice(u.blocks, dir, v.blocks, dir, w.blocks, w.inodes[parent]);
      SameDirKeepOthers(u.blocks, dir, w.blocks, w.inodes[parent], name);
      OthersKeptTrans(u, own, v, more, w, after, {}, {}, {parent});
      FindsKeptByOthers(g, v, cv, more, w, cw, after, {});
    }
    FindsKeptTrans(u, own, v, more, w);
  }

  lemma ParentUnchanged(g: Geometry, u: View, c: Counts, own: Owners, w: View, after: Owners, parent: nat)
    requires Inv(g, u, c, own) && OthersKept(u, own, w, after, {}) && parent in own && parent in u.inodes
    ensures parent in w.inodes && w.inodes[parent] == u.inodes[parent]
      && SameOn(u.blocks, w.blocks, Footprint(u.blocks, u.inodes[parent]))
  {
    hide CountsOk, FreeIsUnused, Geometry.Ok, ViewOk, OwnersOk, Footprint, RootFits, DirOk;
    assert InodeOk(u, own, parent);
  }

  // --- The two outcomes of write_file ---

  /** The block loop of `write_file`, `free` blocks free before and `left` after; `bl` are the blocks attached. */
  ghost predicate ContentsDone(g: Geometry, u: View, before: Owners, w: View, after: Owners, ino: nat, inode: Inode,
                               data: seq<byte>, bs: nat, free: nat, left: nat, r: Result<()>, bl: seq<nat>)
  {
    && bs > 0 && ino in before && ino in w.inodes
    && r == ContentsOutcome(BlocksFor(|data|, bs), free) && |bl| == BlocksTaken(BlocksFor(|data|, bs), free)
    && left == free - ContentsTaken(BlocksFor(|data|, bs), free)
    && (if r.Ok? || bl != [] then FileHolds(w, after, ino, bl, data, bs) && Leaked(g, w, after, before[ino])
        else after == before && w == u)
    && (r.Err? && bl != [] ==> Retreed(inode, w.inodes[ino]))
    && (r.Ok? ==>
      && WrittenAs(inode, w.inodes[ino], |data|, BlocksFor(|data|, bs), bs) && !w.inodes[ino].IsDir()
      && ReadData(w, w.inodes[ino], bs) == Ok(data))
  }

  /** A record for a new inode in directory `p`: the outcome, and what the directory finds afterwards. */
  ghost predicate NameDone(u: View, w: View, p: nat, name: seq<byte>, freeInodes: nat, free: nat, left: nat,
                           r: Result<nat>)
  {
    && p in u.inodes && p in w.inodes && Regrown(u.inodes[p], w.inodes[p], u.inodes[p].linksCount)
    && OtherNamesKept(u.blocks, u.inodes[p], w.blocks, w.inodes[p], name)
    && left == free - NewNameTaken(u.blocks, u.inodes[p], NeededFor(name), freeInodes, free)
    && match NewNameOutcome(u.blocks, u.inodes[p], NeededFor(name), freeInodes, free)
       case Err(e) => r == Err(e) && SameDir(u.blocks, u.inodes[p], w.blocks, w.inodes[p])
       case Ok(_) =>
         && r.Ok? && w.inodes[p].IsDir() && HasRecord(w, p, name, r.value, 1)
         && Gained(u.blocks, u.inodes[p], w.blocks, w.inodes[p], name, r.value,
                   Reachable(u.blocks, u.inodes[p], NeededFor(name)))
  }

  lemma NameRefused(u: View, w: View, p: nat, name: seq<byte>, freeInodes: nat, free: nat, left: nat, e: Ext4Error)
    requires p in u.inodes && p in w.inodes && Regrown(u.inodes[p], w.inodes[p], u.inodes[p].linksCount)
    requires OtherNamesKept(u.blocks, u.inodes[p], w.blocks, w.inodes[p], name)
      && SameDir(u.blocks, u.inodes[p], w.blocks, w.inodes[p])
    requires left == free - NewNameTaken(u.blocks, u.inodes[p], NeededFor(name), freeInodes, free)
    requires NewNameOutcome(u.blocks, u.inodes[p], NeededFor(name), freeInodes, free) == Err(e)
    ensures NameDone(u, w, p, name, freeInodes, free, left, Err(e))
  {
    hide Regrown, OtherNamesKept, SameDir, NewNameTaken, NewNameOutcome, NeededFor, HasRecord, Gained;
  }

  lemma NameAdded(u: View, w: View, p: nat, name: seq<byte>, freeInodes: nat, free: nat, left: nat, ino: nat)
    requires p in u.inodes && p in w.inodes && Regrown(u.inodes[p], w.inodes[p], u.inodes[p].linksCount)
    requires OtherNamesKept(u.blocks, u.inodes[p], w.blocks, w.inodes[p], name)
    requires left == free - NewNameTaken(u.blocks, u.inodes[p], NeededFor(name), freeInodes, free)
    requires NewNameOutcome(u.blocks, u.inodes[p], NeededFor(name), freeInodes, free).Ok?
    requires w.inodes[p].IsDir() && HasRecord(w, p, name, ino, 1)
    requires Gained(u.blocks, u.inodes[p], w.blocks, w.inodes[p], name, ino,
                    Reachable(u.blocks, u.inodes[p], NeededFor(name)))
    ensures NameDone(u, w, p, name, freeInodes, free, left, Ok(ino))
  {
    hide Regrown, OtherNamesKept, SameDir, NewNameTaken, NewNameOutcome, NeededFor, HasRecord, Gained, Reachable;
  }

  ghost predicate IsEmptyFile(w: View, ino: nat) {
    ino in w.inodes && PlainRecord(w.inodes[ino], 0x81A4, 1) && w.inodes[ino].Size() == 0
  }

  /** These blocks were handed out, as the log counts, between one state of the log and a later one. */
  ghost predicate LoggedSince(before: seq<nat>, after: seq<nat>, bl: seq<nat>) {
    before <= after && forall b :: b in bl ==> b in after[|before|..]
  }

  lemma LogHas(before: seq<nat>, between: seq<nat>, after: seq<nat>, bl: seq<nat>)
    requires before <= between && between + bl <= after
    ensures LoggedSince(before, after, bl)
  {
    forall b | b in bl
      ensures b in after[|before|..]
    {
      var i :| 0 <= i < |bl| && bl[i] == b;
      assert after[|before|..][|between| - |before| + i] == b;
    }
  }

  /** `write_file` on a file `t` that existed. */
  ghost predicate OverwriteDone(g: Geometry, u: View, before: Owners, w: View, after: Owners, path: seq<byte>, t: nat,
                                bl: seq<nat>, data: seq<byte>, bs: nat, free: nat, left: nat, r: Result<()>)
  {
    && OthersKept(u, before, w, after, {t}) && after.Keys == before.Keys && bs > 0
    && r == ContentsOutcome(BlocksFor(|data|, bs), free) && |bl| == BlocksTaken(BlocksFor(|data|, bs), free)
    && left == free - ContentsTaken(BlocksFor(|data|, bs), free)
    && FileRewritten(g, u, before, w, after, path, t, bl, data, bs, r.Ok?)
  }

  /** `write_file` on a name that its parent `p` did not have. */
  ghost predicate CreateDone(u: View, before: Owners, w: View, after: Owners, path: seq<byte>, p: nat, t: nat,
                             bl: seq<nat>, data: seq<byte>, bs: nat, freeInodes: nat, free: nat, left: nat,
                             r: Result<()>)
  {
    && OthersKept(u, before, w, after, {p}) && p in u.inodes && p in w.inodes && SplitPath(path).Ok? && bs > 0
    && Regrown(u.inodes[p], w.inodes[p], u.inodes[p].linksCount)
    && var name := SplitPath(path).value.1;
    && OtherNamesKept(u.blocks, u.inodes[p], w.blocks, w.inodes[p], name)
    && r == CreateOutcome(u.blocks, u.inodes[p], NeededFor(name), freeInodes, free, BlocksFor(|data|, bs))
    && (if NewNameOutcome(u.blocks, u.inodes[p], NeededFor(name), freeInodes, free).Err?
        then SameDir(u.blocks, u.inodes[p], w.blocks, w.inodes[p])
        else
          && t in after && t !in before && (bl != [] ==> FileHolds(w, after, t, bl, data, bs))
          && HasRecord(w, p, name, t, 1)
          && Gained(u.blocks, u.inodes[p], w.blocks, w.inodes[p], name, t,
                    Reachable(u.blocks, u.inodes[p], NeededFor(name))))
    && left == free - CreateTaken(u.blocks, u.inodes[p], NeededFor(name), freeInodes, free, BlocksFor(|data|, bs))
    && (if r.Ok? then FileMade(u, before, w, after, path, p, t, bl, data, bs)
        else
          FileTree.ReadFile(w, path, bs)
          == if NewNameOutcome(u.blocks, u.inodes[p], NeededFor(name), freeInodes, free).Ok?
            && Reachable(u.blocks, u.inodes[p], NeededFor(name))
             then Ok([]) else Err(NotFound))
  }

  /** Writing `need` blocks of data when `free` are free. */
  function AllWritten(need: nat, free: nat): Result<()> {
    if free < need && free <= 4 then Err(NoFreeBlocks) else if need > 4 then Err(UnsupportedFeature) else Ok(())
  }

  /** What `write_file` does at a path that splits, by what the path and its parent led to before. */
  ghost predicate WrittenAt(u: View, w: View, path: seq<byte>, t: nat, data: seq<byte>, bs: nat, freeInodes: nat,
                            free: nat, r: Result<()>)
  {
    && bs > 0 && SplitPath(path).Ok?
    && var need, (before, name) := BlocksFor(|data|, bs), SplitPath(path).value;
    match FileTree.LookupPath(u, path)
    case Ok(found) =>
      if found.1.IsDir() then r == Err(IsADirectory)
      else
        && t == found.0 && r == AllWritten(need, free)
        && (r.Ok? ==> FileTree.ReadFile(w, path, bs) == Ok(data))
    case Err(e) =>
      match FileTree.LookupPath(u, before)
      case Err(e') => r == Err(e')
      case Ok(parent) =>
        if !parent.1.IsDir() then r == Err(NotADirectory)
        else if e != NotFound then r == Err(e)
        else NewAt(u, w, path, parent.1, NeededFor(name), data, need, bs, freeInodes, free, r)
  }

  /**
   The same where the parent is a directory without the name: exactly when it works, and whether the file is found.
   */
  ghost predicate NewAt(u: View, w: View, path: seq<byte>, dir: Inode, needed: u16, data: seq<byte>, need: nat, bs: nat,
                        freeInodes: nat, free: nat, r: Result<()>)
  {
    var cost := EntryCost(u.blocks, dir, needed);
    && bs > 0
    && (r.Ok? <==> freeInodes > 0 && cost.Some? && need <= 4 && cost.value + need <= free)
    && (freeInodes == 0 ==> r == Err(NoFreeInodes))
    && (freeInodes > 0 && EntryOutcome(u.blocks, dir, needed, free).Err? ==>
      r == EntryOutcome(u.blocks, dir, needed, free))
    && (freeInodes > 0 && cost.Some? && cost.value <= free ==> r == AllWritten(need, free - cost.value))
    && (r.Ok? ==>
      FileTree.ReadFile(w, path, bs) == if Findable(DirItems(u.blocks, dir), needed) then Ok(data) else Err(NotFound))
  }

  /** What `mkdir` does at a path that splits, likewise. */
  ghost predicate MadeAt(u: View, w: View, path: seq<byte>, freeInodes: nat, free: nat, r: Result<nat>) {
    && SplitPath(path).Ok?
    && match FileTree.LookupPath(u, SplitPath(path).value.0)
       case Err(e) => r == Err(e)
       case Ok(parent) =>
         if !parent.1.IsDir() then r == Err(NotADirectory)
         else DirAt(u, w, path, parent.1, NeededFor(SplitPath(path).value.1), freeInodes, free, r)
  }

  ghost predicate DirAt(u: View, w: View, path: seq<byte>, dir: Inode, needed: u16, freeInodes: nat, free: nat,
                        r: Result<nat>)
  {
    var at, cost := FileTree.LookupPath(u, path), EntryCost(u.blocks, dir, needed);
    && (r == Err(AlreadyExists) <==> at.Ok?)
    && (r.Ok? <==> at == Err(NotFound) && freeInodes > 0 && cost.Some? && 1 + cost.value <= free)
    && (at.Err? && freeInodes == 0 ==> r == Err(NoFreeInodes))
    && (at.Err? && freeInodes > 0 && free == 0 ==> r == Err(NoFreeBlocks))
    && (at.Err? && freeInodes > 0 && free > 0 && EntryOutcome(u.blocks, dir, needed, free - 1).Err? ==>
      r == Err(EntryOutcome(u.blocks, dir, needed, free - 1).error))
    && (r.Ok? ==> r.value in w.inodes)
    && (r.Ok? ==>
      FileTree.LookupPath(w, path)
      == if Findable(DirItems(u.blocks, dir), needed) then Ok((r.value, w.inodes[r.value])) else Err(NotFound))
  }

  lemma WriteRefused(u: View, path: seq<byte>, t: nat, data: seq<byte>, bs: nat, freeInodes: nat, free: nat,
                     e: Ext4Error)
    requires bs > 0 && SplitPath(path).Ok? && PlanWrite(u, path) == Err(e)
    ensures WrittenAt(u, u, path, t, data, bs, freeInodes, free, Err(e))
  {
    hide PlanWrite, FileTree.LookupPath, SplitPath, Inode.IsDir, BlocksFor, NewAt;
    PlanWriteIs(u, path);
  }

  lemma WriteOver(g: Geometry, u: View, own: Owners, w: View, after: Owners, path: seq<byte>, p: nat, t: nat,
                  bl: seq<nat>, data: seq<byte>, bs: nat, freeInodes: nat, free: nat, left: nat, r: Result<()>)
    requires SplitPath(path).Ok? && PlanWrite(u, path) == Ok(Overwrite(p, t))
    requires OverwriteDone(g, u, own, w, after, path, t, bl, data, bs, free, left, r)
    ensures WrittenAt(u, w, path, t, data, bs, freeInodes, free, r)
  {
    hide PlanWrite, FileTree.LookupPath, SplitPath, Inode.IsDir, BlocksFor, NewAt, FileHolds, Leaked, WrittenAs,
      FileTree.ReadFile, OthersKept, ContentsTaken, BlocksTaken;
    PlanWriteIs(u, path);
  }

  lemma WroteNew(g: Geometry, u: View, c: Counts, own: Owners, w: View, after: Owners, path: seq<byte>, p: nat, t: nat,
                 bl: seq<nat>, data: seq<byte>, bs: nat, freeInodes: nat, free: nat, left: nat, r: Result<()>)
    requires Inv(g, u, c, own) && SplitPath(path).Ok? && PlanWrite(u, path) == Ok(Create(p))
    requires CreateDone(u, own, w, after, path, p, t, bl, data, bs, freeInodes, free, left, r)
    ensures WrittenAt(u, w, path, t, data, bs, freeInodes, free, r)
  {
    hide Inv, PlanWrite, FileTree.LookupPath, SplitPath, Inode.IsDir, BlocksFor, FileHolds, WrittenAs,
      FileTree.ReadFile, OthersKept, CreateTaken, Gained, SameDir, OtherNamesKept, Reachable, EntryCost, EntryOutcome,
      EntryTaken, Findable, DirItems, NeededFor, ReadData, NewFile;
    PlanWriteIs(u, path);
    ParentIsLive(g, u, c, own, path);
    NeededBound(SplitPath(path).value.1);
    ReachableIs(g, u, c, own, p, NeededFor(SplitPath(path).value.1));
  }

  lemma MkdirRefused(u: View, path: seq<byte>, freeInodes: nat, free: nat, e: Ext4Error)
    requires SplitPath(path).Ok? && PlanMkdir(u, path) == Err(e)
    ensures MadeAt(u, u, path, freeInodes, free, Err(e))
  {
    hide PlanMkdir, FileTree.LookupPath, SplitPath, Inode.IsDir, EntryCost, Findable, DirItems, NeededFor;
    PlanMkdirIs(u, path);
  }

  lemma DirWasMade(g: Geometry, u: View, a: Counts, own: Owners, w: View, b: Counts, after: Owners, path: seq<byte>,
                   p: nat, freeInodes: nat, free: nat, left: nat, r: Result<nat>)
    requires Inv(g, u, a, own) && SplitPath(path).Ok? && PlanMkdir(u, path) == Ok(p)
    requires MkdirDone(g, u, own, a, w, after, b, path, p, freeInodes, free, left, r)
    ensures MadeAt(u, w, path, freeInodes, free, r)
  {
    hide Inv, PlanMkdir, FileTree.LookupPath, FileTree.LookupInDir, SplitPath, Inode.IsDir, OthersKept, MkdirTaken,
      Gained, SameDir, OtherNamesKept, Reachable, EntryCost, EntryOutcome, Findable, DirItems, NeededFor, NewDirAs,
      OneMoreIn, ExtentTree.ResolveExtents, FindIno;
    PlanMkdirIs(u, path);
    ParentIsLive(g, u, a, own, path);
    var name := SplitPath(path).value.1;
    NeededBound(name);
    ReachableIs(g, u, a, own, p, NeededFor(name));
    SplitAgreesWithLookup(u, path);
    FoundIsLive(g, u, a, own, p, name);
    FindsInLive(g, u, a, own, p, name);
    FindErrors(u.blocks, u.inodes[p], name);
    EntryErrors(u.blocks, u.inodes[p], NeededFor(name), if free == 0 then 0 else free - 1);
    if r.Ok? {
      NewIsKnown(w, r.value, p, g.blockSize);
    }
  }

  /** What became of a file whose contents were replaced, or of which that was begun. */
  ghost predicate FileRewritten(g: Geometry, u: View, before: Owners, w: View, after: Owners, path: seq<byte>, t: nat,
                                bl: seq<nat>, data: seq<byte>, bs: nat, ok: bool)
  {
    && bs > 0 && t in before && t in u.inodes && t in w.inodes
    && (if ok || bl != [] then FileHolds(w, after, t, bl, data, bs) && Leaked(g, w, after, before[t])
        else after == before && w == u)
    && (if ok
        then WrittenAs(u.inodes[t], w.inodes[t], |data|, BlocksFor(|data|, bs), bs)
          && FileTree.ReadFile(w, path, bs) == Ok(data)
        else w.inodes[t] == u.inodes[t] || Retreed(u.inodes[t], w.inodes[t]))
    && (!ok && bl != [] ==> FileTree.ReadFile(w, path, bs) == PrefixRead(|bl|, data, u.inodes[t].Size(), bs))
  }

  /** What a successful `write_file` made of a name that its parent did not have. */
  ghost predicate FileMade(u: View, before: Owners, w: View, after: Owners, path: seq<byte>, p: nat, t: nat,
                           bl: seq<nat>, data: seq<byte>, bs: nat)
  {
    && bs > 0 && t in after && t !in before && 0 < t && FileHolds(w, after, t, bl, data, bs)
    && PlainRecord(w.inodes[t], 0x81A4, 1) && w.inodes[t].Size() == |data|
    && w.inodes[t].blocksLo == OffsetOf(BlocksFor(|data|, bs), bs / 512) && ReadData(w, w.inodes[t], bs) == Ok(data)
    && p in u.inodes && p in w.inodes && SplitPath(path).Ok?
    && var name := SplitPath(path).value.1;
    && Gained(u.blocks, u.inodes[p], w.blocks, w.inodes[p], name, t, Reachable(u.blocks, u.inodes[p], NeededFor(name)))
    && FileTree.ReadFile(w, path, bs) == if Reachable(u.blocks, u.inodes[p], NeededFor(name)) then Ok(data)
      else Err(NotFound)
  }

  lemma Overwritten(g: Geometry, u: View, c: Counts, own: Owners, w: View, after: Owners, path: seq<byte>, p: nat,
                    t: nat, bl: seq<nat>, data: seq<byte>, bs: nat, free: nat, left: nat, r: Result<()>)
    requires Inv(g, u, c, own) && FindsKept(u, own, w) && SplitPath(path).Ok? && after.Keys == own.Keys
    requires FileTree.LookupPath(u, SplitPath(path).value.0).Ok?
      && FileTree.LookupPath(u, SplitPath(path).value.0).value.0 == p
    requires p in own && p in u.inodes && u.inodes[p].IsDir() && t in own && t in u.inodes
    requires FindIno(u.blocks, u.inodes[p], SplitPath(path).value.1) == Ok(Some(t)) && OthersKept(u, own, w, after, {t})
    requires !u.inodes[t].IsDir()
    requires ContentsDone(g, u, own, w, after, t, u.inodes[t], data, bs, free, left, r, bl)
    ensures OverwriteDone(g, u, own, w, after, path, t, bl, data, bs, free, left, r)
  {
    hide FileTree.LookupPath, FileTree.LookupInDir, SplitPath, FindIno, Inode.IsDir, ReadData, FileTree.ReadFile,
      CountsOk, FreeIsUnused, InodeOk, Geometry.Ok, ViewOk, FileHolds, Leaked, WrittenAs, BlocksFor, Inode.Size,
      OthersKept, ContentsOutcome, BlocksTaken, Retreed, PrefixRead;
    assert DirKept(u, w, p);
    OwnedIsUsable(g, u, c, own, t);
    if r.Ok? {
      ReadThrough(g, u, c, own, w, path, p, t, bs);
    } else if bl != [] {
      RetreedMode(u.inodes[t], w.inodes[t]);
      SameMode(u.inodes[t], w.inodes[t]);
      HoldsReads(w, after, t, bl, data, bs);
      ReadThrough(g, u, c, own, w, path, p, t, bs);
    }
  }

  /** A file that holds the beginning of `data` reads as that, cut to its size. */
  lemma HoldsReads(w: View, own: Owners, ino: nat, bl: seq<nat>, data: seq<byte>, bs: nat)
    requires FileHolds(w, own, ino, bl, data, bs) && bs > 0
    ensures ReadData(w, w.inodes[ino], bs) == PrefixRead(|bl|, data, w.inodes[ino].Size(), bs)
  {
    hide MapsInOrder, Stores, Leaves, ReadData, Inode.Header, Inode.Size, Inode.UsesExtents, PrefixRead;
    ReadsPrefix(w, w.inodes[ino], bl, data, bs);
  }

  lemma Created(g: Geometry, u: View, cu: Counts, own: Owners, v: View, cv: Counts, more: Owners, w: View, cw: Counts,
                after: Owners, path: seq<byte>, p: nat, t: nat, bl: seq<nat>, data: seq<byte>, bs: nat, freeInodes: nat,
                free: nat, left: nat, end: nat, made: Result<nat>, r: Result<()>)
    requires Inv(g, u, cu, own) && Inv(g, v, cv, more) && Inv(g, w, cw, after) && SplitPath(path).Ok? && bs > 0
    requires FileTree.LookupPath(u, SplitPath(path).value.0).Ok?
      && FileTree.LookupPath(u, SplitPath(path).value.0).value.0 == p
    requires p in own && p in u.inodes && FindIno(u.blocks, u.inodes[p], SplitPath(path).value.1) == Ok(None)
    requires OthersKept(u, own, v, more, {p}) && FindsKept(u, own, v) && OthersKept(v, more, w, after, {t})
    requires made == Ok(t) && NameDone(u, v, p, SplitPath(path).value.1, freeInodes, free, left, made)
    requires t in more && t !in own && t != 0 && IsEmptyFile(v, t) && after.Keys == more.Keys
    requires ContentsDone(g, v, more, w, after, t, NewFile(0x1A4), data, bs, left, end, r, bl)
    ensures FindsKept(u, own, w) && CreateDone(u, own, w, after, path, p, t, bl, data, bs, freeInodes, free, end, r)
  {
    hide FileTree.LookupPath, FileTree.LookupInDir, SplitPath, FindIno, Inode.IsDir, ReadData, FileTree.ReadFile, Inv,
      Reachable, Footprint, SameOn, NeededFor, FindsKept, Gained, OtherNamesKept, FileHolds, WrittenAs, BlocksFor,
      NewFile, SameDir, Leaked, EntryOutcome, EntryCost, EntryTaken, Inode.Size, FileMade, PlainRecord, Regrown,
      HasRecord, Retreed, RecordsKept;
    var name := SplitPath(path).value.1;
    var reachable := Reachable(u.blocks, u.inodes[p], NeededFor(name));
    PlainFile(v.inodes[t]);
    OthersKeptTrans(u, own, v, more, w, after, {p}, {t}, {p});
    FindsKeptByOthers(g, v, cv, more, w, cw, after, {t});
    FindsKeptTrans(u, own, v, more, w);
    assert p in more && p != t;
    KeptNames(g, v, cv, more, w, after, p, t);
    GainThen(u.blocks, u.inodes[p], v.blocks, v.inodes[p], w.blocks, w.inodes[p], name, t, reachable);
    HeldThen(v, w, p, name, t, 1);
    GainKeepsOthers(u.blocks, u.inodes[p], w.blocks, w.inodes[p], name, t, reachable);
    if r.Ok? {
      FileIsMade(g, u, cu, own, w, after, path, p, t, bl, data, bs);
    } else {
      StillEmpty(g, v, more, w, after, t, data, bs, left, end, r, bl);
      FileIsEmpty(g, u, cu, own, w, path, p, t, bs);
    }
  }

  lemma StillEmpty(g: Geometry, v: View, own: Owners, w: View, after: Owners, t: nat, data: seq<byte>, bs: nat,
                   free: nat, left: nat, r: Result<()>, bl: seq<nat>)
    requires ContentsDone(g, v, own, w, after, t, NewFile(0x1A4), data, bs, free, left, r, bl) && r.Err?
      && IsEmptyFile(v, t)
    ensures IsEmptyFile(w, t)
  {
    hide FileHolds, Leaked, WrittenAs, ReadData, BlocksFor, ContentsOutcome, ContentsTaken, BlocksTaken, Inode.IsDir,
      Inode.Size, NewFile;
    if bl != [] {
      PlainRetreed(w.inodes[t]);
    }
  }

  lemma NewFileIsEmpty(n: Inode, inodeSize: nat)
    requires n == NewFile(0x1A4)
    ensures PlainRecord(Stored(n, inodeSize), 0x81A4, 1) && Stored(n, inodeSize).Size() == 0
  {
  }

  lemma RegrownSelf(n: Inode)
    ensures Regrown(n, n, n.linksCount)
  {
  }

  lemma RegrownMode(n: Inode, m: Inode, links: u16)
    ensures Regrown(n, m, links) ==> m.mode == n.mode && m.linksCount == links
  {
  }

  lemma RegrownTwice(a: Inode, b: Inode, c: Inode, links: u16)
    requires Regrown(a, b, a.linksCount) && Regrown(b, c, links)
    ensures Regrown(a, c, links)
  {
  }

  lemma EntryIsHeld(w: View, p: nat, name: seq<byte>, ino: u32, kind: byte)
    requires p in w.inodes && |name| <= EXT4_NAME_LEN
    requires HoldsRecord(w.blocks, w.inodes[p], NewEntry(ino, name, kind, 0))
    ensures HasRecord(w, p, name, ino, kind)
  {
    hide HoldsRecord;
  }

  lemma HeldThen(v: View, w: View, p: nat, name: seq<byte>, ino: nat, kind: byte)
    requires HasRecord(v, p, name, ino, kind) && p in v.inodes && p in w.inodes
    requires RecordsKept(v.blocks, v.inodes[p], w.blocks, w.inodes[p])
    ensures HasRecord(w, p, name, ino, kind)
  {
    hide HoldsRecord;
  }

  lemma PlainFile(n: Inode)
    requires PlainRecord(n, 0x81A4, 1)
    ensures !n.IsDir()
  {
  }

  lemma PlainRetreed(n: Inode)
    requires Retreed(NewFile(0x1A4), n)
    ensures PlainRecord(n, 0x81A4, 1) && n.Size() == 0
  {
  }

  lemma PlainWritten(n: Inode, len: nat, blocksNeeded: nat, bs: nat)
    requires WrittenAs(NewFile(0x1A4), n, len, blocksNeeded, bs)
    ensures PlainRecord(n, 0x81A4, 1) && n.Size() == len && n.blocksLo == OffsetOf(blocksNeeded, bs / 512)
  {
    hide OffsetOf;
  }

  /** A file that was created but not written reads as empty, if its name is found. */
  lemma FileIsEmpty(g: Geometry, u: View, cu: Counts, own: Owners, w: View, path: seq<byte>, p: nat, t: nat, bs: nat)
    requires Inv(g, u, cu, own) && FindsKept(u, own, w) && SplitPath(path).Ok? && bs > 0 && p in u.inodes
      && p in w.inodes && w.inodes[p].IsDir()
    requires FileTree.LookupPath(u, SplitPath(path).value.0).Ok?
      && FileTree.LookupPath(u, SplitPath(path).value.0).value.0 == p
    requires FindIno(u.blocks, u.inodes[p], SplitPath(path).value.1) == Ok(None) && 0 < t && IsEmptyFile(w, t)
    requires Gained(u.blocks, u.inodes[p], w.blocks, w.inodes[p], SplitPath(path).value.1, t,
                    Reachable(u.blocks, u.inodes[p], NeededFor(SplitPath(path).value.1)))
    ensures FileTree.ReadFile(w, path, bs)
      == if Reachable(u.blocks, u.inodes[p], NeededFor(SplitPath(path).value.1)) then Ok([]) else Err(NotFound)
  {
    hide FileTree.LookupPath, FileTree.LookupInDir, SplitPath, FindIno, Inode.IsDir, Inode.Size, FileTree.ReadFile,
      Inv, Reachable, NeededFor, FindsKept, Gained, ReadBlocks, ExtentTree.ResolveExtents, PlainRecord;
    PlainFile(w.inodes[t]);
    GainedName(u.blocks, u.inodes[p], w.blocks, w.inodes[p], SplitPath(path).value.1, t,
               Reachable(u.blocks, u.inodes[p], NeededFor(SplitPath(path).value.1)));
    ReadThrough(g, u, cu, own, w, path, p, t, bs);
  }

  lemma FileIsMade(g: Geometry, u: View, cu: Counts, own: Owners, w: View, after: Owners, path: seq<byte>, p: nat,
                   t: nat, bl: seq<nat>, data: seq<byte>, bs: nat)
    requires Inv(g, u, cu, own) && FindsKept(u, own, w) && SplitPath(path).Ok? && bs > 0 && p in u.inodes
      && p in w.inodes && w.inodes[p].IsDir()
    requires FileTree.LookupPath(u, SplitPath(path).value.0).Ok?
      && FileTree.LookupPath(u, SplitPath(path).value.0).value.0 == p
    requires FindIno(u.blocks, u.inodes[p], SplitPath(path).value.1) == Ok(None)
    requires Gained(u.blocks, u.inodes[p], w.blocks, w.inodes[p], SplitPath(path).value.1, t,
                    Reachable(u.blocks, u.inodes[p], NeededFor(SplitPath(path).value.1)))
    requires t in after && t !in own && 0 < t && FileHolds(w, after, t, bl, data, bs)
    requires t in w.inodes && WrittenAs(NewFile(0x1A4), w.inodes[t], |data|, BlocksFor(|data|, bs), bs)
    requires !w.inodes[t].IsDir() && ReadData(w, w.inodes[t], bs) == Ok(data)
    ensures FileMade(u, own, w, after, path, p, t, bl, data, bs)
  {
    hide FileTree.LookupPath, FileTree.LookupInDir, SplitPath, FindIno, Inode.IsDir, ReadData, FileTree.ReadFile, Inv,
      Reachable, NeededFor, FindsKept, Gained, FileHolds, WrittenAs, BlocksFor, NewFile, PlainRecord, OffsetOf,
      Inode.Size;
    PlainWritten(w.inodes[t], |data|, BlocksFor(|data|, bs), bs);
    GainedName(u.blocks, u.inodes[p], w.blocks, w.inodes[p], SplitPath(path).value.1, t,
               Reachable(u.blocks, u.inodes[p], NeededFor(SplitPath(path).value.1)));
    ReadThrough(g, u, cu, own, w, path, p, t, bs);
  }

  lemma NotCreated(g: Geometry, u: View, cu: Counts, own: Owners, w: View, after: Owners, path: seq<byte>, p: nat,
                   t: nat, bl: seq<nat>, data: seq<byte>, bs: nat, freeInodes: nat, free: nat, left: nat,
                   made: Result<nat>)
    requires Inv(g, u, cu, own) && FindsKept(u, own, w) && OthersKept(u, own, w, after, {p}) && SplitPath(path).Ok?
      && bs > 0
    requires FileTree.LookupPath(u, SplitPath(path).value.0).Ok?
      && FileTree.LookupPath(u, SplitPath(path).value.0).value.0 == p
    requires p in own && p in u.inodes && u.inodes[p].IsDir()
      && FindIno(u.blocks, u.inodes[p], SplitPath(path).value.1) == Ok(None)
    requires made.Err? && NameDone(u, w, p, SplitPath(path).value.1, freeInodes, free, left, made)
    ensures CreateDone(u, own, w, after, path, p, t, bl, data, bs, freeInodes, free, left, Err(made.error))
  {
    hide OthersKept, SplitPath, OtherNamesKept, Gained, Reachable, NeededFor, EntryOutcome, EntryTaken, FileMade,
      BlocksFor, Inode.IsDir, FileHolds, FindIno, FileTree.LookupPath, FileTree.LookupInDir, Inv;
    assert DirKept(u, w, p);
    PathBelow(g, u, cu, own, w, path, p);
    LookupIsFind(w, w.inodes[p], SplitPath(path).value.1);
  }

  lemma GainedName(a: Blocks, n: Inode, b: Blocks, m: Inode, name: seq<byte>, ino: nat, reachable: bool)
    requires Gained(a, n, b, m, name, ino, reachable)
    ensures FindIno(b, m, name) == if reachable then Ok(Some(ino)) else FindIno(a, n, name)
  {
    hide FindIno;
  }

  lemma KeptNames(g: Geometry, v: View, c: Counts, own: Owners, w: View, after: Owners, p: nat, t: nat)
    requires Inv(g, v, c, own) && OthersKept(v, own, w, after, {t}) && p in own && p != t
    ensures p in v.inodes && p in w.inodes && w.inodes[p] == v.inodes[p]
    ensures SameDir(v.blocks, v.inodes[p], w.blocks, w.inodes[p])
    ensures RecordsKept(v.blocks, v.inodes[p], w.blocks, w.inodes[p])
  {
    hide CountsOk, FreeIsUnused, Geometry.Ok, ViewOk, OwnersOk, Footprint, RootFits, DirOk, FindIno, SameDir,
      RecordsKept;
    assert InodeOk(v, own, p);
    NamesFrame(v.blocks, w.blocks, v.inodes[p]);
  }

  // --- Writing a file ---

  /** The inode owns exactly `bl`, maps logical blocks 0, 1, ... to it in order, and it holds that much of the data. */
  ghost predicate FileHolds(w: View, own: Owners, ino: nat, bl: seq<nat>, data: seq<byte>, bs: nat) {
    && ino in own && ino in w.inodes && own[ino] == SetOf(bl) && LeafRoot(w.inodes[ino])
    && MapsInOrder(Leaves(w.inodes[ino].iBlock), bl) && Stores(w.blocks, bl, data, bs)
  }

  /** These blocks are marked allocated and belong to no inode. */
  ghost predicate Leaked(g: Geometry, w: View, own: Owners, s: set<nat>) {
    forall b :: b in s ==> Unowned(own, b) && NotFree(g, w.blocks, b)
  }

  ghost predicate WereFree(g: Geometry, blocks: Blocks, bl: seq<nat>) {
    forall b :: b in bl ==> !NotFree(g, blocks, b)
  }

  lemma NoneWereFree(g: Geometry, blocks: Blocks)
    ensures WereFree(g, blocks, [])
  {
  }

  /** What a failure of round `i` comes to. */
  lemma StopsHere(need: nat, free: nat, i: nat, r: Result<()>)
    requires i < need && i <= 4 && i <= free
    requires r == if free == i then Err(NoFreeBlocks) else if i >= 4 then Err(UnsupportedFeature) else Ok(())
    requires r.Err?
    ensures r == ContentsOutcome(need, free) && i == BlocksTaken(need, free)
    ensures ContentsTaken(need, free) == if r == Err(NoFreeBlocks) then i else i + 1
  {
  }

  lemma MoreWereFree(g: Geometry, a: Blocks, b: Blocks, bl: seq<nat>, next: seq<nat>)
    requires WereFree(g, a, bl) && Allocates(g, a, b) && |next| == |bl| + 1 && next[..|bl|] == bl
      && !NotFree(g, b, next[|bl|])
    ensures WereFree(g, a, next)
  {
    hide FreeBlockBit, FreeInodeBit, BlockAt;
    forall x | x in next
      ensures !NotFree(g, a, x)
    {
      if x !in bl {
        assert next == next[..|bl|] + [next[|bl|]];
      }
    }
  }

  /** The blocks that an inode owned before its tree was rebuilt from fresh blocks. */
  lemma OldBlocksLeak(g: Geometry, u: View, cu: Counts, before: Owners, w: View, cw: Counts, after: Owners, ino: nat,
                      bl: seq<nat>)
    requires Inv(g, u, cu, before) && Inv(g, w, cw, after) && OthersKept(u, before, w, after, {ino})
      && after.Keys == before.Keys
    requires ino in before && after[ino] == SetOf(bl) && WereFree(g, u.blocks, bl)
      && Allocates(g, u.blocks, w.blocks)
    ensures Leaked(g, w, after, before[ino])
  {
    hide CountsOk, InodeOk, Geometry.Ok, ViewOk, FreeBlockBit, FreeInodeBit, BlockAt, InodeAt, Geometry.Usable,
      SameOn, Geometry.InodeCount;
    forall b | b in before[ino]
      ensures Unowned(after, b) && NotFree(g, w.blocks, b)
    {
      assert NotFree(g, u.blocks, b);
      forall j | j in after
        ensures b !in after[j]
      {
        if j != ino { assert after[j] == before[j]; }
      }
    }
  }

  lemma HoldsAndLeaks(g: Geometry, u: View, cu: Counts, before: Owners, w: View, cw: Counts, after: Owners, ino: nat,
                      n: Inode, bl: seq<nat>, data: seq<byte>, bs: nat)
    requires Inv(g, u, cu, before) && Inv(g, w, cw, after) && OthersKept(u, before, w, after, {ino})
      && after.Keys == before.Keys
    requires ino in before && after[ino] == SetOf(bl) && WereFree(g, u.blocks, bl)
      && Allocates(g, u.blocks, w.blocks)
    requires FileSoFar(n, bl) && ino in w.inodes && w.inodes[ino] == Stored(n, g.inodeSize)
      && Stores(w.blocks, bl, data, bs)
    ensures FileHolds(w, after, ino, bl, data, bs) && Leaked(g, w, after, before[ino])
    ensures w.inodes[ino].mode == n.mode && w.inodes[ino].Size() == n.Size()
  {
    hide Inv, OthersKept, Allocates, WereFree, Stores, Leaked, SetOf, MapsInOrder, Leaves, LeafRoot, RootFits,
      RootBlocks, Inode.IsDir, Inode.Header;
    OldBlocksLeak(g, u, cu, before, w, cw, after, ino, bl);
    StoredTree(n, g.inodeSize);
    SameTreeFacts(w.blocks, n, w.inodes[ino]);
  }

  /** After the final record is stored. */
  lemma ContentsWritten(g: Geometry, u: View, cu: Counts, before: Owners, v: View, w: View, cw: Counts, after: Owners,
                        ino: nat, inode: Inode, n: Inode, bl: seq<nat>, data: seq<byte>, bs: nat, free: nat, left: nat)
    requires Inv(g, u, cu, before) && Inv(g, w, cw, after) && OthersKept(u, before, w, after, {ino})
      && after.Keys == before.Keys
    requires ino in before && after[ino] == SetOf(bl) && WereFree(g, u.blocks, bl)
      && Allocates(g, u.blocks, w.blocks)
    requires 0 < bs < TWO16 && |data| + bs - 1 < TWO64 && |bl| == BlocksFor(|data|, bs) <= 4 && left == free - |bl|
    requires FileSoFar(n, bl) && Stores(w.blocks, bl, data, bs) && Retreed(inode, n)
    requires RecordWritten(g, v, w, ino, Stored(Finished(n, |data|, |bl|, bs), g.inodeSize))
    ensures ContentsDone(g, u, before, w, after, ino, inode, data, bs, free, left, Ok(()), bl)
  {
    hide Inv, OthersKept, Allocates, WereFree, Stores, Leaked, SetOf, FileHolds, FileSoFar, Inode.Size, ReadData,
      WrittenAs, BlocksFor, Stored, Finished, Inode.IsDir;
    var k := Finished(n, |data|, |bl|, bs);
    FinishedIs(n, |data|, |bl|, bs);
    StillFile(n, k, bl);
    RecordIsDir(g, v, w, ino, k);
    SameTreeFields(k, w.inodes[ino]);
    HoldsAndLeaks(g, u, cu, before, w, cw, after, ino, k, bl, data, bs);
    WrittenRecord(inode, n, |data|, |bl|, bs, g.inodeSize);
    FinishedReadsBack(w, n, bl, data, bs, w.inodes[ino]);
  }

  lemma FinishedIs(n: Inode, len: u64, need: nat, bs: nat)
    ensures var k := Finished(n, len, need, bs);
      k.iBlock == n.iBlock && k.flags == n.flags && k.mode == n.mode && k.linksCount == n.linksCount && k.Size() == len
  {
  }

  /** When the loop stops early: nothing happened to the inode yet, or it holds the prefix written so far. */
  lemma Stopped(g: Geometry, u: View, cu: Counts, before: Owners, w: View, cw: Counts, after: Owners, ino: nat,
                inode: Inode, n: Inode, bl: seq<nat>, data: seq<byte>, bs: nat, free: nat, left: nat, r: Result<()>)
    requires Inv(g, u, cu, before) && Inv(g, w, cw, after) && OthersKept(u, before, w, after, {ino})
      && after.Keys == before.Keys
    requires ino in before && ino in w.inodes && WereFree(g, u.blocks, bl) && Allocates(g, u.blocks, w.blocks)
    requires FileSoFar(n, bl) && Stores(w.blocks, bl, data, bs) && bs > 0 && Retreed(inode, n)
    requires |bl| > 0 ==> after[ino] == SetOf(bl) && w.inodes[ino] == Stored(n, g.inodeSize)
    requires |bl| == 0 ==> after == before && w == u
    requires r.Err? && r == ContentsOutcome(BlocksFor(|data|, bs), free)
    requires |bl| == BlocksTaken(BlocksFor(|data|, bs), free)
      && left == free - ContentsTaken(BlocksFor(|data|, bs), free)
    ensures ContentsDone(g, u, before, w, after, ino, inode, data, bs, free, left, r, bl)
  {
    hide Inv, OthersKept, Allocates, WereFree, Stores, Leaked, SetOf, FileHolds, FileSoFar, Inode.Size, BlocksFor,
      WrittenAs, ReadData;
    if |bl| > 0 {
      HoldsAndLeaks(g, u, cu, before, w, cw, after, ino, n, bl, data, bs);
    }
  }

  /** The record of a file after its contents are replaced: another tree, the new size, and the sectors counted. */
  predicate WrittenAs(n: Inode, m: Inode, len: nat, blocksNeeded: nat, bs: nat) {
    && m.Size() == len && m.blocksLo == OffsetOf(blocksNeeded, bs / 512)
    && Retreed(n, m.(sizeLo := n.sizeLo, sizeHi := n.sizeHi, blocksLo := n.blocksLo))
  }

  lemma WrittenRecord(n: Inode, m: Inode, len: u64, blocksNeeded: nat, bs: nat, inodeSize: nat)
    requires Retreed(n, m) && blocksNeeded <= 4 && bs < TWO16
    ensures WrittenAs(n, Stored(Finished(m, len, blocksNeeded, bs), inodeSize), len, blocksNeeded, bs)
  {
    var s := bs / 512;
    assert blocksNeeded * s <= 4 * s by { OffsetsOrdered(blocksNeeded, 4, s); }
    assert blocksNeeded % TWO32 == blocksNeeded && bs % TWO32 == bs;
    SmallMod(blocksNeeded * s, TWO32);
  }

  lemma StillRetreed(base: Inode, n: Inode, m: Inode)
    requires Retreed(base, n) && m == n.(iBlock := m.iBlock)
    ensures Retreed(base, m)
  {
  }

  lemma RetreedMode(n: Inode, m: Inode)
    requires Retreed(n, m)
    ensures m.mode == n.mode && m.Size() == n.Size()
  {
  }

  lemma SpotMeansFound(blocks: Blocks, dir: Inode, needed: u16)
    ensures SpotFor(blocks, dir, needed).Ok? ==> ExtentTree.ResolveExtents(blocks, dir).Ok?
  {
    hide ExtentTree.ResolveExtents, DirSlot, DataBlocks;
  }

  lemma WasFree(g: Geometry, v: View, c: Counts, w: View, d: Counts, preferred: nat, b: nat)
    requires TookFirstBlock(g, v, c, w, d, preferred, b)
    ensures !NotFree(g, v.blocks, b)
  {
    hide FreeBlockBit, BlockAt, Probe, BlockGroupFull, BlockTaken;
  }

  lemma SameOrder(n: Inode, m: Inode, k: Inode, phys: nat)
    requires OrderGrows(n, m, phys) && k.iBlock == m.iBlock
    ensures OrderGrows(n, k, phys)
  {
  }

  lemma SameSize(n: Inode, m: Inode)
    requires m == n.(iBlock := m.iBlock)
    ensures m.Size() == n.Size()
  {
  }

  lemma NothingStored(blocks: Blocks, data: seq<byte>, bs: nat)
    ensures Stores(blocks, [], data, bs) && SetOf([]) == {}
  {
  }

  lemma FileFacts(n: Inode, bl: seq<nat>)
    requires FileSoFar(n, bl)
    ensures LeafRoot(n) && RootFits(n) && !n.IsDir() && RootBlocks(n) == bl
  {
  }

  /** The next block is allocated and written; the extent for it comes next. */
  lemma OneMoreChunk(g: Geometry, v: View, own: Owners, w: View, c: Counts, ino: nat, bl: seq<nat>, data: seq<byte>,
                     bs: nat, n: Inode, phys: nat)
    requires Inv(g, w, c, own) && Loose(g, w, own, phys) && phys in w.blocks && OthersKept(v, own, w, own, {})
    requires FileSoFar(n, bl) && Stores(v.blocks, bl, data, bs) && ino in own && (|bl| > 0 ==> own[ino] == SetOf(bl))
    requires OffsetOf(|bl|, bs) <= |data| && w.blocks[phys] == Chunk(data, bs, |bl|)
    ensures Stores(w.blocks, bl, data, bs) && Stores(w.blocks, bl + [phys], data, bs) && SetOf(bl) <= own[ino]
    ensures |bl| >= 4 ==> AppendTo(n, phys) == Err(UnsupportedFeature)
    ensures |bl| < 4 ==> AppendTo(n, phys).Ok? && FileSoFar(AppendTo(n, phys).value, bl + [phys])
  {
    hide Inv, Loose, OthersKept, FileSoFar, Stores, AppendTo, Chunk, OffsetOf;
    LooseIsSmall(g, w, c, own, phys);
    if |bl| > 0 {
      OwnedKept(v, own, w, ino, bl);
    }
    StoresKept(v.blocks, w.blocks, bl, data, bs);
    StoresMore(w.blocks, bl, phys, data, bs);
    FileGrows(n, bl, phys);
  }

  /** And past the extent. */
  lemma StepTwo(g: Geometry, u: View, a: Owners, v: View, b: Owners, w: View, c: Owners, ino: nat)
    requires Allocates(g, u.blocks, v.blocks) && Allocates(g, v.blocks, w.blocks)
    requires OthersKept(u, a, v, b, {ino}) && OthersKept(v, b, w, c, {ino})
    ensures Allocates(g, u.blocks, w.blocks) && OthersKept(u, a, w, c, {ino})
  {
    hide Allocates, OthersKept;
    AllocatesTrans(g, u.blocks, v.blocks, w.blocks);
    OthersKeptTrans(u, a, v, b, w, c, {ino}, {ino}, {ino});
  }

  // --- Growing a directory ---

  /** The record of a directory, in memory and on the device, after a block was added at its end. */
  ghost predicate DirResized(dir: Inode, dir': Inode, stored: Inode, bs: nat) {
    && Regrown(dir, dir', dir.linksCount) && Regrown(dir, stored, dir.linksCount) && SameTree(dir', stored)
    && dir'.Size() == (dir.Size() + bs) % TWO64
  }

  /** Directory `p` has one block more, the next one in the log, taken from its own group if that has a free one. */
  ghost predicate DirGrew(g: Geometry, u: View, w: View, p: nat, dir: Inode, dir': Inode, before: seq<nat>,
                          after: seq<nat>)
  {
    && 1 <= p && g.inodesPerGroup > 0 && p in w.inodes && DirResized(dir, dir', w.inodes[p], g.blockSize)
    && |after| == |before| + 1 && OrderGrows(dir, dir', after[|before|])
    && NextFree(g, u.blocks, g.GroupOf(p), [], after[|before|])
  }

  lemma ResizedIs(dir: Inode, m: Inode, bs: nat, inodeSize: nat)
    requires m == dir.(iBlock := m.iBlock)
    ensures var k := m.SetSize((m.Size() + bs) % TWO64); DirResized(dir, k, Stored(k, inodeSize), bs)
  {
  }

  lemma ResizedTree(dir: Inode, dir': Inode, stored: Inode, bs: nat)
    requires DirResized(dir, dir', stored, bs)
    ensures dir'.mode == dir.mode && dir'.flags == dir.flags && SameTree(dir', stored)
    ensures stored.iBlock == dir'.iBlock && stored.flags == dir'.flags && stored.mode == dir'.mode
  {
  }

  lemma GrewFacts(g: Geometry, u: View, w: View, p: nat, dir: Inode, dir': Inode, before: seq<nat>, after: seq<nat>)
    requires DirGrew(g, u, w, p, dir, dir', before, after)
    ensures p in w.inodes && SameTree(dir', w.inodes[p]) && Regrown(dir, dir', dir.linksCount)
      && Regrown(dir, w.inodes[p], dir.linksCount)
  {
    hide OrderGrows, NextFree;
  }

  lemma GrewIs(g: Geometry, u: View, w: View, p: nat, dir: Inode, dir': Inode, log: seq<nat>, b: nat)
    requires 1 <= p && g.inodesPerGroup > 0 && p in w.inodes && DirResized(dir, dir', w.inodes[p], g.blockSize)
    requires OrderGrows(dir, dir', b) && NextFree(g, u.blocks, g.GroupOf(p), [], b)
    ensures DirGrew(g, u, w, p, dir, dir', log, log + [b])
  {
    hide DirResized, OrderGrows, NextFree;
  }

  lemma RecordFillsBlock(entry: DirEntry, bs: nat)
    requires 1024 <= bs < TWO16 && entry.nameLen == |entry.name|
    ensures bs % TWO16 == bs
    ensures var e := entry.(recLen := bs % TWO16); Encodable(e) && e.recLen >= e.ActualSize() && e.recLen as int == bs
  {
  }

  // --- Facts of the invariant ---

  lemma InvIsOk(g: Geometry, w: View, c: Counts, own: Owners)
    requires Inv(g, w, c, own)
    ensures g.Ok() && ViewOk(g, w) && g.blockSize > 0 && g.inodesPerGroup > 0 && 1024 <= g.blockSize < TWO16
    ensures ROOT_INODE in own
  {
    hide CountsOk, FreeIsUnused, InodeOk, ViewOk;
  }

  lemma LiveOrLoose(g: Geometry, w: View, c: Counts, own: Owners, ino: nat)
    requires Inv(g, w, c, own) && (ino in own || LooseInode(g, w, own, ino))
    ensures 1 <= ino <= g.InodeCount()
  {
    hide CountsOk, FreeIsUnused, InodeOk, ViewOk, Geometry.Ok, Geometry.InodeCount, FreeInodeBit;
  }

  lemma LooseIsSmall(g: Geometry, w: View, c: Counts, own: Owners, b: nat)
    requires Inv(g, w, c, own) && Loose(g, w, own, b)
    ensures b < 0x1_0000_0000_0000 && b in w.blocks && g.Usable(b)
  {
    hide CountsOk, FreeIsUnused, InodeOk, Geometry.IsMeta;
  }

  lemma OthersKeptSelf(g: Geometry, w: View, c: Counts, own: Owners, except: set<nat>)
    requires Inv(g, w, c, own)
    ensures OthersKept(w, own, w, own, except)
  {
    hide CountsOk, FreeIsUnused, Geometry.Ok, ViewOk, OwnersOk, Footprint, RootFits, DirOk;
    assert forall ino :: ino in own ==> InodeOk(w, own, ino);
  }

  lemma RootFitsIs(n: Inode)
    requires RootFits(n) && n.Header().Some? && n.Header().value.IsLeaf()
    ensures n.Header().value.max <= ROOT_MAX_ENTRIES
  {
  }

  // --- Counters ---

  /** Free inodes and used directories are counted as before. */
  predicate SameInodeCounts(a: Counts, b: Counts) {
    a.usedDirs == b.usedDirs && a.inodeFree == b.inodeFree && a.sbInodes == b.sbInodes
  }

  ghost predicate BlockGroupFull(g: Geometry, blocks: Blocks, k: nat) {
    k < |g.loc| && g.loc[k].blockBitmap in blocks
      && forall i :: 0 <= i < g.blocksPerGroup ==> IsSet(blocks[g.loc[k].blockBitmap], i)
  }

  ghost predicate InodeGroupFull(g: Geometry, blocks: Blocks, k: nat) {
    k < |g.loc| && g.loc[k].inodeBitmap in blocks
      && forall i :: 0 <= i < g.inodesPerGroup ==> IsSet(blocks[g.loc[k].inodeBitmap], i)
  }

  /** Bit `i` of group `k` was clear and is set now, the two counters of it are down by one, and that is all. */
  ghost predicate TookBlock(g: Geometry, v: View, c: Counts, w: View, d: Counts, k: nat, i: nat) {
    && FreeBlockBit(g, v.blocks, k, i) && k < |c.blockFree| && c.blockFree[k] > 0 && c.sbBlocks > 0
    && w == BlockTaken(g, v, k, i) && d == CountBlock(c, k)
  }

  ghost predicate TookInode(g: Geometry, v: View, c: Counts, w: View, d: Counts, k: nat, i: nat) {
    && FreeInodeBit(g, v.blocks, k, i) && k < |c.inodeFree| && c.inodeFree[k] > 0 && c.sbInodes > 0
    && w == InodeTaken(g, v, k, i) && d == CountInode(c, k)
  }

  /** Bit `i` is the first clear one in the first group, probing from `preferred`, that has one. */
  ghost predicate FirstBlockAt(g: Geometry, blocks: Blocks, preferred: nat, offset: nat, i: nat) {
    && offset < |g.loc| && FreeBlockBit(g, blocks, Probe(preferred, offset, |g.loc|), i)
    && (forall j: nat :: j < i ==> !FreeBlockBit(g, blocks, Probe(preferred, offset, |g.loc|), j))
    && (forall o: nat :: o < offset ==> BlockGroupFull(g, blocks, Probe(preferred, o, |g.loc|)))
  }

  ghost predicate FirstInodeAt(g: Geometry, blocks: Blocks, preferred: nat, offset: nat, i: nat) {
    && offset < |g.loc| && FreeInodeBit(g, blocks, Probe(preferred, offset, |g.loc|), i)
    && (forall j: nat :: j < i ==> !FreeInodeBit(g, blocks, Probe(preferred, offset, |g.loc|), j))
    && (forall o: nat :: o < offset ==> InodeGroupFull(g, blocks, Probe(preferred, o, |g.loc|)))
  }

  /**
   What `allocate_block` does when it returns `b`: it takes the first clear bit, and `b` is what that bit stands for.
   */
  ghost predicate TookFirstBlock(g: Geometry, v: View, c: Counts, w: View, d: Counts, preferred: nat, b: nat) {
    exists offset: nat, i: nat ::
      && FirstBlockAt(g, v.blocks, preferred, offset, i) && b == BlockAt(g, Probe(preferred, offset, |g.loc|), i)
      && TookBlock(g, v, c, w, d, Probe(preferred, offset, |g.loc|), i)
  }

  /** The same for `allocate_inode`. */
  ghost predicate TookFirstInode(g: Geometry, v: View, c: Counts, w: View, d: Counts, preferred: nat, ino: nat) {
    exists offset: nat, i: nat ::
      && FirstInodeAt(g, v.blocks, preferred, offset, i) && ino == InodeAt(g, Probe(preferred, offset, |g.loc|), i)
      && TookInode(g, v, c, w, d, Probe(preferred, offset, |g.loc|), i)
  }

  /** A bit below the one taken, in the order of the probe: set, or taken before. */
  ghost predicate Passed(g: Geometry, blocks: Blocks, k: nat, j: nat, taken: seq<nat>) {
    FreeBlockBit(g, blocks, k, j) ==> BlockAt(g, k, j) in taken
  }

  /** `b` is the first block, probing from `preferred`, that is free in these bitmaps and not among `taken`. */
  ghost predicate NextFree(g: Geometry, blocks: Blocks, preferred: nat, taken: seq<nat>, b: nat) {
    exists offset: nat, i: nat {:trigger FreeBlockBit(g, blocks, Probe(preferred, offset, |g.loc|), i)} ::
      && offset < |g.loc| && FreeBlockBit(g, blocks, Probe(preferred, offset, |g.loc|), i)
      && b == BlockAt(g, Probe(preferred, offset, |g.loc|), i) && b !in taken
      && forall o: nat, j: nat {:trigger Passed(g, blocks, Probe(preferred, o, |g.loc|), j, taken)} ::
        o < offset || (o == offset && j < i) ==> Passed(g, blocks, Probe(preferred, o, |g.loc|), j, taken)
  }

  /** These blocks are the first free ones, in the order of the probe. */
  ghost predicate InProbeOrder(g: Geometry, blocks: Blocks, preferred: nat, bl: seq<nat>) {
    forall i :: 0 <= i < |bl| ==> NextFree(g, blocks, preferred, bl[..i], bl[i])
  }

  /** The number of the first clear inode bit, probing from `preferred`. */
  ghost predicate FirstInode(g: Geometry, blocks: Blocks, preferred: nat, ino: nat) {
    exists offset: nat, i: nat ::
      FirstInodeAt(g, blocks, preferred, offset, i) && ino == InodeAt(g, Probe(preferred, offset, |g.loc|), i)
  }

  lemma TookNext(g: Geometry, v: View, c: Counts, w: View, d: Counts, preferred: nat, b: nat)
    requires TookFirstBlock(g, v, c, w, d, preferred, b)
    ensures NextFree(g, v.blocks, preferred, [], b)
  {
    hide BlockAt, Probe, BlockTaken, IsSet;
    var offset: nat, i: nat :|
      FirstBlockAt(g, v.blocks, preferred, offset, i) && b == BlockAt(g, Probe(preferred, offset, |g.loc|), i);
    assert FreeBlockBit(g, v.blocks, Probe(preferred, offset, |g.loc|), i);
  }

  lemma TookFirst(g: Geometry, v: View, c: Counts, w: View, d: Counts, preferred: nat, ino: nat)
    requires TookFirstInode(g, v, c, w, d, preferred, ino)
    ensures FirstInode(g, v.blocks, preferred, ino)
  {
    hide FirstInodeAt, InodeAt, Probe, TookInode;
  }

  lemma SameBitsSameNext(g: Geometry, a: Blocks, b: Blocks, preferred: nat, x: nat)
    requires NextFree(g, b, preferred, [], x)
    requires forall k: nat, i: nat :: FreeBlockBit(g, b, k, i) <==> FreeBlockBit(g, a, k, i)
    ensures NextFree(g, a, preferred, [], x)
  {
    hide FreeBlockBit, BlockAt, Probe;
    var offset: nat, i: nat :|
      && offset < |g.loc| && FreeBlockBit(g, b, Probe(preferred, offset, |g.loc|), i)
      && x == BlockAt(g, Probe(preferred, offset, |g.loc|), i)
      && forall o: nat, j: nat {:trigger Passed(g, b, Probe(preferred, o, |g.loc|), j, [])} ::
        o < offset || (o == offset && j < i) ==> Passed(g, b, Probe(preferred, o, |g.loc|), j, []);
    assert FreeBlockBit(g, a, Probe(preferred, offset, |g.loc|), i);
    forall o: nat, j: nat | o < offset || (o == offset && j < i)
      ensures Passed(g, a, Probe(preferred, o, |g.loc|), j, [])
    {
      assert Passed(g, b, Probe(preferred, o, |g.loc|), j, []);
    }
  }

  /** Taking an inode leaves the block bitmaps alone. */
  lemma InodeTakenKeepsNext(g: Geometry, v: View, c: Counts, own: Owners, w: View, d: Counts, preferred: nat, ino: nat,
                            b: nat)
    requires Inv(g, v, c, own) && TookFirstInode(g, v, c, w, d, preferred, ino)
    requires NextFree(g, w.blocks, preferred, [], b)
    ensures NextFree(g, v.blocks, preferred, [], b)
  {
    hide Inv, BlockAt, InodeAt, Probe, NextFree, TookInode, FreeBlockBit, FirstInodeAt;
    var o: nat, i: nat :|
      FirstInodeAt(g, v.blocks, preferred, o, i) && TookInode(g, v, c, w, d, Probe(preferred, o, |g.loc|), i);
    TookOneInode(g, v, c, own, w, d, Probe(preferred, o, |g.loc|), i);
    SameBitsSameNext(g, v.blocks, w.blocks, preferred, b);
  }

  lemma TookOneInode(g: Geometry, v: View, c: Counts, own: Owners, w: View, d: Counts, k: nat, i: nat)
    requires Inv(g, v, c, own) && TookInode(g, v, c, w, d, k, i)
    ensures forall j: nat, a: nat :: FreeBlockBit(g, w.blocks, j, a) <==> FreeBlockBit(g, v.blocks, j, a)
  {
    hide Inv, ViewOk, Geometry.Ok, FreeBlockBit, FreeInodeBit;
    InvIsOk(g, v, c, own);
    FreeBitsAfterInode(g, v, k, i);
  }

  lemma NoneInOrder(g: Geometry, blocks: Blocks, preferred: nat)
    ensures InProbeOrder(g, blocks, preferred, [])
  {
  }

  /** The next block after `bl`, when the bitmaps have lost just `bl` since. */
  lemma NextAfter(g: Geometry, start: Blocks, a: Blocks, b: Blocks, log: seq<nat>, bl: seq<nat>, preferred: nat, x: nat)
    requires BlocksLogged(g, start, a, log) && BlocksLogged(g, start, b, log + bl)
    requires InProbeOrder(g, a, preferred, bl) && NextFree(g, b, preferred, [], x)
    ensures InProbeOrder(g, a, preferred, bl + [x])
  {
    hide FreeBlockBit, BlockAt, Probe, Geometry.Usable, Distinct, NotFree;
    var offset: nat, i: nat :|
      && offset < |g.loc| && FreeBlockBit(g, b, Probe(preferred, offset, |g.loc|), i)
      && x == BlockAt(g, Probe(preferred, offset, |g.loc|), i)
      && forall o: nat, j: nat {:trigger Passed(g, b, Probe(preferred, o, |g.loc|), j, [])} ::
        o < offset || (o == offset && j < i) ==> Passed(g, b, Probe(preferred, o, |g.loc|), j, []);
    assert FreeBlockBit(g, a, Probe(preferred, offset, |g.loc|), i);
    forall o: nat, j: nat | o < offset || (o == offset && j < i)
      ensures Passed(g, a, Probe(preferred, o, |g.loc|), j, bl)
    {
      assert Passed(g, b, Probe(preferred, o, |g.loc|), j, []);
    }
    assert NextFree(g, a, preferred, bl, x);
    assert (bl + [x])[..|bl|] == bl;
    forall k | 0 <= k < |bl|
      ensures NextFree(g, a, preferred, (bl + [x])[..k], (bl + [x])[k])
    {
      assert (bl + [x])[..k] == bl[..k];
    }
  }

  lemma FirstBlockIs(g: Geometry, v: View, c: Counts, w: View, d: Counts, preferred: nat, offset: nat, i: u32,
                     bm: seq<byte>)
    requires offset < |g.loc| && TookBlock(g, v, c, w, d, Probe(preferred, offset, |g.loc|), i)
    requires bm == v.blocks[g.loc[Probe(preferred, offset, |g.loc|)].blockBitmap]
      && FirstFree(bm, 0, g.blocksPerGroup, Some(i))
    requires forall o: nat :: o < offset ==> BlockGroupFull(g, v.blocks, Probe(preferred, o, |g.loc|))
    ensures TookFirstBlock(g, v, c, w, d, preferred, BlockAt(g, Probe(preferred, offset, |g.loc|), i))
  {
    hide Probe, IsSet, BlockTaken, CountBlock;
    assert FirstBlockAt(g, v.blocks, preferred, offset, i);
  }

  lemma FirstInodeIs(g: Geometry, v: View, c: Counts, w: View, d: Counts, preferred: nat, offset: nat, i: u32,
                     bm: seq<byte>)
    requires offset < |g.loc| && TookInode(g, v, c, w, d, Probe(preferred, offset, |g.loc|), i)
    requires bm == v.blocks[g.loc[Probe(preferred, offset, |g.loc|)].inodeBitmap]
      && FirstFree(bm, 0, g.inodesPerGroup, Some(i))
    requires forall o: nat :: o < offset ==> InodeGroupFull(g, v.blocks, Probe(preferred, o, |g.loc|))
    ensures TookFirstInode(g, v, c, w, d, preferred, InodeAt(g, Probe(preferred, offset, |g.loc|), i))
  {
    hide Probe, IsSet, InodeTaken, CountInode;
    assert FirstInodeAt(g, v.blocks, preferred, offset, i);
  }

  lemma GroupFacts(g: Geometry, w: View, c: Counts, own: Owners, k: nat)
    requires Inv(g, w, c, own) && k < |g.loc|
    ensures g.loc[k].blockBitmap in w.blocks && |w.blocks[g.loc[k].blockBitmap]| == g.blockSize
      && !g.InSomeTable(g.loc[k].blockBitmap)
    ensures g.loc[k].inodeBitmap in w.blocks && |w.blocks[g.loc[k].inodeBitmap]| == g.blockSize
      && !g.InSomeTable(g.loc[k].inodeBitmap)
    ensures |c.blockFree| == |g.loc| && (c.blockFree[k] == 0 <==> BlockGroupFull(g, w.blocks, k))
    ensures |c.inodeFree| == |g.loc| && (c.inodeFree[k] == 0 <==> InodeGroupFull(g, w.blocks, k))
  {
    hide Geometry.InSomeTable, IsSet, InodeOk, FreeIsUnused, OwnersOk;
    BitmapBlocks(g, k);
    InBlocks(g, w, k);
  }

  lemma FreeBitIs(g: Geometry, blocks: Blocks, k: nat, i: nat)
    requires k < |g.loc| && g.loc[k].blockBitmap in blocks && g.loc[k].inodeBitmap in blocks
    ensures FreeBlockBit(g, blocks, k, i) <==> i < g.blocksPerGroup && !IsSet(blocks[g.loc[k].blockBitmap], i)
    ensures FreeInodeBit(g, blocks, k, i) <==> i < g.inodesPerGroup && !IsSet(blocks[g.loc[k].inodeBitmap], i)
  {
  }

  lemma {:induction false} SumZero(s: seq<nat>)
    requires forall k :: 0 <= k < |s| ==> s[k] == 0
    ensures Sum(s) == 0
  {
    if s != [] {
      SumZero(s[..|s| - 1]);
    }
  }

  lemma NoBlockFree(g: Geometry, w: View, c: Counts, own: Owners)
    requires Inv(g, w, c, own) && forall k: nat :: k < |g.loc| ==> BlockGroupFull(g, w.blocks, k)
    ensures c.sbBlocks == 0 && forall k: nat, i: nat :: !FreeBlockBit(g, w.blocks, k, i)
  {
    hide IsSet, InodeOk, FreeIsUnused, OwnersOk, Geometry.Ok, CountClear;
    forall k | 0 <= k < |g.loc| ensures c.blockFree[k] == 0 { GroupFacts(g, w, c, own, k); }
    SumZero(c.blockFree);
  }

  lemma NoInodeFree(g: Geometry, w: View, c: Counts, own: Owners)
    requires Inv(g, w, c, own) && forall k: nat :: k < |g.loc| ==> InodeGroupFull(g, w.blocks, k)
    ensures c.sbInodes == 0 && forall k: nat, i: nat :: !FreeInodeBit(g, w.blocks, k, i)
  {
    hide IsSet, InodeOk, FreeIsUnused, OwnersOk, Geometry.Ok, CountClear;
    forall k | 0 <= k < |g.loc| ensures c.inodeFree[k] == 0 { GroupFacts(g, w, c, own, k); }
    SumZero(c.inodeFree);
  }

  lemma LogTakenBlock(g: Geometry, w: View, c: Counts, own: Owners, k: nat, i: nat, start: Blocks, blockLog: seq<nat>,
                      inodeLog: seq<nat>)
    requires Inv(g, w, c, own) && FreeBlockBit(g, w.blocks, k, i) && LogsOk(g, start, w.blocks, blockLog, inodeLog)
    requires Loose(g, BlockTaken(g, w, k, i), own, BlockAt(g, k, i))
    ensures Allocates(g, w.blocks, BlockTaken(g, w, k, i).blocks) && BlockAt(g, k, i) !in blockLog
    ensures LogsOk(g, start, BlockTaken(g, w, k, i).blocks, blockLog + [BlockAt(g, k, i)], inodeLog)
  {
    hide FreeBlockBit, Geometry.Ok, ViewOk, Geometry.Usable, NotFree, OnlyAllocates, OutsideKept, LogsOk, InodeOk,
      CountsOk, FreeIsUnused, OwnersOk, WithBitSet;
    LogBlock(g, w, k, i, start, blockLog, inodeLog);
    BlockBitInBlocks(g, w, k, i);
    BitmapWriteAllocates(g, w.blocks, k, i);
  }

  lemma LogTakenInode(g: Geometry, w: View, c: Counts, own: Owners, k: nat, i: nat, start: Blocks, blockLog: seq<nat>,
                      inodeLog: seq<nat>)
    requires Inv(g, w, c, own) && FreeInodeBit(g, w.blocks, k, i) && LogsOk(g, start, w.blocks, blockLog, inodeLog)
    requires LooseInode(g, InodeTaken(g, w, k, i), own, InodeAt(g, k, i))
    ensures Allocates(g, w.blocks, InodeTaken(g, w, k, i).blocks) && InodeAt(g, k, i) !in inodeLog
    ensures LogsOk(g, start, InodeTaken(g, w, k, i).blocks, blockLog, inodeLog + [InodeAt(g, k, i)])
  {
    hide FreeInodeBit, Geometry.Ok, ViewOk, OnlyAllocates, OutsideKept, LogsOk, InodeOk, CountsOk, FreeIsUnused,
      OwnersOk, WithBitSet;
    LogInode(g, w, k, i, start, blockLog, inodeLog);
    BlockBitInBlocks(g, w, k, i);
    BitmapWriteAllocates(g, w.blocks, k, i);
  }

  // --- Persistence ---

  lemma LowFits(g: Geometry, w: View, c: Counts, own: Owners, device: seq<byte>)
    requires Inv(g, w, c, own) && Fits(device, g)
    ensures g.blockSize > 0 && OffsetOf(g.gdtEnd, g.blockSize) <= |device|
  {
    hide CountsOk, FreeIsUnused, InodeOk, ViewOk, Geometry.InodeCount, Geometry.TableLen, OffsetOf;
    TableBounds(g, 0);
    OffsetsOrdered(g.gdtEnd, g.totalBlocks, g.blockSize);
  }

  /** A change below the end of the descriptor table keeps the invariant. */
  lemma LowWriteKeepsInv(g: Geometry, v: View, c: Counts, own: Owners, w: View)
    requires Inv(g, v, c, own) && w.inodes == v.inodes && w.blocks.Keys == v.blocks.Keys
      && BlocksOfSize(w.blocks, g.blockSize)
    requires forall b: nat :: b in v.blocks && g.gdtEnd <= b ==> w.blocks[b] == v.blocks[b]
    ensures Inv(g, w, c, own) && UsableKept(g, v, w) && SameBitmaps(g, v.blocks, w.blocks)
  {
    hide CountsOk, FreeIsUnused, InodeOk, Geometry.InodeCount, Geometry.TableLen, OwnersOk, FreeStaysUnused;
    assert UsableKept(g, v, w) by { hide Geometry.Ok, Geometry.InSomeTable; InvIsOk(g, v, c, own); }
    UsableKeptMeansKept(g, v, w, own);
    LooseFacts(g, v, own);
    forall k | 0 <= k < |g.loc|
      ensures g.loc[k].blockBitmap in v.blocks && g.loc[k].inodeBitmap in v.blocks
    {
      InBlocks(g, v, k);
    }
    ChangeKeepsInv(g, v, c, own, w, own, {});
  }

  lemma SuperblockIs(device: seq<byte>, sb: Superblock)
    requires Holds(device, SuperblockRecord.SUPERBLOCK_OFFSET, SuperblockRecord.ToBytes(sb))
    ensures SuperblockWritten(device, sb)
  {
  }

  lemma NothingWritten(device: seq<byte>, sb: Superblock, n: nat)
    ensures MetadataOnly(device, device, sb, n)
  {
  }

  lemma NoDescriptors(device: seq<byte>, sb: Superblock, groups: seq<Group>)
    ensures DescriptorsWritten(device, sb, groups, 0)
  {
  }

  lemma SameTwice(g: Geometry, u: View, v: View, w: View)
    requires UsableKept(g, u, v) && UsableKept(g, v, w) && SameBitmaps(g, u.blocks, v.blocks)
      && SameBitmaps(g, v.blocks, w.blocks)
    ensures UsableKept(g, u, w) && SameBitmaps(g, u.blocks, w.blocks)
  {
    hide Geometry.Usable;
  }

  /** The counter updates of `allocate_block` leave the geometry alone and count exactly one block less. */
  lemma CountersAfterBlock(sb: Superblock, groups: seq<Group>, k: nat)
    requires k < |groups| && groups[k].FreeBlocksCount() > 0 && sb.FreeBlocks() > 0
    ensures var sb' := sb.SetFreeBlocks(sb.FreeBlocks() - 1);
      var groups' := groups[k := groups[k].SetFreeBlocksCount(groups[k].FreeBlocksCount() - 1)];
      GeometryOf(sb', groups') == GeometryOf(sb, groups) && FixedOf(sb', groups') == FixedOf(sb, groups)
        && CountsOf(sb', groups') == CountBlock(CountsOf(sb, groups), k)
  {
  }

  lemma CountersAfterInode(sb: Superblock, groups: seq<Group>, k: nat)
    requires k < |groups| && groups[k].FreeInodesCount() > 0 && sb.freeInodesCount > 0
    ensures var sb' := sb.(freeInodesCount := sb.freeInodesCount - 1);
      var groups' := groups[k := groups[k].SetFreeInodesCount(groups[k].FreeInodesCount() - 1)];
      GeometryOf(sb', groups') == GeometryOf(sb, groups) && FixedOf(sb', groups') == FixedOf(sb, groups)
        && CountsOf(sb', groups') == CountInode(CountsOf(sb, groups), k)
  {
  }

  // --- Loops stop at the first error or hit ---

  lemma {:induction false} ReadErrorSticks(blocks: Blocks, leaves: seq<ExtentLeaf>, k: nat, n: nat)
    requires k <= n <= TWO32
    ensures ReadBlocks(blocks, leaves, k).Err? ==> ReadBlocks(blocks, leaves, n) == ReadBlocks(blocks, leaves, k)
    decreases n
  {
    hide MapLogical;
    if k < n {
      ReadErrorSticks(blocks, leaves, k, n - 1);
    }
  }

  lemma MapIs(leaves: seq<ExtentLeaf>, q: u32)
    ensures MapLogical(leaves, q) == match FindLeaf(leaves, q) case Some(leaf) => leaf.MapBlock(q) case None => None
  {
  }

  lemma NothingScanned(blocks: Blocks, name: seq<byte>)
    ensures ScanFor(blocks, [], name) == Ok(None) && DataBlocks([]) == []
  {
  }

  /** One more block of the row: what it decides is what the whole scan decides. */
  lemma ScanNext(blocks: Blocks, row: seq<nat>, done: seq<nat>, next: nat, name: seq<byte>)
    requires done + [next] <= row && ScanFor(blocks, done, name) == Ok(None)
    ensures next !in blocks ==> ScanFor(blocks, row, name) == Err(IoError)
    ensures next in blocks && Lookup(blocks[next], name).Some? ==>
      ScanFor(blocks, row, name) == Ok(Some(Lookup(blocks[next], name).value.1))
    ensures next in blocks && Lookup(blocks[next], name) == None ==> ScanFor(blocks, done + [next], name) == Ok(None)
  {
    hide Lookup;
    assert (done + [next])[..|done|] == done;
    assert row[..|done| + 1] == done + [next];
    if ScanFor(blocks, done + [next], name) != Ok(None) {
      ScanPrefix(blocks, row, |done| + 1, name);
    }
  }

  lemma InBlocksOf(disk: seq<byte>, bs: nat, b: nat)
    requires bs > 0
    ensures b in BlocksOf(disk, bs) <==> OffsetOf(b, bs) + bs <= |disk|
  {
    BlockFits(|disk|, bs, b);
  }

  lemma BlockLengths(disk: seq<byte>, g: Geometry)
    requires Fits(disk, g)
    ensures BlocksOfSize(BlocksOf(disk, g.blockSize), g.blockSize)
  {
    forall b | b in BlocksOf(disk, g.blockSize)
      ensures |BlocksOf(disk, g.blockSize)[b]| == g.blockSize
    {
      BlockFits(|disk|, g.blockSize, b);
    }
  }

  lemma RecordLength(g: Geometry)
    requires g.Ok()
    ensures g.inodeSize >= INODE_BASE_SIZE
  {
  }

  lemma ParsesWhenLong(buf: seq<byte>, inodeSize: nat)
    requires |buf| >= INODE_BASE_SIZE
    ensures FromBytes(buf, inodeSize).Some?
  {
  }
}
