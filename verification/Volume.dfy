/**
 What `mount` (src/readwrite.rs:126-163) makes of a device, in terms of its bytes: when it fails, the geometry it goes
 by, and where the descriptors are.
 */
module Volume {
  import opened Bytes
  import opened Wrappers
  import opened Layout
  import opened SuperblockRecord
  import opened Persist
  import opened OnDisk
  import opened Ext4
  import BlockGroup

  lemma NumberInSlice(s: seq<byte>, lo: nat, hi: nat, at: nat, n: nat)
    requires lo <= hi <= |s| && at + n <= hi - lo
    ensures NumberAt(s[lo..hi], at, n) == NumberAt(s, lo + at, n)
  {
    SliceOfSlice(s, lo, hi, at, n);
  }

  /** The table starts in the block behind the one that holds byte 1024. */
  function TableStart(sb: Superblock): nat {
    if sb.BlockSize() == 0 then 0 else (1024 / sb.BlockSize() + 1) * sb.BlockSize()
  }

  lemma TableStartIs(sb: Superblock)
    ensures sb.GdtOffset() == TableStart(sb)
  {
    hide Superblock.BlockSize;
    if sb.BlockSize() > 0 {
      TableFollows(sb);
    }
  }

  /** The descriptors lie one stride apart, the first one right behind the superblock. */
  ghost predicate TableShown(device: seq<byte>, sb: Superblock, groups: seq<Group>) {
    var first, stride := TableStart(sb), sb.GroupDescSize();
    && first + OffsetOf(|groups|, stride) <= |device|
    && forall i: nat :: i < |groups| ==> GroupShown(device, first + OffsetOf(i, stride), stride, groups[i])
  }

  lemma GroupInSlice(s: seq<byte>, lo: nat, hi: nat, at: nat, size: nat, g: Group)
    requires lo <= hi <= |s| && at + size <= hi - lo && size >= 32 && GroupShown(s[lo..hi], at, size, g)
    ensures GroupShown(s, lo + at, size, g)
  {
    hide NumberAt, Pow2;
    forall p: nat, n: nat {:trigger NumberAt(s[lo..hi], p, n)} | p + n <= hi - lo
      ensures NumberAt(s[lo..hi], p, n) == NumberAt(s, lo + p, n)
    {
      NumberInSlice(s, lo, hi, p, n);
    }
  }

  /**
   A mount fails on a device without a whole superblock, without its magic, or without the whole table; else it has what
   their bytes show, as many descriptors as cover the volume.
   */
  lemma ImageShown(device: seq<byte>)
    requires Mountable(device)
    ensures |device| < 2048 ==> Image(device) == Err(IoError)
    ensures |device| >= 2048 && NumberAt(device, 0x438, 2) != 0xEF53 ==> Image(device) == Err(InvalidSuperblock)
    ensures |device| >= 2048 && NumberAt(device, 0x438, 2) == 0xEF53 ==>
      && SuperblockRecord.FromBytes(device[1024..2048]).Some?
      && var sb := SuperblockRecord.FromBytes(device[1024..2048]).value;
      && SuperblockShown(device[1024..2048], sb) && Countable(sb)
      && var end := TableStart(sb) + OffsetOf(sb.BlockGroupCount(), sb.GroupDescSize());
      && (end > |device| ==> Image(device) == Err(IoError))
      && (end <= |device| ==>
        && Image(device).Ok? && Image(device).value.0 == sb && |Image(device).value.1| == sb.BlockGroupCount()
        && TableShown(device, sb, Image(device).value.1))
  {
    hide NumberAt, SuperblockShown, SuperblockRecord.FromBytes, OffsetOf, Superblock.BlockGroupCount, TableShown,
      Superblock.GdtOffset, Superblock.GroupDescSize, TableStart, TableOf, Superblock.TotalBlocks;
    if |device| >= 2048 {
      NumberInSlice(device, 1024, 2048, 0x38, 2);
      SuperblockFields(device[1024..2048]);
      if SuperblockRecord.FromBytes(device[1024..2048]).Some? {
        var sb := SuperblockRecord.FromBytes(device[1024..2048]).value;
        TableStartIs(sb);
        if DescriptorAt(sb, sb.BlockGroupCount()) <= |device| {
          TableIsShown(device, sb, sb.BlockGroupCount());
        }
      }
    }
  }

  lemma TableIsShown(device: seq<byte>, sb: Superblock, n: nat)
    requires DescriptorAt(sb, n) <= |device|
    ensures TableShown(device, sb, TableOf(device[sb.GdtOffset()..DescriptorAt(sb, n)], n, sb.GroupDescSize()))
  {
    hide OffsetOf, Superblock.GdtOffset, TableStart, GroupShown, BlockGroup.FromBytesAt, Superblock.GroupDescSize;
    TableStartIs(sb);
    var lo, hi, size := sb.GdtOffset(), DescriptorAt(sb, n), sb.GroupDescSize();
    var groups := TableOf(device[lo..hi], n, size);
    forall i: nat | i < n
      ensures GroupShown(device, lo + OffsetOf(i, size), size, groups[i])
    {
      OffsetsOrdered(i, n, size);
      GroupFields(device[lo..hi], OffsetOf(i, size), size);
      GroupInSlice(device, lo, hi, OffsetOf(i, size), size, groups[i]);
    }
  }

  /** The geometry that every operation goes by, in terms of the bytes of superblock and descriptors. */
  lemma GeometryShown(buf: seq<byte>, sb: Superblock, groups: seq<Group>)
    requires SuperblockShown(buf, sb)
    ensures var g := GeometryOf(sb, groups);
      && (NumberAt(buf, 0x18, 4) < 54 ==> g.blockSize == 1024 * Pow2(NumberAt(buf, 0x18, 4)))
      && g.inodeSize == NumberAt(buf, 0x58, 2) && g.firstDataBlock as int == NumberAt(buf, 0x14, 4)
      && g.blocksPerGroup as int == NumberAt(buf, 0x20, 4) && g.inodesPerGroup as int == NumberAt(buf, 0x28, 4)
      && g.totalBlocks == SplitAt(buf, 0x04, 0x150, 4) && |g.loc| == |groups|
      && forall k :: 0 <= k < |groups| ==>
        && g.loc[k].blockBitmap == groups[k].BlockBitmap() && g.loc[k].inodeBitmap == groups[k].InodeBitmap()
        && g.loc[k].inodeTable == groups[k].InodeTable()
  {
    hide NumberAt, Pow2, GdtEnd, Superblock.BlockSize;
    BlockSizeExact(sb);
  }
}
