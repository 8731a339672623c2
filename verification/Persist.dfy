/**
 What `sync_metadata` leaves on the device and what `mount` makes of it (src/readwrite.rs:126-163, 835-856): the
 superblock at byte 1024, and the descriptors one stride apart from the start of the descriptor table.
 */
module Persist {
  import opened Bytes
  import opened Wrappers
  import opened Layout
  import opened SuperblockRecord
  import BlockGroup

  type Group = BlockGroup.BlockGroupDesc

  /** `mount` divides by `blocks_per_group` and subtracts `first_data_block`; it panics when it cannot. */
  predicate Countable(sb: Superblock) { sb.blocksPerGroup > 0 && sb.firstDataBlock <= sb.TotalBlocks() }

  ghost predicate Holds(device: seq<byte>, at: nat, part: seq<byte>) {
    at + |part| <= |device| && device[at..at + |part|] == part
  }

  function DescriptorAt(sb: Superblock, i: nat): nat { sb.GdtOffset() + OffsetOf(i, sb.GroupDescSize()) }

  function DescriptorBytes(sb: Superblock, g: Group): seq<byte> { BlockGroup.ToBytes(g, sb.GroupDescSize()) }

  ghost predicate SuperblockWritten(device: seq<byte>, sb: Superblock) { Holds(device, SUPERBLOCK_OFFSET, ToBytes(sb)) }

  ghost predicate DescriptorsWritten(device: seq<byte>, sb: Superblock, groups: seq<Group>, n: nat)
    requires n <= |groups|
  {
    forall i: nat :: i < n ==> Holds(device, DescriptorAt(sb, i), DescriptorBytes(sb, groups[i]))
  }

  lemma HoldsAfter(device: seq<byte>, at: nat, part: seq<byte>, off: nat, data: seq<byte>)
    requires off + |data| <= |device| && Holds(device, at, part) && (off + |data| <= at || at + |part| <= off)
    ensures Holds(Splice(device, off, data), at, part)
  {
    hide Splice;
    SliceReads();
  }

  lemma HoldsWritten(device: seq<byte>, off: nat, data: seq<byte>)
    requires off + |data| <= |device|
    ensures Holds(Splice(device, off, data), off, data)
  {
    hide Splice;
    SliceReads();
  }

  /** Writing one more descriptor overlaps neither the superblock nor the descriptors before it. */
  lemma OneMoreDescriptor(device: seq<byte>, sb: Superblock, groups: seq<Group>, i: nat)
    requires i < |groups| && sb.BlockSize() > 0 && DescriptorAt(sb, i) + |DescriptorBytes(sb, groups[i])| <= |device|
    requires SuperblockWritten(device, sb) && DescriptorsWritten(device, sb, groups, i)
    ensures var d := Splice(device, DescriptorAt(sb, i), DescriptorBytes(sb, groups[i]));
      SuperblockWritten(d, sb) && DescriptorsWritten(d, sb, groups, i + 1)
  {
    hide Splice, Holds, OffsetOf, ToBytes, BlockGroup.ToBytes, Superblock.BlockSize, Superblock.GdtOffset;
    var off, data := DescriptorAt(sb, i), DescriptorBytes(sb, groups[i]);
    TablePastSuperblock(sb);
    HoldsAfter(device, SUPERBLOCK_OFFSET, ToBytes(sb), off, data);
    HoldsWritten(device, off, data);
    forall j: nat | j < i
      ensures Holds(Splice(device, off, data), DescriptorAt(sb, j), DescriptorBytes(sb, groups[j]))
    {
      OffsetsOrdered(j, i, sb.GroupDescSize());
      HoldsAfter(device, DescriptorAt(sb, j), DescriptorBytes(sb, groups[j]), off, data);
    }
  }

  // --- What operations never change ---

  /** Superblock and descriptors without their counters. */
  datatype Fixed = Fixed(sb: Superblock, groups: seq<Group>)

  function FixedSuperblock(sb: Superblock): Superblock {
    sb.(freeBlocksCountLo := 0, freeInodesCount := 0, rest := sb.rest.(freeBlocksCountHi := 0))
  }

  function FixedGroup(g: Group): Group {
    g.(freeBlocksCountLo := 0, freeInodesCountLo := 0, usedDirsCountLo := 0,
    hi := g.hi.(freeBlocksCount := 0, freeInodesCount := 0, usedDirsCount := 0))
  }

  function FixedOf(sb: Superblock, groups: seq<Group>): Fixed {
    Fixed(FixedSuperblock(sb), seq(|groups|, i requires 0 <= i < |groups| => FixedGroup(groups[i])))
  }

  // --- What mount reads ---

  /** The first `count` descriptors of a table held in `buf`. */
  function TableOf(buf: seq<byte>, count: nat, descSize: nat): (r: seq<Group>)
    requires OffsetOf(count, descSize) <= |buf| && descSize >= BlockGroup.BGD_SIZE_32
    ensures |r| == count
  {
    seq(count, i requires 0 <= i < count =>
      OffsetsOrdered(i, count, descSize); BlockGroup.FromBytesAt(buf, OffsetOf(i, descSize), descSize).value)
  }

  ghost predicate Mountable(device: seq<byte>) {
    |device| >= SUPERBLOCK_OFFSET + SUPERBLOCK_SIZE ==>
      match FromBytes(device[SUPERBLOCK_OFFSET..SUPERBLOCK_OFFSET + SUPERBLOCK_SIZE])
      case Some(sb) => Countable(sb)
      case None => true
  }

  /** What `mount` finds on a device. */
  ghost function Image(device: seq<byte>): Result<(Superblock, seq<Group>)>
    requires Mountable(device)
  {
    if |device| < SUPERBLOCK_OFFSET + SUPERBLOCK_SIZE then Err(IoError)
    else match FromBytes(device[SUPERBLOCK_OFFSET..SUPERBLOCK_OFFSET + SUPERBLOCK_SIZE])
    case None => Err(InvalidSuperblock)
    case Some(sb) =>
      var n, size := sb.BlockGroupCount(), sb.GroupDescSize();
      if DescriptorAt(sb, n) > |device| then Err(IoError)
      else Ok((sb, TableOf(device[sb.GdtOffset()..DescriptorAt(sb, n)], n, size)))
  }

  /** A descriptor as a record of this size keeps it. */
  function Kept(sb: Superblock, g: Group): Group {
    if sb.GroupDescSize() >= BlockGroup.BGD_SIZE_64 then g else g.(hi := BlockGroup.NO_HIGH)
  }

  function KeptAll(sb: Superblock, groups: seq<Group>): seq<Group> {
    seq(|groups|, i requires 0 <= i < |groups| => Kept(sb, groups[i]))
  }

  /** A mount reads as many descriptors as were written. */
  predicate Counted(sb: Superblock, groups: seq<Group>)
    requires Countable(sb)
  {
    sb.magic == EXT4_SUPER_MAGIC && |groups| == sb.BlockGroupCount()
  }

  lemma SliceOfSlice(s: seq<byte>, lo: nat, hi: nat, at: nat, len: nat)
    requires lo <= hi <= |s| && at + len <= hi - lo
    ensures s[lo..hi][at..at + len] == s[lo + at..lo + at + len]
  {
    var x, y := s[lo..hi][at..at + len], s[lo + at..lo + at + len];
    forall i | 0 <= i < len
      ensures x[i] == y[i]
    {
      assert s[lo..hi][at + i] == s[lo + at + i];
    }
    assert x == y;
  }

  lemma DescriptorReadsBack(device: seq<byte>, sb: Superblock, groups: seq<Group>, i: nat)
    requires i < |groups| && DescriptorsWritten(device, sb, groups, |groups|) && DescriptorAt(sb, |groups|) <= |device|
    ensures var buf, size := device[sb.GdtOffset()..DescriptorAt(sb, |groups|)], sb.GroupDescSize();
      BlockGroup.FromBytesAt(buf, OffsetOf(i, size), size) == Some(Kept(sb, groups[i]))
  {
    hide OffsetOf, BlockGroup.ToBytes, BlockGroup.FromBytesAt, Superblock.BlockSize, Superblock.GdtOffset;
    var buf := device[sb.GdtOffset()..DescriptorAt(sb, |groups|)];
    var size, part := sb.GroupDescSize(), DescriptorBytes(sb, groups[i]);
    OffsetsOrdered(i, |groups|, size);
    assert Holds(device, DescriptorAt(sb, i), part);
    SliceOfSlice(device, sb.GdtOffset(), DescriptorAt(sb, |groups|), OffsetOf(i, size), |part|);
    BlockGroup.DescriptorMoves(buf, OffsetOf(i, size), part, size);
    BlockGroup.DescriptorRoundTrip(groups[i], size);
  }

  /**
   Everything is kept by the records on the device: the magic is right, every group has its descriptor, no half is lost.
   */
  predicate Storable(sb: Superblock, groups: seq<Group>)
    requires Countable(sb)
  {
    && Counted(sb, groups)
    && (sb.GroupDescSize() >= BlockGroup.BGD_SIZE_64
      || forall i :: 0 <= i < |groups| ==> groups[i].hi == BlockGroup.NO_HIGH)
  }

  /** Mounting what has been synced recovers the superblock and all groups exactly when they are storable. */
  lemma MountAfterSync(device: seq<byte>, sb: Superblock, groups: seq<Group>)
    requires Countable(sb) && SuperblockWritten(device, sb) && DescriptorsWritten(device, sb, groups, |groups|)
    requires DescriptorAt(sb, |groups|) <= |device|
    ensures Mountable(device)
    ensures Image(device) == Ok((sb, groups)) <==> Storable(sb, groups)
    ensures Counted(sb, groups) ==> Image(device) == Ok((sb, KeptAll(sb, groups)))
  {
    hide OffsetOf, BlockGroup.FromBytesAt, FromBytes, ToBytes, Superblock.BlockSize, Superblock.GdtOffset,
      Superblock.GroupDescSize, Superblock.BlockGroupCount, Superblock.TotalBlocks, DescriptorBytes, Holds;
    SuperblockRoundTrip(sb);
    assert FromBytes(device[SUPERBLOCK_OFFSET..SUPERBLOCK_OFFSET + SUPERBLOCK_SIZE]) == FromBytes(ToBytes(sb)) by {
      HoldsIs(device, SUPERBLOCK_OFFSET, ToBytes(sb));
    }
    var n, size := sb.BlockGroupCount(), sb.GroupDescSize();
    if sb.magic == EXT4_SUPER_MAGIC && |groups| == n {
      var buf := device[sb.GdtOffset()..DescriptorAt(sb, n)];
      var table := TableOf(buf, n, size);
      assert Image(device) == Ok((sb, table));
      forall i: nat | i < n
        ensures table[i] == Kept(sb, groups[i])
      {
        DescriptorReadsBack(device, sb, groups, i);
      }
      assert table == KeptAll(sb, groups);
      if forall i :: 0 <= i < n ==> Kept(sb, groups[i]) == groups[i] {
        assert table == groups;
      } else {
        var i :| 0 <= i < n && Kept(sb, groups[i]) != groups[i];
        assert table[i] != groups[i];
      }
    }
  }

  /** A mount of the device recovers both exactly when they are storable, and else what their records keep. */
  ghost predicate Synced(device: seq<byte>, sb: Superblock, groups: seq<Group>) {
    Countable(sb) ==>
      && Mountable(device) && (Image(device) == Ok((sb, groups)) <==> Storable(sb, groups))
      && (Counted(sb, groups) ==> Image(device) == Ok((sb, KeptAll(sb, groups))))
  }

  /** No byte changes but those of the superblock and of the descriptor table. */
  ghost predicate MetadataOnly(a: seq<byte>, b: seq<byte>, sb: Superblock, n: nat) {
    && |b| == |a|
    && forall i :: 0 <= i < |a| && !(1024 <= i < 2048) && !(sb.GdtOffset() <= i < DescriptorAt(sb, n)) ==> b[i] == a[i]
  }

  lemma MetadataMore(a: seq<byte>, b: seq<byte>, sb: Superblock, n: nat, off: nat, data: seq<byte>)
    requires MetadataOnly(a, b, sb, n) && off + |data| <= |b|
    requires 1024 <= off && (off + |data| <= 2048 || (sb.GdtOffset() <= off && off + |data| <= DescriptorAt(sb, n)))
    ensures MetadataOnly(a, Splice(b, off, data), sb, n)
  {
    hide Superblock.GdtOffset, OffsetOf, Superblock.GroupDescSize;
  }

  lemma HoldsIs(device: seq<byte>, at: nat, part: seq<byte>)
    requires Holds(device, at, part)
    ensures at + |part| <= |device| && device[at..at + |part|] == part
  {
  }

  /**
   Operations change nothing but counters, and free counts only fall. What was storable then stays storable exactly when
   the stride carries high halves or no group counts 65536 directories.
   */
  lemma StaysStorable(sb: Superblock, groups: seq<Group>, sb': Superblock, groups': seq<Group>)
    requires Countable(sb) && Storable(sb, groups) && FixedOf(sb', groups') == FixedOf(sb, groups)
      && |groups'| == |groups|
    requires forall i :: 0 <= i < |groups| ==>
      groups'[i].FreeBlocksCount() <= groups[i].FreeBlocksCount()
        && groups'[i].FreeInodesCount() <= groups[i].FreeInodesCount()
    ensures Countable(sb') && sb'.GroupDescSize() == sb.GroupDescSize()
    ensures Storable(sb', groups') <==>
      || sb.GroupDescSize() >= BlockGroup.BGD_SIZE_64
      || forall i :: 0 <= i < |groups'| ==> groups'[i].UsedDirsCount() < TWO16
  {
    hide Superblock.BlockSize;
    FixedFacts(sb, groups, sb', groups');
    if sb.GroupDescSize() < BlockGroup.BGD_SIZE_64 {
      forall i | 0 <= i < |groups'|
        ensures groups'[i].hi == BlockGroup.NO_HIGH <==> groups'[i].UsedDirsCount() < TWO16
      {
        HighHalvesOf(groups[i], groups'[i]);
      }
    }
  }

  predicate OnlyCountersDiffer(g: Group, g': Group) {
    g' == g.(freeBlocksCountLo := g'.freeBlocksCountLo, freeInodesCountLo := g'.freeInodesCountLo,
    usedDirsCountLo := g'.usedDirsCountLo,
    hi := g.hi.(freeBlocksCount := g'.hi.freeBlocksCount, freeInodesCount := g'.hi.freeInodesCount,
    usedDirsCount := g'.hi.usedDirsCount))
  }

  /** To keep what is fixed is to change counters alone: one per kind in the superblock, three in every descriptor. */
  lemma FixedIs(sb: Superblock, groups: seq<Group>, sb': Superblock, groups': seq<Group>)
    ensures FixedOf(sb', groups') == FixedOf(sb, groups) <==>
      && sb' == sb.(freeBlocksCountLo := sb'.freeBlocksCountLo, freeInodesCount := sb'.freeInodesCount,
                    rest := sb.rest.(freeBlocksCountHi := sb'.rest.freeBlocksCountHi))
      && |groups'| == |groups| && forall i :: 0 <= i < |groups| ==> OnlyCountersDiffer(groups[i], groups'[i])
  {
    hide FixedGroup, OnlyCountersDiffer;
    var s, s' := FixedOf(sb, groups).groups, FixedOf(sb', groups').groups;
    assert |s| == |groups| && |s'| == |groups'|;
    forall i | 0 <= i < |groups| && i < |groups'|
      ensures s[i] == s'[i] <==> OnlyCountersDiffer(groups[i], groups'[i])
    {
      FixedGroupIs(groups[i], groups'[i]);
    }
    FixedSuperblockIs(sb, sb');
  }

  lemma FixedGroupIs(g: Group, g': Group)
    ensures FixedGroup(g) == FixedGroup(g') <==> OnlyCountersDiffer(g, g')
  {
    if FixedGroup(g) == FixedGroup(g') {
      var a, b := FixedGroup(g), FixedGroup(g');
      assert a.hi == b.hi && a.flags == b.flags;
    }
  }

  lemma FixedSuperblockIs(sb: Superblock, sb': Superblock)
    ensures FixedSuperblock(sb) == FixedSuperblock(sb') <==>
      sb' == sb.(freeBlocksCountLo := sb'.freeBlocksCountLo, freeInodesCount := sb'.freeInodesCount,
                 rest := sb.rest.(freeBlocksCountHi := sb'.rest.freeBlocksCountHi))
  {
    if FixedSuperblock(sb) == FixedSuperblock(sb') {
      var a, b := FixedSuperblock(sb), FixedSuperblock(sb');
      assert a.rest == b.rest && a.magic == b.magic;
    }
  }

  lemma FixedFacts(sb: Superblock, groups: seq<Group>, sb': Superblock, groups': seq<Group>)
    requires FixedOf(sb', groups') == FixedOf(sb, groups)
    ensures sb'.magic == sb.magic && sb'.blocksPerGroup == sb.blocksPerGroup && sb'.firstDataBlock == sb.firstDataBlock
    ensures sb'.TotalBlocks() == sb.TotalBlocks() && sb'.GroupDescSize() == sb.GroupDescSize()
    ensures |groups'| == |groups| && forall i :: 0 <= i < |groups| ==> FixedGroup(groups'[i]) == FixedGroup(groups[i])
  {
    hide FixedGroup;
    var a, b := FixedSuperblock(sb), FixedSuperblock(sb');
    assert a.magic == b.magic && a.rest.descSize == b.rest.descSize;
    var s, s' := FixedOf(sb, groups).groups, FixedOf(sb', groups').groups;
    assert |s| == |groups| && |s'| == |groups'|;
    assert forall i :: 0 <= i < |groups| ==> s[i] == FixedGroup(groups[i]);
  }

  lemma HighHalvesOf(g: Group, g': Group)
    requires FixedGroup(g') == FixedGroup(g) && g.hi == BlockGroup.NO_HIGH
    requires g'.FreeBlocksCount() <= g.FreeBlocksCount() && g'.FreeInodesCount() <= g.FreeInodesCount()
    ensures g'.hi == BlockGroup.NO_HIGH <==> g'.UsedDirsCount() < TWO16
  {
    var a, b := FixedGroup(g), FixedGroup(g');
    assert a.hi == b.hi;
    assert g'.hi.freeBlocksCount as int == 0 && g'.hi.freeInodesCount as int == 0;
  }
}
