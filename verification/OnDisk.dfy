/**
 What the bytes on the device mean, as the ext4 on-disk format lays them out: every number least significant byte first,
 at a fixed offset of its record. The codecs agree with these tables when they read, and hence when they write.
 */
module OnDisk {
  import opened Bytes
  import opened Wrappers
  import opened SuperblockRecord
  import opened InodeRecord
  import opened Extent
  import opened ExtentTree
  import opened Directory
  import BlockGroup

  /** The number that bytes spell, least significant first. */
  function Number(b: seq<byte>): nat {
    if b == [] then 0 else b[0] as int + 0x100 * Number(b[1..])
  }

  function NumberAt(buf: seq<byte>, at: nat, n: nat): nat
    requires at + n <= |buf|
  {
    Number(buf[at..at + n])
  }

  /** A number of which the low half and the high half, `n` bytes each, lie apart. */
  function SplitAt(buf: seq<byte>, lo: nat, hi: nat, n: nat): nat
    requires lo + n <= |buf| && hi + n <= |buf|
  {
    NumberAt(buf, lo, n) + Pow2(8 * n) * NumberAt(buf, hi, n)
  }

  lemma TwoBytes(buf: seq<byte>, at: nat)
    requires at + 2 <= |buf|
    ensures GetU16(buf, at) == NumberAt(buf, at, 2)
  {
    var b := buf[at..at + 2];
    assert b[1..][1..] == [];
    assert Number(b[1..]) == b[1] as int + 0x100 * Number(b[1..][1..]);
  }

  lemma FourBytes(buf: seq<byte>, at: nat)
    requires at + 4 <= |buf|
    ensures GetU32(buf, at) == NumberAt(buf, at, 4)
  {
    var b := buf[at..at + 4];
    assert b[1..][1..][1..][1..] == [];
    assert Number(b[1..][1..][1..]) == b[3] as int;
    assert Number(b[1..][1..]) == b[2] as int + 0x100 * Number(b[1..][1..][1..]);
    assert Number(b[1..]) == b[1] as int + 0x100 * Number(b[1..][1..]);
  }

  lemma FieldsAreNumbers(buf: seq<byte>)
    ensures forall at: nat {:trigger GetU16(buf, at)} :: at + 2 <= |buf| ==> GetU16(buf, at) == NumberAt(buf, at, 2)
    ensures forall at: nat {:trigger GetU32(buf, at)} :: at + 4 <= |buf| ==> GetU32(buf, at) == NumberAt(buf, at, 4)
  {
    forall at: nat | at + 2 <= |buf|
      ensures GetU16(buf, at) == NumberAt(buf, at, 2)
    {
      TwoBytes(buf, at);
    }
    forall at: nat | at + 4 <= |buf|
      ensures GetU32(buf, at) == NumberAt(buf, at, 4)
    {
      FourBytes(buf, at);
    }
  }

  // --- The superblock ---

  ghost predicate FirstShown(buf: seq<byte>, s: Superblock) {
    && |buf| == SUPERBLOCK_SIZE
    && s.inodesCount as int == NumberAt(buf, 0x00, 4) && s.blocksCountLo as int == NumberAt(buf, 0x04, 4)
    && s.reservedBlocksCountLo as int == NumberAt(buf, 0x08, 4)
    && s.freeBlocksCountLo as int == NumberAt(buf, 0x0C, 4) && s.freeInodesCount as int == NumberAt(buf, 0x10, 4)
    && s.firstDataBlock as int == NumberAt(buf, 0x14, 4) && s.logBlockSize as int == NumberAt(buf, 0x18, 4)
    && s.logClusterSize as int == NumberAt(buf, 0x1C, 4) && s.blocksPerGroup as int == NumberAt(buf, 0x20, 4)
    && s.clustersPerGroup as int == NumberAt(buf, 0x24, 4) && s.inodesPerGroup as int == NumberAt(buf, 0x28, 4)
    && s.mountTime as int == NumberAt(buf, 0x2C, 4) && s.writeTime as int == NumberAt(buf, 0x30, 4)
    && s.mountCount as int == NumberAt(buf, 0x34, 2) && s.maxMountCount as int == NumberAt(buf, 0x36, 2)
    && s.magic as int == NumberAt(buf, 0x38, 2) && s.state as int == NumberAt(buf, 0x3A, 2)
    && s.errors as int == NumberAt(buf, 0x3C, 2) && s.minorRevLevel as int == NumberAt(buf, 0x3E, 2)
  }

  ghost predicate RestShown(buf: seq<byte>, r: Rest) {
    && |buf| == SUPERBLOCK_SIZE
    && r.lastCheck as int == NumberAt(buf, 0x40, 4) && r.checkInterval as int == NumberAt(buf, 0x44, 4)
    && r.creatorOs as int == NumberAt(buf, 0x48, 4) && r.revLevel as int == NumberAt(buf, 0x4C, 4)
    && r.defResuid as int == NumberAt(buf, 0x50, 2) && r.defResgid as int == NumberAt(buf, 0x52, 2)
    && r.firstIno as int == NumberAt(buf, 0x54, 4) && r.inodeSize as int == NumberAt(buf, 0x58, 2)
    && r.blockGroupNr as int == NumberAt(buf, 0x5A, 2) && r.featureCompat as int == NumberAt(buf, 0x5C, 4)
    && r.featureIncompat as int == NumberAt(buf, 0x60, 4) && r.featureRoCompat as int == NumberAt(buf, 0x64, 4)
    && r.descSize as int == NumberAt(buf, 0xFE, 2) && r.blocksCountHi as int == NumberAt(buf, 0x150, 4)
    && r.freeBlocksCountHi as int == NumberAt(buf, 0x158, 4)
    && r.uuid == buf[0x68..0x78] && r.volumeName == buf[0x78..0x88] && r.lastMounted == buf[0x88..0xC8]
  }

  /** Bit `k` of a byte. */
  predicate Bit(b: byte, k: nat) { b as int / Pow2(k) % 2 == 1 }

  /** What the driver takes from a superblock, in terms of its bytes. */
  ghost predicate SuperblockShown(buf: seq<byte>, s: Superblock) {
    && FirstShown(buf, s) && RestShown(buf, s.rest)
    && s.TotalBlocks() == SplitAt(buf, 0x04, 0x150, 4) && s.FreeBlocks() == SplitAt(buf, 0x0C, 0x158, 4)
    && s.GroupDescSize() == (if Bit(buf[0x60], 7) && NumberAt(buf, 0xFE, 2) >= 64 then NumberAt(buf, 0xFE, 2) else 32)
  }

  lemma Powers()
    ensures Pow2(3) == 8 && Pow2(7) == 0x80 && Pow2(16) == TWO16 && Pow2(32) == TWO32
  {
    Pow2Small();
    Pow2Plus10(5);
    Pow2Plus10(15);
    assert Pow2(4) == 16 && Pow2(16) == 2 * Pow2(15) && Pow2(26) == 0x400 * Pow2(16);
    Pow2Plus10(6);
    Pow2Plus10(16);
    Pow2Plus10(22);
    assert Pow2(7) == 2 * Pow2(6);
  }

  /** The bits of a 32-bit number that the driver tests. */
  lemma TestedBits(buf: seq<byte>, at: nat)
    requires at + 4 <= |buf|
    ensures GetU32(buf, at) / 0x80 % 2 == buf[at] as int / 0x80 % 2
    ensures GetU32(buf, at) / 0x8_0000 % 2 == buf[at + 2] as int / 8 % 2
  {
    var low, high := buf[at] as int, buf[at + 1] as int + 0x100 * GetU16(buf, at + 2);
    assert GetU32(buf, at) == low + 0x100 * high;
    assert (low + 0x100 * high) / 0x80 == low / 0x80 + 2 * high;
    var below, rest := GetU16(buf, at) as int, buf[at + 2] as int + 0x100 * (buf[at + 3] as int);
    assert GetU32(buf, at) == below + TWO16 * rest;
    assert (below + TWO16 * rest) / TWO16 == rest;
    assert GetU32(buf, at) / 0x8_0000 == rest / 8;
    assert rest / 8 == buf[at + 2] as int / 8 + 32 * (buf[at + 3] as int);
  }

  /** A superblock is accepted exactly with its magic, and is then what its bytes show. */
  lemma SuperblockFields(buf: seq<byte>)
    requires |buf| == SUPERBLOCK_SIZE
    ensures SuperblockRecord.FromBytes(buf).Some? <==> NumberAt(buf, 0x38, 2) == 0xEF53
    ensures SuperblockRecord.FromBytes(buf).Some? ==> SuperblockShown(buf, SuperblockRecord.FromBytes(buf).value)
  {
    hide GetU16, GetU32, NumberAt, Pow2, FirstShown, RestShown, GetFirst, GetRest;
    TwoBytes(buf, 0x38);
    if GetU16(buf, 0x38) == EXT4_SUPER_MAGIC {
      var r := GetRest(buf);
      FirstFields(buf, r);
      RestFields(buf);
      HalvesShown(buf, GetFirst(buf, r));
    }
  }

  lemma FirstFields(buf: seq<byte>, r: Rest)
    requires |buf| == SUPERBLOCK_SIZE
    ensures FirstShown(buf, GetFirst(buf, r)) && GetFirst(buf, r).rest == r
  {
    hide GetU16, GetU32, NumberAt;
    FieldsAreNumbers(buf);
  }

  lemma RestFields(buf: seq<byte>)
    requires |buf| == SUPERBLOCK_SIZE
    ensures RestShown(buf, GetRest(buf))
  {
    hide GetU16, GetU32, NumberAt;
    FieldsAreNumbers(buf);
  }

  lemma HalvesShown(buf: seq<byte>, s: Superblock)
    requires FirstShown(buf, s) && RestShown(buf, s.rest)
    ensures SuperblockShown(buf, s)
  {
    hide GetU16, GetU32, NumberAt, Pow2;
    Powers();
    FourBytes(buf, 0x60);
    TestedBits(buf, 0x60);
  }

  lemma SuperblockWrites(s: Superblock)
    requires s.magic == EXT4_SUPER_MAGIC
    ensures SuperblockShown(SuperblockRecord.ToBytes(s), s)
  {
    hide SuperblockRecord.ToBytes, SuperblockRecord.FromBytes, SuperblockShown;
    SuperblockRoundTrip(s);
    SuperblockFields(SuperblockRecord.ToBytes(s));
  }

  // --- Group descriptors ---

  ghost predicate LowShown(buf: seq<byte>, at: nat, g: BlockGroup.BlockGroupDesc) {
    && at + 0x20 <= |buf|
    && g.blockBitmapLo as int == NumberAt(buf, at + 0x00, 4) && g.inodeBitmapLo as int == NumberAt(buf, at + 0x04, 4)
    && g.inodeTableLo as int == NumberAt(buf, at + 0x08, 4)
    && g.freeBlocksCountLo as int == NumberAt(buf, at + 0x0C, 2)
    && g.freeInodesCountLo as int == NumberAt(buf, at + 0x0E, 2)
    && g.usedDirsCountLo as int == NumberAt(buf, at + 0x10, 2) && g.flags as int == NumberAt(buf, at + 0x12, 2)
    && g.excludeBitmapLo as int == NumberAt(buf, at + 0x14, 4)
    && g.blockBitmapCsumLo as int == NumberAt(buf, at + 0x18, 2)
    && g.inodeBitmapCsumLo as int == NumberAt(buf, at + 0x1A, 2)
    && g.itableUnusedLo as int == NumberAt(buf, at + 0x1C, 2) && g.checksum as int == NumberAt(buf, at + 0x1E, 2)
  }

  ghost predicate HighShown(buf: seq<byte>, at: nat, h: BlockGroup.High) {
    && at + 0x40 <= |buf|
    && h.blockBitmap as int == NumberAt(buf, at + 0x20, 4) && h.inodeBitmap as int == NumberAt(buf, at + 0x24, 4)
    && h.inodeTable as int == NumberAt(buf, at + 0x28, 4) && h.freeBlocksCount as int == NumberAt(buf, at + 0x2C, 2)
    && h.freeInodesCount as int == NumberAt(buf, at + 0x2E, 2)
    && h.usedDirsCount as int == NumberAt(buf, at + 0x30, 2) && h.itableUnused as int == NumberAt(buf, at + 0x32, 2)
    && h.excludeBitmap as int == NumberAt(buf, at + 0x34, 4)
    && h.blockBitmapCsum as int == NumberAt(buf, at + 0x38, 2)
    && h.inodeBitmapCsum as int == NumberAt(buf, at + 0x3A, 2)
  }

  /** Locations and counts as the driver uses them: both halves in a 64-byte record, the low half in a 32-byte one. */
  ghost predicate GroupShown(buf: seq<byte>, at: nat, size: nat, g: BlockGroup.BlockGroupDesc) {
    if size >= 64 && at + 64 <= |buf| then
      && g.BlockBitmap() == SplitAt(buf, at + 0x00, at + 0x20, 4)
      && g.InodeBitmap() == SplitAt(buf, at + 0x04, at + 0x24, 4)
      && g.InodeTable() == SplitAt(buf, at + 0x08, at + 0x28, 4)
      && g.FreeBlocksCount() == SplitAt(buf, at + 0x0C, at + 0x2C, 2)
      && g.FreeInodesCount() == SplitAt(buf, at + 0x0E, at + 0x2E, 2)
      && g.UsedDirsCount() == SplitAt(buf, at + 0x10, at + 0x30, 2)
    else
      && at + 32 <= |buf|
      && g.BlockBitmap() == NumberAt(buf, at + 0x00, 4) && g.InodeBitmap() == NumberAt(buf, at + 0x04, 4)
      && g.InodeTable() == NumberAt(buf, at + 0x08, 4) && g.FreeBlocksCount() == NumberAt(buf, at + 0x0C, 2)
      && g.FreeInodesCount() == NumberAt(buf, at + 0x0E, 2) && g.UsedDirsCount() == NumberAt(buf, at + 0x10, 2)
  }

  lemma GroupFields(buf: seq<byte>, at: nat, size: nat)
    requires at + 32 <= |buf|
    ensures BlockGroup.FromBytesAt(buf, at, size).Some?
    ensures var g := BlockGroup.FromBytesAt(buf, at, size).value;
      && LowShown(buf, at, g) && GroupShown(buf, at, size, g)
      && (size >= 64 && at + 64 <= |buf| ==> HighShown(buf, at, g.hi))
  {
    FieldsAreNumbers(buf);
    Powers();
    hide GetU16, GetU32, NumberAt, Pow2;
  }

  lemma GroupWrites(g: BlockGroup.BlockGroupDesc, size: nat)
    ensures var b := BlockGroup.ToBytes(g, size);
      && LowShown(b, 0, g) && (size >= 64 ==> HighShown(b, 0, g.hi) && GroupShown(b, 0, size, g))
  {
    hide BlockGroup.ToBytes, BlockGroup.FromBytesAt, LowShown, HighShown, GroupShown;
    BlockGroup.DescriptorRoundTrip(g, size);
    GroupFields(BlockGroup.ToBytes(g, size), 0, size);
    LowIsLow(BlockGroup.ToBytes(g, size), g, g.(hi := BlockGroup.NO_HIGH));
  }

  lemma LowIsLow(buf: seq<byte>, g: BlockGroup.BlockGroupDesc, h: BlockGroup.BlockGroupDesc)
    requires h == g.(hi := h.hi)
    ensures LowShown(buf, 0, g) == LowShown(buf, 0, h)
  {
    hide NumberAt;
  }

  // --- Inodes ---

  ghost predicate BaseShown(buf: seq<byte>, n: Inode) {
    && |buf| >= 0x80
    && n.mode as int == NumberAt(buf, 0x00, 2) && n.uid as int == NumberAt(buf, 0x02, 2)
    && n.sizeLo as int == NumberAt(buf, 0x04, 4) && n.atime as int == NumberAt(buf, 0x08, 4)
    && n.ctime as int == NumberAt(buf, 0x0C, 4) && n.mtime as int == NumberAt(buf, 0x10, 4)
    && n.dtime as int == NumberAt(buf, 0x14, 4) && n.gid as int == NumberAt(buf, 0x18, 2)
    && n.linksCount as int == NumberAt(buf, 0x1A, 2) && n.blocksLo as int == NumberAt(buf, 0x1C, 4)
    && n.flags as int == NumberAt(buf, 0x20, 4) && n.osd1 as int == NumberAt(buf, 0x24, 4)
    && n.generation as int == NumberAt(buf, 0x64, 4) && n.fileAclLo as int == NumberAt(buf, 0x68, 4)
    && n.sizeHi as int == NumberAt(buf, 0x6C, 4) && n.obsoFaddr as int == NumberAt(buf, 0x70, 4)
    && n.iBlock == buf[0x28..0x64]
  }

  ghost predicate ExtraShown(buf: seq<byte>, e: Extra) {
    && |buf| >= 0x100
    && e.blocksHi as int == NumberAt(buf, 0x74, 2) && e.fileAclHi as int == NumberAt(buf, 0x76, 2)
    && e.uidHi as int == NumberAt(buf, 0x78, 2) && e.gidHi as int == NumberAt(buf, 0x7A, 2)
    && e.checksumLo as int == NumberAt(buf, 0x7C, 2) && e.extraIsize as int == NumberAt(buf, 0x80, 2)
    && e.checksumHi as int == NumberAt(buf, 0x82, 2) && e.ctimeExtra as int == NumberAt(buf, 0x84, 4)
    && e.mtimeExtra as int == NumberAt(buf, 0x88, 4) && e.atimeExtra as int == NumberAt(buf, 0x8C, 4)
    && e.crtime as int == NumberAt(buf, 0x90, 4) && e.crtimeExtra as int == NumberAt(buf, 0x94, 4)
    && e.versionHi as int == NumberAt(buf, 0x98, 4)
  }

  /** Size, type and the extents flag, in terms of the bytes. */
  ghost predicate InodeShown(buf: seq<byte>, n: Inode) {
    && BaseShown(buf, n) && n.Size() == SplitAt(buf, 0x04, 0x6C, 4)
    && (n.IsDir() <==> 0x4000 <= NumberAt(buf, 0x00, 2) < 0x5000)
    && (n.UsesExtents() <==> Bit(buf[0x22], 3))
  }

  lemma InodeFields(buf: seq<byte>, inodeSize: nat)
    ensures InodeRecord.FromBytes(buf, inodeSize).Some? <==> |buf| >= 128
    ensures |buf| >= 128 ==> InodeShown(buf, InodeRecord.FromBytes(buf, inodeSize).value)
    ensures |buf| >= 256 && inodeSize > 128 ==> ExtraShown(buf, InodeRecord.FromBytes(buf, inodeSize).value.extra)
    ensures 128 <= |buf| && (|buf| < 256 || inodeSize <= 128) ==>
      InodeRecord.FromBytes(buf, inodeSize).value.extra == Extra(0, 0, 0, 0, 0, 0, 0, 0, 0, 0, 0, 0, 0)
  {
    hide GetU16, GetU32, NumberAt, Pow2, BaseShown, ExtraShown, GetExtra, Inode.Size, Inode.IsDir, Inode.UsesExtents;
    if |buf| >= 128 {
      BaseFields(buf, inodeSize);
      FlagsShown(buf, InodeRecord.FromBytes(buf, inodeSize).value);
    }
    if |buf| >= 256 && inodeSize > 128 {
      ExtraFields(buf);
    }
  }

  lemma BaseFields(buf: seq<byte>, inodeSize: nat)
    requires |buf| >= 128
    ensures BaseShown(buf, InodeRecord.FromBytes(buf, inodeSize).value)
  {
    hide GetU16, GetU32, NumberAt, GetExtra;
    FieldsAreNumbers(buf);
  }

  lemma ExtraFields(buf: seq<byte>)
    requires |buf| >= 256
    ensures ExtraShown(buf, GetExtra(buf))
  {
    hide GetU16, GetU32, NumberAt;
    FieldsAreNumbers(buf);
  }

  lemma FlagsShown(buf: seq<byte>, n: Inode)
    requires BaseShown(buf, n)
    ensures InodeShown(buf, n)
  {
    hide GetU16, GetU32, NumberAt, Pow2;
    Powers();
    FourBytes(buf, 0x20);
    TestedBits(buf, 0x20);
  }

  lemma InodeWrites(n: Inode, inodeSize: nat)
    ensures InodeShown(InodeRecord.ToBytes(n, inodeSize), n)
    ensures inodeSize >= 256 ==> ExtraShown(InodeRecord.ToBytes(n, inodeSize), n.extra)
  {
    hide InodeRecord.ToBytes, InodeRecord.FromBytes, BaseShown, ExtraShown, Inode.Size, Inode.IsDir, Inode.UsesExtents;
    InodeRoundTrip(n, inodeSize);
    InodeFields(InodeRecord.ToBytes(n, inodeSize), inodeSize);
    BaseIsBase(InodeRecord.ToBytes(n, inodeSize), n, Stored(n, inodeSize));
  }

  lemma BaseIsBase(buf: seq<byte>, n: Inode, m: Inode)
    requires m == n.(extra := m.extra)
    ensures InodeShown(buf, n) == InodeShown(buf, m)
  {
    hide NumberAt, Pow2;
  }

  // --- Directory records ---

  /** A record is accepted exactly when it and its name fit in what is left, and is then what its bytes show. */
  lemma EntryFields(buf: seq<byte>, at: nat)
    ensures EntryAt(buf, at).Some? <==>
      && at + 8 <= |buf| && 8 <= NumberAt(buf, at + 4, 2) && at + NumberAt(buf, at + 4, 2) <= |buf|
      && at + 8 + buf[at + 6] as int <= |buf|
    ensures EntryAt(buf, at).Some? ==>
      var e := EntryAt(buf, at).value;
      && e.inode as int == NumberAt(buf, at, 4) && e.recLen as int == NumberAt(buf, at + 4, 2)
      && e.nameLen == buf[at + 6] && e.fileType == buf[at + 7] && e.name == buf[at + 8..at + 8 + buf[at + 6] as int]
  {
    FieldsAreNumbers(buf);
    hide GetU16, GetU32, NumberAt;
  }

  /** What a record to be written shows, the zeros behind its name included. */
  lemma EntryWrites(e: DirEntry)
    requires Encodable(e)
    ensures var b := Directory.ToBytes(e);
      && |b| == e.recLen as int && NumberAt(b, 0, 4) == e.inode as int && NumberAt(b, 4, 2) == e.recLen as int
      && b[6] == e.nameLen && b[7] == e.fileType && b[8..8 + |e.name|] == e.name
      && forall i :: 8 + |e.name| <= i < |b| ==> b[i] == 0
  {
    FieldsAreNumbers(Directory.ToBytes(e));
    EncodedFields(e);
    hide NumberAt;
  }

  // --- Extent nodes ---

  lemma HeaderFields(buf: seq<byte>)
    ensures HeaderAt(buf, 0).Some? <==> |buf| >= 12 && NumberAt(buf, 0, 2) == 0xF30A
    ensures HeaderAt(buf, 0).Some? ==>
      var h := HeaderAt(buf, 0).value;
      && h.entries as int == NumberAt(buf, 2, 2) && h.max as int == NumberAt(buf, 4, 2)
      && h.depth as int == NumberAt(buf, 6, 2) && h.generation as int == NumberAt(buf, 8, 4)
  {
    hide GetU16, GetU32, NumberAt;
    FieldsAreNumbers(buf);
  }

  /** A node with `n` records, `depth` levels above the leaves. */
  ghost predicate NodeShown(buf: seq<byte>, n: nat, depth: nat) {
    |buf| >= 12 && NumberAt(buf, 0, 2) == 0xF30A && NumberAt(buf, 2, 2) == n && NumberAt(buf, 6, 2) == depth
  }

  /** Record `i` of an index node: the child for logical blocks from `key` on is block `phys`. */
  ghost predicate IndexShown(buf: seq<byte>, i: nat, key: nat, phys: nat) {
    var at := 12 + 12 * i;
    && at + 12 <= |buf| && NumberAt(buf, at, 4) == key
    && NumberAt(buf, at + 4, 4) == phys % TWO32 && NumberAt(buf, at + 8, 2) == phys / TWO32
  }

  /**
   Record `i` of a leaf node: `count` blocks from `start` on, initialized or not, for logical blocks from `key` on.
   */
  ghost predicate LeafShown(buf: seq<byte>, i: nat, key: nat, count: nat, initialized: bool, start: nat) {
    var at := 12 + 12 * i;
    && at + 12 <= |buf| && NumberAt(buf, at, 4) == key && count < 0x8000
    && NumberAt(buf, at + 4, 2) == (if initialized then count else 0x8000 + count)
    && NumberAt(buf, at + 6, 2) == start / TWO32 && NumberAt(buf, at + 8, 4) == start % TWO32
  }

  lemma IndexFields(buf: seq<byte>, i: nat, key: nat, phys: nat)
    requires IndexShown(buf, i, key, phys)
    ensures IndexAt(buf, RecordOffset(i)).Some?
    ensures IndexAt(buf, RecordOffset(i)).value.block as int == key
    ensures IndexAt(buf, RecordOffset(i)).value.PhysicalBlock() == phys
  {
    hide GetU16, GetU32, NumberAt;
    FieldsAreNumbers(buf);
    assert RecordOffset(i) == 12 + 12 * i;
  }

  lemma LeafFields(buf: seq<byte>, i: nat, key: nat, count: nat, initialized: bool, start: nat)
    requires LeafShown(buf, i, key, count, initialized, start)
    ensures LeafAt(buf, RecordOffset(i)).Some?
    ensures var leaf := LeafAt(buf, RecordOffset(i)).value;
      leaf.block as int == key && leaf.BlockCount() == count && leaf.PhysicalStart() == start
  {
    hide GetU16, GetU32, NumberAt;
    FieldsAreNumbers(buf);
    assert RecordOffset(i) == 12 + 12 * i;
  }

  /** A node of `len` bytes that counts `n` records has `held` of them: all, or as many as it has whole. */
  predicate Whole(len: nat, n: nat, held: nat) {
    (held > 0 ==> 12 + 12 * held <= len) && (held == n || (held < n && len < 24 + 12 * held))
  }

  lemma HeldRecords(len: nat, n: nat, held: nat)
    requires len >= 12 && Whole(len, n, held)
    ensures Min(n, Capacity(len)) == held
  {
  }

  /** A node gives leaves only with a header whose depth is 0, and index records only with one whose depth is not. */
  lemma WrongNode(buf: seq<byte>)
    ensures |buf| < 12 || NumberAt(buf, 0, 2) != 0xF30A || NumberAt(buf, 6, 2) != 0 ==> Leaves(buf) == []
    ensures |buf| < 12 || NumberAt(buf, 0, 2) != 0xF30A || NumberAt(buf, 6, 2) == 0 ==> Indices(buf) == []
  {
    hide NumberAt, LeafAt, IndexAt, HeaderAt, Capacity;
    HeaderFields(buf);
  }

  /** The index records of a node, as its bytes give them. */
  lemma IndexNode(buf: seq<byte>, n: nat, depth: nat, keys: seq<nat>, phys: seq<nat>)
    requires NodeShown(buf, n, depth) && depth > 0 && |keys| == |phys| && Whole(|buf|, n, |phys|)
    requires forall i :: 0 <= i < |phys| ==> IndexShown(buf, i, keys[i], phys[i])
    ensures |Indices(buf)| == |phys|
    ensures forall i :: 0 <= i < |phys| ==>
      Indices(buf)[i].block as int == keys[i] && Indices(buf)[i].PhysicalBlock() == phys[i]
  {
    hide NumberAt, IndexAt, HeaderAt, Capacity, ExtentIndex.PhysicalBlock;
    HeaderFields(buf);
    HeldRecords(|buf|, n, |phys|);
    forall i | 0 <= i < |phys|
      ensures IndexAt(buf, RecordOffset(i)).Some?
      ensures IndexAt(buf, RecordOffset(i)).value.block as int == keys[i]
      ensures IndexAt(buf, RecordOffset(i)).value.PhysicalBlock() == phys[i]
    {
      IndexFields(buf, i, keys[i], phys[i]);
    }
  }

  /** One extent as the bytes of a leaf node give it. */
  datatype Run = Run(key: nat, count: nat, initialized: bool, start: nat)

  /** The leaves of a node, as its bytes give them. */
  lemma LeafNode(buf: seq<byte>, n: nat, runs: seq<Run>)
    requires NodeShown(buf, n, 0) && Whole(|buf|, n, |runs|)
    requires forall i :: 0 <= i < |runs| ==>
      LeafShown(buf, i, runs[i].key, runs[i].count, runs[i].initialized, runs[i].start)
    ensures |Leaves(buf)| == |runs|
    ensures forall i :: 0 <= i < |runs| ==>
      var leaf := Leaves(buf)[i];
      leaf.block as int == runs[i].key && leaf.BlockCount() == runs[i].count && leaf.PhysicalStart() == runs[i].start
  {
    hide NumberAt, LeafAt, HeaderAt, Capacity, ExtentLeaf.PhysicalStart, ExtentLeaf.BlockCount;
    HeaderFields(buf);
    HeldRecords(|buf|, n, |runs|);
    forall i | 0 <= i < |runs|
      ensures LeafAt(buf, RecordOffset(i)).Some?
      ensures var leaf := LeafAt(buf, RecordOffset(i)).value;
        leaf.block as int == runs[i].key && leaf.BlockCount() == runs[i].count && leaf.PhysicalStart() == runs[i].start
    {
      LeafFields(buf, i, runs[i].key, runs[i].count, runs[i].initialized, runs[i].start);
    }
  }

  function Flat(parts: seq<seq<ExtentLeaf>>): seq<ExtentLeaf> {
    if parts == [] then [] else Flat(parts[..|parts| - 1]) + parts[|parts| - 1]
  }

  lemma {:induction false} ChildrenJoin(blocks: Blocks, indices: seq<ExtentIndex>, parts: seq<seq<ExtentLeaf>>,
                                        depth: nat)
    requires |parts| <= |indices|
    requires forall i :: 0 <= i < |parts| ==>
      var b := indices[i].PhysicalBlock(); b in blocks && Resolve(blocks, blocks[b], depth) == Ok(parts[i])
    ensures ResolveChildren(blocks, indices[..|parts|], depth) == Ok(Flat(parts))
    decreases |parts|
  {
    hide Resolve, ExtentIndex.PhysicalBlock;
    if parts == [] {
      NoChildren(blocks, indices, depth);
    } else {
      var n := |parts| - 1;
      ChildrenJoin(blocks, indices, parts[..n], depth);
      ResolveOneMore(blocks, indices, n, depth);
    }
  }

  /**
   What a node of any depth over 0 resolves to, from its bytes: the leaves under the blocks its records name, one child
   after the other, and the error of the first child that cannot be read or resolved.
   */
  lemma NodeResolves(blocks: Blocks, node: seq<byte>, n: nat, depth: nat, keys: seq<nat>, phys: seq<nat>,
                     parts: seq<seq<ExtentLeaf>>)
    requires NodeShown(node, n, depth) && depth > 0 && Whole(|node|, n, |phys|)
      && |keys| == |phys| && |parts| <= |phys|
    requires forall i :: 0 <= i < |phys| ==> IndexShown(node, i, keys[i], phys[i])
    requires forall i :: 0 <= i < |parts| ==>
      phys[i] in blocks && Resolve(blocks, blocks[phys[i]], depth - 1) == Ok(parts[i])
    ensures |parts| == |phys| ==> Resolve(blocks, node, depth) == Ok(Flat(parts))
    ensures |parts| < |phys| && phys[|parts|] !in blocks ==> Resolve(blocks, node, depth) == Err(IoError)
    ensures |parts| < |phys| && phys[|parts|] in blocks && Resolve(blocks, blocks[phys[|parts|]], depth - 1).Err? ==>
      Resolve(blocks, node, depth) == Resolve(blocks, blocks[phys[|parts|]], depth - 1)
  {
    hide NodeShown, IndexShown, Indices, ExtentIndex.PhysicalBlock, Leaves;
    IndexNode(node, n, depth, keys, phys);
    var indices, k := Indices(node), |parts|;
    ChildrenJoin(blocks, indices, parts, depth - 1);
    if k == |phys| {
      assert indices[..k] == indices;
    } else {
      assert indices[..k + 1][..k] == indices[..k];
      ChildErrorSticks(blocks, indices, k + 1, depth - 1);
    }
  }

  /** The root of a tree is the node in the inode itself, with as many levels below it as it says. */
  lemma RootResolves(blocks: Blocks, n: Inode, count: nat, depth: nat)
    requires n.UsesExtents() && NodeShown(n.iBlock, count, depth)
    ensures ResolveExtents(blocks, n) == Resolve(blocks, n.iBlock, depth)
  {
    hide Leaves, Indices, HeaderAt, NumberAt, Inode.UsesExtents;
    HeaderFields(n.iBlock);
  }

  /** In particular a node right above the leaves resolves to the leaves of its children in order. */
  lemma DepthOneResolves(blocks: Blocks, node: seq<byte>, n: nat, keys: seq<nat>, phys: seq<nat>)
    requires NodeShown(node, n, 1) && Whole(|node|, n, |phys|) && |keys| == |phys|
    requires forall i :: 0 <= i < |phys| ==> IndexShown(node, i, keys[i], phys[i]) && phys[i] in blocks
    ensures Resolve(blocks, node, 1)
      == Ok(Flat(seq(|phys|, i requires 0 <= i < |phys| && phys[i] in blocks => Leaves(blocks[phys[i]]))))
  {
    hide NodeShown, IndexShown, Leaves;
    var parts := seq(|phys|, i requires 0 <= i < |phys| && phys[i] in blocks => Leaves(blocks[phys[i]]));
    NodeResolves(blocks, node, n, 1, keys, phys, parts);
  }
}
