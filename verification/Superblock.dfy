/** The superblock (src/superblock.rs): field offsets, block size and group geometry. */
module SuperblockRecord {
  import opened Bytes
  import opened Wrappers

  const EXT4_SUPER_MAGIC: u16 := 0xEF53
  const SUPERBLOCK_OFFSET: nat := 1024
  const SUPERBLOCK_SIZE: nat := 1024
  const SUPERBLOCK_BASE_SIZE: nat := 264
  const INCOMPAT_64BIT: u32 := 0x80

  type Bytes16 = s: seq<byte> | |s| == 16 witness Zeros(16)
  type Bytes64 = s: seq<byte> | |s| == 64 witness Zeros(64)

  datatype Superblock = Superblock(
    inodesCount: u32, blocksCountLo: u32, reservedBlocksCountLo: u32, freeBlocksCountLo: u32, freeInodesCount: u32,
    firstDataBlock: u32, logBlockSize: u32, logClusterSize: u32, blocksPerGroup: u32, clustersPerGroup: u32,
    inodesPerGroup: u32, mountTime: u32, writeTime: u32, mountCount: u16, maxMountCount: u16, magic: u16, state: u16,
    errors: u16, minorRevLevel: u16, rest: Rest)
  {
    /** `1024 << log_block_size` in 64 bits. */
    function BlockSize(): u64 { 1024 * Pow2(logBlockSize % 64) % TWO64 }

    function TotalBlocks(): u64 { blocksCountLo + TWO32 * rest.blocksCountHi }

    function FreeBlocks(): u64 { freeBlocksCountLo + TWO32 * rest.freeBlocksCountHi }

    function SetFreeBlocks(c: u64): (s: Superblock)
      ensures s.FreeBlocks() == c
        && s == this.(freeBlocksCountLo := c % TWO32, rest := rest.(freeBlocksCountHi := c / TWO32))
    {
      this.(freeBlocksCountLo := c % TWO32, rest := rest.(freeBlocksCountHi := c / TWO32))
    }

    /** The number of groups, the last one possibly short; truncated to 32 bits. */
    function BlockGroupCount(): u32
      requires blocksPerGroup > 0 && firstDataBlock <= TotalBlocks()
    {
      (TotalBlocks() - firstDataBlock + blocksPerGroup - 1) / blocksPerGroup % TWO32
    }

    /** `n` groups hold every data block, and the last of them at least one. */
    ghost predicate CoveredBy(n: nat)
      requires firstDataBlock <= TotalBlocks()
    {
      && TotalBlocks() - firstDataBlock <= n * blocksPerGroup
      && (n > 0 ==> (n - 1) * blocksPerGroup < TotalBlocks() - firstDataBlock)
    }

    function GroupDescSize(): (d: nat)
      ensures d == 32 || (64 <= d < TWO16 && d == rest.descSize)
    {
      if rest.featureIncompat / INCOMPAT_64BIT % 2 == 1 && rest.descSize >= 64 then rest.descSize else 32
    }

    /** The descriptor table follows the superblock: block 2 for 1024-byte blocks, block 1 otherwise. */
    function GdtOffset(): nat { (if BlockSize() == 1024 then 2 else 1) * BlockSize() }
  }

  /** The fields from byte 0x40 on. */
  datatype Rest = Rest(
    lastCheck: u32, checkInterval: u32, creatorOs: u32, revLevel: u32, defResuid: u16, defResgid: u16, firstIno: u32,
    inodeSize: u16, blockGroupNr: u16, featureCompat: u32, featureIncompat: u32, featureRoCompat: u32, uuid: Bytes16,
    volumeName: Bytes16, lastMounted: Bytes64, descSize: u16, blocksCountHi: u32, freeBlocksCountHi: u32)

  function PutFirst(buf: seq<byte>, s: Superblock): (r: seq<byte>)
    requires |buf| == SUPERBLOCK_SIZE
    ensures |r| == |buf|
  {
    var buf := PutU32(buf, 0x00, s.inodesCount);
    var buf := PutU32(buf, 0x04, s.blocksCountLo);
    var buf := PutU32(buf, 0x08, s.reservedBlocksCountLo);
    var buf := PutU32(buf, 0x0C, s.freeBlocksCountLo);
    var buf := PutU32(buf, 0x10, s.freeInodesCount);
    var buf := PutU32(buf, 0x14, s.firstDataBlock);
    var buf := PutU32(buf, 0x18, s.logBlockSize);
    var buf := PutU32(buf, 0x1C, s.logClusterSize);
    var buf := PutU32(buf, 0x20, s.blocksPerGroup);
    var buf := PutU32(buf, 0x24, s.clustersPerGroup);
    var buf := PutU32(buf, 0x28, s.inodesPerGroup);
    var buf := PutU32(buf, 0x2C, s.mountTime);
    var buf := PutU32(buf, 0x30, s.writeTime);
    var buf := PutU16(buf, 0x34, s.mountCount);
    var buf := PutU16(buf, 0x36, s.maxMountCount);
    var buf := PutU16(buf, 0x38, s.magic);
    var buf := PutU16(buf, 0x3A, s.state);
    var buf := PutU16(buf, 0x3C, s.errors);
    PutU16(buf, 0x3E, s.minorRevLevel)
  }

  function PutRest(buf: seq<byte>, s: Rest): (r: seq<byte>)
    requires |buf| == SUPERBLOCK_SIZE
    ensures |r| == |buf|
  {
    var buf := PutU32(buf, 0x40, s.lastCheck);
    var buf := PutU32(buf, 0x44, s.checkInterval);
    var buf := PutU32(buf, 0x48, s.creatorOs);
    var buf := PutU32(buf, 0x4C, s.revLevel);
    var buf := PutU16(buf, 0x50, s.defResuid);
    var buf := PutU16(buf, 0x52, s.defResgid);
    var buf := PutU32(buf, 0x54, s.firstIno);
    var buf := PutU16(buf, 0x58, s.inodeSize);
    var buf := PutU16(buf, 0x5A, s.blockGroupNr);
    var buf := PutU32(buf, 0x5C, s.featureCompat);
    var buf := PutU32(buf, 0x60, s.featureIncompat);
    var buf := PutU32(buf, 0x64, s.featureRoCompat);
    var buf := Splice(buf, 0x68, s.uuid);
    var buf := Splice(buf, 0x78, s.volumeName);
    var buf := Splice(buf, 0x88, s.lastMounted);
    var buf := PutU16(buf, 0xFE, s.descSize);
    var buf := PutU32(buf, 0x150, s.blocksCountHi);
    PutU32(buf, 0x158, s.freeBlocksCountHi)
  }

  /** Bytes that no field covers are zero. */
  function ToBytes(s: Superblock): (r: seq<byte>)
    ensures |r| == SUPERBLOCK_SIZE
  {
    PutRest(PutFirst(Zeros(SUPERBLOCK_SIZE), s), s.rest)
  }

  function GetRest(buf: seq<byte>): Rest
    requires |buf| >= SUPERBLOCK_BASE_SIZE
  {
    Rest(GetU32(buf, 0x40), GetU32(buf, 0x44), GetU32(buf, 0x48), GetU32(buf, 0x4C), GetU16(buf, 0x50),
         GetU16(buf, 0x52), GetU32(buf, 0x54), GetU16(buf, 0x58), GetU16(buf, 0x5A), GetU32(buf, 0x5C),
         GetU32(buf, 0x60), GetU32(buf, 0x64),
         buf[0x68..0x78], buf[0x78..0x88], buf[0x88..0xC8], GetU16(buf, 0xFE),
         if |buf| >= 0x154 then GetU32(buf, 0x150) else 0, if |buf| >= 0x15C then GetU32(buf, 0x158) else 0)
  }

  function GetFirst(buf: seq<byte>, rest: Rest): Superblock
    requires |buf| >= SUPERBLOCK_BASE_SIZE
  {
    Superblock(
      GetU32(buf, 0x00), GetU32(buf, 0x04), GetU32(buf, 0x08), GetU32(buf, 0x0C), GetU32(buf, 0x10), GetU32(buf, 0x14),
      GetU32(buf, 0x18), GetU32(buf, 0x1C), GetU32(buf, 0x20), GetU32(buf, 0x24), GetU32(buf, 0x28), GetU32(buf, 0x2C),
      GetU32(buf, 0x30), GetU16(buf, 0x34), GetU16(buf, 0x36), GetU16(buf, 0x38), GetU16(buf, 0x3A), GetU16(buf, 0x3C),
      GetU16(buf, 0x3E), rest)
  }

  function FromBytes(buf: seq<byte>): (r: Option<Superblock>)
    ensures r.Some? ==> r.value.magic == EXT4_SUPER_MAGIC
  {
    if |buf| < SUPERBLOCK_BASE_SIZE || GetU16(buf, 0x38) != EXT4_SUPER_MAGIC then None
    else Some(GetFirst(buf, GetRest(buf)))
  }

  lemma RestRoundTrip(buf: seq<byte>, s: Rest)
    requires |buf| == SUPERBLOCK_SIZE
    ensures GetRest(PutRest(buf, s)) == s
  {
    hide PutU16, PutU32, GetU16, GetU32, Splice;
    FieldReads();
    SliceReads();
  }

  lemma RestKeepsFirst(buf: seq<byte>, s: Rest, r: Rest)
    requires |buf| == SUPERBLOCK_SIZE
    ensures GetFirst(PutRest(buf, s), r) == GetFirst(buf, r)
  {
    hide PutU16, PutU32, GetU16, GetU32, Splice;
    FieldReads();
  }

  lemma FirstRoundTrip(buf: seq<byte>, s: Superblock)
    requires |buf| == SUPERBLOCK_SIZE
    ensures GetFirst(PutFirst(buf, s), s.rest) == s
  {
    hide PutU16, PutU32, GetU16, GetU32;
    FieldReads();
  }

  lemma SuperblockRoundTrip(s: Superblock)
    ensures FromBytes(ToBytes(s)) == if s.magic == EXT4_SUPER_MAGIC then Some(s) else None
  {
    hide PutFirst, PutRest, GetRest, GetU32;
    var first := PutFirst(Zeros(SUPERBLOCK_SIZE), s);
    RestRoundTrip(first, s.rest);
    RestKeepsFirst(first, s.rest, s.rest);
    FirstRoundTrip(Zeros(SUPERBLOCK_SIZE), s);
    assert GetFirst(ToBytes(s), s.rest).magic == GetU16(ToBytes(s), 0x38);
  }

  lemma {:induction false} Pow2Monotone(m: nat, n: nat)
    requires m <= n
    ensures Pow2(m) <= Pow2(n)
  {
    if m < n {
      Pow2Monotone(m, n - 1);
    }
  }

  lemma Pow2Plus10(k: nat)
    ensures Pow2(k + 10) == 0x400 * Pow2(k)
  {
    assert Pow2(k + 2) == 4 * Pow2(k);
    assert Pow2(k + 4) == 4 * Pow2(k + 2);
    assert Pow2(k + 6) == 4 * Pow2(k + 4);
    assert Pow2(k + 8) == 4 * Pow2(k + 6);
  }

  lemma Pow2Of53()
    ensures Pow2(53) == 0x20_0000_0000_0000
  {
    Pow2Small();
    hide Pow2;
    Pow2Plus10(3);
    Pow2Plus10(13);
    Pow2Plus10(23);
    Pow2Plus10(33);
    Pow2Plus10(43);
  }

  lemma Pow2Small()
    ensures Pow2(0) == 1 && Pow2(1) == 2 && Pow2(3) == 8 && Pow2(5) == 32 && Pow2(6) == 64
  {
    assert Pow2(2) == 4;
    assert Pow2(4) == 16;
  }

  /**
   As long as the shift stays in 64 bits, the block size is a power of two times 1024, and never between 1024 and 2048.
   */
  lemma BlockSizeExact(s: Superblock)
    ensures s.logBlockSize % 64 < 54 ==>
      && s.BlockSize() == 1024 * Pow2(s.logBlockSize % 64)
      && (s.BlockSize() == 1024 || s.BlockSize() >= 2048)
      && (s.BlockSize() < 0x1_0000 <==> s.logBlockSize % 64 <= 5)
    ensures s.logBlockSize % 64 >= 54 ==> s.BlockSize() == 0
  {
    var k := s.logBlockSize % 64;
    Pow2Small();
    Pow2Of53();
    hide Pow2;
    if k < 54 {
      Pow2Monotone(k, 53);
      if k <= 5 { Pow2Monotone(k, 5); } else { Pow2Monotone(6, k); }
      if k > 0 { Pow2Monotone(1, k); }
    } else {
      Vanishes(k);
    }
  }

  lemma {:induction false} Vanishes(k: nat)
    requires k >= 54
    ensures 1024 * Pow2(k) == TWO64 * Pow2(k - 54) && 1024 * Pow2(k) % TWO64 == 0
  {
    if k == 54 {
      Pow2Of53();
      Pow2Small();
      assert Pow2(54) == 2 * Pow2(53);
    } else {
      Vanishes(k - 1);
      assert Pow2(k) == 2 * Pow2(k - 1) && Pow2(k - 54) == 2 * Pow2(k - 1 - 54);
    }
    MultipleVanishes(Pow2(k - 54));
  }

  lemma MultipleVanishes(x: nat)
    ensures TWO64 * x % TWO64 == 0
  {
  }

  /** The descriptor table never overlaps the superblock. */
  lemma TablePastSuperblock(s: Superblock)
    requires s.BlockSize() > 0
    ensures s.GdtOffset() >= SUPERBLOCK_OFFSET + SUPERBLOCK_SIZE
  {
    BlockSizeExact(s);
  }

  /** The table starts with the block after the one that holds the superblock. */
  lemma TableFollows(s: Superblock)
    requires s.BlockSize() > 0
    ensures s.GdtOffset() == (SUPERBLOCK_OFFSET / s.BlockSize() + 1) * s.BlockSize()
  {
    BlockSizeExact(s);
    hide Superblock.BlockSize;
    if s.BlockSize() > 1024 {
      SmallQuotient(SUPERBLOCK_OFFSET, s.BlockSize());
    }
  }

  lemma SmallQuotient(a: nat, b: nat)
    requires a < b
    ensures a / b == 0
  {
  }

  lemma ProductsOrdered(a: nat, b: nat, size: nat)
    requires a <= b
    ensures a * size <= b * size
  {
  }

  lemma DividedUp(d: nat, size: nat) returns (n: nat)
    requires size > 0
    ensures n == (d + size - 1) / size && d <= n * size && (n > 0 ==> (n - 1) * size < d)
  {
    n := (d + size - 1) / size;
    assert d + size - 1 == n * size + (d + size - 1) % size;
    assert (n - 1) * size == n * size - size;
  }

  lemma OnlyCover(s: Superblock, m: nat, n: nat)
    requires s.firstDataBlock <= s.TotalBlocks() && s.CoveredBy(m) && s.CoveredBy(n) && m <= n
    ensures m == n || s.blocksPerGroup == 0
  {
    hide Superblock.TotalBlocks;
    if m < n {
      ProductsOrdered(m, n - 1, s.blocksPerGroup);
    }
  }

  /** The count is the one number of groups that cover the volume and are all needed, in 32 bits. */
  lemma BlockGroupCountExact(s: Superblock) returns (n: nat)
    requires s.blocksPerGroup > 0 && s.firstDataBlock <= s.TotalBlocks()
    ensures s.CoveredBy(n) && s.BlockGroupCount() as int == n % TWO32
    ensures forall m: nat :: s.CoveredBy(m) ==> m == n
  {
    n := DividedUp(s.TotalBlocks() - s.firstDataBlock, s.blocksPerGroup as int);
    forall m: nat | s.CoveredBy(m)
      ensures m == n
    {
      if m <= n { OnlyCover(s, m, n); } else { OnlyCover(s, n, m); }
    }
  }
}
