/**
 Block group descriptors (src/block_group.rs): 32-byte and 64-byte forms, split counters, and the descriptor table.
 */
module BlockGroup {
  import opened Bytes
  import opened Wrappers

  const BGD_SIZE_32: nat := 32
  const BGD_SIZE_64: nat := 64

  datatype BlockGroupDesc = BlockGroupDesc(
    blockBitmapLo: u32, inodeBitmapLo: u32, inodeTableLo: u32, freeBlocksCountLo: u16, freeInodesCountLo: u16,
    usedDirsCountLo: u16, flags: u16, excludeBitmapLo: u32, blockBitmapCsumLo: u16, inodeBitmapCsumLo: u16,
    itableUnusedLo: u16, checksum: u16, hi: High)
  {
    function BlockBitmap(): nat { blockBitmapLo + TWO32 * hi.blockBitmap }
    function InodeBitmap(): nat { inodeBitmapLo + TWO32 * hi.inodeBitmap }
    function InodeTable(): nat { inodeTableLo + TWO32 * hi.inodeTable }
    function FreeBlocksCount(): u32 { freeBlocksCountLo as int + TWO16 * hi.freeBlocksCount }
    function FreeInodesCount(): u32 { freeInodesCountLo as int + TWO16 * hi.freeInodesCount }
    function UsedDirsCount(): u32 { usedDirsCountLo as int + TWO16 * hi.usedDirsCount }

    function SetFreeBlocksCount(c: u32): (g: BlockGroupDesc)
      ensures g.FreeBlocksCount() == c && g.FreeInodesCount() == FreeInodesCount()
        && g.UsedDirsCount() == UsedDirsCount()
      ensures g.BlockBitmap() == BlockBitmap() && g.InodeBitmap() == InodeBitmap() && g.InodeTable() == InodeTable()
    {
      this.(freeBlocksCountLo := c % TWO16, hi := hi.(freeBlocksCount := c / TWO16))
    }

    function SetFreeInodesCount(c: u32): (g: BlockGroupDesc)
      ensures g.FreeInodesCount() == c && g.FreeBlocksCount() == FreeBlocksCount()
        && g.UsedDirsCount() == UsedDirsCount()
      ensures g.BlockBitmap() == BlockBitmap() && g.InodeBitmap() == InodeBitmap() && g.InodeTable() == InodeTable()
    {
      this.(freeInodesCountLo := c % TWO16, hi := hi.(freeInodesCount := c / TWO16))
    }

    function SetUsedDirsCount(c: u32): (g: BlockGroupDesc)
      ensures g.UsedDirsCount() == c && g.FreeBlocksCount() == FreeBlocksCount()
        && g.FreeInodesCount() == FreeInodesCount()
      ensures g.BlockBitmap() == BlockBitmap() && g.InodeBitmap() == InodeBitmap() && g.InodeTable() == InodeTable()
    {
      this.(usedDirsCountLo := c % TWO16, hi := hi.(usedDirsCount := c / TWO16))
    }
  }

  /** The fields past byte 0x20, which only descriptors of 64 bytes or more carry. */
  datatype High = High(
    blockBitmap: u32, inodeBitmap: u32, inodeTable: u32, freeBlocksCount: u16, freeInodesCount: u16, usedDirsCount: u16,
    itableUnused: u16, excludeBitmap: u32, blockBitmapCsum: u16, inodeBitmapCsum: u16)

  const NO_HIGH := High(0, 0, 0, 0, 0, 0, 0, 0, 0, 0)

  function PutLow(buf: seq<byte>, g: BlockGroupDesc): (r: seq<byte>)
    requires |buf| >= BGD_SIZE_32
    ensures |r| == |buf|
  {
    var buf := PutU32(buf, 0x00, g.blockBitmapLo);
    var buf := PutU32(buf, 0x04, g.inodeBitmapLo);
    var buf := PutU32(buf, 0x08, g.inodeTableLo);
    var buf := PutU16(buf, 0x0C, g.freeBlocksCountLo);
    var buf := PutU16(buf, 0x0E, g.freeInodesCountLo);
    var buf := PutU16(buf, 0x10, g.usedDirsCountLo);
    var buf := PutU16(buf, 0x12, g.flags);
    var buf := PutU32(buf, 0x14, g.excludeBitmapLo);
    var buf := PutU16(buf, 0x18, g.blockBitmapCsumLo);
    var buf := PutU16(buf, 0x1A, g.inodeBitmapCsumLo);
    var buf := PutU16(buf, 0x1C, g.itableUnusedLo);
    PutU16(buf, 0x1E, g.checksum)
  }

  function PutHigh(buf: seq<byte>, h: High): (r: seq<byte>)
    requires |buf| >= BGD_SIZE_64
    ensures |r| == |buf|
  {
    var buf := PutU32(buf, 0x20, h.blockBitmap);
    var buf := PutU32(buf, 0x24, h.inodeBitmap);
    var buf := PutU32(buf, 0x28, h.inodeTable);
    var buf := PutU16(buf, 0x2C, h.freeBlocksCount);
    var buf := PutU16(buf, 0x2E, h.freeInodesCount);
    var buf := PutU16(buf, 0x30, h.usedDirsCount);
    var buf := PutU16(buf, 0x32, h.itableUnused);
    var buf := PutU32(buf, 0x34, h.excludeBitmap);
    var buf := PutU16(buf, 0x38, h.blockBitmapCsum);
    PutU16(buf, 0x3A, h.inodeBitmapCsum)
  }

  function ToBytes(g: BlockGroupDesc, descSize: nat): (r: seq<byte>)
    ensures |r| == if descSize >= BGD_SIZE_64 then BGD_SIZE_64 else BGD_SIZE_32
  {
    if descSize >= BGD_SIZE_64 then PutHigh(PutLow(Zeros(BGD_SIZE_64), g), g.hi) else PutLow(Zeros(BGD_SIZE_32), g)
  }

  /** The descriptor at offset `at` of a table. */
  function FromBytesAt(buf: seq<byte>, at: nat, descSize: nat): Option<BlockGroupDesc> {
    if |buf| < at + BGD_SIZE_32 then None
    else
      Some(BlockGroupDesc(
             GetU32(buf, at + 0x00), GetU32(buf, at + 0x04), GetU32(buf, at + 0x08), GetU16(buf, at + 0x0C),
             GetU16(buf, at + 0x0E), GetU16(buf, at + 0x10), GetU16(buf, at + 0x12), GetU32(buf, at + 0x14),
             GetU16(buf, at + 0x18), GetU16(buf, at + 0x1A), GetU16(buf, at + 0x1C), GetU16(buf, at + 0x1E),
             if descSize >= BGD_SIZE_64 && |buf| >= at + BGD_SIZE_64 then
               High(GetU32(buf, at + 0x20), GetU32(buf, at + 0x24), GetU32(buf, at + 0x28), GetU16(buf, at + 0x2C),
                    GetU16(buf, at + 0x2E), GetU16(buf, at + 0x30), GetU16(buf, at + 0x32), GetU32(buf, at + 0x34),
                    GetU16(buf, at + 0x38), GetU16(buf, at + 0x3A))
             else NO_HIGH))
  }

  lemma LowRoundTrip(buf: seq<byte>, g: BlockGroupDesc, descSize: nat)
    requires |buf| >= BGD_SIZE_32
    ensures FromBytesAt(PutLow(buf, g), 0, descSize).value.(hi := NO_HIGH) == g.(hi := NO_HIGH)
  {
    hide PutU16, PutU32, GetU16, GetU32;
    FieldReads();
  }

  lemma HighRoundTrip(buf: seq<byte>, h: High, descSize: nat)
    requires |buf| >= BGD_SIZE_64 && descSize >= BGD_SIZE_64
    ensures FromBytesAt(PutHigh(buf, h), 0, descSize) == Some(FromBytesAt(buf, 0, descSize).value.(hi := h))
  {
    hide PutU16, PutU32, GetU16, GetU32;
    FieldReads();
  }

  /** In the 32-byte form the high halves are lost, so the descriptor comes back exactly when they are zero. */
  lemma DescriptorRoundTrip(g: BlockGroupDesc, descSize: nat)
    ensures FromBytesAt(ToBytes(g, descSize), 0, descSize)
      == Some(if descSize >= BGD_SIZE_64 then g else g.(hi := NO_HIGH))
  {
    hide PutLow, PutHigh;
    if descSize >= BGD_SIZE_64 {
      LowRoundTrip(Zeros(BGD_SIZE_64), g, descSize);
      HighRoundTrip(PutLow(Zeros(BGD_SIZE_64), g), g.hi, descSize);
    } else {
      LowRoundTrip(Zeros(BGD_SIZE_32), g, descSize);
    }
  }

  lemma FieldsMove(buf: seq<byte>, at: nat, part: seq<byte>)
    requires at + |part| <= |buf| && buf[at..at + |part|] == part
    ensures forall o: nat {:trigger GetU16(part, o)} :: o + 2 <= |part| ==> GetU16(buf, at + o) == GetU16(part, o)
    ensures forall o: nat {:trigger GetU32(part, o)} :: o + 4 <= |part| ==> GetU32(buf, at + o) == GetU32(part, o)
  {
    forall o: nat | o + 2 <= |part|
      ensures GetU16(buf, at + o) == GetU16(part, o)
    {
      assert buf[at + o] == part[o] && buf[at + o + 1] == part[o + 1];
    }
    forall o: nat | o + 4 <= |part|
      ensures GetU32(buf, at + o) == GetU32(part, o)
    {
      assert GetU16(buf, at + o) == GetU16(part, o);
      assert GetU16(buf, at + (o + 2)) == GetU16(part, o + 2);
    }
  }

  /** A descriptor reads the same wherever its bytes lie. */
  lemma DescriptorMoves(buf: seq<byte>, at: nat, part: seq<byte>, descSize: nat)
    requires |part| == if descSize >= BGD_SIZE_64 then BGD_SIZE_64 else BGD_SIZE_32
    requires at + |part| <= |buf| && buf[at..at + |part|] == part
    ensures FromBytesAt(buf, at, descSize) == FromBytesAt(part, 0, descSize)
  {
    hide GetU16, GetU32;
    FieldsMove(buf, at, part);
  }

  // --- The descriptor table ---

  ghost predicate IsTable(buf: seq<byte>, descSize: nat, groups: seq<BlockGroupDesc>) {
    forall i :: 0 <= i < |groups| ==> FromBytesAt(buf, i * descSize, descSize) == Some(groups[i])
  }

  /** Stops at the first descriptor that the buffer does not hold whole. */
  method ParseBlockGroupTable(buf: seq<byte>, count: nat, descSize: nat) returns (groups: seq<BlockGroupDesc>)
    requires descSize >= BGD_SIZE_32
    ensures IsTable(buf, descSize, groups)
    ensures |groups| == TableEntries(|buf|, count, descSize)
    ensures |groups| == count <==> count * descSize <= |buf|
  {
    hide FromBytesAt, TableEntries;
    groups := [];
    var i := 0;
    while i < count
      invariant 0 <= i <= count && |groups| == i && i * descSize <= |buf|
      invariant IsTable(buf, descSize, groups)
    {
      var offset := i * descSize;
      if offset + descSize > |buf| {
        EntriesAre(|buf|, count, descSize, i);
        return;
      }
      assert (i + 1) * descSize == offset + descSize;
      DescriptorThere(buf, offset, descSize);
      groups := groups + [FromBytesAt(buf, offset, descSize).value];
      i := i + 1;
    }
    EntriesAre(|buf|, count, descSize, i);
  }

  /** How many of `count` descriptors a buffer of `len` bytes holds whole. */
  function TableEntries(len: nat, count: nat, size: nat): nat
    requires size > 0
  {
    if count <= len / size then count else len / size
  }

  lemma DescriptorThere(buf: seq<byte>, at: nat, descSize: nat)
    requires at + descSize <= |buf| && descSize >= BGD_SIZE_32
    ensures FromBytesAt(buf, at, descSize).Some?
  {
  }

  lemma MulMonotone(a: nat, b: nat, size: nat)
    requires a <= b
    ensures a * size <= b * size
  {
  }

  lemma QuotientIs(len: nat, size: nat, i: nat)
    requires size > 0 && i * size <= len < i * size + size
    ensures len / size == i
  {
    var q := len / size;
    assert q * size <= len < q * size + size;
    if q < i {
      MulMonotone(q + 1, i, size);
    } else if i < q {
      MulMonotone(i + 1, q, size);
    }
  }

  lemma QuotientAtLeast(len: nat, size: nat, i: nat)
    requires size > 0 && i * size <= len
    ensures i <= len / size
  {
    var q := len / size;
    assert len < q * size + size;
    if q < i {
      MulMonotone(q + 1, i, size);
    }
  }

  lemma EntriesAre(len: nat, count: nat, size: nat, i: nat)
    requires size > 0 && i <= count && i * size <= len && (i == count || len < i * size + size)
    ensures TableEntries(len, count, size) == i
    ensures i == count <==> count * size <= len
  {
    if i < count {
      QuotientIs(len, size, i);
      MulMonotone(i + 1, count, size);
    } else {
      QuotientAtLeast(len, size, i);
    }
  }
}
