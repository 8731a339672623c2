/** Inode records (src/inode.rs): the fixed field offsets, the 64-bit size, and the roots of new inodes. */
module InodeRecord {
  import opened Bytes
  import opened Wrappers
  import opened Extent

  const ROOT_INODE: nat := 2
  const INODE_BASE_SIZE: nat := 128
  const INODE_DEFAULT_SIZE: nat := 256
  const I_BLOCK_SIZE: nat := 60
  const S_IFREG: u16 := 0x8000
  const S_IFDIR: u16 := 0x4000
  const S_IFMT_UNIT: nat := 0x1000
  const EXTENTS_FL: u32 := 0x8_0000

  type IBlock = s: seq<byte> | |s| == I_BLOCK_SIZE witness Zeros(I_BLOCK_SIZE)

  datatype Inode = Inode(
    mode: u16, uid: u16, sizeLo: u32, atime: u32, ctime: u32, mtime: u32, dtime: u32, gid: u16, linksCount: u16,
    blocksLo: u32, flags: u32, osd1: u32, iBlock: IBlock, generation: u32, fileAclLo: u32, sizeHi: u32, obsoFaddr: u32,
    extra: Extra)
  {
    function Size(): u64 { sizeLo + TWO32 * sizeHi }

    function SetSize(size: u64): (n: Inode)
      ensures n.Size() == size
    {
      this.(sizeLo := size % TWO32, sizeHi := size / TWO32)
    }

    /** `flags & EXT4_EXTENTS_FL != 0`. */
    predicate UsesExtents() { flags / EXTENTS_FL % 2 == 1 }

    /** `mode & S_IFMT == S_IFDIR`. */
    predicate IsDir() { mode / S_IFMT_UNIT == S_IFDIR / S_IFMT_UNIT }

    function Header(): Option<ExtentHeader> {
      if UsesExtents() then HeaderAt(iBlock, 0) else None
    }

    /** `flags |= EXT4_EXTENTS_FL`, and a root with no entries in an otherwise zeroed `i_block`. */
    function WithEmptyTree(): (n: Inode)
      ensures n.UsesExtents() && n.Header() == Some(EMPTY_ROOT_HEADER) && Leaves(n.iBlock) == []
      ensures n.IsDir() == IsDir() && n.Size() == Size() && Retreed(this, n)
    {
      this.(flags := if UsesExtents() then flags else flags + EXTENTS_FL, iBlock := EmptyRootNode())
    }
  }

  /** Inode `m` is `n` with another extent tree; a record that is too short drops the extra fields. */
  predicate Retreed(n: Inode, m: Inode) {
    && m == n.(flags := m.flags, iBlock := m.iBlock, extra := m.extra) && m.UsesExtents()
    && (m.flags == n.flags || m.flags == n.flags + EXTENTS_FL) && (m.extra == n.extra || m.extra == NO_EXTRA)
  }

  function EmptyRootNode(): (root: IBlock)
    ensures HeaderAt(root, 0) == Some(EMPTY_ROOT_HEADER) && Leaves(root) == []
  {
    var root := Splice(Zeros(I_BLOCK_SIZE), 0, EMPTY_ROOT_HEADER.ToBytes());
    EmptyRoot(root);
    root
  }

  /** The fields past byte 0x74, which only records of 256 bytes or more carry. */
  datatype Extra = Extra(
    blocksHi: u16, fileAclHi: u16, uidHi: u16, gidHi: u16, checksumLo: u16, extraIsize: u16, checksumHi: u16,
    ctimeExtra: u32, mtimeExtra: u32, atimeExtra: u32, crtime: u32, crtimeExtra: u32, versionHi: u32)

  const NO_EXTRA := Extra(0, 0, 0, 0, 0, 0, 0, 0, 0, 0, 0, 0, 0)

  function PutExtra(buf: seq<byte>, e: Extra): (r: seq<byte>)
    requires |buf| >= INODE_DEFAULT_SIZE
    ensures |r| == |buf|
  {
    var buf := PutU16(buf, 0x74, e.blocksHi);
    var buf := PutU16(buf, 0x76, e.fileAclHi);
    var buf := PutU16(buf, 0x78, e.uidHi);
    var buf := PutU16(buf, 0x7A, e.gidHi);
    var buf := PutU16(buf, 0x7C, e.checksumLo);
    var buf := PutU16(buf, 0x80, e.extraIsize);
    var buf := PutU16(buf, 0x82, e.checksumHi);
    var buf := PutU32(buf, 0x84, e.ctimeExtra);
    var buf := PutU32(buf, 0x88, e.mtimeExtra);
    var buf := PutU32(buf, 0x8C, e.atimeExtra);
    var buf := PutU32(buf, 0x90, e.crtime);
    var buf := PutU32(buf, 0x94, e.crtimeExtra);
    PutU32(buf, 0x98, e.versionHi)
  }

  function PutBase(buf: seq<byte>, n: Inode): (r: seq<byte>)
    requires |buf| >= INODE_BASE_SIZE
    ensures |r| == |buf|
  {
    var buf := PutU16(buf, 0x00, n.mode);
    var buf := PutU16(buf, 0x02, n.uid);
    var buf := PutU32(buf, 0x04, n.sizeLo);
    var buf := PutU32(buf, 0x08, n.atime);
    var buf := PutU32(buf, 0x0C, n.ctime);
    var buf := PutU32(buf, 0x10, n.mtime);
    var buf := PutU32(buf, 0x14, n.dtime);
    var buf := PutU16(buf, 0x18, n.gid);
    var buf := PutU16(buf, 0x1A, n.linksCount);
    var buf := PutU32(buf, 0x1C, n.blocksLo);
    var buf := PutU32(buf, 0x20, n.flags);
    var buf := PutU32(buf, 0x24, n.osd1);
    var buf := Splice(buf, 0x28, n.iBlock);
    var buf := PutU32(buf, 0x64, n.generation);
    var buf := PutU32(buf, 0x68, n.fileAclLo);
    var buf := PutU32(buf, 0x6C, n.sizeHi);
    PutU32(buf, 0x70, n.obsoFaddr)
  }

  /** Bytes that no field covers are zero. */
  function ToBytes(n: Inode, inodeSize: nat): (r: seq<byte>)
    ensures |r| == if inodeSize >= INODE_BASE_SIZE then inodeSize else INODE_BASE_SIZE
  {
    var size := if inodeSize >= INODE_BASE_SIZE then inodeSize else INODE_BASE_SIZE;
    var buf := PutBase(Zeros(size), n);
    if size >= INODE_DEFAULT_SIZE then PutExtra(buf, n.extra) else buf
  }

  function GetExtra(buf: seq<byte>): Extra
    requires |buf| >= INODE_DEFAULT_SIZE
  {
    Extra(GetU16(buf, 0x74), GetU16(buf, 0x76), GetU16(buf, 0x78), GetU16(buf, 0x7A), GetU16(buf, 0x7C),
          GetU16(buf, 0x80), GetU16(buf, 0x82), GetU32(buf, 0x84), GetU32(buf, 0x88), GetU32(buf, 0x8C),
          GetU32(buf, 0x90), GetU32(buf, 0x94), GetU32(buf, 0x98))
  }

  function FromBytes(buf: seq<byte>, inodeSize: nat): Option<Inode> {
    if |buf| < INODE_BASE_SIZE then None
    else
      Some(Inode(
             GetU16(buf, 0x00), GetU16(buf, 0x02), GetU32(buf, 0x04), GetU32(buf, 0x08), GetU32(buf, 0x0C),
             GetU32(buf, 0x10), GetU32(buf, 0x14), GetU16(buf, 0x18), GetU16(buf, 0x1A), GetU32(buf, 0x1C),
             GetU32(buf, 0x20), GetU32(buf, 0x24),
             buf[0x28..0x28 + I_BLOCK_SIZE], GetU32(buf, 0x64), GetU32(buf, 0x68), GetU32(buf, 0x6C), GetU32(buf, 0x70),
             if inodeSize > INODE_BASE_SIZE && |buf| >= INODE_DEFAULT_SIZE then GetExtra(buf) else NO_EXTRA))
  }

  /** What a record of `inodeSize` bytes keeps of an inode: everything from 256 bytes on, the base fields below. */
  function Stored(n: Inode, inodeSize: nat): Inode {
    if inodeSize >= INODE_DEFAULT_SIZE then n else n.(extra := NO_EXTRA)
  }

  lemma ExtraRoundTrip(buf: seq<byte>, e: Extra)
    requires |buf| >= INODE_DEFAULT_SIZE
    ensures GetExtra(PutExtra(buf, e)) == e
  {
    hide PutU16, PutU32, GetU16, GetU32;
    FieldReads();
  }

  lemma PutExtraKeepsBase(buf: seq<byte>, e: Extra, sz: nat)
    requires |buf| >= INODE_DEFAULT_SIZE
    ensures FromBytes(PutExtra(buf, e), sz).value.(extra := NO_EXTRA) == FromBytes(buf, sz).value.(extra := NO_EXTRA)
  {
    hide PutU16, PutU32, GetU16, GetU32;
    FieldReads();
    SliceReads();
  }

  lemma BaseRoundTrip(buf: seq<byte>, n: Inode, sz: nat)
    requires |buf| >= INODE_BASE_SIZE
    ensures FromBytes(PutBase(buf, n), sz).value.(extra := NO_EXTRA) == n.(extra := NO_EXTRA)
  {
    hide PutU16, PutU32, GetU16, GetU32, Splice, GetExtra;
    FieldReads();
    SliceReads();
  }

  lemma InodeRoundTrip(n: Inode, inodeSize: nat)
    ensures FromBytes(ToBytes(n, inodeSize), inodeSize) == Some(Stored(n, inodeSize))
  {
    hide PutBase, PutExtra, GetU16, GetU32, GetExtra;
    var size := if inodeSize >= INODE_BASE_SIZE then inodeSize else INODE_BASE_SIZE;
    BaseRoundTrip(Zeros(size), n, inodeSize);
    if size >= INODE_DEFAULT_SIZE {
      PutExtraKeepsBase(PutBase(Zeros(size), n), n.extra, inodeSize);
      ExtraRoundTrip(PutBase(Zeros(size), n), n.extra);
    }
  }

  /** A zeroed inode: `extra_isize` is 32, everything else 0. */
  const ZEROED_INODE := Inode(0, 0, 0, 0, 0, 0, 0, 0, 0, 0, 0, 0, Zeros(I_BLOCK_SIZE), 0, 0, 0, 0,
                              NO_EXTRA.(extraIsize := 32))

  /** A record in which nothing is set but type and permissions, links, size, sectors, and the tree. */
  predicate PlainRecord(n: Inode, mode: u16, links: u16) {
    && n
      == Inode(mode, 0, n.sizeLo, 0, 0, 0, 0, 0, links, n.blocksLo, 0x8_0000, 0, n.iBlock, 0, 0, n.sizeHi, 0, n.extra)
    && (n.extra == NO_EXTRA || n.extra == NO_EXTRA.(extraIsize := 32))
  }

  /** `Inode::new_file`, which takes the permission bits; owner and times are 0 in every call of the write path. */
  function NewFile(perms: u16): (n: Inode)
    ensures !n.IsDir() && n.UsesExtents() && n.Header() == Some(EMPTY_ROOT_HEADER) && Leaves(n.iBlock) == []
      && n.Size() == 0
    ensures PlainRecord(n, 0x8000 + perms % 0x1000, 1) && n.blocksLo == 0
  {
    ZEROED_INODE.(mode := S_IFREG + perms % S_IFMT_UNIT, linksCount := 1).WithEmptyTree()
  }

  function NewDir(perms: u16): (n: Inode)
    ensures n.IsDir() && n.UsesExtents() && n.Header() == Some(EMPTY_ROOT_HEADER) && Leaves(n.iBlock) == []
      && n.Size() == 0
    ensures PlainRecord(n, 0x4000 + perms % 0x1000, 2) && n.blocksLo == 0
  {
    ZEROED_INODE.(mode := S_IFDIR + perms % S_IFMT_UNIT, linksCount := 2).WithEmptyTree()
  }
}
