/**
 Two small volumes, byte for byte, and what happens on them. Blocks 3 and 4 are the bitmaps of the one group, the inode
 table follows, then the block of the root directory, then two free blocks. The bitmap marks everything past the end.
 On the first volume a file that was just created is not found. On the second, one `mkdir` makes the directory counter
 outgrow its 16 bits, and a mount does not recover the descriptor that was synced.
 */
module Example {
  import opened Bytes
  import opened Wrappers
  import opened Bitmap
  import opened Extent
  import opened InodeRecord
  import opened SuperblockRecord
  import opened Directory
  import opened Layout
  import opened Path
  import opened FileTree
  import opened DirRow
  import opened Invariant
  import opened Grow
  import opened Ops
  import opened Persist
  import opened Ext4
  import opened Runs

  /** `usedInodes` inode numbers are taken, `dirs` of them counted as directories. */
  datatype Shape = Shape(log: u32, bs: nat, first: u32, gdtEnd: nat, inodes: nat, table: nat, usedInodes: nat,
                         dirs: u16) {
    function Root(): nat { 5 + table }
    function Total(): nat { 8 + table }
    /** Bits of the block bitmap that are set before the two clear ones. */
    function UsedBits(): int { 6 + table - first }
  }

  const SMALL := Shape(0, 1024, 1, 3, 8, 1, 2, 1)
  const FULL := Shape(3, 8192, 0, 2, 65536, 1024, 65535, 65535)

  predicate Known(s: Shape) { s == SMALL || s == FULL }

  // --- The bytes ---

  function SuperblockOf(s: Shape): Superblock
    requires Known(s)
  {
    Superblock(
      s.inodes, s.Total(), 0, 2, s.inodes - s.usedInodes, s.first, s.log, s.log, 8 * s.bs, 8 * s.bs, s.inodes,
      0, 0, 0, 0xFFFF, EXT4_SUPER_MAGIC, 1, 1, 0,
      Rest(0, 0, 0, 1, 0, 0, 11, 128, 0, 0, 0x40, 0, Zeros(16), Zeros(16), Zeros(64), 0, 0, 0))
  }

  function GroupOf(s: Shape): Group
    requires Known(s)
  {
    BlockGroup.BlockGroupDesc(3, 4, 5, 2, s.inodes - s.usedInodes, s.dirs, 0, 0, 0, 0, 0, 0, BlockGroup.NO_HIGH)
  }

  function RootOf(s: Shape): Inode
    requires Known(s)
  {
    match AppendTo(NewDir(0x1ED), s.Root())
    case Ok(m) => Finished(m, s.bs, 1, s.bs)
    case Err(_) => NewDir(0x1ED)
  }

  function BlockBits(s: Shape): (r: seq<byte>)
    requires Known(s)
    ensures |r| == s.bs
  {
    WithRange(WithRange(Zeros(s.bs), 0, s.UsedBits()), s.UsedBits() + 2, 8 * s.bs - (s.UsedBits() + 2))
  }

  function InodeBits(s: Shape): (r: seq<byte>)
    requires Known(s)
    ensures |r| == s.bs
  {
    WithRange(Zeros(s.bs), 0, s.usedInodes)
  }

  /** Where the pieces lie, and what they are. */
  datatype Piece = Piece(at: nat, data: seq<byte>)

  function Pieces(s: Shape): (r: seq<Piece>)
    requires Known(s)
    ensures |r| == 6
  {
    [ Piece(SUPERBLOCK_OFFSET, SuperblockRecord.ToBytes(SuperblockOf(s))),
      Piece(if s.log == 0 then 2048 else s.bs, BlockGroup.ToBytes(GroupOf(s), 32)),
      Piece(OffsetOf(3, s.bs), BlockBits(s)),
      Piece(OffsetOf(4, s.bs), InodeBits(s)),
      Piece(OffsetOf(5, s.bs) + 128, InodeRecord.ToBytes(RootOf(s), 128)),
      Piece(OffsetOf(s.Root(), s.bs), CreateDotEntries(2, 2, s.bs)) ]
  }

  /** Pieces in order of their place, none reaching into the next, all within `len` bytes. */
  predicate Apart(pieces: seq<Piece>, len: nat) {
    forall i, j :: 0 <= i <= j < |pieces| ==>
      pieces[i].at + |pieces[i].data| <= if i == j then len else pieces[j].at
  }

  function Assemble(pieces: seq<Piece>, len: nat): (r: seq<byte>)
    requires Apart(pieces, len)
    ensures |r| == len
  {
    if pieces == [] then Zeros(len)
    else
      var last := |pieces| - 1;
      assert Apart(pieces[..last], len) by { forall i | 0 <= i < last ensures pieces[..last][i] == pieces[i] {} }
      Splice(Assemble(pieces[..last], len), pieces[last].at, pieces[last].data)
  }

  /** Every piece is found where it was put. */
  lemma {:induction false} Assembled(pieces: seq<Piece>, len: nat, k: nat)
    requires Apart(pieces, len) && k < |pieces|
    ensures Holds(Assemble(pieces, len), pieces[k].at, pieces[k].data)
  {
    hide Holds, Splice;
    var last := |pieces| - 1;
    assert Apart(pieces[..last], len) by { forall i | 0 <= i < last ensures pieces[..last][i] == pieces[i] {} }
    var before := Assemble(pieces[..last], len);
    if k == last {
      HoldsWritten(before, pieces[last].at, pieces[last].data);
    } else {
      Assembled(pieces[..last], len, k);
      HoldsAfter(before, pieces[k].at, pieces[k].data, pieces[last].at, pieces[last].data);
    }
  }

  lemma PiecesApart(s: Shape)
    requires Known(s)
    ensures Apart(Pieces(s), OffsetOf(s.Total(), s.bs))
  {
    hide SuperblockRecord.ToBytes, BlockGroup.ToBytes, InodeRecord.ToBytes, CreateDotEntries, BlockBits, InodeBits,
      SuperblockOf, GroupOf, RootOf;
  }

  function Disk(s: Shape): seq<byte>
    requires Known(s)
  {
    PiecesApart(s);
    Assemble(Pieces(s), OffsetOf(s.Total(), s.bs))
  }

  // --- The geometry ---

  ghost function GeometryOfShape(s: Shape): Geometry {
    Geometry(s.bs, 128, 8 * s.bs, s.inodes, s.first, s.Total(), s.gdtEnd, [GroupLoc(3, 4, 5)])
  }

  lemma ShiftIs(s: Shape)
    requires Known(s)
    ensures SuperblockOf(s).BlockSize() == s.bs
  {
    var sb := SuperblockOf(s);
    assert sb.logBlockSize == s.log && (s.log == 0 || s.log as int == 3);
    hide SuperblockOf, Superblock.BlockSize;
    BlockSizeExact(sb);
    Pow2Small();
  }

  lemma BlockSizeIs(s: Shape)
    requires Known(s)
    ensures SuperblockOf(s).BlockSize() == s.bs && SuperblockOf(s).GroupDescSize() == 32
    ensures SuperblockOf(s).GdtOffset() == (if s.log == 0 then 2048 else s.bs)
      && SuperblockOf(s).TotalBlocks() == s.Total()
  {
    hide Superblock.BlockSize;
    ShiftIs(s);
  }

  lemma GeometryIs(s: Shape)
    requires Known(s)
    ensures GeometryOf(SuperblockOf(s), [GroupOf(s)]) == GeometryOfShape(s)
    ensures Countable(SuperblockOf(s)) && Storable(SuperblockOf(s), [GroupOf(s)])
    ensures DescriptorAt(SuperblockOf(s), 1) <= OffsetOf(s.Total(), s.bs)
  {
    hide Superblock.BlockSize, Superblock.GroupDescSize, Superblock.GdtOffset, Superblock.TotalBlocks, Pieces;
    BlockSizeIs(s);
  }

  lemma GeometryOk(s: Shape)
    requires Known(s)
    ensures GeometryOfShape(s).Ok() && GeometryOfShape(s).InodeCount() == s.inodes
      && GeometryOfShape(s).TableLen() == s.table
  {
    var g := GeometryOfShape(s);
    assert g.InodeCount() == s.inodes;
    assert g.TableLen() == s.table;
    hide Geometry.InodeCount, Geometry.TableLen;
    assert g.SizesOk();
  }

  // --- The bitmaps ---

  lemma {:induction false} ZeroBit(k: nat)
    ensures !BitOf(0, k)
  {
    if k > 0 {
      ZeroBit(k - 1);
    }
  }

  lemma NoneSet(len: nat, i: nat)
    ensures !IsSet(Zeros(len), i)
  {
    hide BitOf;
    ZeroBit(i % 8);
  }

  lemma {:induction false} CountZeros(len: nat, n: nat)
    ensures CountClear(Zeros(len), n) == n
  {
    hide IsSet, Zeros;
    if n > 0 {
      NoneSet(len, n - 1);
      CountZeros(len, n - 1);
    }
  }

  lemma Bits(s: Shape)
    requires Known(s)
    ensures forall i: nat :: i < 8 * s.bs ==> (IsSet(BlockBits(s), i) <==> i != s.UsedBits() && i != s.UsedBits() + 1)
    ensures forall i: nat :: i < 8 * s.bs ==> (IsSet(InodeBits(s), i) <==> i < s.usedInodes)
    ensures CountClear(BlockBits(s), 8 * s.bs) == 2 && CountClear(InodeBits(s), s.inodes) == s.inodes - s.usedInodes
  {
    hide IsSet, CountClear, Zeros, WithRange;
    var zeros, a, n := Zeros(s.bs), s.UsedBits(), 8 * s.bs;
    forall i: nat ensures !IsSet(zeros, i) { NoneSet(s.bs, i); }
    CountZeros(s.bs, n);
    CountZeros(s.bs, s.inodes);
    CountAfterRange(zeros, 0, a, n);
    CountAfterRange(WithRange(zeros, 0, a), a + 2, n - (a + 2), n);
    CountAfterRange(zeros, 0, s.usedInodes, s.inodes);
  }

  // --- What the device shows ---

  ghost function ViewOfShape(s: Shape): View
    requires Known(s)
  {
    DiskFits(s);
    ViewOf(Disk(s), GeometryOfShape(s))
  }

  lemma DiskFits(s: Shape)
    requires Known(s)
    ensures Fits(Disk(s), GeometryOfShape(s)) && |Disk(s)| == OffsetOf(s.Total(), s.bs)
  {
    hide Pieces, Assemble, Geometry.Ok;
    GeometryOk(s);
    PiecesApart(s);
  }

  lemma PieceHeld(s: Shape, k: nat)
    requires Known(s) && k < 6
    ensures Holds(Disk(s), Pieces(s)[k].at, Pieces(s)[k].data)
  {
    hide Pieces, Assemble, Apart, Holds;
    PiecesApart(s);
    Assembled(Pieces(s), OffsetOf(s.Total(), s.bs), k);
  }

  lemma HeldBlock(disk: seq<byte>, bs: nat, b: nat, data: seq<byte>)
    requires bs > 0 && Holds(disk, OffsetOf(b, bs), data) && |data| == bs
    ensures b in BlocksOf(disk, bs) && BlocksOf(disk, bs)[b] == data
  {
    hide OffsetOf;
    InBlocksOf(disk, bs, b);
    BlockFits(|disk|, bs, b);
  }

  lemma BlocksShown(s: Shape)
    requires Known(s)
    ensures var blocks := ViewOfShape(s).blocks;
      && 3 in blocks && blocks[3] == BlockBits(s) && 4 in blocks && blocks[4] == InodeBits(s)
      && s.Root() in blocks && blocks[s.Root()] == CreateDotEntries(2, 2, s.bs)
  {
    hide Disk, BlocksOf, InodesOf, Holds, OffsetOf, SuperblockOf, GroupOf, RootOf, BlockBits, InodeBits,
      CreateDotEntries, Geometry.Ok;
    DiskFits(s);
    PieceHeld(s, 2);
    PieceHeld(s, 3);
    PieceHeld(s, 5);
    HeldBlock(Disk(s), s.bs, 3, BlockBits(s));
    HeldBlock(Disk(s), s.bs, 4, InodeBits(s));
    HeldBlock(Disk(s), s.bs, s.Root(), CreateDotEntries(2, 2, s.bs));
  }

  lemma RootShown(s: Shape)
    requires Known(s)
    ensures ROOT_INODE in ViewOfShape(s).inodes && ViewOfShape(s).inodes[ROOT_INODE] == Stored(RootOf(s), 128)
  {
    hide Disk, BlocksOf, Holds, SuperblockOf, GroupOf, RootOf, BlockBits, InodeBits, CreateDotEntries, Geometry.Ok,
      InodeRecord.ToBytes, InodeRecord.FromBytes, Stored;
    DiskFits(s);
    GeometryOk(s);
    PieceHeld(s, 4);
    var g := GeometryOfShape(s);
    assert g.GroupOf(2) == 0 && g.IndexOf(2) == 1 && OffsetOf(1, 128) == 128;
    assert g.InodeOffset(2) == OffsetOf(5, s.bs) + 128;
    HoldsIs(Disk(s), OffsetOf(5, s.bs) + 128, InodeRecord.ToBytes(RootOf(s), 128));
    assert RecordBytes(Disk(s), g, 2) == InodeRecord.ToBytes(RootOf(s), 128);
    InodeRoundTrip(RootOf(s), 128);
  }

  // --- The invariant ---

  ghost function OwnersOfShape(s: Shape): Owners { map[ROOT_INODE := {s.Root()}] }

  ghost function CountsOfShape(s: Shape): Counts
    requires Known(s)
  {
    Counts([2], [s.inodes - s.usedInodes], [s.dirs as nat], 2, s.inodes - s.usedInodes)
  }

  lemma CountsAreThese(s: Shape)
    requires Known(s)
    ensures CountsOf(SuperblockOf(s), [GroupOf(s)]) == CountsOfShape(s)
  {
  }

  lemma ViewIsOk(s: Shape)
    requires Known(s)
    ensures ViewOk(GeometryOfShape(s), ViewOfShape(s))
  {
    hide Disk, OffsetOf, Geometry.Ok, InodeRecord.FromBytes, Geometry.InodeCount;
    DiskFits(s);
    GeometryOk(s);
    BlockLengths(Disk(s), GeometryOfShape(s));
    forall b: nat | b < s.Total()
      ensures b in BlocksOf(Disk(s), s.bs)
    {
      OffsetsOrdered(b, s.Total(), s.bs);
      InBlocksOf(Disk(s), s.bs, b);
    }
  }

  lemma {:induction false} SumOne(n: nat)
    ensures Sum([n]) == n
  {
    assert [n][..0] == [];
    assert Sum([]) == 0;
  }

  lemma CountsAreOk(s: Shape)
    requires Known(s)
    ensures CountsOk(GeometryOfShape(s), ViewOfShape(s).blocks, CountsOfShape(s))
  {
    hide ViewOfShape, BlockBits, InodeBits, CountClear, Sum, Geometry.InodeCount, CreateDotEntries;
    BlocksShown(s);
    Bits(s);
    GeometryOk(s);
    SumOne(2);
    SumOne(s.inodes - s.usedInodes);
    SumOne(s.dirs);
  }

  lemma FreeBitsAre(s: Shape, k: nat, i: nat)
    requires Known(s)
    ensures FreeBlockBit(GeometryOfShape(s), ViewOfShape(s).blocks, k, i) ==>
      k == 0 && (i == s.UsedBits() || i == s.UsedBits() + 1)
    ensures FreeInodeBit(GeometryOfShape(s), ViewOfShape(s).blocks, k, i) ==> k == 0 && i >= s.usedInodes
  {
    hide ViewOfShape, BlockBits, InodeBits, IsSet, CountClear, CreateDotEntries;
    BlocksShown(s);
    Bits(s);
  }

  lemma UsableBlocks(s: Shape, b: nat)
    requires Known(s) && s.Root() <= b < s.Total()
    ensures GeometryOfShape(s).Usable(b)
  {
    hide Geometry.TableLen;
    GeometryOk(s);
  }

  lemma FreeIsFree(s: Shape)
    requires Known(s)
    ensures FreeIsUnused(GeometryOfShape(s), ViewOfShape(s).blocks, OwnersOfShape(s))
  {
    hide ViewOfShape, FreeBlockBit, FreeInodeBit, Geometry.Usable;
    var g, blocks := GeometryOfShape(s), ViewOfShape(s).blocks;
    forall k: nat, i: nat | FreeBlockBit(g, blocks, k, i)
      ensures g.Usable(BlockAt(g, k, i)) && Unowned(OwnersOfShape(s), BlockAt(g, k, i))
    {
      FreeBitsAre(s, k, i);
      UsableBlocks(s, BlockAt(g, k, i));
    }
    forall k: nat, i: nat | FreeInodeBit(g, blocks, k, i)
      ensures InodeAt(g, k, i) !in OwnersOfShape(s)
    {
      FreeBitsAre(s, k, i);
    }
  }

  lemma RootIs(s: Shape)
    requires Known(s)
    ensures var n := Stored(RootOf(s), 128);
      n.IsDir() && LeafRoot(n) && RootFits(n) && RootBlocks(n) == [s.Root()] && n.Size() == s.bs
        && PlainRecord(n, 0x41ED, 2) && n.blocksLo == s.bs / 512
  {
    hide Leaves, HeaderAt, WithLeaf, NextLogical, OneBlockLeaf, DataBlocks, Inode.WithEmptyTree, NewDir, LeafRoot,
      RootFits, RootBlocks, Inode.Header, AppendTo, Finished, Inode.IsDir, Inode.Size, Stored, PlainRecord;
    var n := NewDir(0x1ED);
    NewDirOwnsNothing(0x1ED);
    EmptyRootTakesOne(n, s.Root());
    AppendToFacts(n, s.Root());
    var m := AppendTo(n, s.Root()).value;
    FinishedDir(n, m, s.bs);
    SameTreeFacts(map[], m, RootOf(s));
    KeptByStore(RootOf(s));
    SameTreeFacts(map[], RootOf(s), Stored(RootOf(s), 128));
  }

  lemma KeptByStore(n: Inode)
    ensures var m := Stored(n, 128);
      && m.iBlock == n.iBlock && m.flags == n.flags && m.mode == n.mode && m.Size() == n.Size()
      && m.blocksLo == n.blocksLo && (PlainRecord(n, 0x41ED, 2) ==> PlainRecord(m, 0x41ED, 2))
  {
  }

  lemma RootIsNew(s: Shape)
    requires Known(s)
    ensures NewDirAs(ViewOfShape(s), ROOT_INODE, ROOT_INODE, s.bs)
    ensures RootBlocks(ViewOfShape(s).inodes[ROOT_INODE]) == [s.Root()] && RootFits(ViewOfShape(s).inodes[ROOT_INODE])
  {
    hide ViewOfShape, RootOf, Stored, BlockBits, InodeBits, LeafRoot, RootFits, RootBlocks, Inode.IsDir, Inode.Size,
      CreateDotEntries, PlainRecord;
    BlocksShown(s);
    RootShown(s);
    RootIs(s);
  }

  lemma RootOk(s: Shape)
    requires Known(s)
    ensures InodeOk(ViewOfShape(s), OwnersOfShape(s), ROOT_INODE)
  {
    hide ViewOfShape, CreateDotEntries, LeafRoot, RootFits, RootBlocks, RowOk, TreeNodes, ExtentTree.ResolveExtents,
      DataBlocks, Inode.IsDir, DirBlockOk, Leaves, Inode.Size, Footprint;
    var w, own := ViewOfShape(s), OwnersOfShape(s);
    RootIsNew(s);
    var n := w.inodes[ROOT_INODE];
    LeafRootTree(w.blocks, n);
    RootBlocksIs(n);
    DotBlockOk(2, 2, s.bs, own.Keys);
    DotRowOk(w.blocks, s.Root(), own.Keys);
    OneBlockSet(n, n, s.Root());
  }

  /** The invariant holds of what the device shows. */
  lemma VolumeIsValid(s: Shape)
    requires Known(s)
    ensures Inv(GeometryOfShape(s), ViewOfShape(s), CountsOfShape(s), OwnersOfShape(s))
  {
    hide CountsOk, FreeIsUnused, InodeOk, Geometry.Ok, ViewOfShape, ViewOk, CountsOfShape;
    GeometryOk(s);
    ViewIsOk(s);
    CountsAreOk(s);
    FreeIsFree(s);
    RootOk(s);
    hide Geometry.Usable;
    UsableBlocks(s, s.Root());
  }

  // --- Mounting it ---

  lemma PieceIs(s: Shape)
    requires Known(s)
    ensures Pieces(s)[0] == Piece(SUPERBLOCK_OFFSET, SuperblockRecord.ToBytes(SuperblockOf(s)))
    ensures Pieces(s)[1] == Piece(DescriptorAt(SuperblockOf(s), 0), DescriptorBytes(SuperblockOf(s), GroupOf(s)))
  {
    hide SuperblockRecord.ToBytes, BlockGroup.ToBytes, InodeRecord.ToBytes, CreateDotEntries, BlockBits, InodeBits,
      RootOf, GroupOf, SuperblockOf, Superblock.BlockSize, Superblock.GroupDescSize, Superblock.GdtOffset;
    BlockSizeIs(s);
  }

  lemma ImageOfDisk(s: Shape)
    requires Known(s)
    ensures Mountable(Disk(s)) && Image(Disk(s)) == Ok((SuperblockOf(s), [GroupOf(s)]))
  {
    hide Disk, Image, Mountable, SuperblockOf, GroupOf, Storable, Countable, Holds, Pieces, DescriptorAt,
      DescriptorBytes, SuperblockRecord.ToBytes;
    GeometryIs(s);
    DiskFits(s);
    PieceIs(s);
    PieceHeld(s, 0);
    PieceHeld(s, 1);
    MountAfterSync(Disk(s), SuperblockOf(s), [GroupOf(s)]);
  }

  /** `mount` of the device gives a handle that satisfies the invariant. */
  method MountShape(s: Shape) returns (fs: Ext4Fs)
    requires Known(s)
    ensures fresh(fs) && fs.Valid() && fs.device == Disk(s) && fs.sb == SuperblockOf(s) && fs.groups == [GroupOf(s)]
    ensures fs.Geo() == GeometryOfShape(s) && fs.Vw() == ViewOfShape(s) && fs.Cnt() == CountsOfShape(s)
      && fs.own == OwnersOfShape(s)
  {
    hide Disk, Image, Mountable, SuperblockOf, GroupOf, Inv, LogsOk, ViewOf, Fits, Geometry.Ok, FixedOf,
      OwnersOfShape;
    ImageOfDisk(s);
    GeometryIs(s);
    DiskFits(s);
    CountsAreThese(s);
    VolumeIsValid(s);
    ghost var w := ViewOfShape(s);
    LogsStart(GeometryOfShape(s), w.blocks);
    var r := Mount(Disk(s), OwnersOfShape(s), Start(w.blocks, 2, s.inodes - s.usedInodes), [], []);
    fs := r.value;
  }

  // --- A file that was just created is not found ---

  lemma PlainPath(name: seq<byte>)
    requires 0 < |name| <= EXT4_NAME_LEN && SLASH !in name
    ensures SplitPath([SLASH] + name) == Ok(([SLASH], name))
  {
    var path := [SLASH] + name;
    assert path[1..] == name && path[..1] == [SLASH];
  }

  /** In a volume of this kind the root directory has its two dots only. */
  lemma RootHasNot(s: Shape, name: seq<byte>)
    requires Known(s) && 0 < |name| <= EXT4_NAME_LEN && SLASH !in name && name != DOT && name != DOTDOT
    ensures var w, path := ViewOfShape(s), [SLASH] + name;
      PlanWrite(w, path) == Ok(Create(ROOT_INODE)) && PlanMkdir(w, path) == Ok(ROOT_INODE)
        && SplitPath(path) == Ok(([SLASH], name))
  {
    hide ViewOfShape, LookupInDir, FindIno, NewDirAs, Inode.IsDir, SplitPath;
    var w := ViewOfShape(s);
    PlainPath(name);
    RootIsNew(s);
    NewDirIsDir(w, ROOT_INODE, ROOT_INODE, s.bs);
    NewDirFinds(w, ROOT_INODE, ROOT_INODE, s.bs, name);
    LookupIsFind(w, w.inodes[ROOT_INODE], name);
    var none: seq<byte> := [];
    assert [SLASH][1..] == none && Components(none) == [];
  }

  lemma NewDirIsDir(w: View, ino: nat, parent: nat, bs: nat)
    requires NewDirAs(w, ino, parent, bs)
    ensures ino in w.inodes && w.inodes[ino].IsDir()
  {
  }

  lemma FreeIn(s: Shape)
    requires Known(s)
    ensures SuperblockOf(s).FreeBlocks() == 2 && SuperblockOf(s).freeInodesCount as int == s.inodes - s.usedInodes
  {
  }

  lemma TwoBlocks(len: nat)
    requires len <= 2048
    ensures BlocksFor(len, 1024) <= 2
  {
  }

  lemma CreatedHidden(u: View, before: Owners, w: View, after: Owners, path: seq<byte>, name: seq<byte>, t: nat,
                      bl: seq<nat>, data: seq<byte>, left: nat, r: Result<()>)
    requires u == ViewOfShape(SMALL) && SplitPath(path) == Ok(([SLASH], name)) && |data| <= 2048
    requires CreateDone(u, before, w, after, path, ROOT_INODE, t, bl, data, 1024, 6, 2, left, r)
    ensures r == Ok(()) && FileTree.ReadFile(w, path, 1024) == Err(NotFound)
  {
    hide ViewOfShape, NewDirAs, OthersKept, SplitPath, OtherNamesKept, Reachable, EntryCost, EntryOutcome, FileHolds,
      WrittenAs, Gained, FileTree.ReadFile, ReadData, NewFile, NeededFor, BlocksFor;
    RootIsNew(SMALL);
    NeededBound(name);
    NewDirHidesEntries(u, ROOT_INODE, ROOT_INODE, 1024, NeededFor(name));
    TwoBlocks(|data|);
  }

  /**
   Creating any file of up to two blocks in the root of the first volume succeeds, and then the path leads nowhere.
   */
  method CreatedIsNotFound(name: seq<byte>, data: seq<byte>) returns (r: Result<()>, back: Result<seq<byte>>)
    requires 0 < |name| <= EXT4_NAME_LEN && SLASH !in name && name != DOT && name != DOTDOT && |data| <= 2048
    ensures r == Ok(()) && back == Err(NotFound)
  {
    hide Ext4Fs.Valid, Ext4Fs.Mounted, Ext4Fs.Vw, Ext4Fs.Cnt, Ext4Fs.Geo, Inv, PlanWrite, PlanMkdir, ViewOfShape,
      Disk, SuperblockOf, GroupOf, FixedOf, CreateDone, OnlyAllocates, FindsKept, FileTree.ReadFile, GeometryOfShape,
      CountsOfShape, OwnersOfShape, SplitPath;
    var fs := MountShape(SMALL);
    ghost var w, own := fs.Vw(), fs.own;
    FreeIn(SMALL);
    RootHasNot(SMALL, name);
    ShiftIs(SMALL);
    var path := [SLASH] + name;
    ghost var t, bl;
    fs.OpenRoot();
    r, t, bl := fs.WriteFile(path, data);
    fs.OpenRoot();
    SameBlockSize(fs, SMALL);
    CreatedHidden(w, own, fs.Vw(), fs.own, path, name, t, bl, data, fs.sb.FreeBlocks(), r);
    back := fs.ReadFile(path);
  }

  lemma SameBlockSize(fs: Ext4Fs, s: Shape)
    requires Known(s) && fs.Valid() && fs.Geo() == GeometryOfShape(s)
    ensures fs.sb.BlockSize() == s.bs && fs.Geo().blockSize == s.bs
  {
    hide Ext4Fs.Valid;
    fs.OpenRoot();
  }

  // --- A counter that does not fit ---

  lemma MadeInRoot(u: View, before: Owners, a: Counts, w: View, after: Owners, b: Counts, path: seq<byte>,
                   name: seq<byte>, left: nat, r: Result<nat>)
    requires u == ViewOfShape(FULL) && SplitPath(path) == Ok(([SLASH], name)) && a == CountsOfShape(FULL)
    requires MkdirDone(GeometryOfShape(FULL), u, before, a, w, after, b, path, ROOT_INODE, 1, 2, left, r)
    ensures r.Ok? && b.usedDirs == [0x1_0000]
  {
    hide ViewOfShape, NewDirAs, OthersKept, SplitPath, OtherNamesKept, Reachable, EntryCost, EntryOutcome, DirMade,
      NeededFor, Sum;
    RootIsNew(FULL);
    NeededBound(name);
    NewDirHidesEntries(u, ROOT_INODE, ROOT_INODE, 8192, NeededFor(name));
    assert GeometryOfShape(FULL).GroupOf(2) == 0;
  }

  /**
   The guard that would have told: the group of the root counts 65535 directories, and a 32-byte stride has no more.
   */
  lemma CounterIsFull(name: seq<byte>)
    requires 0 < |name| <= EXT4_NAME_LEN && SLASH !in name && name != DOT && name != DOTDOT
    ensures var a := State(ViewOfShape(FULL), CountsOfShape(FULL), OwnersOfShape(FULL));
      !CounterFits(GeometryOfShape(FULL), a, MakeDirectory([SLASH] + name), SuperblockOf(FULL).GroupDescSize())
  {
    hide ViewOfShape, NewDirAs, SplitPath, Reachable, PlanMkdir, PlanWrite, Superblock.BlockSize;
    var u := ViewOfShape(FULL);
    RootHasNot(FULL, name);
    RootIsNew(FULL);
    NeededBound(name);
    NewDirHidesEntries(u, ROOT_INODE, ROOT_INODE, 8192, NeededFor(name));
    NewDirIsDir(u, ROOT_INODE, ROOT_INODE, 8192);
    assert GeometryOfShape(FULL).GroupOf(2) == 0;
  }

  /**
   On the second volume, which is storable, `mkdir` succeeds and counts 65536 directories. A sync keeps the low half of
   that, and the handle that a mount gives counts none.
   */
  method DirectoriesAreLost(name: seq<byte>) returns (r: Result<nat>, again: Result<Ext4Fs>)
    requires 0 < |name| <= EXT4_NAME_LEN && SLASH !in name && name != DOT && name != DOTDOT
    ensures r.Ok? && again.Ok? && |again.value.groups| == 1 && again.value.groups[0].UsedDirsCount() as int == 0
  {
    hide Ext4Fs.Valid, Ext4Fs.Mounted, Ext4Fs.Vw, Ext4Fs.Cnt, Ext4Fs.Geo, Inv, PlanWrite, PlanMkdir, ViewOfShape,
      Disk, SuperblockOf, GroupOf, FixedOf, MkdirDone, OnlyAllocates, FindsKept, GeometryOfShape, CountsOfShape,
      OwnersOfShape, SplitPath, Counted, Countable, KeptAll, CounterFits, Superblock.GroupDescSize;
    var fs := MountShape(FULL);
    ghost var w, own, c := fs.Vw(), fs.own, fs.Cnt();
    FreeIn(FULL);
    RootHasNot(FULL, name);
    var path := [SLASH] + name;
    CounterIsFull(name);
    assert !CounterFits(fs.Geo(), StateOf(fs), MakeDirectory(path), fs.sb.GroupDescSize());
    fs.OpenRoot();
    r := fs.Mkdir(path);
    fs.OpenRoot();
    MadeInRoot(w, own, c, fs.Vw(), fs.own, fs.Cnt(), path, name, fs.sb.FreeBlocks(), r);
    CountsAre(fs);
    LowHalfLost(fs.sb, fs.groups);
    again := Remount(fs);
  }

  lemma LowHalfLost(sb: Superblock, groups: seq<Group>)
    requires FixedOf(sb, groups) == FixedOf(SuperblockOf(FULL), [GroupOf(FULL)])
      && CountsOf(sb, groups).usedDirs == [0x1_0000]
    ensures Countable(sb) && Counted(sb, groups)
    ensures |KeptAll(sb, groups)| == 1 && KeptAll(sb, groups)[0].UsedDirsCount() as int == 0
  {
    hide SuperblockOf, GroupOf, FixedOf, Superblock.BlockSize, Superblock.GroupDescSize, Superblock.TotalBlocks;
    GeometryIs(FULL);
    BlockSizeIs(FULL);
    FixedFacts(SuperblockOf(FULL), [GroupOf(FULL)], sb, groups);
    assert CountsOf(sb, groups).usedDirs[0] == groups[0].UsedDirsCount();
  }
}
