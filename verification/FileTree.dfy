/**
 Reading (src/readwrite.rs:291-421): file contents, directory lookup and path resolution as functions of the two maps
 of a view. The methods of `Ext4Fs` compute them with loops.
 */
module FileTree {
  import opened Bytes
  import opened Wrappers
  import opened Extent
  import opened ExtentTree
  import opened InodeRecord
  import opened Directory
  import opened Layout
  import opened Path

  // --- Blocks of a file ---

  function LeafBlocks(leaf: ExtentLeaf): (r: seq<nat>)
    ensures |r| == leaf.BlockCount()
  {
    seq(leaf.BlockCount(), (i: nat) => (leaf.PhysicalStart() + i) as nat)
  }

  /** Physical blocks in the order of the leaves. */
  function DataBlocks(leaves: seq<ExtentLeaf>): seq<nat> {
    if leaves == [] then [] else DataBlocks(leaves[..|leaves| - 1]) + LeafBlocks(leaves[|leaves| - 1])
  }

  /** The blocks of the first `k` leaves and then the first `j` of leaf `k`. */
  function RowUpTo(leaves: seq<ExtentLeaf>, k: nat, j: nat): seq<nat>
    requires k < |leaves| && j <= leaves[k].BlockCount()
  {
    DataBlocks(leaves[..k]) + LeafBlocks(leaves[k])[..j]
  }

  lemma {:induction false} LeavesPrefix(leaves: seq<ExtentLeaf>, k: nat)
    requires k <= |leaves|
    ensures DataBlocks(leaves[..k]) <= DataBlocks(leaves)
  {
    if k == |leaves| {
      assert leaves[..k] == leaves;
    } else {
      assert leaves[..|leaves| - 1][..k] == leaves[..k];
      LeavesPrefix(leaves[..|leaves| - 1], k);
    }
  }

  lemma LeafBlockAt(leaf: ExtentLeaf, j: nat)
    requires j < leaf.BlockCount()
    ensures LeafBlocks(leaf)[j] == leaf.PhysicalStart() + j
  {
  }

  lemma OneMoreLeaf(leaves: seq<ExtentLeaf>, k: nat)
    requires k < |leaves|
    ensures DataBlocks(leaves[..k + 1]) == DataBlocks(leaves[..k]) + LeafBlocks(leaves[k])
  {
    hide ExtentLeaf.PhysicalStart, ExtentLeaf.BlockCount;
    assert leaves[..k + 1][..k] == leaves[..k];
  }

  lemma RowUpToEnds(leaves: seq<ExtentLeaf>, k: nat)
    requires k < |leaves|
    ensures RowUpTo(leaves, k, leaves[k].BlockCount()) == DataBlocks(leaves[..k + 1])
    ensures RowUpTo(leaves, k, 0) == DataBlocks(leaves[..k])
  {
    hide DataBlocks, LeafBlocks, ExtentLeaf.BlockCount;
    OneMoreLeaf(leaves, k);
    var all := LeafBlocks(leaves[k]);
    assert all[..|all|] == all;
  }

  /** Walking leaves and their blocks in a nested loop walks the row from left to right. */
  lemma RowUpToNext(leaves: seq<ExtentLeaf>, k: nat, j: nat)
    requires k < |leaves| && j < leaves[k].BlockCount()
    ensures RowUpTo(leaves, k, j + 1) == RowUpTo(leaves, k, j) + [leaves[k].PhysicalStart() + j]
    ensures RowUpTo(leaves, k, j + 1) <= DataBlocks(leaves)
  {
    hide DataBlocks, LeafBlocks, RowUpTo, ExtentLeaf.PhysicalStart, ExtentLeaf.BlockCount;
    RowUpToIs(leaves, k, j);
    RowUpToIs(leaves, k, j + 1);
    LeavesPrefix(leaves, k + 1);
    OneMoreLeaf(leaves, k);
    LeafBlockAt(leaves[k], j);
    PrefixStep(DataBlocks(leaves[..k]), LeafBlocks(leaves[k]), j, DataBlocks(leaves));
  }

  lemma RowUpToIs(leaves: seq<ExtentLeaf>, k: nat, j: nat)
    requires k < |leaves| && j <= leaves[k].BlockCount()
    ensures RowUpTo(leaves, k, j) == DataBlocks(leaves[..k]) + LeafBlocks(leaves[k])[..j]
  {
    hide DataBlocks, LeafBlocks, ExtentLeaf.BlockCount;
  }

  lemma PrefixStep(before: seq<nat>, all: seq<nat>, j: nat, row: seq<nat>)
    requires j < |all| && before + all <= row
    ensures before + all[..j + 1] == before + all[..j] + [all[j]]
    ensures before + all[..j + 1] <= row
  {
    assert before + all[..j + 1] == (before + all)[..|before| + j + 1];
  }

  // --- Directory lookup ---

  /** The first live record with this name in a row of blocks. */
  function ScanFor(blocks: Blocks, row: seq<nat>, name: seq<byte>): Result<Option<DirEntry>> {
    if row == [] then Ok(None)
    else
      var last := row[|row| - 1];
      match ScanFor(blocks, row[..|row| - 1], name)
      case Err(e) => Err(e)
      case Ok(Some(e)) => Ok(Some(e))
      case Ok(None) =>
        if last !in blocks then Err(IoError)
        else match Lookup(blocks[last], name) case Some(item) => Ok(Some(item.1)) case None => Ok(None)
  }

  lemma {:induction false} ScanPrefix(blocks: Blocks, row: seq<nat>, n: nat, name: seq<byte>)
    requires n <= |row| && ScanFor(blocks, row[..n], name) != Ok(None)
    ensures ScanFor(blocks, row, name) == ScanFor(blocks, row[..n], name)
  {
    if n == |row| {
      assert row[..n] == row;
    } else {
      assert row[..|row| - 1][..n] == row[..n];
      ScanPrefix(blocks, row[..|row| - 1], n, name);
    }
  }

  /** `read_inode` on a well-formed volume. */
  function FetchInode(w: View, ino: nat): Result<Inode> {
    if ino == 0 then Err(NotFound) else if ino in w.inodes then Ok(w.inodes[ino]) else Err(Corrupt)
  }

  function LookupInDir(w: View, dir: Inode, name: seq<byte>): Result<(nat, Inode)> {
    match ResolveExtents(w.blocks, dir)
    case Err(e) => Err(e)
    case Ok(leaves) =>
      match ScanFor(w.blocks, DataBlocks(leaves), name)
      case Err(e) => Err(e)
      case Ok(None) => Err(NotFound)
      case Ok(Some(entry)) =>
        match FetchInode(w, entry.inode)
        case Err(e) => Err(e)
        case Ok(n) => Ok((entry.inode, n))
  }

  /** The inode number a directory gives for a name, before the inode itself is read. */
  function FindIno(blocks: Blocks, dir: Inode, name: seq<byte>): Result<Option<nat>> {
    match ResolveExtents(blocks, dir)
    case Err(e) => Err(e)
    case Ok(leaves) =>
      match ScanFor(blocks, DataBlocks(leaves), name)
      case Err(e) => Err(e)
      case Ok(None) => Ok(None)
      case Ok(Some(entry)) => Ok(Some(entry.inode))
  }

  lemma LookupIsFind(w: View, dir: Inode, name: seq<byte>)
    ensures LookupInDir(w, dir, name)
            == match FindIno(w.blocks, dir, name)
               case Err(e) => Err(e)
               case Ok(None) => Err(NotFound)
               case Ok(Some(ino)) => match FetchInode(w, ino) case Err(e) => Err(e) case Ok(n) => Ok((ino, n))
  {
    hide ResolveExtents, ScanFor, DataBlocks;
  }

  // --- Paths ---

  function Walk(w: View, ino: nat, n: Inode, components: seq<seq<byte>>): Result<(nat, Inode)>
    decreases |components|
  {
    if components == [] then Ok((ino, n))
    else if !n.IsDir() then Err(NotADirectory)
    else match LookupInDir(w, n, components[0])
    case Err(e) => Err(e)
    case Ok(found) => Walk(w, found.0, found.1, components[1..])
  }

  function LookupPath(w: View, path: seq<byte>): Result<(nat, Inode)> {
    if path == [] || path[0] != SLASH then Err(InvalidPath)
    else match FetchInode(w, ROOT_INODE)
    case Err(e) => Err(e)
    case Ok(root) => Walk(w, ROOT_INODE, root, Components(path[1..]))
  }

  /** One more component after a directory. */
  function Step(w: View, from: Result<(nat, Inode)>, name: seq<byte>): Result<(nat, Inode)> {
    match from
    case Err(e) => Err(e)
    case Ok(d) => if d.1.IsDir() then LookupInDir(w, d.1, name) else Err(NotADirectory)
  }

  lemma {:induction false} WalkAppend(w: View, ino: nat, n: Inode, components: seq<seq<byte>>, name: seq<byte>)
    ensures Walk(w, ino, n, components + [name]) == Step(w, Walk(w, ino, n, components), name)
    decreases |components|
  {
    hide LookupInDir, Inode.IsDir;
    var all := components + [name];
    if components == [] {
      assert all[1..] == [];
    } else if n.IsDir() && LookupInDir(w, n, components[0]).Ok? {
      var found := LookupInDir(w, n, components[0]).value;
      assert all[1..] == components[1..] + [name];
      WalkAppend(w, found.0, found.1, components[1..], name);
    }
  }

  /**
   What a path leads to, from its last slash on: the root directory for a slash alone, the name looked up in what the
   rest leads to, and with a slash at its end what the rest leads to. A path must start with a slash.
   */
  lemma LookupPathIs(w: View, a: seq<byte>, b: seq<byte>)
    requires SLASH !in b && (a == [] || a[0] == SLASH)
    ensures forall path: seq<byte> :: path == [] || path[0] != SLASH ==> LookupPath(w, path) == Err(InvalidPath)
    ensures a == [] && b == [] ==>
      LookupPath(w, a + [SLASH] + b) == if 2 in w.inodes then Ok((2, w.inodes[2])) else Err(Corrupt)
    ensures a != [] && b == [] ==> LookupPath(w, a + [SLASH] + b) == LookupPath(w, a)
    ensures b != [] ==>
      LookupPath(w, a + [SLASH] + b)
      == match LookupPath(w, if a == [] then [SLASH] else a)
         case Err(e) => Err(e)
         case Ok(d) => if d.1.IsDir() then LookupInDir(w, d.1, b) else Err(NotADirectory)
  {
    hide LookupInDir, Components, Inode.IsDir;
    var path := a + [SLASH] + b;
    NoSlash([]);
    NoSlash(b);
    if a == [] {
      assert path[1..] == b && [SLASH][1..] == [];
      OneComponent(w, b);
    } else {
      assert path[1..] == a[1..] + [SLASH] + b;
      ComponentsAfterSlash(a[1..], b);
      if b == [] {
        assert Components(a[1..]) + [] == Components(a[1..]);
      } else if FetchInode(w, ROOT_INODE).Ok? {
        WalkAppend(w, ROOT_INODE, FetchInode(w, ROOT_INODE).value, Components(a[1..]), b);
      }
    }
  }

  lemma OneComponent(w: View, b: seq<byte>)
    ensures FetchInode(w, ROOT_INODE).Ok? ==>
      var root := FetchInode(w, ROOT_INODE).value;
      && Walk(w, ROOT_INODE, root, []) == Ok((ROOT_INODE, root))
      && Walk(w, ROOT_INODE, root, [b]) == Step(w, Ok((ROOT_INODE, root)), b)
  {
    hide LookupInDir, Inode.IsDir;
    if FetchInode(w, ROOT_INODE).Ok? {
      assert [] + [b] == [b];
      WalkAppend(w, ROOT_INODE, FetchInode(w, ROOT_INODE).value, [], b);
    }
  }

  /** Splitting a path agrees with resolving it: the file name looked up in the parent, repeated slashes included. */
  lemma SplitAgreesWithLookup(w: View, path: seq<byte>)
    requires SplitPath(path).Ok?
    ensures LookupPath(w, path) == Step(w, LookupPath(w, SplitPath(path).value.0), SplitPath(path).value.1)
  {
    hide LookupInDir, Components, SplitPath;
    SplitKeepsComponents(path);
    SplitShape(path);
    var (parent, name) := SplitPath(path).value;
    match FetchInode(w, ROOT_INODE)
    case Err(_) =>
    case Ok(root) => WalkAppend(w, ROOT_INODE, root, Components(parent[1..]), name);
  }

  lemma SplitShape(path: seq<byte>)
    requires SplitPath(path).Ok?
    ensures path != [] && path[0] == SLASH
  {
  }

  // --- Contents ---

  /** `((size + bs - 1) / bs) as u32`. */
  function BlocksToRead(size: u64, bs: nat): (k: nat)
    requires bs > 0
    ensures k < TWO32
  {
    (size + bs - 1) % TWO64 / bs % TWO32
  }

  /**
   With `n` the number of blocks that `size` bytes take, it is `n` modulo 2^32; it is 0 when the rounding wraps, for the
   last sizes below 2^64.
   */
  lemma BlocksToReadIs(size: u64, bs: nat) returns (n: nat)
    requires 0 < bs < TWO32
    ensures OffsetOf(n, bs) < size + bs && size <= OffsetOf(n, bs)
    ensures BlocksToRead(size, bs) == if size + bs - 1 < TWO64 then n % TWO32 else 0
  {
    hide OffsetOf;
    n := (size + bs - 1) / bs;
    OffsetSplit(size + bs - 1, bs);
    if size + bs - 1 >= TWO64 {
      Wrapped(size + bs - 1, bs);
    } else {
      SmallMod(size + bs - 1, TWO64);
    }
  }

  lemma Wrapped(x: nat, bs: nat)
    requires TWO64 <= x < TWO64 + bs && bs < TWO32
    ensures x % TWO64 / bs == 0
  {
    assert x % TWO64 == x - TWO64;
  }

  /** The first `k` logical blocks one after the other. */
  function ReadBlocks(blocks: Blocks, leaves: seq<ExtentLeaf>, k: nat): Result<seq<byte>>
    requires k <= TWO32
  {
    if k == 0 then Ok([])
    else
      match ReadBlocks(blocks, leaves, k - 1)
      case Err(e) => Err(e)
      case Ok(before) =>
        match MapLogical(leaves, k - 1)
        case None => Err(Corrupt)
        case Some(phys) => if phys in blocks then Ok(before + blocks[phys]) else Err(IoError)
  }

  function Truncate(data: seq<byte>, n: nat): seq<byte> {
    if n < |data| then data[..n] else data
  }

  function ReadData(w: View, n: Inode, bs: nat): Result<seq<byte>>
    requires bs > 0
  {
    if n.Size() == 0 then Ok([])
    else match ResolveExtents(w.blocks, n)
    case Err(e) => Err(e)
    case Ok(leaves) =>
      match ReadBlocks(w.blocks, leaves, BlocksToRead(n.Size(), bs))
      case Err(e) => Err(e)
      case Ok(data) => Ok(Truncate(data, n.Size()))
  }

  function ReadFile(w: View, path: seq<byte>, bs: nat): Result<seq<byte>>
    requires bs > 0
  {
    match LookupPath(w, path)
    case Err(e) => Err(e)
    case Ok(found) => if found.1.IsDir() then Err(IsADirectory) else ReadData(w, found.1, bs)
  }

  /** Reading a path: what keeps it from leading to a file, then an empty file, then what its tree and blocks give. */
  lemma ReadFileIs(w: View, path: seq<byte>, bs: nat)
    requires bs > 0
    ensures match LookupPath(w, path)
            case Err(e) => ReadFile(w, path, bs) == Err(e)
            case Ok((_, n)) =>
              if n.IsDir() then ReadFile(w, path, bs) == Err(IsADirectory)
              else
                && ReadFile(w, path, bs) == ReadData(w, n, bs)
                && (n.Size() == 0 ==> ReadFile(w, path, bs) == Ok([]))
                && (n.Size() > 0 && ResolveExtents(w.blocks, n).Err? ==>
                  ReadFile(w, path, bs) == Err(ResolveExtents(w.blocks, n).error))
  {
    hide LookupPath, Inode.IsDir, Inode.Size, ResolveExtents, ReadBlocks, BlocksToRead;
  }

  ghost predicate BlocksOfSize(blocks: Blocks, bs: nat) {
    forall b | b in blocks :: |blocks[b]| == bs
  }

  /** Block by block: what was read for logical block `q` is the physical block it maps to. */
  lemma {:induction false} ReadBlocksAt(blocks: Blocks, leaves: seq<ExtentLeaf>, k: nat, bs: nat, q: nat)
    requires k <= TWO32 && bs > 0 && BlocksOfSize(blocks, bs)
    requires ReadBlocks(blocks, leaves, k).Ok?
    ensures |ReadBlocks(blocks, leaves, k).value| == OffsetOf(k, bs)
    ensures q < k ==>
      && MapLogical(leaves, q).Some? && MapLogical(leaves, q).value in blocks
      && OffsetOf(q, bs) + bs <= OffsetOf(k, bs)
      && ReadBlocks(blocks, leaves, k).value[OffsetOf(q, bs)..OffsetOf(q, bs) + bs]
        == blocks[MapLogical(leaves, q).value]
  {
    hide MapLogical;
    OffsetsOrdered(q, k, bs);
    if k > 0 {
      ReadBlocksAt(blocks, leaves, k - 1, bs, q);
      OffsetNext(k - 1, bs);
      OffsetsOrdered(q, k - 1, bs);
      hide OffsetOf;
      assert ReadBlocks(blocks, leaves, k).value[..OffsetOf(k - 1, bs)] == ReadBlocks(blocks, leaves, k - 1).value;
    }
  }

  lemma OffsetNext(i: nat, size: nat)
    ensures OffsetOf(i + 1, size) == OffsetOf(i, size) + size && OffsetOf(0, size) == 0
  {
  }

  lemma BlocksCoverSize(size: u64, bs: nat)
    requires bs > 0 && size + bs - 1 < OffsetOf(TWO32, bs) && size + bs - 1 < TWO64
    ensures size <= OffsetOf(BlocksToRead(size, bs), bs) < size + bs
  {
    hide OffsetOf, BlocksToRead;
    OffsetSplit(size + bs - 1, bs);
    OffsetsOrdered(TWO32, (size + bs - 1) / bs, bs);
    CountOfBlocks(size, bs);
  }

  /** Byte `r` of logical block `q` of a file is byte `r` of the physical block that `q` maps to. */
  ghost predicate ByteRead(blocks: Blocks, leaves: seq<ExtentLeaf>, data: seq<byte>, bs: nat, q: u32, r: nat) {
    r < bs && OffsetOf(q, bs) + r < |data| ==>
      match MapLogical(leaves, q)
      case Some(phys) => phys in blocks && r < |blocks[phys]| && data[OffsetOf(q, bs) + r] == blocks[phys][r]
      case None => false
  }

  /**
   A successful read returns exactly `size` bytes, each from the block its logical block maps to, below 2^32 blocks.
   */
  lemma ReadPointwise(w: View, n: Inode, bs: nat)
    requires bs > 0 && n.Size() + bs - 1 < OffsetOf(TWO32, bs) && n.Size() + bs - 1 < TWO64
      && BlocksOfSize(w.blocks, bs)
    requires ReadData(w, n, bs).Ok? && n.Size() > 0
    ensures |ReadData(w, n, bs).value| == n.Size()
    ensures forall q: u32, r: nat ::
      ByteRead(w.blocks, ResolveExtents(w.blocks, n).value, ReadData(w, n, bs).value, bs, q, r)
  {
    hide MapLogical, ReadBlocks, ResolveExtents, OffsetOf, BlocksToRead, Inode.Size;
    var leaves := ResolveExtents(w.blocks, n).value;
    var k := BlocksToRead(n.Size(), bs);
    var all := ReadBlocks(w.blocks, leaves, k).value;
    BlocksCoverSize(n.Size(), bs);
    ReadBlocksAt(w.blocks, leaves, k, bs, 0);
    forall q: u32, r: nat | r < bs && OffsetOf(q, bs) + r < n.Size()
      ensures ByteRead(w.blocks, leaves, ReadData(w, n, bs).value, bs, q, r)
    {
      OffsetsOrdered(k, q, bs);
      ReadBlocksAt(w.blocks, leaves, k, bs, q);
      assert all[OffsetOf(q, bs)..OffsetOf(q, bs) + bs][r] == all[OffsetOf(q, bs) + r];
    }
  }

  /** Logical block `q` is mapped to a block of the device. */
  predicate CanRead(blocks: Blocks, leaves: seq<ExtentLeaf>, q: u32) {
    MapLogical(leaves, q).Some? && MapLogical(leaves, q).value in blocks
  }

  /** Reading stops at the first block that is not mapped, with `Corrupt`, or not on the device, with `IoError`. */
  lemma {:induction false} ReadStopsAt(blocks: Blocks, leaves: seq<ExtentLeaf>, k: nat, q: nat)
    requires q <= k <= TWO32 && forall p: u32 :: p < q ==> CanRead(blocks, leaves, p)
    ensures q == k ==> ReadBlocks(blocks, leaves, k).Ok?
    ensures q < k && !CanRead(blocks, leaves, q) ==>
      ReadBlocks(blocks, leaves, k) == Err(if MapLogical(leaves, q) == None then Corrupt else IoError)
    decreases k
  {
    hide MapLogical;
    if k > 0 {
      if q == k {
        assert CanRead(blocks, leaves, k - 1);
        ReadStopsAt(blocks, leaves, k - 1, k - 1);
      } else {
        ReadStopsAt(blocks, leaves, k - 1, q);
      }
    }
  }

  ghost predicate Readable(blocks: Blocks, leaves: seq<ExtentLeaf>, k: nat) {
    forall q: u32 :: q < k && MapLogical(leaves, q).Some? ==> MapLogical(leaves, q).value in blocks
  }

  ghost predicate Unmapped(leaves: seq<ExtentLeaf>, q: u32) {
    MapLogical(leaves, q) == None
  }

  /** With every mapped block readable, reading fails exactly when some logical block in range is unmapped. */
  lemma {:induction false} ReadFailsOnHoles(blocks: Blocks, leaves: seq<ExtentLeaf>, k: nat)
    requires k <= TWO32 && Readable(blocks, leaves, k)
    ensures ReadBlocks(blocks, leaves, k).Err? <==> exists q: u32 :: q < k && Unmapped(leaves, q)
    ensures ReadBlocks(blocks, leaves, k).Err? ==> ReadBlocks(blocks, leaves, k).error == Corrupt
  {
    hide MapLogical;
    if k > 0 {
      ReadFailsOnHoles(blocks, leaves, k - 1);
      if MapLogical(leaves, k - 1) == None {
        assert Unmapped(leaves, k - 1);
      }
    }
  }

  lemma InRange(size: u64, bs: nat, q: u32)
    requires bs > 0 && size + bs - 1 < OffsetOf(TWO32, bs) && size + bs - 1 < TWO64
    ensures q < BlocksToRead(size, bs) <==> OffsetOf(q, bs) < size
  {
    hide OffsetOf, BlocksToRead;
    var k := BlocksToRead(size, bs);
    BlocksCoverSize(size, bs);
    OffsetsOrdered(q, k, bs);
    OffsetsOrdered(k, q, bs);
  }

  /**
   With a tree that resolves and readable blocks, reading a file fails exactly when a block below its size is unmapped.
   */
  lemma ReadFailsExactly(w: View, n: Inode, bs: nat)
    requires bs > 0 && n.Size() + bs - 1 < OffsetOf(TWO32, bs) && n.Size() + bs - 1 < TWO64
    requires ResolveExtents(w.blocks, n).Ok?
      && Readable(w.blocks, ResolveExtents(w.blocks, n).value, BlocksToRead(n.Size(), bs))
    ensures ReadData(w, n, bs).Err? <==>
      exists q: u32 :: OffsetOf(q, bs) < n.Size() && Unmapped(ResolveExtents(w.blocks, n).value, q)
  {
    hide OffsetOf, BlocksToRead, ReadBlocks, ResolveExtents, Unmapped, Inode.Size, Readable;
    var leaves, k := ResolveExtents(w.blocks, n).value, BlocksToRead(n.Size(), bs);
    ReadFailsOnHoles(w.blocks, leaves, k);
    forall q: u32
      ensures q < k <==> OffsetOf(q, bs) < n.Size()
    {
      InRange(n.Size(), bs, q);
    }
  }

  // --- What a file depends on ---

  ghost function TreeNodes(blocks: Blocks, n: Inode): set<nat> {
    match n.Header()
    case Some(h) => Nodes(blocks, n.iBlock, h.depth)
    case None => {}
  }

  ghost function DataSet(blocks: Blocks, n: Inode): set<nat> {
    match ResolveExtents(blocks, n)
    case Ok(leaves) => set b | b in DataBlocks(leaves)
    case Err(_) => {}
  }

  /** Every block that reading an inode can touch. */
  ghost function Footprint(blocks: Blocks, n: Inode): set<nat> {
    TreeNodes(blocks, n) + DataSet(blocks, n)
  }

  lemma TreeFrame(a: Blocks, b: Blocks, n: Inode)
    requires SameOn(a, b, Footprint(a, n))
    ensures ResolveExtents(a, n) == ResolveExtents(b, n)
    ensures TreeNodes(a, n) == TreeNodes(b, n) && Footprint(a, n) == Footprint(b, n)
  {
    hide Resolve, Nodes, HeaderAt, Leaves;
    match n.Header()
    case Some(h) => ResolveFrame(a, b, n.iBlock, h.depth);
    case None =>
  }

  lemma {:induction false} ScanFrame(a: Blocks, b: Blocks, row: seq<nat>, name: seq<byte>)
    requires forall x | x in row :: (x in a <==> x in b) && (x in a ==> a[x] == b[x])
    ensures ScanFor(a, row, name) == ScanFor(b, row, name)
  {
    hide Lookup;
    if row != [] {
      ScanFrame(a, b, row[..|row| - 1], name);
    }
  }

  lemma {:induction false} InLeafBlocks(leaves: seq<ExtentLeaf>, k: nat, i: nat)
    requires k < |leaves| && i < leaves[k].BlockCount()
    ensures leaves[k].PhysicalStart() + i in DataBlocks(leaves)
  {
    hide ExtentLeaf.BlockCount, ExtentLeaf.PhysicalStart;
    var last := |leaves| - 1;
    if k == last {
      assert LeafBlocks(leaves[k])[i] == leaves[k].PhysicalStart() + i;
    } else {
      InLeafBlocks(leaves[..last], k, i);
    }
  }

  lemma MappedIsData(leaves: seq<ExtentLeaf>, q: u32)
    requires MapLogical(leaves, q).Some?
    ensures MapLogical(leaves, q).value in DataBlocks(leaves)
  {
    hide DataBlocks;
    var leaf := FindLeaf(leaves, q).value;
    var k :| 0 <= k < |leaves| && leaves[k] == leaf;
    InLeafBlocks(leaves, k, q - leaf.block);
  }

  lemma {:induction false} ReadBlocksFrame(a: Blocks, b: Blocks, leaves: seq<ExtentLeaf>, k: nat)
    requires k <= TWO32 && forall x | x in DataBlocks(leaves) :: (x in a <==> x in b) && (x in a ==> a[x] == b[x])
    ensures ReadBlocks(a, leaves, k) == ReadBlocks(b, leaves, k)
  {
    hide MapLogical, DataBlocks;
    if k > 0 {
      ReadBlocksFrame(a, b, leaves, k - 1);
      if MapLogical(leaves, k - 1).Some? {
        MappedIsData(leaves, k - 1);
      }
    }
  }

  /** An inode reads the same as long as the blocks of its footprint do. */
  lemma ReadDataFrame(v: View, w: View, n: Inode, bs: nat)
    requires bs > 0 && SameOn(v.blocks, w.blocks, Footprint(v.blocks, n))
    ensures ReadData(v, n, bs) == ReadData(w, n, bs)
  {
    hide ResolveExtents, TreeNodes, ReadBlocks, DataBlocks, BlocksToRead, Inode.Size;
    TreeFrame(v.blocks, w.blocks, n);
    if ResolveExtents(v.blocks, n).Ok? {
      ReadBlocksFrame(v.blocks, w.blocks, ResolveExtents(v.blocks, n).value, BlocksToRead(n.Size(), bs));
    }
  }

  // --- Files as the write path makes them ---

  /** `phys` mapped by one single-block extent. */
  function OneBlockLeaf(logical: u32, phys: nat): ExtentLeaf {
    ExtentLeaf(logical, 1, phys / TWO32 % TWO16, phys % TWO32)
  }

  lemma OneBlockLeafBlocks(logical: u32, phys: nat)
    requires phys < 0x1_0000_0000_0000
    ensures LeafBlocks(OneBlockLeaf(logical, phys)) == [phys]
  {
    assert OneBlockLeaf(logical, phys).PhysicalStart() == phys;
  }

  lemma AppendedBlocks(leaves: seq<ExtentLeaf>, logical: u32, phys: nat)
    requires phys < 0x1_0000_0000_0000
    ensures DataBlocks(leaves + [OneBlockLeaf(logical, phys)]) == DataBlocks(leaves) + [phys]
  {
    OneBlockLeafBlocks(logical, phys);
    assert (leaves + [OneBlockLeaf(logical, phys)])[..|leaves|] == leaves;
  }

  /** Logical blocks 0, 1, ... mapped one by one to `bl`. */
  ghost predicate MapsInOrder(leaves: seq<ExtentLeaf>, bl: seq<nat>) {
    |leaves| == |bl| && |bl| + 1 < TWO32
      && forall i :: 0 <= i < |bl| ==> leaves[i] == OneBlockLeaf(i, bl[i]) && bl[i] < 0x1_0000_0000_0000
  }

  lemma OneBlockLeafMaps(logical: u32, phys: nat)
    requires phys < 0x1_0000_0000_0000 && logical + 1 < TWO32
    ensures var leaf := OneBlockLeaf(logical, phys);
      leaf.BlockCount() == 1 && leaf.LogicalEnd() == logical + 1 && leaf.PhysicalStart() == phys
        && leaf.ContainsBlock(logical)
  {
  }

  lemma MapsInOrderMaps(leaves: seq<ExtentLeaf>, bl: seq<nat>, i: nat)
    requires MapsInOrder(leaves, bl) && i < |bl|
    ensures OrderedLeaves(leaves, 0, |bl|) && MapLogical(leaves, i) == Some(bl[i])
  {
    hide MapLogical, OneBlockLeaf, ExtentLeaf.PhysicalStart, ExtentLeaf.BlockCount, ExtentLeaf.LogicalEnd,
      ExtentLeaf.ContainsBlock;
    forall k: nat | k < |bl|
      ensures leaves[k].BlockCount() == 1 && leaves[k].block == k && leaves[k].PhysicalStart() == bl[k]
        && leaves[k].ContainsBlock(k)
    {
      assert leaves[k] == OneBlockLeaf(k, bl[k]);
      OneBlockLeafMaps(k, bl[k]);
      OneBlockLeafBlock(k, bl[k]);
    }
    FirstMatchIsOnlyMatch(leaves, 0, |bl|, i, i);
  }

  lemma OneBlockLeafBlock(logical: u32, phys: nat)
    ensures OneBlockLeaf(logical, phys).block == logical
  {
  }

  lemma {:induction false} NextInOrder(leaves: seq<ExtentLeaf>, bl: seq<nat>)
    requires MapsInOrder(leaves, bl)
    ensures NextLogical(leaves) == |bl|
  {
    hide OneBlockLeaf, ExtentLeaf.LogicalEnd;
    if bl != [] {
      assert leaves[|leaves| - 1] == OneBlockLeaf(|bl| - 1, bl[|bl| - 1]);
      OneBlockLeafMaps(|bl| - 1, bl[|bl| - 1]);
      NextInOrder(leaves[..|leaves| - 1], bl[..|bl| - 1]);
    }
  }

  /** `data[start..end]` copied into a zeroed block. */
  function Chunk(data: seq<byte>, bs: nat, i: nat): (r: seq<byte>)
    requires OffsetOf(i, bs) <= |data|
    ensures |r| == bs
  {
    var start := OffsetOf(i, bs);
    var end := Min(start + bs, |data|);
    Splice(Zeros(bs), 0, data[start..end])
  }

  ghost predicate Stores(blocks: Blocks, bl: seq<nat>, data: seq<byte>, bs: nat) {
    forall i :: 0 <= i < |bl| ==> OffsetOf(i, bs) <= |data| && bl[i] in blocks && blocks[bl[i]] == Chunk(data, bs, i)
  }

  /** The first `n` bytes of `data`, with zeros behind its end. */
  function Padded(data: seq<byte>, n: nat): (r: seq<byte>)
    ensures |r| == n
  {
    seq(n, i requires 0 <= i < n => if i < |data| then data[i] else 0)
  }

  /** Blocks that hold the chunks of `data` in order read back as `data` and zeros. */
  lemma {:induction false} ReadBackChunks(blocks: Blocks, leaves: seq<ExtentLeaf>, bl: seq<nat>, data: seq<byte>,
                                          bs: nat, k: nat)
    requires MapsInOrder(leaves, bl) && Stores(blocks, bl, data, bs) && k <= |bl| && bs > 0
    ensures ReadBlocks(blocks, leaves, k) == Ok(Padded(data, OffsetOf(k, bs)))
  {
    hide MapLogical, MapsInOrder, OffsetOf, Chunk, Padded;
    OffsetNext(if k > 0 then k - 1 else 0, bs);
    OrderedCount(leaves, bl);
    if k == 0 {
      assert Padded(data, 0) == [];
    } else {
      ReadBackChunks(blocks, leaves, bl, data, bs, k - 1);
      MapsInOrderMaps(leaves, bl, k - 1);
      assert bl[k - 1] in blocks;
      JoinChunk(data, bs, k - 1);
    }
  }

  lemma ChunkIs(data: seq<byte>, bs: nat, i: nat, j: nat)
    requires OffsetOf(i, bs) <= |data| && j < bs
    ensures Chunk(data, bs, i)[j] == if OffsetOf(i, bs) + j < |data| then data[OffsetOf(i, bs) + j] else 0
  {
    hide OffsetOf;
  }

  lemma JoinChunk(data: seq<byte>, bs: nat, i: nat)
    requires OffsetOf(i, bs) <= |data|
    ensures Padded(data, OffsetOf(i, bs)) + Chunk(data, bs, i) == Padded(data, OffsetOf(i + 1, bs))
  {
    hide OffsetOf, Chunk;
    OffsetNext(i, bs);
    var start := OffsetOf(i, bs);
    var r, s := Padded(data, start) + Chunk(data, bs, i), Padded(data, start + bs);
    forall j | 0 <= j < start + bs
      ensures r[j] == s[j]
    {
      if j >= start { ChunkIs(data, bs, i, j - start); }
    }
  }

  /** Reading past the blocks that are mapped fails. */
  lemma {:induction false} ReadPastEnd(blocks: Blocks, leaves: seq<ExtentLeaf>, bl: seq<nat>, data: seq<byte>, bs: nat,
                                       k: nat)
    requires MapsInOrder(leaves, bl) && Stores(blocks, bl, data, bs) && |bl| < k <= TWO32 && bs > 0
    ensures ReadBlocks(blocks, leaves, k) == Err(Corrupt)
  {
    hide MapLogical, MapsInOrder, OffsetOf, Chunk, Padded, Stores;
    if k == |bl| + 1 {
      ReadBackChunks(blocks, leaves, bl, data, bs, |bl|);
      NothingMappedAt(leaves, bl);
    } else {
      ReadPastEnd(blocks, leaves, bl, data, bs, k - 1);
    }
  }

  lemma NothingMappedAt(leaves: seq<ExtentLeaf>, bl: seq<nat>)
    requires MapsInOrder(leaves, bl)
    ensures |bl| < TWO32 && MapLogical(leaves, |bl|) == None
  {
    hide ExtentLeaf.PhysicalStart, ExtentLeaf.BlockCount, ExtentLeaf.LogicalEnd, ExtentLeaf.ContainsBlock;
    if bl == [] {
    } else {
      MapsInOrderMaps(leaves, bl, 0);
      NotCovered(leaves, 0, |bl|, |bl|);
    }
  }

  /** What an inode of `size` bytes reads as whose first `count` blocks hold `data` and whose others are not mapped. */
  function PrefixRead(count: nat, data: seq<byte>, size: u64, bs: nat): Result<seq<byte>>
    requires bs > 0
  {
    if size == 0 then Ok([])
    else if BlocksToRead(size, bs) > count then Err(Corrupt)
    else Ok(Truncate(Padded(data, OffsetOf(BlocksToRead(size, bs), bs)), size))
  }

  /**
   It fails exactly when the size reaches past the blocks, and otherwise gives the data cut, or padded, to the size.
   */
  lemma PrefixReadIs(count: nat, data: seq<byte>, size: u64, bs: nat)
    requires bs > 0 && size + bs - 1 < OffsetOf(TWO32, bs) && size + bs - 1 < TWO64
    ensures PrefixRead(count, data, size, bs) == if size > OffsetOf(count, bs) then Err(Corrupt)
      else Ok(Padded(data, size))
  {
    hide OffsetOf, BlocksToRead;
    var k := BlocksToRead(size, bs);
    BlocksCoverSize(size, bs);
    OffsetsOrdered(k, count, bs);
    OffsetsOrdered(count, k, bs);
    OffsetNext(0, bs);
    if size == 0 {
      assert Padded(data, 0) == [];
    } else if k <= count {
      var r := Padded(data, OffsetOf(k, bs));
      assert Truncate(r, size) == Padded(data, size);
    }
  }

  lemma ReadsPrefix(w: View, n: Inode, bl: seq<nat>, data: seq<byte>, bs: nat)
    requires bs > 0 && n.UsesExtents() && n.Header().Some? && n.Header().value.IsLeaf()
    requires MapsInOrder(Leaves(n.iBlock), bl) && Stores(w.blocks, bl, data, bs)
    ensures ReadData(w, n, bs) == PrefixRead(|bl|, data, n.Size(), bs)
  {
    hide MapsInOrder, Stores, ReadBlocks, Leaves, OffsetOf, Inode.Header, Inode.Size, Inode.UsesExtents, BlocksToRead,
      Padded;
    var k := BlocksToRead(n.Size(), bs);
    if k > |bl| {
      ReadPastEnd(w.blocks, Leaves(n.iBlock), bl, data, bs, k);
    } else {
      ReadBackChunks(w.blocks, Leaves(n.iBlock), bl, data, bs, k);
    }
  }

  /** The read half of read-after-write. */
  lemma ReadsBack(w: View, n: Inode, bl: seq<nat>, data: seq<byte>, bs: nat)
    requires bs > 0 && n.UsesExtents() && n.Header().Some? && n.Header().value.IsLeaf()
    requires MapsInOrder(Leaves(n.iBlock), bl) && Stores(w.blocks, bl, data, bs)
    requires n.Size() == |data| && |bl| == (|data| + bs - 1) / bs && |data| + bs - 1 < TWO64
    ensures ReadData(w, n, bs) == Ok(data)
  {
    hide MapsInOrder, Stores, Leaves, OffsetOf, Inode.Header, Inode.Size, Inode.UsesExtents, BlocksToRead, ReadData;
    OrderedCount(Leaves(n.iBlock), bl);
    CountOfBlocks(|data|, bs);
    ReadsPrefix(w, n, bl, data, bs);
    OffsetSplit(|data| + bs - 1, bs);
    if |data| > 0 {
      assert Truncate(Padded(data, OffsetOf(|bl|, bs)), |data|) == data;
    } else {
      assert data == [];
    }
  }

  lemma CountOfBlocks(size: u64, bs: nat)
    requires bs > 0 && size + bs - 1 < TWO64 && (size + bs - 1) / bs < TWO32
    ensures BlocksToRead(size, bs) == (size + bs - 1) / bs
  {
    SmallMod(size + bs - 1, TWO64);
    SmallMod((size + bs - 1) / bs, TWO32);
  }

  lemma SmallMod(x: nat, m: nat)
    requires x < m
    ensures x % m == x
  {
  }

  lemma OrderedCount(leaves: seq<ExtentLeaf>, bl: seq<nat>)
    requires MapsInOrder(leaves, bl)
    ensures |bl| + 1 < TWO32
  {
  }
}
