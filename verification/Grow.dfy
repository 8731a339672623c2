/**
 Inodes whose extent tree is a root node (src/readwrite.rs:634-680): what `append_extent` makes of them, and when their
 record may be written.
 */
module Grow {
  import opened Bytes
  import opened Wrappers
  import opened Extent
  import opened ExtentTree
  import opened InodeRecord
  import opened Directory
  import opened Layout
  import opened FileTree
  import opened DirRow
  import opened Invariant

  /** The tree of the inode is its root node. */
  predicate LeafRoot(n: Inode) {
    n.UsesExtents() && n.Header().Some? && n.Header().value.IsLeaf()
  }

  /** The physical blocks of such an inode, in order. */
  function RootBlocks(n: Inode): seq<nat> {
    DataBlocks(Leaves(n.iBlock))
  }

  ghost function SetOf(s: seq<nat>): set<nat> {
    set b | b in s
  }

  lemma LeafRootTree(blocks: Blocks, n: Inode)
    requires LeafRoot(n)
    ensures ResolveExtents(blocks, n) == Ok(Leaves(n.iBlock)) && TreeNodes(blocks, n) == {}
    ensures Footprint(blocks, n) == SetOf(RootBlocks(n))
  {
    hide HeaderAt, Leaves, DataBlocks;
  }

  /** `append_extent`: one more single-block extent at the logical end, unless the root is an index node or full. */
  function AppendTo(n: Inode, phys: nat): Result<Inode>
    requires RootFits(n)
  {
    match n.Header()
    case None => Err(Corrupt)
    case Some(h) =>
      if !h.IsLeaf() || h.entries >= h.max then Err(UnsupportedFeature)
      else Ok(n.(iBlock := WithLeaf(n.iBlock, h.entries, OneBlockLeaf(NextLogical(Leaves(n.iBlock)), phys))))
  }

  lemma AppendToFacts(n: Inode, phys: nat)
    requires RootFits(n) && AppendTo(n, phys).Ok? && phys < 0x1_0000_0000_0000
    ensures LeafRoot(n)
    ensures var m := AppendTo(n, phys).value;
      && LeafRoot(m) && RootFits(m) && m == n.(iBlock := m.iBlock)
      && m.Header() == Some(n.Header().value.(entries := n.Header().value.entries + 1))
      && Leaves(m.iBlock) == Leaves(n.iBlock) + [OneBlockLeaf(NextLogical(Leaves(n.iBlock)), phys)]
      && RootBlocks(m) == RootBlocks(n) + [phys]
  {
    hide HeaderAt, Leaves, WithLeaf, DataBlocks, NextLogical, OneBlockLeaf, RecordOffset;
    var h := n.Header().value;
    var leaf := OneBlockLeaf(NextLogical(Leaves(n.iBlock)), phys);
    RootCapacity(h.entries as int);
    AppendRefinesSequence(n.iBlock, h, leaf);
    AppendedBlocks(Leaves(n.iBlock), NextLogical(Leaves(n.iBlock)), phys);
  }

  /** The leaves map exactly one logical block more, the one past their old end, and it maps to `phys`. */
  ghost predicate MapsOneMore(a: seq<ExtentLeaf>, b: seq<ExtentLeaf>, phys: nat) {
    forall q: u32 :: MapLogical(b, q) == if q == NextLogical(a) then Some(phys) else MapLogical(a, q)
  }

  /** Leaves in order and disjoint stay so, and map one logical block more, as long as block numbers stay in 32 bits. */
  ghost predicate OrderGrows(a: Inode, b: Inode, phys: nat) {
    forall hi: nat {:trigger OrderedLeaves(Leaves(a.iBlock), 0, hi)} ::
      OrderedLeaves(Leaves(a.iBlock), 0, hi) && hi + 1 < TWO32 ==>
        OrderedLeaves(Leaves(b.iBlock), 0, hi + 1) && MapsOneMore(Leaves(a.iBlock), Leaves(b.iBlock), phys)
  }

  lemma OrderedPrefix(leaves: seq<ExtentLeaf>, hi: nat)
    requires OrderedLeaves(leaves, 0, hi) && leaves != []
    ensures OrderedLeaves(leaves[..|leaves| - 1], 0, hi)
  {
    hide ExtentLeaf.BlockCount;
    var s := leaves[..|leaves| - 1];
    forall k | 0 <= k < |s|
      ensures s[k] == leaves[k]
    {
    }
  }

  lemma {:induction false} NextLogicalEnds(leaves: seq<ExtentLeaf>, hi: nat)
    requires OrderedLeaves(leaves, 0, hi)
    ensures NextLogical(leaves) <= hi
    ensures forall k :: 0 <= k < |leaves| ==>
      leaves[k].LogicalEnd() as int == leaves[k].block + leaves[k].BlockCount()
        && leaves[k].LogicalEnd() <= NextLogical(leaves)
  {
    hide ExtentLeaf.BlockCount;
    if leaves != [] {
      var last := |leaves| - 1;
      assert OrderedLeaves(leaves[..last], 0, hi) by { OrderedPrefix(leaves, hi); }
      NextLogicalEnds(leaves[..last], hi);
      assert leaves[last].block + leaves[last].BlockCount() <= hi;
      forall k | 0 <= k < last
        ensures leaves[k].LogicalEnd() as int == leaves[k].block + leaves[k].BlockCount()
          && leaves[k].LogicalEnd() <= NextLogical(leaves)
      {
        assert leaves[k] == leaves[..last][k];
      }
    }
  }

  lemma OneLeafMaps(q: u32, next: u32, phys: nat)
    requires phys < 0x1_0000_0000_0000 && next + 1 < TWO32
    ensures MapLogical([OneBlockLeaf(next, phys)], q) == if q == next then Some(phys) else None
  {
    hide OneBlockLeaf, ExtentLeaf.BlockCount, ExtentLeaf.PhysicalStart, ExtentLeaf.LogicalEnd;
    var leaf := OneBlockLeaf(next, phys);
    OneBlockLeafMaps(next, phys);
    OneBlockLeafBlock(next, phys);
    assert [leaf][1..] == [];
  }

  lemma MapsConcat(a: seq<ExtentLeaf>, b: seq<ExtentLeaf>, q: u32)
    ensures MapLogical(a + b, q) == if MapLogical(a, q).Some? then MapLogical(a, q) else MapLogical(b, q)
  {
    hide ExtentLeaf.PhysicalStart, ExtentLeaf.LogicalEnd;
    FindLeafConcat(a, b, q);
  }

  /** An append keeps order and disjointness, whatever leaves were there before. */
  lemma AppendKeepsOrder(n: Inode, phys: nat)
    requires RootFits(n) && AppendTo(n, phys).Ok? && phys < 0x1_0000_0000_0000
    ensures OrderGrows(n, AppendTo(n, phys).value, phys)
  {
    hide RootFits, AppendTo, LeafRoot, Leaves, NextLogical, OneBlockLeaf, OrderedLeaves, MapLogical, RootBlocks,
      Inode.Header;
    AppendToFacts(n, phys);
    var a, next := Leaves(n.iBlock), NextLogical(Leaves(n.iBlock));
    forall hi: nat | OrderedLeaves(a, 0, hi) && hi + 1 < TWO32
      ensures OrderedLeaves(a + [OneBlockLeaf(next, phys)], 0, hi + 1)
        && MapsOneMore(a, a + [OneBlockLeaf(next, phys)], phys)
    {
      NextLogicalEnds(a, hi);
      OneMoreOrdered(a, hi, next, phys);
      NothingAtEnd(a, hi);
      forall q: u32
        ensures MapLogical(a + [OneBlockLeaf(next, phys)], q) == if q == next then Some(phys) else MapLogical(a, q)
      {
        MapsConcat(a, [OneBlockLeaf(next, phys)], q);
        OneLeafMaps(q, next, phys);
      }
    }
  }

  lemma OneMoreOrdered(a: seq<ExtentLeaf>, hi: nat, next: u32, phys: nat)
    requires OrderedLeaves(a, 0, hi) && hi + 1 < TWO32 && next == NextLogical(a) && phys < 0x1_0000_0000_0000
    ensures OrderedLeaves(a + [OneBlockLeaf(next, phys)], 0, hi + 1)
  {
    hide OneBlockLeaf, NextLogical, ExtentLeaf.BlockCount, ExtentLeaf.LogicalEnd, ExtentLeaf.PhysicalStart;
    NextLogicalEnds(a, hi);
    OneBlockLeafMaps(next, phys);
    OneBlockLeafBlock(next, phys);
  }

  lemma NothingAtEnd(a: seq<ExtentLeaf>, hi: nat)
    requires OrderedLeaves(a, 0, hi)
    ensures MapLogical(a, NextLogical(a)) == None
  {
    hide NextLogical, ExtentLeaf.BlockCount, ExtentLeaf.LogicalEnd, ExtentLeaf.PhysicalStart, OrderedLeaves;
    NextLogicalEnds(a, hi);
  }

  lemma RootCapacity(entries: nat)
    requires entries < ROOT_MAX_ENTRIES as int
    ensures RecordOffset(entries) + RECORD_SIZE <= I_BLOCK_SIZE
  {
  }

  /** Inode `m` is `n` with another tree, another size and this link count; a short record drops the extra fields. */
  predicate Regrown(n: Inode, m: Inode, links: u16) {
    && m == n.(iBlock := m.iBlock, sizeLo := m.sizeLo, sizeHi := m.sizeHi, linksCount := links, extra := m.extra)
    && (m.extra == n.extra || m.extra == NO_EXTRA)
  }

  /** Inodes that differ only in what a short record drops. */
  ghost predicate SameTree(a: Inode, b: Inode) {
    a.iBlock == b.iBlock && a.flags == b.flags && a.mode == b.mode && a.Size() == b.Size()
  }

  lemma SameTreeFacts(blocks: Blocks, a: Inode, b: Inode)
    requires a.iBlock == b.iBlock && a.flags == b.flags && a.mode == b.mode
    ensures ResolveExtents(blocks, a) == ResolveExtents(blocks, b) && TreeNodes(blocks, a) == TreeNodes(blocks, b)
    ensures Footprint(blocks, a) == Footprint(blocks, b)
    ensures a.Header() == b.Header() && a.UsesExtents() == b.UsesExtents() && a.IsDir() == b.IsDir()
    ensures LeafRoot(a) == LeafRoot(b) && RootFits(a) == RootFits(b) && RootBlocks(a) == RootBlocks(b)
  {
    hide HeaderAt, Leaves, Resolve, Nodes, DataBlocks;
  }

  lemma StoredTree(n: Inode, inodeSize: nat)
    ensures SameTree(n, Stored(n, inodeSize))
  {
  }

  /** What makes up the footprint of `ino` may stay, and a loose block may join it. */
  lemma MayOwnMore(g: Geometry, w: View, c: Counts, own: Owners, ino: nat, s: set<nat>, b: nat)
    requires Inv(g, w, c, own) && Loose(g, w, own, b)
    requires s <= (if ino in own then own[ino] else {}) + {b}
    ensures MayOwn(g, w, own, ino, s)
  {
    hide Geometry.Usable, FreeBlockBit, InodeOk, CountsOk, ViewOk, Geometry.Ok, Geometry.InodeCount, BlockAt;
    forall x | x in s
      ensures g.Usable(x) && NotFree(g, w.blocks, x) && forall j :: j in own && j != ino ==> x !in own[j]
    {
      if x != b {
        assert x in own[ino];
        assert forall k: nat, i: nat :: FreeBlockBit(g, w.blocks, k, i) ==> Unowned(own, BlockAt(g, k, i));
      }
    }
  }

  lemma MayOwnSame(g: Geometry, w: View, c: Counts, own: Owners, ino: nat, s: set<nat>)
    requires Inv(g, w, c, own) && s <= if ino in own then own[ino] else {}
    ensures MayOwn(g, w, own, ino, s)
  {
    hide Geometry.Usable, FreeBlockBit, InodeOk, CountsOk, ViewOk, Geometry.Ok, Geometry.InodeCount, BlockAt;
    forall x | x in s
      ensures g.Usable(x) && NotFree(g, w.blocks, x) && forall j :: j in own && j != ino ==> x !in own[j]
    {
      assert x in own[ino];
      assert forall k: nat, i: nat :: FreeBlockBit(g, w.blocks, k, i) ==> Unowned(own, BlockAt(g, k, i));
    }
  }

  /** Storing an inode with a root-node tree of blocks it may own keeps the invariant. */
  lemma StoreLeafRoot(g: Geometry, v: View, c: Counts, own: Owners, w: View, ino: nat, n: Inode)
    requires Inv(g, v, c, own) && RecordWritten(g, v, w, ino, Stored(n, g.inodeSize))
    requires ino in own || LooseInode(g, v, own, ino)
    requires LeafRoot(n) && RootFits(n) && MayOwn(g, v, own, ino, SetOf(RootBlocks(n)))
    requires n.IsDir() ==> RowOk(v.blocks, RootBlocks(n), own.Keys + {ino})
    ensures Inv(g, w, c, own[ino := SetOf(RootBlocks(n))])
    ensures OthersKept(v, own, w, own[ino := SetOf(RootBlocks(n))], {ino}) && SameBitmaps(g, v.blocks, w.blocks)
    ensures forall b :: b in RootBlocks(n) && b in v.blocks ==> b in w.blocks && w.blocks[b] == v.blocks[b]
  {
    hide Geometry.Ok, ViewOk, CountsOk, FreeIsUnused, OwnersOk, LeafRoot, RootFits, Inode.IsDir, Stored, Footprint,
      TreeNodes, ResolveExtents, DataBlocks, NotFree, LooseInode, SameBitmaps, OthersKept, RootBlocks, RowOk, Leaves,
      Geometry.InSomeTable, Inv, Inode.Size;
    var m := Stored(n, g.inodeSize);
    StoredTree(n, g.inodeSize);
    SameTreeFacts(w.blocks, n, m);
    LeafRootTree(w.blocks, m);
    RootBlocksIs(m);
    var s := SetOf(RootBlocks(n));
    UsableIsPlain(g);
    if n.IsDir() {
      RowFrame(v.blocks, w.blocks, RootBlocks(n), own.Keys + {ino}, own[ino := s].Keys);
    }
    assert InodeOk(w, own[ino := s], ino);
    WriteRecord(g, v, c, own, w, ino, m, s);
  }

  lemma RootBlocksIs(n: Inode)
    ensures RootBlocks(n) == DataBlocks(Leaves(n.iBlock))
  {
  }

  lemma UsableIsPlain(g: Geometry)
    requires g.blockSize > 0
    ensures forall b: nat :: g.Usable(b) ==> !g.InSomeTable(b)
  {
    hide Geometry.InSomeTable;
  }

  /** Rewriting a live inode's record without touching its tree keeps the invariant. */
  lemma StoreSameTree(g: Geometry, v: View, c: Counts, own: Owners, w: View, ino: nat, n: Inode)
    requires Inv(g, v, c, own) && RecordWritten(g, v, w, ino, n) && ino in own
    requires ino in v.inodes && v.inodes[ino].iBlock == n.iBlock && v.inodes[ino].flags == n.flags
      && v.inodes[ino].mode == n.mode
    ensures Inv(g, w, c, own) && OthersKept(v, own, w, own, {ino}) && SameBitmaps(g, v.blocks, w.blocks)
    ensures SameOn(v.blocks, w.blocks, own[ino])
  {
    hide Geometry.Ok, ViewOk, CountsOk, FreeIsUnused, LeafRoot, RootFits, Inode.IsDir, Footprint, TreeNodes,
      ResolveExtents, DataBlocks, NotFree, SameBitmaps, OthersKept, RootBlocks, RowOk, Leaves, Geometry.InSomeTable,
      MayOwn, Geometry.Usable, Geometry.InodeCount;
    var old' := v.inodes[ino];
    UsableIsPlain(g);
    OwnedIsUsable(g, v, c, own, ino);
    SameTreeFacts(v.blocks, old', n);
    TreeFrame(v.blocks, w.blocks, n);
    if n.IsDir() && ResolveExtents(v.blocks, n).Ok? {
      RowIsOwned(v.blocks, n);
      RowFrame(v.blocks, w.blocks, DataBlocks(ResolveExtents(v.blocks, n).value), own.Keys, own.Keys);
    }
    assert own[ino := own[ino]] == own;
    MayOwnSame(g, v, c, own, ino, own[ino]);
    assert InodeOk(w, own[ino := own[ino]], ino);
    WriteRecord(g, v, c, own, w, ino, n, own[ino]);
  }

  lemma OwnedIsUsable(g: Geometry, w: View, c: Counts, own: Owners, ino: nat)
    requires Inv(g, w, c, own) && ino in own
    ensures forall b :: b in own[ino] ==> g.Usable(b) && b in w.blocks
    ensures InodeOk(w, own, ino) && ino in w.inodes && 1 <= ino <= g.InodeCount()
  {
    hide CountsOk, FreeIsUnused, Geometry.IsMeta, Geometry.InodeCount, Geometry.Ok, InodeOk;
    assert InodeOk(w, own, ino);
  }

  lemma FindInoFrame(a: Blocks, b: Blocks, n: Inode, name: seq<byte>)
    requires SameOn(a, b, Footprint(a, n))
    ensures FindIno(a, n, name) == FindIno(b, n, name)
  {
    hide TreeNodes, ResolveExtents, DataBlocks, ScanFor;
    TreeFrame(a, b, n);
    if ResolveExtents(a, n).Ok? {
      RowIsOwned(a, n);
      ScanFrame(a, b, DataBlocks(ResolveExtents(a, n).value), name);
    }
  }

  // --- Directories ---

  /** Where `add_dir_entry` puts a record of `needed` bytes: a slot of an existing block, or nowhere yet. */
  function SpotFor(blocks: Blocks, dir: Inode, needed: u16): Result<Option<(nat, Slot)>> {
    match ResolveExtents(blocks, dir)
    case Err(e) => Err(e)
    case Ok(leaves) => DirSlot(blocks, DataBlocks(leaves), needed)
  }

  /** The records of a directory, in the order of its blocks. */
  function DirItems(blocks: Blocks, dir: Inode): seq<Item> {
    match ResolveExtents(blocks, dir)
    case Err(_) => []
    case Ok(leaves) => RowItems(blocks, DataBlocks(leaves))
  }

  /** What a live directory finds under a name, in terms of its records: the first live one that bears it. */
  lemma FindsFirstBearer(g: Geometry, w: View, c: Counts, own: Owners, d: nat, name: seq<byte>)
    requires Inv(g, w, c, own) && d in own && d in w.inodes && w.inodes[d].IsDir()
    requires ResolveExtents(w.blocks, w.inodes[d]).Ok?
    ensures FindIno(w.blocks, w.inodes[d], name) == Ok(None) <==>
      forall k :: 0 <= k < |DirItems(w.blocks, w.inodes[d])| ==> !Bears(DirItems(w.blocks, w.inodes[d])[k], name)
    ensures forall k: nat :: FirstBearer(DirItems(w.blocks, w.inodes[d]), name, k) ==>
      FindIno(w.blocks, w.inodes[d], name) == Ok(Some(DirItems(w.blocks, w.inodes[d])[k].1.inode as nat))
  {
    hide Geometry.Ok, CountsOk, FreeIsUnused, OwnersOk, ViewOk, RootFits, TreeNodes, ResolveExtents, DataBlocks,
      ScanFor, Inode.IsDir, Footprint, RowItems, Bears, FirstBearer, DirBlockOk;
    assert InodeOk(w, own, d);
    var row := DataBlocks(ResolveExtents(w.blocks, w.inodes[d]).value);
    assert RowOk(w.blocks, row, own.Keys);
    var items := DirItems(w.blocks, w.inodes[d]);
    assert items == RowItems(w.blocks, row);
    ScanIsFirst(w.blocks, row, name);
    assert (forall k :: 0 <= k < |items| ==> !Bears(items[k], name)) <==> ScanFor(w.blocks, row, name) == Ok(None);
  }

  /** The record will be reachable: the first spot is a deleted record, or there is none and a block is added. */
  predicate Reachable(blocks: Blocks, dir: Inode, needed: u16) {
    match SpotFor(blocks, dir, needed)
    case Ok(Some(spot)) => spot.1.reuse
    case _ => true
  }

  /** Which records end up out of reach, and which cost no block, in terms of the records of the directory alone. */
  lemma ReachableIs(g: Geometry, w: View, c: Counts, own: Owners, d: nat, needed: u16)
    requires Inv(g, w, c, own) && d in own && d in w.inodes && w.inodes[d].IsDir()
      && needed as int >= DIR_ENTRY_MIN_SIZE
    ensures Reachable(w.blocks, w.inodes[d], needed) <==> Findable(DirItems(w.blocks, w.inodes[d]), needed)
    ensures EntryCost(w.blocks, w.inodes[d], needed) == Some(0) <==> !NoHost(DirItems(w.blocks, w.inodes[d]), needed)
    ensures EntryCost(w.blocks, w.inodes[d], needed) == Some(1) <==>
      && ResolveExtents(w.blocks, w.inodes[d]).Ok? && HasRoom(w.inodes[d])
      && NoHost(DirItems(w.blocks, w.inodes[d]), needed)
    ensures EntryCost(w.blocks, w.inodes[d], needed) in [None, Some(0), Some(1)]
    ensures ResolveExtents(w.blocks, w.inodes[d]).Ok? ==>
      forall free: nat ::
        OutcomeIs(w.blocks, w.inodes[d], needed, free, NoHost(DirItems(w.blocks, w.inodes[d]), needed))
  {
    hide Geometry.Ok, CountsOk, FreeIsUnused, OwnersOk, ViewOk, RootFits, TreeNodes, ResolveExtents, DataBlocks,
      Inode.IsDir, Footprint, RowItems, DirBlockOk, DirSlot, NoHost, IsFirstHost, Vacant, HasRoom;
    assert InodeOk(w, own, d);
    var items := DirItems(w.blocks, w.inodes[d]);
    OnlyInside(items, needed);
    NothingHosts(needed);
    if ResolveExtents(w.blocks, w.inodes[d]).Ok? {
      var row := DataBlocks(ResolveExtents(w.blocks, w.inodes[d]).value);
      assert RowOk(w.blocks, row, own.Keys);
      SlotIsFirst(w.blocks, row, needed, own.Keys);
      if NoHost(items, needed) {
        NoneIsFirst(items, needed);
      } else {
        var k: nat :| IsFirstHost(items, needed, k);
        OneFirstHost(items, needed, k);
      }
    }
  }

  /** Adding a record when `full` says that no record can host it: how it ends, and how many blocks it takes. */
  predicate OutcomeIs(blocks: Blocks, dir: Inode, needed: u16, free: nat, full: bool) {
    && EntryOutcome(blocks, dir, needed, free)
      == (if !full then Ok(()) else if free == 0 then Err(NoFreeBlocks)
          else if HasRoom(dir) then Ok(()) else Err(UnsupportedFeature))
    && EntryTaken(blocks, dir, needed, free) == (if full && free > 0 then 1 else 0)
  }

  lemma NoneIsFirst(items: seq<Item>, needed: u16)
    requires NoHost(items, needed)
    ensures Findable(items, needed)
  {
    hide CanHost, Vacant;
  }

  lemma OneFirstHost(items: seq<Item>, needed: u16, k: nat)
    requires IsFirstHost(items, needed, k)
    ensures Findable(items, needed) <==> Vacant(items[k], needed)
  {
    hide CanHost, Vacant;
    forall j: nat | IsFirstHost(items, needed, j)
      ensures j == k
    {
    }
  }

  /** Another extent fits in the root. */
  predicate HasRoom(n: Inode) {
    n.Header().Some? && n.Header().value.IsLeaf() && n.Header().value.entries < n.Header().value.max
  }

  lemma RoomIs(n: Inode, phys: nat)
    requires RootFits(n)
    ensures AppendTo(n, phys).Ok? <==> HasRoom(n)
    ensures n.Header().Some? && !HasRoom(n) ==> AppendTo(n, phys) == Err(UnsupportedFeature)
    ensures n.Header() == None ==> AppendTo(n, phys) == Err(Corrupt)
  {
    hide HeaderAt, WithLeaf, Leaves, OneBlockLeaf, NextLogical;
  }

  /** Blocks that a new record costs: none if some block has a spot for it, one if the directory can grow. */
  function EntryCost(blocks: Blocks, dir: Inode, needed: u16): Option<nat> {
    match SpotFor(blocks, dir, needed)
    case Err(_) => None
    case Ok(Some(_)) => Some(0)
    case Ok(None) => if HasRoom(dir) then Some(1) else None
  }

  /** Blocks that the attempt takes off the free count, a block that finds no extent for it included. */
  function EntryTaken(blocks: Blocks, dir: Inode, needed: u16, free: nat): (r: nat)
    ensures r <= free
    ensures EntryOutcome(blocks, dir, needed, free).Ok? ==> EntryCost(blocks, dir, needed) == Some(r)
  {
    match SpotFor(blocks, dir, needed)
    case Ok(None) => if free == 0 then 0 else 1
    case _ => 0
  }

  /** What `add_dir_entry` returns when `free` blocks are free. */
  function EntryOutcome(blocks: Blocks, dir: Inode, needed: u16, free: nat): (r: Result<()>)
    ensures r.Ok? <==> EntryCost(blocks, dir, needed).Some? && EntryCost(blocks, dir, needed).value <= free
  {
    match SpotFor(blocks, dir, needed)
    case Err(e) => Err(e)
    case Ok(Some(_)) => Ok(())
    case Ok(None) => if free == 0 then Err(NoFreeBlocks) else if HasRoom(dir) then Ok(()) else Err(UnsupportedFeature)
  }

  /**
   Adding a record fails for what the tree, the device or the free blocks are like, never for what is in the directory.
   */
  lemma EntryErrors(blocks: Blocks, dir: Inode, needed: u16, free: nat)
    ensures EntryOutcome(blocks, dir, needed, free).Err? ==>
      EntryOutcome(blocks, dir, needed, free).error in [UnsupportedFeature, Corrupt, IoError, NoFreeBlocks]
    ensures ResolveExtents(blocks, dir).Err? ==>
      EntryOutcome(blocks, dir, needed, free) == Err(ResolveExtents(blocks, dir).error)
        && EntryCost(blocks, dir, needed) == None
  {
    hide ResolveExtents, DirSlot, DataBlocks;
    ResolveErrors(blocks, dir);
    if ResolveExtents(blocks, dir).Ok? {
      SlotErrors(blocks, DataBlocks(ResolveExtents(blocks, dir).value), needed);
    }
  }

  /** No name but this one may be found that was not, and every other lookup is as before. */
  ghost predicate OtherNamesKept(a: Blocks, n: Inode, b: Blocks, m: Inode, name: seq<byte>) {
    forall x: seq<byte> :: x != name ==> FindIno(b, m, x) == FindIno(a, n, x)
  }

  /** Records of any length go to the same places as before. */
  ghost predicate SameSpots(a: Blocks, n: Inode, b: Blocks, m: Inode) {
    forall needed: u16 :: SpotFor(b, m, needed) == SpotFor(a, n, needed)
  }

  /** This record, with some length of its own, is in the block at `off`. */
  predicate RecordIn(block: seq<byte>, off: nat, len: u16, e: DirEntry) {
    && Encodable(e.(recLen := len)) && off + len as int <= |block|
    && block[off..off + len as int] == Directory.ToBytes(e.(recLen := len))
  }

  /** One of the blocks of the directory holds this record. */
  ghost predicate HoldsRecord(blocks: Blocks, n: Inode, e: DirEntry) {
    && ResolveExtents(blocks, n).Ok?
    && exists b: nat, off: nat, len: u16 ::
      b in DataBlocks(ResolveExtents(blocks, n).value) && b in blocks && RecordIn(blocks[b], off, len, e)
  }

  /** Directory `p` holds a record with this name for inode `ino`, of file type `kind`. */
  ghost predicate HasRecord(w: View, p: nat, name: seq<byte>, ino: nat, kind: byte) {
    && p in w.inodes && |name| <= EXT4_NAME_LEN && ino < TWO32
    && HoldsRecord(w.blocks, w.inodes[p], DirEntry(ino, 0, |name|, kind, name))
  }

  /** The length is the record's own; what is asked for does not name one. */
  lemma HoldsAnyLength(blocks: Blocks, n: Inode, e: DirEntry, len: u16)
    ensures HoldsRecord(blocks, n, e.(recLen := len)) == HoldsRecord(blocks, n, e)
  {
    hide ResolveExtents, DataBlocks, Directory.ToBytes, Encodable;
    forall block: seq<byte>, off: nat, l: u16
      ensures RecordIn(block, off, l, e.(recLen := len)) == RecordIn(block, off, l, e)
    {
      assert e.(recLen := len).(recLen := l) == e.(recLen := l);
    }
  }

  lemma HoldsFrame(a: Blocks, b: Blocks, n: Inode, e: DirEntry)
    requires SameOn(a, b, Footprint(a, n)) && HoldsRecord(a, n, e)
    ensures HoldsRecord(b, n, e)
  {
    hide TreeNodes, ResolveExtents, DataBlocks, RecordIn;
    TreeFrame(a, b, n);
    RowIsOwned(a, n);
  }

  lemma InsertedIsHeld(blocks: Blocks, n: Inode, b: nat, s: Slot, e: DirEntry)
    requires ResolveExtents(blocks, n).Ok? && b in DataBlocks(ResolveExtents(blocks, n).value) && b in blocks
    requires s.off + s.len as int <= |blocks[b]| && Encodable(e.(recLen := s.len))
    requires ResolveExtents(WithRecord(blocks, b, s, e), n) == ResolveExtents(blocks, n)
    ensures HoldsRecord(WithRecord(blocks, b, s, e), n, e)
  {
    hide ResolveExtents, DataBlocks, Directory.ToBytes, Encodable;
    assert RecordIn(WithRecord(blocks, b, s, e)[b], s.off, s.len, e);
  }

  lemma JoinedIsHeld(blocks: Blocks, n: Inode, b: nat, e: DirEntry)
    requires LeafRoot(n) && b in RootBlocks(n) && b in blocks && Encodable(e) && blocks[b] == Directory.ToBytes(e)
    ensures HoldsRecord(blocks, n, e)
  {
    hide ResolveExtents, DataBlocks, Directory.ToBytes, LeafRoot, Leaves, Encodable;
    LeafRootTree(blocks, n);
    RootBlocksIs(n);
    assert e.(recLen := e.recLen) == e;
    assert RecordIn(blocks[b], 0, e.recLen, e);
  }

  /** Exactly this name may have become found; a record out of reach does not even take space from later ones. */
  ghost predicate Gained(a: Blocks, dir: Inode, b: Blocks, dir': Inode, name: seq<byte>, ino: nat, reachable: bool) {
    && (forall n: seq<byte> :: FindIno(b, dir', n) == if n == name && reachable then Ok(Some(ino))
      else FindIno(a, dir, n))
    && (!reachable ==> SameSpots(a, dir, b, dir'))
  }

  lemma {:induction false} SlotFrame(a: Blocks, b: Blocks, row: seq<nat>, needed: u16)
    requires forall x | x in row :: (x in a <==> x in b) && (x in a ==> a[x] == b[x])
    ensures DirSlot(a, row, needed) == DirSlot(b, row, needed)
  {
    hide FindSlot;
    if row != [] {
      SlotFrame(a, b, row[..|row| - 1], needed);
    }
  }

  lemma SpotSame(a: Blocks, b: Blocks, n: Inode, needed: u16)
    requires SameOn(a, b, Footprint(a, n))
    ensures SpotFor(a, n, needed) == SpotFor(b, n, needed)
  {
    hide TreeNodes, ResolveExtents, DataBlocks, DirSlot;
    TreeFrame(a, b, n);
    if ResolveExtents(a, n).Ok? {
      RowIsOwned(a, n);
      SlotFrame(a, b, DataBlocks(ResolveExtents(a, n).value), needed);
    }
  }

  lemma GainKeepsOthers(a: Blocks, n: Inode, b: Blocks, m: Inode, name: seq<byte>, ino: nat, reachable: bool)
    requires Gained(a, n, b, m, name, ino, reachable)
    ensures OtherNamesKept(a, n, b, m, name)
  {
    hide FindIno;
  }

  /** A tree that resolves has a header. */
  lemma FoundHasHeader(blocks: Blocks, n: Inode, name: seq<byte>)
    requires FindIno(blocks, n, name).Ok?
    ensures n.Header().Some?
  {
    hide ScanFor, DataBlocks, Resolve, Leaves;
  }

  /** Inserting into an existing block of a live directory. */
  lemma InsertKeepsInv(g: Geometry, w: View, c: Counts, own: Owners, d: nat, e: DirEntry)
    requires Inv(g, w, c, own) && d in own && d in w.inodes && w.inodes[d].IsDir()
    requires FindIno(w.blocks, w.inodes[d], e.name) == Ok(None)
    requires e.nameLen == |e.name| && e.inode != 0 && e.inode in own
    requires SpotFor(w.blocks, w.inodes[d], e.ActualSize()).Ok?
      && SpotFor(w.blocks, w.inodes[d], e.ActualSize()).value.Some?
    ensures var (b, s) := SpotFor(w.blocks, w.inodes[d], e.ActualSize()).value.value;
      && b in w.blocks && g.blockSize > 0 && g.Usable(b) && s.off + s.len as int <= |w.blocks[b]|
      && Encodable(e.(recLen := s.len))
      && var v := w.(blocks := WithRecord(w.blocks, b, s, e));
      && Inv(g, v, c, own) && OthersKept(w, own, v, own, {d}) && SameBitmaps(g, w.blocks, v.blocks)
      && Gained(w.blocks, w.inodes[d], v.blocks, w.inodes[d], e.name, e.inode, s.reuse)
      && HoldsRecord(v.blocks, w.inodes[d], e)
  {
    hide Geometry.Ok, CountsOk, FreeIsUnused, OwnersOk, RootFits, TreeNodes, ResolveExtents, DataBlocks, SameBitmaps,
      OthersKept, RowOk, Geometry.Usable, InsertAt, ScanFor, DirSlot, DirEntry.ActualSize, Inode.IsDir, HoldsRecord;
    OwnedIsUsable(g, w, c, own, d);
    var n := w.inodes[d];
    var row := DataBlocks(ResolveExtents(w.blocks, n).value);
    RowIsOwned(w.blocks, n);
    InsertInRow(w.blocks, row, e, own.Keys, e.name);
    var (b, s) := DirSlot(w.blocks, row, e.ActualSize()).value.value;
    var v := w.(blocks := WithRecord(w.blocks, b, s, e));
    assert b !in TreeNodes(w.blocks, n);
    TreeUntouched(w.blocks, v.blocks, n, b);
    InsertedIsHeld(w.blocks, n, b, s, e);
    assert InodeOk(v, own, d);
    BlockWriteFacts(g, w, own, b, v.blocks[b]);
    WriteOwned(g, w, c, own, d, b, v.blocks[b]);
    forall name: seq<byte>
      ensures FindIno(v.blocks, n, name) == if name == e.name && s.reuse then Ok(Some(e.inode as nat))
        else FindIno(w.blocks, n, name)
    {
      InsertInRow(w.blocks, row, e, own.Keys, name);
    }
    if !s.reuse {
      forall needed: u16
        ensures SpotFor(v.blocks, n, needed) == SpotFor(w.blocks, n, needed)
      {
        SlackKeepsSlots(w.blocks, row, e, own.Keys, needed);
      }
    }
  }

  /** A write outside the nodes of a tree leaves the tree and its footprint alone. */
  lemma TreeUntouched(a: Blocks, b: Blocks, n: Inode, at: nat)
    requires at !in TreeNodes(a, n) && a.Keys == b.Keys && forall x :: x in a && x != at ==> a[x] == b[x]
    ensures ResolveExtents(a, n) == ResolveExtents(b, n) && TreeNodes(a, n) == TreeNodes(b, n)
      && Footprint(a, n) == Footprint(b, n)
  {
    hide Resolve, Nodes, HeaderAt, Leaves, DataBlocks;
    match n.Header()
    case Some(h) => ResolveFrame(a, b, n.iBlock, h.depth);
    case None =>
  }

  /** A block, about to join a live directory with a root-node tree, that holds just the new record. */
  ghost predicate JoinsDir(w: View, own: Owners, d: nat, b: nat, e: DirEntry) {
    && d in own && d in w.inodes && w.inodes[d].IsDir() && LeafRoot(w.inodes[d])
    && Encodable(e) && e.recLen >= e.ActualSize() && e.inode != 0 && e.inode in own
    && b in w.blocks && w.blocks[b] == Directory.ToBytes(e)
    && FindIno(w.blocks, w.inodes[d], e.name) == Ok(None)
  }

  lemma JoinKeepsRow(g: Geometry, w: View, c: Counts, own: Owners, d: nat, b: nat, e: DirEntry)
    requires Inv(g, w, c, own) && JoinsDir(w, own, d, b, e)
    ensures RowOk(w.blocks, RootBlocks(w.inodes[d]) + [b], own.Keys + {d})
  {
    hide Geometry.Ok, CountsOk, FreeIsUnused, OwnersOk, RootFits, TreeNodes, ResolveExtents, DataBlocks, RowOk,
      ScanFor, DirEntry.ActualSize, Inode.IsDir, Directory.ToBytes, Leaves;
    OwnedIsUsable(g, w, c, own, d);
    LeafRootTree(w.blocks, w.inodes[d]);
    RootBlocksIs(w.inodes[d]);
    assert own.Keys + {d} == own.Keys;
    GrowRow(w.blocks, w.blocks, RootBlocks(w.inodes[d]), b, e, own.Keys, e.name);
  }

  lemma JoinGains(g: Geometry, w: View, c: Counts, own: Owners, d: nat, m: Inode, b: nat, e: DirEntry)
    requires Inv(g, w, c, own) && JoinsDir(w, own, d, b, e)
    requires LeafRoot(m) && RootBlocks(m) == RootBlocks(w.inodes[d]) + [b]
    ensures Gained(w.blocks, w.inodes[d], w.blocks, m, e.name, e.inode, true)
  {
    hide Geometry.Ok, CountsOk, FreeIsUnused, OwnersOk, RootFits, TreeNodes, ResolveExtents, DataBlocks, RowOk,
      ScanFor, DirEntry.ActualSize, Inode.IsDir, Directory.ToBytes, Leaves;
    OwnedIsUsable(g, w, c, own, d);
    var n := w.inodes[d];
    LeafRootTree(w.blocks, n);
    LeafRootTree(w.blocks, m);
    RootBlocksIs(n);
    RootBlocksIs(m);
    forall name: seq<byte>
      ensures FindIno(w.blocks, m, name) == if name == e.name then Ok(Some(e.inode as nat))
        else FindIno(w.blocks, n, name)
    {
      GrowRow(w.blocks, w.blocks, RootBlocks(n), b, e, own.Keys, name);
    }
  }

  /** Directories that resolve to the same blocks with the same contents find the same. */
  lemma SameFinds(a: Blocks, n: Inode, b: Blocks, m: Inode, name: seq<byte>)
    requires LeafRoot(n) && m.iBlock == n.iBlock && m.flags == n.flags && m.mode == n.mode
    requires forall x :: x in RootBlocks(n) ==> (x in a <==> x in b) && (x in a ==> b[x] == a[x])
    ensures FindIno(a, n, name) == FindIno(b, m, name)
  {
    hide TreeNodes, ResolveExtents, DataBlocks, ScanFor, Leaves, LeafRoot;
    SameTreeFacts(b, n, m);
    LeafRootTree(a, n);
    LeafRootTree(b, m);
    RootBlocksIs(n);
    RootBlocksIs(m);
    ScanFrame(a, b, RootBlocks(n), name);
  }

  lemma SameSpot(a: Blocks, n: Inode, b: Blocks, m: Inode, needed: u16)
    requires LeafRoot(n) && m.iBlock == n.iBlock && m.flags == n.flags && m.mode == n.mode
    requires forall x :: x in RootBlocks(n) ==> (x in a <==> x in b) && (x in a ==> b[x] == a[x])
    ensures SpotFor(a, n, needed) == SpotFor(b, m, needed)
  {
    hide TreeNodes, ResolveExtents, DataBlocks, DirSlot, Leaves, LeafRoot;
    SameTreeFacts(b, n, m);
    LeafRootTree(a, n);
    LeafRootTree(b, m);
    RootBlocksIs(n);
    RootBlocksIs(m);
    SlotFrame(a, b, RootBlocks(n), needed);
  }

  lemma GainedThen(a: Blocks, n: Inode, b: Blocks, m: Inode, c: Blocks, k: Inode, name: seq<byte>, ino: nat,
                   reachable: bool)
    requires Gained(a, n, b, m, name, ino, reachable)
    requires LeafRoot(m) && k.iBlock == m.iBlock && k.flags == m.flags && k.mode == m.mode
    requires forall x :: x in RootBlocks(m) ==> (x in b <==> x in c) && (x in b ==> c[x] == b[x])
    ensures Gained(a, n, c, k, name, ino, reachable)
  {
    hide FindIno, LeafRoot, RootBlocks, SpotFor;
    forall x: seq<byte>
      ensures FindIno(c, k, x) == FindIno(b, m, x)
    {
      SameFinds(b, m, c, k, x);
    }
    forall needed: u16
      ensures SpotFor(c, k, needed) == SpotFor(b, m, needed)
    {
      SameSpot(b, m, c, k, needed);
    }
  }

  lemma GainedFrom(a: Blocks, n: Inode, b: Blocks, c: Blocks, k: Inode, name: seq<byte>, ino: nat, reachable: bool)
    requires Gained(b, n, c, k, name, ino, reachable) && SameOn(a, b, Footprint(a, n))
    ensures Gained(a, n, c, k, name, ino, reachable)
  {
    hide FindIno, SameOn, Footprint, SpotFor;
    forall x: seq<byte>
      ensures FindIno(a, n, x) == FindIno(b, n, x)
    {
      FindInoFrame(a, b, n, x);
    }
    forall needed: u16
      ensures SpotFor(a, n, needed) == SpotFor(b, n, needed)
    {
      SpotSame(a, b, n, needed);
    }
  }

  /** Looking a name up in a live directory whose tree resolves never fails, and finds live inodes only. */
  lemma FindsInLive(g: Geometry, w: View, c: Counts, own: Owners, d: nat, name: seq<byte>)
    requires Inv(g, w, c, own) && d in own && d in w.inodes && w.inodes[d].IsDir()
    ensures FindIno(w.blocks, w.inodes[d], name).Ok? <==> ResolveExtents(w.blocks, w.inodes[d]).Ok?
    ensures FindIno(w.blocks, w.inodes[d], name).Ok? && FindIno(w.blocks, w.inodes[d], name).value.Some? ==>
      FindIno(w.blocks, w.inodes[d], name).value.value in own
  {
    hide Geometry.Ok, CountsOk, FreeIsUnused, OwnersOk, RootFits, TreeNodes, ResolveExtents, DataBlocks, RowOk,
      ScanFor, Inode.IsDir, Footprint;
    assert InodeOk(w, own, d);
    if ResolveExtents(w.blocks, w.inodes[d]).Ok? {
      ScanFindsLive(w.blocks, DataBlocks(ResolveExtents(w.blocks, w.inodes[d]).value), name, own.Keys);
    }
  }

  // --- The steps of adding a block to a directory ---

  /** Before `append_extent`: the directory is as it was, and the new block may join it if its root is a leaf. */
  lemma BeforeJoin(g: Geometry, v: View, cv: Counts, w: View, cw: Counts, own: Owners, d: nat, b: nat, e: DirEntry)
    requires Inv(g, v, cv, own) && Inv(g, w, cw, own) && OthersKept(v, own, w, own, {})
    requires d in own && d in v.inodes && v.inodes[d].IsDir() && FindIno(v.blocks, v.inodes[d], e.name) == Ok(None)
    requires Encodable(e) && e.recLen >= e.ActualSize() && e.inode != 0 && e.inode in own
    requires b in w.blocks && w.blocks[b] == Directory.ToBytes(e)
    ensures d in w.inodes && w.inodes[d] == v.inodes[d] && RootFits(w.inodes[d])
    ensures SameOn(v.blocks, w.blocks, Footprint(v.blocks, v.inodes[d]))
    ensures LeafRoot(w.inodes[d]) ==>
      && SetOf(RootBlocks(w.inodes[d])) == own[d] && JoinsDir(w, own, d, b, e)
      && RowOk(w.blocks, RootBlocks(w.inodes[d]) + [b], own.Keys + {d})
  {
    hide Geometry.Ok, ViewOk, CountsOk, FreeIsUnused, OwnersOk, LeafRoot, RootBlocks, RowOk, FindIno, Footprint,
      RootFits, DirOk, DirEntry.ActualSize, Inode.IsDir, Directory.ToBytes, SetOf, Encodable;
    assert InodeOk(v, own, d) && InodeOk(w, own, d);
    FindInoFrame(v.blocks, w.blocks, v.inodes[d], e.name);
    if LeafRoot(w.inodes[d]) {
      LeafRootTree(w.blocks, w.inodes[d]);
      JoinKeepsRow(g, w, cw, own, d, b, e);
    }
  }

  /** After `append_extent`: a record that differs in the size only may be written. */
  lemma BeforeResize(g: Geometry, v: View, w: View, c: Counts, own: Owners, after: Owners, d: nat, m: Inode, k: Inode,
                     row: seq<nat>)
    requires Inv(g, w, c, after) && after == own[d := SetOf(RootBlocks(m))]
    requires LeafRoot(m) && RootFits(m) && RootBlocks(m) == row && RowOk(v.blocks, row, own.Keys + {d})
    requires k.iBlock == m.iBlock && k.flags == m.flags && k.mode == m.mode
    requires forall b :: b in row && b in v.blocks ==> b in w.blocks && w.blocks[b] == v.blocks[b]
    ensures LeafRoot(k) && RootFits(k) && RootBlocks(k) == RootBlocks(m) && k.IsDir() == m.IsDir()
    ensures MayOwn(g, w, after, d, SetOf(RootBlocks(k))) && RowOk(w.blocks, RootBlocks(k), after.Keys + {d})
    ensures after[d := SetOf(RootBlocks(k))] == after && after.Keys == own.Keys + {d}
  {
    hide Inv, LeafRoot, RootBlocks, RowOk, RootFits, Inode.IsDir, SetOf, MayOwn;
    SameTreeFacts(w.blocks, m, k);
    MayOwnSame(g, w, c, after, d, SetOf(RootBlocks(k)));
    RowFrame(v.blocks, w.blocks, row, own.Keys + {d}, after.Keys + {d});
  }

  lemma JoinFacts(w: View, own: Owners, d: nat, b: nat, e: DirEntry)
    requires JoinsDir(w, own, d, b, e)
    ensures b in w.blocks && w.blocks[b] == Directory.ToBytes(e) && Encodable(e)
  {
    hide LeafRoot, FindIno, Directory.ToBytes;
  }

  /** In the end the directory has gained the one name. */
  lemma AfterJoin(g: Geometry, u: View, v: View, c: Counts, own: Owners, d: nat, b: nat, e: DirEntry, m: Inode, w: View,
                  k: Inode)
    requires Inv(g, v, c, own) && JoinsDir(v, own, d, b, e) && d in v.inodes && d in u.inodes
      && u.inodes[d] == v.inodes[d]
    requires SameOn(u.blocks, v.blocks, Footprint(u.blocks, u.inodes[d]))
    requires LeafRoot(m) && RootBlocks(m) == RootBlocks(v.inodes[d]) + [b]
    requires k.iBlock == m.iBlock && k.flags == m.flags && k.mode == m.mode
    requires v.blocks.Keys == w.blocks.Keys
      && forall x :: x in RootBlocks(m) && x in v.blocks ==> w.blocks[x] == v.blocks[x]
    ensures Gained(u.blocks, u.inodes[d], w.blocks, k, e.name, e.inode, true) && HoldsRecord(w.blocks, k, e)
  {
    hide Inv, LeafRoot, RootBlocks, JoinsDir, Footprint, SameOn, Gained, HoldsRecord;
    JoinFacts(v, own, d, b, e);
    SameTreeFacts(w.blocks, m, k);
    JoinedIsHeld(w.blocks, k, b, e);
    JoinGains(g, v, c, own, d, m, b, e);
    GainedThen(v.blocks, v.inodes[d], v.blocks, m, w.blocks, k, e.name, e.inode, true);
    GainedFrom(u.blocks, u.inodes[d], v.blocks, w.blocks, k, e.name, e.inode, true);
  }
}
