/**
 What the operations on paths rest on: resolution stays inside the live inodes, what a directory finds it keeps finding,
 and a path therefore leads to the same inode afterwards.
 */
module Ops {
  import opened Bytes
  import opened Wrappers
  import opened Extent
  import opened ExtentTree
  import opened InodeRecord
  import opened Directory
  import opened Layout
  import opened Path
  import opened FileTree
  import opened DirRow
  import opened Invariant
  import opened Grow

  // --- Resolution ---

  /** A name found in a live directory leads to a live inode and its record. */
  lemma FoundIsLive(g: Geometry, w: View, c: Counts, own: Owners, d: nat, name: seq<byte>)
    requires Inv(g, w, c, own) && d in own && d in w.inodes && w.inodes[d].IsDir()
    ensures var r := LookupInDir(w, w.inodes[d], name);
      && (r.Ok? ==> r.value.0 in own && r.value.0 in w.inodes && r.value.1 == w.inodes[r.value.0])
      && (r.Ok? <==> FindIno(w.blocks, w.inodes[d], name).Ok? && FindIno(w.blocks, w.inodes[d], name).value.Some?)
      && (r.Ok? ==> FindIno(w.blocks, w.inodes[d], name) == Ok(Some(r.value.0)))
      && (r == Err(NotFound) <==> FindIno(w.blocks, w.inodes[d], name) == Ok(None))
  {
    hide LookupInDir, FindIno, Inv, Inode.IsDir, ResolveExtents;
    LookupIsFind(w, w.inodes[d], name);
    FindsInLive(g, w, c, own, d, name);
    ResolveErrors(w.blocks, w.inodes[d]);
    FindErrors(w.blocks, w.inodes[d], name);
    var f := FindIno(w.blocks, w.inodes[d], name);
    if f.Ok? && f.value.Some? {
      OwnedIsUsable(g, w, c, own, f.value.value);
    }
  }

  lemma FindErrors(blocks: Blocks, n: Inode, name: seq<byte>)
    ensures ResolveExtents(blocks, n).Err? ==> FindIno(blocks, n, name) == Err(ResolveExtents(blocks, n).error)
  {
    hide ResolveExtents, ScanFor, DataBlocks;
  }

  lemma {:induction false} WalkIsLive(g: Geometry, w: View, c: Counts, own: Owners, ino: nat,
                                      components: seq<seq<byte>>)
    requires Inv(g, w, c, own) && ino in own && ino in w.inodes && Walk(w, ino, w.inodes[ino], components).Ok?
    ensures var r := Walk(w, ino, w.inodes[ino], components).value;
      r.0 in own && r.0 in w.inodes && r.1 == w.inodes[r.0]
    decreases |components|
  {
    hide Inv, LookupInDir, Inode.IsDir, FindIno;
    if components != [] {
      FoundIsLive(g, w, c, own, ino, components[0]);
      WalkIsLive(g, w, c, own, LookupInDir(w, w.inodes[ino], components[0]).value.0, components[1..]);
    }
  }

  /** Paths lead to live inodes and their records only. */
  lemma PathIsLive(g: Geometry, w: View, c: Counts, own: Owners, path: seq<byte>)
    requires Inv(g, w, c, own)
    ensures LookupPath(w, path).Ok? ==>
      var r := LookupPath(w, path).value; r.0 in own && r.0 in w.inodes && r.1 == w.inodes[r.0] && 1 <= r.0
  {
    hide Walk, Components, CountsOk, FreeIsUnused, Geometry.Ok, ViewOk, InodeOk;
    OwnedIsUsable(g, w, c, own, ROOT_INODE);
    if LookupPath(w, path).Ok? {
      WalkIsLive(g, w, c, own, ROOT_INODE, Components(path[1..]));
      OwnedIsUsable(g, w, c, own, LookupPath(w, path).value.0);
    }
  }

  // --- What directories keep ---

  /** Every name the directory found, it still finds, with the same inode number. */
  ghost predicate DirKept(v: View, w: View, d: nat) {
    && d in v.inodes && d in w.inodes && w.inodes[d].IsDir()
    && forall name: seq<byte>, ino: nat :: FindIno(v.blocks, v.inodes[d], name) == Ok(Some(ino)) ==>
      FindIno(w.blocks, w.inodes[d], name) == Ok(Some(ino))
  }

  ghost predicate FindsKept(v: View, own: Owners, w: View) {
    && own.Keys <= v.inodes.Keys && own.Keys <= w.inodes.Keys
    && forall d :: d in own && v.inodes[d].IsDir() ==> DirKept(v, w, d)
  }

  lemma FindsKeptTrans(u: View, own: Owners, v: View, more: Owners, w: View)
    requires FindsKept(u, own, v) && FindsKept(v, more, w) && own.Keys <= more.Keys
    ensures FindsKept(u, own, w)
  {
    hide FindIno, Inode.IsDir;
    forall d | d in own && u.inodes[d].IsDir()
      ensures DirKept(u, w, d)
    {
      assert DirKept(u, v, d) && DirKept(v, w, d);
    }
  }

  /** A step that touches no directory keeps what directories find. */
  lemma FindsKeptByOthers(g: Geometry, v: View, c: Counts, own: Owners, w: View, d: Counts, after: Owners,
                          touched: set<nat>)
    requires Inv(g, v, c, own) && Inv(g, w, d, after) && OthersKept(v, own, w, after, touched)
    requires forall x :: x in touched && x in own && x in v.inodes ==> !v.inodes[x].IsDir()
    ensures FindsKept(v, own, w)
  {
    hide CountsOk, FreeIsUnused, Geometry.Ok, OwnersOk, ViewOk, FindIno, Inode.IsDir, Footprint, RootFits, DirOk;
    forall x | x in own
      ensures x in v.inodes && x in w.inodes
      ensures v.inodes[x].IsDir() ==> DirKept(v, w, x)
    {
      assert InodeOk(v, own, x) && InodeOk(w, after, x);
      if v.inodes[x].IsDir() {
        forall name: seq<byte>
          ensures FindIno(v.blocks, v.inodes[x], name) == FindIno(w.blocks, w.inodes[x], name)
        {
          FindInoFrame(v.blocks, w.blocks, v.inodes[x], name);
        }
      }
    }
  }

  /** A step that touches one directory, which keeps what it finds. */
  lemma FindsKeptByOne(g: Geometry, v: View, c: Counts, own: Owners, w: View, e: Counts, after: Owners, p: nat)
    requires Inv(g, v, c, own) && Inv(g, w, e, after) && OthersKept(v, own, w, after, {p})
    requires p in own && DirKept(v, w, p)
    ensures FindsKept(v, own, w)
  {
    hide CountsOk, FreeIsUnused, Geometry.Ok, OwnersOk, ViewOk, FindIno, Inode.IsDir, Footprint, RootFits, DirOk;
    forall x | x in own
      ensures x in v.inodes && x in w.inodes
      ensures v.inodes[x].IsDir() ==> DirKept(v, w, x)
    {
      assert InodeOk(v, own, x) && InodeOk(w, after, x);
      if x != p && v.inodes[x].IsDir() {
        forall n: seq<byte>
          ensures FindIno(v.blocks, v.inodes[x], n) == FindIno(w.blocks, w.inodes[x], n)
        {
          FindInoFrame(v.blocks, w.blocks, v.inodes[x], n);
        }
      }
    }
  }

  /** A step that touches one directory, which gains a name it did not find before. */
  lemma FindsKeptByGain(g: Geometry, v: View, c: Counts, own: Owners, w: View, e: Counts, after: Owners, p: nat,
                        name: seq<byte>, ino: nat, reachable: bool)
    requires Inv(g, v, c, own) && Inv(g, w, e, after) && OthersKept(v, own, w, after, {p})
    requires p in own && p in v.inodes && p in w.inodes && w.inodes[p].IsDir()
      && FindIno(v.blocks, v.inodes[p], name) == Ok(None)
    requires Gained(v.blocks, v.inodes[p], w.blocks, w.inodes[p], name, ino, reachable)
    ensures FindsKept(v, own, w)
  {
    hide Inv, FindIno, Inode.IsDir, OthersKept;
    FindsKeptByOne(g, v, c, own, w, e, after, p);
  }

  /** The directory finds the same names with the same numbers, and has the same spots for new records. */
  ghost predicate SameDir(a: Blocks, n: Inode, b: Blocks, m: Inode) {
    (forall name: seq<byte> :: FindIno(b, m, name) == FindIno(a, n, name)) && SameSpots(a, n, b, m)
  }

  /** No record is lost, not even one that no lookup comes by. */
  ghost predicate RecordsKept(a: Blocks, n: Inode, b: Blocks, m: Inode) {
    forall e: DirEntry :: HoldsRecord(a, n, e) ==> HoldsRecord(b, m, e)
  }

  /** Rewriting the record of a directory without touching its tree. */
  lemma RecordKeepsNames(g: Geometry, v: View, c: Counts, own: Owners, w: View, p: nat, n: Inode)
    requires Inv(g, v, c, own) && RecordWritten(g, v, w, p, n) && p in own && p in v.inodes && v.inodes[p].IsDir()
    requires v.inodes[p].iBlock == n.iBlock && v.inodes[p].flags == n.flags && v.inodes[p].mode == n.mode
    ensures Inv(g, w, c, own) && OthersKept(v, own, w, own, {p}) && FindsKept(v, own, w)
      && SameBitmaps(g, v.blocks, w.blocks)
    ensures p in w.inodes && w.inodes[p].IsDir() && SameDir(v.blocks, v.inodes[p], w.blocks, w.inodes[p])
      && RecordsKept(v.blocks, v.inodes[p], w.blocks, w.inodes[p])
  {
    hide Inv, OthersKept, FindsKept, Inode.IsDir, ResolveExtents, TreeNodes, DataBlocks, ScanFor, Footprint, SameOn,
      Geometry.InSomeTable, SameBitmaps, DirSlot;
    StoreSameTree(g, v, c, own, w, p, n);
    SameTreeFacts(v.blocks, v.inodes[p], n);
    OwnedIsFootprint(g, v, c, own, p);
    forall name: seq<byte>
      ensures FindIno(w.blocks, n, name) == FindIno(v.blocks, v.inodes[p], name)
    {
      FindInoFrame(v.blocks, w.blocks, n, name);
    }
    forall needed: u16
      ensures SpotFor(w.blocks, n, needed) == SpotFor(v.blocks, v.inodes[p], needed)
    {
      SpotSame(v.blocks, w.blocks, n, needed);
    }
    forall e: DirEntry | HoldsRecord(v.blocks, v.inodes[p], e)
      ensures HoldsRecord(w.blocks, n, e)
    {
      HoldsFrame(v.blocks, w.blocks, n, e);
    }
    FindsKeptByOne(g, v, c, own, w, c, own, p);
  }

  lemma NamesFrame(a: Blocks, b: Blocks, n: Inode)
    requires SameOn(a, b, Footprint(a, n))
    ensures SameDir(a, n, b, n) && RecordsKept(a, n, b, n)
  {
    hide FindIno, SameOn, Footprint, SpotFor, HoldsRecord;
    forall name: seq<byte>
      ensures FindIno(b, n, name) == FindIno(a, n, name)
    {
      FindInoFrame(a, b, n, name);
    }
    forall needed: u16
      ensures SpotFor(b, n, needed) == SpotFor(a, n, needed)
    {
      SpotSame(a, b, n, needed);
    }
    forall e: DirEntry | HoldsRecord(a, n, e)
      ensures HoldsRecord(b, n, e)
    {
      HoldsFrame(a, b, n, e);
    }
  }

  lemma GainThen(a: Blocks, n: Inode, b: Blocks, m: Inode, c: Blocks, k: Inode, name: seq<byte>, ino: nat,
                 reachable: bool)
    requires Gained(a, n, b, m, name, ino, reachable) && SameDir(b, m, c, k)
    ensures Gained(a, n, c, k, name, ino, reachable)
  {
    hide FindIno;
  }

  lemma SameDirKeepOthers(a: Blocks, n: Inode, b: Blocks, m: Inode, name: seq<byte>)
    requires SameDir(a, n, b, m)
    ensures OtherNamesKept(a, n, b, m, name)
  {
    hide FindIno;
  }

  lemma NamesTwice(a: Blocks, n: Inode, b: Blocks, m: Inode, c: Blocks, k: Inode)
    requires SameDir(a, n, b, m) && SameDir(b, m, c, k)
    ensures SameDir(a, n, c, k)
  {
    hide FindIno;
  }

  lemma OwnedIsFootprint(g: Geometry, w: View, c: Counts, own: Owners, ino: nat)
    requires Inv(g, w, c, own) && ino in own
    ensures ino in w.inodes && own[ino] == Footprint(w.blocks, w.inodes[ino])
  {
    hide CountsOk, FreeIsUnused, Geometry.Ok, OwnersOk, ViewOk, Footprint, RootFits, DirOk;
    assert InodeOk(w, own, ino);
  }

  lemma {:induction false} WalkKept(g: Geometry, v: View, c: Counts, own: Owners, w: View, ino: nat,
                                    components: seq<seq<byte>>)
    requires Inv(g, v, c, own) && FindsKept(v, own, w) && ino in own
    requires Walk(v, ino, v.inodes[ino], components).Ok? && forall i :: i in own ==> i != 0
    ensures var f := Walk(v, ino, v.inodes[ino], components).value.0;
      f in w.inodes && Walk(w, ino, w.inodes[ino], components) == Ok((f, w.inodes[f]))
    decreases |components|
  {
    hide Inv, LookupInDir, FindIno, Inode.IsDir;
    if components != [] {
      FoundIsLive(g, v, c, own, ino, components[0]);
      var f := LookupInDir(v, v.inodes[ino], components[0]).value.0;
      assert DirKept(v, w, ino);
      LookupIsFind(w, w.inodes[ino], components[0]);
      WalkKept(g, v, c, own, w, f, components[1..]);
    }
  }

  /** A path that resolved still resolves, to the same inode number. */
  lemma PathKept(g: Geometry, v: View, c: Counts, own: Owners, w: View, path: seq<byte>)
    requires Inv(g, v, c, own) && FindsKept(v, own, w) && LookupPath(v, path).Ok?
    ensures var f := LookupPath(v, path).value.0; f in w.inodes && LookupPath(w, path) == Ok((f, w.inodes[f]))
  {
    hide Walk, Components, CountsOk, FreeIsUnused, Geometry.Ok, ViewOk, InodeOk, DirKept, Inode.IsDir;
    OwnedIsUsable(g, v, c, own, ROOT_INODE);
    WalkKept(g, v, c, own, w, ROOT_INODE, Components(path[1..]));
  }

  /** And a path below a directory resolves to whatever that directory finds for the last name. */
  lemma PathBelow(g: Geometry, v: View, c: Counts, own: Owners, w: View, path: seq<byte>, p: nat)
    requires Inv(g, v, c, own) && FindsKept(v, own, w) && SplitPath(path).Ok?
    requires LookupPath(v, SplitPath(path).value.0).Ok? && LookupPath(v, SplitPath(path).value.0).value.0 == p
    requires p in w.inodes && w.inodes[p].IsDir()
    ensures LookupPath(w, path) == LookupInDir(w, w.inodes[p], SplitPath(path).value.1)
  {
    hide LookupPath, LookupInDir, SplitPath, Inv, FindsKept, Inode.IsDir;
    PathKept(g, v, c, own, w, SplitPath(path).value.0);
    SplitAgreesWithLookup(w, path);
  }

  lemma SpotFrame(a: Blocks, b: Blocks, n: Inode, needed: u16)
    requires SameOn(a, b, Footprint(a, n))
    ensures Reachable(a, n, needed) == Reachable(b, n, needed) && EntryCost(a, n, needed) == EntryCost(b, n, needed)
    ensures forall free: nat :: EntryOutcome(a, n, needed, free) == EntryOutcome(b, n, needed, free)
    ensures forall free: nat :: EntryTaken(a, n, needed, free) == EntryTaken(b, n, needed, free)
  {
    hide SpotFor, Footprint;
    SpotSame(a, b, n, needed);
  }

  // --- Files being written ---

  /** An inode whose root maps logical blocks 0, 1, ... to `bl`, as `write_file` builds it. */
  ghost predicate FileSoFar(n: Inode, bl: seq<nat>) {
    && LeafRoot(n) && RootFits(n) && !n.IsDir()
    && n.Header() == Some(EMPTY_ROOT_HEADER.(entries := |bl| % TWO16)) && |bl| < TWO16
    && RootBlocks(n) == bl && MapsInOrder(Leaves(n.iBlock), bl)
  }

  lemma FileStarts(n: Inode)
    requires !n.IsDir()
    ensures FileSoFar(n.WithEmptyTree(), [])
  {
    hide Inode.WithEmptyTree, Inode.IsDir, Inode.UsesExtents, Inode.Header;
    assert DataBlocks([]) == [];
  }

  lemma StillFile(n: Inode, m: Inode, bl: seq<nat>)
    requires FileSoFar(n, bl) && m.iBlock == n.iBlock && m.flags == n.flags && m.mode == n.mode
    ensures FileSoFar(m, bl)
  {
    hide LeafRoot, RootFits, RootBlocks, Inode.IsDir, Inode.Header, MapsInOrder, Leaves;
    SameTreeFacts(map[], n, m);
  }

  /** The loop of `write_file` gets past the extent step for the first four blocks and never after. */
  lemma FileGrows(n: Inode, bl: seq<nat>, phys: nat)
    requires FileSoFar(n, bl) && phys < 0x1_0000_0000_0000
    ensures |bl| >= 4 ==> AppendTo(n, phys) == Err(UnsupportedFeature)
    ensures |bl| < 4 ==> AppendTo(n, phys).Ok? && FileSoFar(AppendTo(n, phys).value, bl + [phys])
  {
    hide HeaderAt, Leaves, WithLeaf, DataBlocks, NextLogical, OneBlockLeaf, Inode.IsDir, Inode.UsesExtents;
    if |bl| < 4 {
      AppendToFacts(n, phys);
      NextInOrder(Leaves(n.iBlock), bl);
      SameMode(n, AppendTo(n, phys).value);
      var more := bl + [phys];
      forall i: nat | i < |more|
        ensures (Leaves(n.iBlock) + [OneBlockLeaf(|bl|, phys)])[i] == OneBlockLeaf(i, more[i])
          && more[i] < 0x1_0000_0000_0000
      {
      }
    }
  }

  lemma SameMode(n: Inode, m: Inode)
    requires n.mode == m.mode
    ensures n.IsDir() == m.IsDir()
  {
  }

  /** How many blocks `len` bytes take. */
  function BlocksFor(len: nat, bs: nat): nat
    requires bs > 0
  {
    (len + bs - 1) / bs
  }

  lemma BlocksForBounds(len: nat, bs: nat, i: nat)
    requires bs > 0
    ensures i < BlocksFor(len, bs) ==> OffsetOf(i, bs) <= len
  {
    OffsetSplit(len + bs - 1, bs);
    OffsetsOrdered(i, BlocksFor(len, bs), bs);
  }

  /** What was stored in the blocks of a file stays there while only fresh blocks and bitmaps are written. */
  lemma StoresKept(a: Blocks, b: Blocks, bl: seq<nat>, data: seq<byte>, bs: nat)
    requires Stores(a, bl, data, bs) && forall x :: x in bl && x in a ==> x in b && b[x] == a[x]
    ensures Stores(b, bl, data, bs)
  {
    hide Chunk;
  }

  lemma StoresMore(blocks: Blocks, bl: seq<nat>, phys: nat, data: seq<byte>, bs: nat)
    requires Stores(blocks, bl, data, bs) && phys in blocks && OffsetOf(|bl|, bs) <= |data|
      && blocks[phys] == Chunk(data, bs, |bl|)
    ensures Stores(blocks, bl + [phys], data, bs)
  {
    hide Chunk;
  }

  /** The blocks written so far keep their contents when the next one is allocated and written. */
  lemma OwnedKept(v: View, own: Owners, w: View, ino: nat, bl: seq<nat>)
    requires OthersKept(v, own, w, own, {}) && ino in own && own[ino] == SetOf(bl)
    ensures forall x :: x in bl && x in v.blocks ==> x in w.blocks && w.blocks[x] == v.blocks[x]
  {
  }

  // --- Which error, and when ---

  /** The block loop of `write_file` when `free` blocks are free and the data takes `need`. */
  function ContentsOutcome(need: nat, free: nat): (r: Result<()>)
    ensures r.Ok? <==> need <= 4 && need <= free
    ensures r == Err(NoFreeBlocks) <==> free < need && free <= 4
    ensures r == Err(UnsupportedFeature) <==> 5 <= need && 5 <= free
  {
    if free < need && free < 5 then Err(NoFreeBlocks) else if need > 4 then Err(UnsupportedFeature) else Ok(())
  }

  /** How many blocks the loop attaches before it ends. */
  function BlocksTaken(need: nat, free: nat): nat { Min(Min(need, free), 4) }

  /** How many blocks it takes off the free count: a fifth one finds no extent for it. */
  function ContentsTaken(need: nat, free: nat): (r: nat)
    ensures r == BlocksTaken(need, free) + if ContentsOutcome(need, free) == Err(UnsupportedFeature) then 1 else 0
  {
    Min(Min(need, free), 5)
  }

  /** Adding a name after taking an inode for it. */
  function NewNameOutcome(blocks: Blocks, dir: Inode, needed: u16, freeInodes: nat, free: nat): Result<()> {
    if freeInodes == 0 then Err(NoFreeInodes) else EntryOutcome(blocks, dir, needed, free)
  }

  function NewNameTaken(blocks: Blocks, dir: Inode, needed: u16, freeInodes: nat, free: nat): (r: nat)
    ensures r <= free && (freeInodes == 0 ==> r == 0)
  {
    if freeInodes == 0 then 0 else EntryTaken(blocks, dir, needed, free)
  }

  /** `write_file` on a name that its parent does not have. */
  function CreateOutcome(blocks: Blocks, dir: Inode, needed: u16, freeInodes: nat, free: nat, need: nat):
      (r: Result<()>)
    ensures r.Ok? <==>
      && freeInodes > 0 && EntryCost(blocks, dir, needed).Some?
      && need <= 4 && EntryCost(blocks, dir, needed).value + need <= free
  {
    match NewNameOutcome(blocks, dir, needed, freeInodes, free)
    case Err(e) => Err(e)
    case Ok(_) => ContentsOutcome(need, free - NewNameTaken(blocks, dir, needed, freeInodes, free))
  }

  function CreateTaken(blocks: Blocks, dir: Inode, needed: u16, freeInodes: nat, free: nat, need: nat): (r: nat)
    ensures freeInodes == 0 ==> r == 0
    ensures CreateOutcome(blocks, dir, needed, freeInodes, free, need).Ok? ==>
      EntryCost(blocks, dir, needed).Some? && r == EntryCost(blocks, dir, needed).value + need
  {
    var named := NewNameTaken(blocks, dir, needed, freeInodes, free);
    if NewNameOutcome(blocks, dir, needed, freeInodes, free).Err? then named
    else named + ContentsTaken(need, free - named)
  }

  /** `mkdir` on a name that its parent does not have: the block for the dots is taken first. */
  function MkdirOutcome(blocks: Blocks, dir: Inode, needed: u16, freeInodes: nat, free: nat): (r: Result<()>)
    ensures r.Ok? <==>
      freeInodes > 0 && EntryCost(blocks, dir, needed).Some? && 1 + EntryCost(blocks, dir, needed).value <= free
  {
    if freeInodes == 0 then Err(NoFreeInodes)
    else if free == 0 then Err(NoFreeBlocks) else EntryOutcome(blocks, dir, needed, free - 1)
  }

  function MkdirTaken(blocks: Blocks, dir: Inode, needed: u16, freeInodes: nat, free: nat): (r: nat)
    ensures freeInodes == 0 || free == 0 ==> r == 0
    ensures MkdirOutcome(blocks, dir, needed, freeInodes, free).Ok? ==>
      EntryCost(blocks, dir, needed).Some? && r == 1 + EntryCost(blocks, dir, needed).value
  {
    if freeInodes == 0 || free == 0 then 0 else 1 + EntryTaken(blocks, dir, needed, free - 1)
  }

  /** The record of a finished file: the tree so far, the size, and the count of 512-byte sectors. */
  function Finished(n: Inode, len: u64, blocksNeeded: nat, bs: nat): Inode {
    n.SetSize(len).(blocksLo := blocksNeeded % TWO32 * (bs % TWO32 / 512) % TWO32)
  }

  lemma FinishedReadsBack(w: View, n: Inode, bl: seq<nat>, data: seq<byte>, bs: nat, k: Inode)
    requires bs > 0 && |data| + bs - 1 < TWO64 && |bl| == BlocksFor(|data|, bs)
    requires FileSoFar(n, bl) && k.iBlock == n.iBlock && k.flags == n.flags && k.mode == n.mode && k.Size() == |data|
    requires Stores(w.blocks, bl, data, bs)
    ensures ReadData(w, k, bs) == Ok(data) && !k.IsDir()
  {
    hide MapsInOrder, Stores, ReadData, Leaves, RootFits, RootBlocks, Inode.Size;
    StillFile(n, k, bl);
    ReadsBack(w, k, bl, data, bs);
  }

  // --- What an operation on a path is about ---

  datatype WritePlan = Overwrite(parent: nat, ino: nat) | Create(parent: nat)

  /** The checks at the start of `write_file`: which inode it will rewrite, or in which directory it will create one. */
  function PlanWrite(w: View, path: seq<byte>): Result<WritePlan> {
    match SplitPath(path)
    case Err(e) => Err(e)
    case Ok(split) =>
      match LookupPath(w, split.0)
      case Err(e) => Err(e)
      case Ok(parent) =>
        if !parent.1.IsDir() then Err(NotADirectory)
        else
          match LookupInDir(w, parent.1, split.1)
          case Ok(found) => if found.1.IsDir() then Err(IsADirectory) else Ok(Overwrite(parent.0, found.0))
          case Err(e) => if e == NotFound then Ok(Create(parent.0)) else Err(e)
  }

  /** The directory in which `mkdir` will create one; errors of the lookup other than a hit are not looked at. */
  function PlanMkdir(w: View, path: seq<byte>): Result<nat> {
    match SplitPath(path)
    case Err(e) => Err(e)
    case Ok(split) =>
      match LookupPath(w, split.0)
      case Err(e) => Err(e)
      case Ok(parent) =>
        if !parent.1.IsDir() then Err(NotADirectory)
        else if LookupInDir(w, parent.1, split.1).Ok? then Err(AlreadyExists)
        else Ok(parent.0)
  }

  /**
   When `write_file` overwrites, creates or refuses, by what the whole path and its parent lead to: a file is
   overwritten, a directory refused, and a name that its parent does not have created there.
   */
  lemma PlanWriteIs(w: View, path: seq<byte>)
    ensures SplitPath(path).Err? ==> PlanWrite(w, path) == Err(SplitPath(path).error)
    ensures SplitPath(path).Ok? ==>
      var parent, at := LookupPath(w, SplitPath(path).value.0), LookupPath(w, path);
      && (parent.Err? ==> PlanWrite(w, path) == Err(parent.error))
      && (parent.Ok? && !parent.value.1.IsDir() ==> PlanWrite(w, path) == Err(NotADirectory))
      && (parent.Ok? && parent.value.1.IsDir() ==>
        match at
        case Ok(found) =>
          PlanWrite(w, path) == if found.1.IsDir() then Err(IsADirectory) else Ok(Overwrite(parent.value.0, found.0))
        case Err(e) => PlanWrite(w, path) == if e == NotFound then Ok(Create(parent.value.0)) else Err(e))
      && (at.Ok? ==> parent.Ok? && parent.value.1.IsDir())
  {
    hide LookupPath, LookupInDir, SplitPath, Inode.IsDir;
    if SplitPath(path).Ok? {
      SplitAgreesWithLookup(w, path);
    }
  }

  /** The same for `mkdir`: it goes ahead exactly when the parent is a directory and the whole path leads nowhere. */
  lemma PlanMkdirIs(w: View, path: seq<byte>)
    ensures SplitPath(path).Err? ==> PlanMkdir(w, path) == Err(SplitPath(path).error)
    ensures SplitPath(path).Ok? ==>
      var parent, at := LookupPath(w, SplitPath(path).value.0), LookupPath(w, path);
      && (parent.Err? ==> PlanMkdir(w, path) == Err(parent.error))
      && (parent.Ok? && !parent.value.1.IsDir() ==> PlanMkdir(w, path) == Err(NotADirectory))
      && (parent.Ok? && parent.value.1.IsDir() ==>
        PlanMkdir(w, path) == if at.Ok? then Err(AlreadyExists) else Ok(parent.value.0))
  {
    hide LookupPath, LookupInDir, SplitPath, Inode.IsDir;
    if SplitPath(path).Ok? {
      SplitAgreesWithLookup(w, path);
    }
  }

  /** Bytes that a record for this name needs. */
  function NeededFor(name: seq<byte>): u16 { NewEntry(0, name, FT_REG_FILE, 0).ActualSize() }

  /** Bytes that a record with a name of 255 bytes needs. */
  const MAX_RECORD := 264

  lemma NeededBound(name: seq<byte>)
    ensures DIR_ENTRY_MIN_SIZE <= NeededFor(name) as int <= MAX_RECORD
  {
  }

  lemma NeededIsActual(ino: u32, name: seq<byte>, t: byte)
    ensures NewEntry(ino, name, t, 0).ActualSize() == NeededFor(name)
  {
  }

  /** The parent of a split path is a live directory. */
  lemma ParentIsLive(g: Geometry, w: View, c: Counts, own: Owners, path: seq<byte>)
    requires Inv(g, w, c, own) && SplitPath(path).Ok? && LookupPath(w, SplitPath(path).value.0).Ok?
    ensures var (p, n) := LookupPath(w, SplitPath(path).value.0).value;
      && p in own && p in w.inodes && n == w.inodes[p] && 1 <= p && 0 < |SplitPath(path).value.1| <= EXT4_NAME_LEN
  {
    hide LookupPath, Inv, Components;
    PathIsLive(g, w, c, own, SplitPath(path).value.0);
    SplitKeepsComponents(path);
  }

  /**
   In the end the path leads to the inode that its parent finds for the last name, and the file reads as that inode.
   */
  lemma ReadThrough(g: Geometry, v: View, c: Counts, own: Owners, w: View, path: seq<byte>, p: nat, t: nat, bs: nat)
    requires Inv(g, v, c, own) && FindsKept(v, own, w) && SplitPath(path).Ok? && bs > 0
    requires LookupPath(v, SplitPath(path).value.0).Ok? && LookupPath(v, SplitPath(path).value.0).value.0 == p
    requires p in w.inodes && w.inodes[p].IsDir()
    requires t in w.inodes && t != 0 && !w.inodes[t].IsDir()
    ensures FindIno(w.blocks, w.inodes[p], SplitPath(path).value.1) == Ok(Some(t)) ==>
      ReadFile(w, path, bs) == ReadData(w, w.inodes[t], bs)
    ensures FindIno(w.blocks, w.inodes[p], SplitPath(path).value.1) == Ok(None) ==>
      ReadFile(w, path, bs) == Err(NotFound)
  {
    hide Inv, LookupPath, LookupInDir, SplitPath, FindsKept, FindIno, Inode.IsDir, ReadData;
    PathBelow(g, v, c, own, w, path, p);
    LookupIsFind(w, w.inodes[p], SplitPath(path).value.1);
  }

  lemma LooseNumber(g: Geometry, w: View, own: Owners, ino: nat)
    requires g.Ok() && LooseInode(g, w, own, ino)
    ensures 1 <= ino < TWO32 && ino !in own
  {
    hide FreeInodeBit, InodeAt, Geometry.InTable, Geometry.TableLen;
  }

  lemma LooseInodeKept(g: Geometry, v: View, w: View, own: Owners, ino: nat)
    requires LooseInode(g, v, own, ino) && Allocates(g, v.blocks, w.blocks)
    ensures LooseInode(g, w, own, ino)
  {
    hide FreeInodeBit, FreeBlockBit, Geometry.InodeCount;
  }

  /** A new file has no blocks. */
  lemma NewFileOwnsNothing(perms: u16)
    ensures LeafRoot(NewFile(perms)) && RootFits(NewFile(perms)) && RootBlocks(NewFile(perms)) == []
      && SetOf(RootBlocks(NewFile(perms))) == {}
  {
    hide HeaderAt, Inode.WithEmptyTree;
    assert DataBlocks([]) == [];
  }

  lemma NewDirOwnsNothing(perms: u16)
    ensures LeafRoot(NewDir(perms)) && RootFits(NewDir(perms)) && RootBlocks(NewDir(perms)) == []
      && SetOf(RootBlocks(NewDir(perms))) == {}
  {
    hide HeaderAt, Inode.WithEmptyTree;
    assert DataBlocks([]) == [];
  }

  /** Where a directory gains nothing it keeps finding nothing. */
  lemma GainedAcross(a: Blocks, n: Inode, b: Blocks, m: Inode, c: Blocks, name: seq<byte>, ino: nat, needed: u16)
    requires SameOn(a, b, Footprint(a, n)) && Gained(b, n, c, m, name, ino, Reachable(b, n, needed))
    ensures Gained(a, n, c, m, name, ino, Reachable(a, n, needed))
  {
    hide FindIno, SameOn, Footprint, Reachable;
    SpotFrame(a, b, n, needed);
    GainedFrom(a, n, b, c, m, name, ino, Reachable(a, n, needed));
  }
}
