/**
 Runs: any sequence of operations, errors included, from any state that satisfies the invariant. A run is a trace of
 states, one step per operation; what a step does to the state is what the contract of its operation says.
 */
module Runs {
  import opened Bytes
  import opened Wrappers
  import opened Bitmap
  import opened ExtentTree
  import opened InodeRecord
  import opened Layout
  import opened Path
  import opened FileTree
  import opened DirRow
  import opened Invariant
  import opened Grow
  import opened Ops
  import opened Persist
  import opened Ext4

  datatype Op =
    | TakeBlock(preferred: nat)
    | TakeInode(preferred: nat)
    | WriteTo(path: seq<byte>, data: seq<byte>)
    | MakeDirectory(path: seq<byte>)
    | SyncAll

  datatype State = State(view: View, counts: Counts, own: Owners)

  /** Lengths are 64-bit numbers. */
  predicate Sane(op: Op) { op.WriteTo? ==> |op.data| + TWO16 < TWO64 }

  /** The one inode, if any, that was live before and that an operation may change. */
  function Target(w: View, op: Op): set<nat> {
    match op
    case WriteTo(path, _) =>
      (match PlanWrite(w, path)
       case Ok(Overwrite(_, t)) => {t}
       case Ok(Create(p)) => {p}
       case Err(_) => {})
    case MakeDirectory(path) =>
      (match PlanMkdir(w, path)
       case Ok(p) => {p}
       case Err(_) => {})
    case _ => {}
  }

  /** By what the path leads to: the file that is overwritten, or the directory that gets a new name. */
  lemma TargetIs(w: View, path: seq<byte>, data: seq<byte>)
    requires SplitPath(path).Ok?
    ensures var parent, at := LookupPath(w, SplitPath(path).value.0), LookupPath(w, path);
      var inDir := parent.Ok? && parent.value.1.IsDir();
      && Target(w, MakeDirectory(path)) == (if inDir && at.Err? then {parent.value.0} else {})
      && Target(w, WriteTo(path, data))
        == (if at.Ok? && !at.value.1.IsDir() then {at.value.0}
            else if inDir && at == Err(NotFound) then {parent.value.0} else {})
  {
    hide LookupPath, SplitPath, PlanWrite, PlanMkdir, Inode.IsDir;
    PlanWriteIs(w, path);
    PlanMkdirIs(w, path);
  }

  /** The inodes that the operations of a run may change, each seen from the state in which its operation starts. */
  function Targets(states: seq<State>, ops: seq<Op>): set<nat>
    requires |ops| <= |states|
    decreases |ops|
  {
    if ops == [] then {}
    else var last := |ops| - 1; Targets(states, ops[..last]) + Target(states[last].view, ops[last])
  }

  lemma {:induction false} TargetsIs(states: seq<State>, ops: seq<Op>, ino: nat)
    requires |ops| <= |states|
    ensures ino in Targets(states, ops) <==> exists i :: 0 <= i < |ops| && ino in Target(states[i].view, ops[i])
    decreases |ops|
  {
    hide Target;
    if ops != [] {
      var last := |ops| - 1;
      TargetsIs(states, ops[..last], ino);
      assert forall i :: 0 <= i < last ==> ops[..last][i] == ops[i];
    }
  }

  // --- One step ---

  /** What one operation, or a run of them, keeps. */
  ghost predicate Keeps(g: Geometry, u: View, before: Owners, w: View, after: Owners, touched: set<nat>) {
    OnlyAllocates(g, u.blocks, w.blocks) && OthersKept(u, before, w, after, touched) && FindsKept(u, before, w)
  }

  /** What an operation did, success or failure: the contract of its method, on states. */
  ghost predicate Did(g: Geometry, a: State, op: Op, b: State) {
    match op
    case TakeBlock(preferred) =>
      if a.counts.sbBlocks == 0 then b == a
      else b.own == a.own && exists x: nat :: TookFirstBlock(g, a.view, a.counts, b.view, b.counts, preferred, x)
    case TakeInode(preferred) =>
      if a.counts.sbInodes == 0 then b == a
      else b.own == a.own && exists x: nat :: TookFirstInode(g, a.view, a.counts, b.view, b.counts, preferred, x)
    case WriteTo(path, data) =>
      && b.counts.usedDirs == a.counts.usedDirs
      && (match PlanWrite(a.view, path)
          case Ok(Overwrite(_, t)) =>
            && b.counts.sbInodes == a.counts.sbInodes
            && exists bl: seq<nat>, r: Result<()> ::
              OverwriteDone(g, a.view, a.own, b.view, b.own, path, t, bl, data, g.blockSize, a.counts.sbBlocks,
                            b.counts.sbBlocks, r)
          case Ok(Create(p)) =>
            && b.counts.sbInodes == a.counts.sbInodes - OneIfAny(a.counts.sbInodes)
            && exists t: nat, bl: seq<nat>, r: Result<()> ::
              CreateDone(a.view, a.own, b.view, b.own, path, p, t, bl, data, g.blockSize,
                         a.counts.sbInodes, a.counts.sbBlocks, b.counts.sbBlocks, r)
          case Err(_) => b == a)
    case MakeDirectory(path) =>
      (match PlanMkdir(a.view, path)
       case Ok(p) =>
         && b.counts.sbInodes == a.counts.sbInodes - OneIfAny(a.counts.sbInodes)
         && exists r: Result<nat> ::
           MkdirDone(g, a.view, a.own, a.counts, b.view, b.own, b.counts, path, p,
                     a.counts.sbInodes, a.counts.sbBlocks, b.counts.sbBlocks, r)
       case Err(_) => b == a)
    case SyncAll =>
      && b.counts == a.counts && b.own == a.own
      && UsableKept(g, a.view, b.view) && SameBitmaps(g, a.view.blocks, b.view.blocks)
  }

  ghost predicate StepOk(g: Geometry, a: State, op: Op, b: State) {
    && Inv(g, a.view, a.counts, a.own) && Inv(g, b.view, b.counts, b.own)
    && Keeps(g, a.view, a.own, b.view, b.own, Target(a.view, op)) && Did(g, a, op, b)
    && (!op.SyncAll? ==> OutsideKept(g, a.view.blocks, b.view.blocks))
  }

  lemma KeepsSelf(g: Geometry, w: View, c: Counts, own: Owners)
    requires Inv(g, w, c, own)
    ensures Keeps(g, w, own, w, own, {})
  {
    hide Inv, OnlyAllocates, OthersKept, FindsKept;
    OnlyAllocatesSelf(g, w.blocks);
    OthersKeptSelf(g, w, c, own, {});
    FindsKeptByOthers(g, w, c, own, w, c, own, {});
  }

  lemma KeepsTrans(g: Geometry, u: View, a: Owners, v: View, b: Owners, w: View, c: Owners, x: set<nat>, y: set<nat>)
    requires Keeps(g, u, a, v, b, x) && Keeps(g, v, b, w, c, y)
    ensures Keeps(g, u, a, w, c, x + y)
  {
    hide OnlyAllocates, FindsKept, SameOn;
    OnlyAllocatesTrans(g, u.blocks, v.blocks, w.blocks);
    OthersKeptTrans(u, a, v, b, w, c, x, y, x + y);
    FindsKeptTrans(u, a, v, b, w);
  }

  lemma KeepsByUsable(g: Geometry, v: View, c: Counts, own: Owners, w: View, d: Counts)
    requires Inv(g, v, c, own) && Inv(g, w, d, own) && UsableKept(g, v, w) && OnlyAllocates(g, v.blocks, w.blocks)
    ensures Keeps(g, v, own, w, own, {})
  {
    hide CountsOk, FreeIsUnused, InodeOk, Geometry.Ok, UsableKept, OthersKept, FindsKept, OnlyAllocates, OwnersOk,
      ViewOk;
    UsableKeptMeansKept(g, v, w, own);
    FindsKeptByOthers(g, v, c, own, w, d, own, {});
  }

  ghost function StateOf(fs: Ext4Fs): State
    reads fs
  {
    State(fs.Vw(), fs.Cnt(), fs.own)
  }

  /** What `Did` says of a handle's counters. */
  lemma CountersOf(fs: Ext4Fs)
    ensures fs.Cnt().sbBlocks == fs.sb.FreeBlocks() && fs.Cnt().sbInodes == fs.sb.freeInodesCount
  {
  }

  /** Calls the method that the operation stands for. */
  method Dispatch(fs: Ext4Fs, op: Op)
    requires fs.Valid() && Sane(op)
    modifies fs`device, fs`sb, fs`groups, fs`own, fs`blockLog, fs`inodeLog
    ensures fs.Valid() && fs.Geo() == old(fs.Geo())
    ensures StepOk(fs.Geo(), old(StateOf(fs)), op, StateOf(fs))
    ensures op.SyncAll? ==> Synced(fs.device, fs.sb, fs.groups)
  {
    hide Ext4Fs.Valid, Ext4Fs.Mounted, Ext4Fs.Vw, Ext4Fs.Cnt, Ext4Fs.Geo, Inv, OthersKept, OnlyAllocates, FindsKept,
      UsableKept, PlanWrite, PlanMkdir, Fits, FixedOf, TookFirstBlock, TookFirstInode, SameBitmaps, Synced,
      MetadataOnly;
    ghost var g, w, c, own := fs.Geo(), fs.Vw(), fs.Cnt(), fs.own;
    fs.OpenRoot();
    CountersOf(fs);
    KeepsSelf(g, w, c, own);
    match op
    case TakeBlock(preferred) =>
      var r := fs.AllocateBlock(preferred);
      fs.OpenRoot();
      if r.Ok? {
        KeepsByUsable(g, w, c, own, fs.Vw(), fs.Cnt());
      }
    case TakeInode(preferred) =>
      var r := fs.AllocateInode(preferred);
      fs.OpenRoot();
      if r.Ok? {
        KeepsByUsable(g, w, c, own, fs.Vw(), fs.Cnt());
      }
    case WriteTo(path, data) =>
      PerformWrite(fs, path, data);
    case MakeDirectory(path) =>
      PerformMkdir(fs, path);
    case SyncAll =>
      var r := fs.SyncMetadata();
      fs.OpenRoot();
      SameBitmapsOnlyAllocate(g, w.blocks, fs.Vw().blocks);
      KeepsByUsable(g, w, c, own, fs.Vw(), fs.Cnt());
  }

  method PerformWrite(fs: Ext4Fs, path: seq<byte>, data: seq<byte>)
    requires fs.Valid() && |data| + TWO16 < TWO64
    modifies fs`device, fs`sb, fs`groups, fs`own, fs`blockLog, fs`inodeLog
    ensures fs.Valid() && fs.Geo() == old(fs.Geo())
    ensures StepOk(fs.Geo(), old(StateOf(fs)), WriteTo(path, data), StateOf(fs))
  {
    hide Ext4Fs.Valid, Ext4Fs.Mounted, Ext4Fs.Vw, Ext4Fs.Cnt, Ext4Fs.Geo, Inv, OthersKept, OnlyAllocates, FindsKept,
      PlanWrite, Fits, FileTree.LookupPath, FileTree.ReadFile, BlocksFor, OverwriteDone, CreateDone, FixedOf;
    ghost var g, w, c, own := fs.Geo(), fs.Vw(), fs.Cnt(), fs.own;
    fs.OpenRoot();
    CountersOf(fs);
    KeepsSelf(g, w, c, own);
    ghost var t, bl;
    var r;
    r, t, bl := fs.WriteFile(path, data);
    fs.OpenRoot();
    CountersOf(fs);
    WriteKeeps(g, w, own, fs.Vw(), fs.own, path, t, bl, data, fs.sb.BlockSize(), c.sbInodes, c.sbBlocks,
               fs.sb.FreeBlocks(), r);
  }

  method PerformMkdir(fs: Ext4Fs, path: seq<byte>)
    requires fs.Valid()
    modifies fs`device, fs`sb, fs`groups, fs`own, fs`blockLog, fs`inodeLog
    ensures fs.Valid() && fs.Geo() == old(fs.Geo())
    ensures StepOk(fs.Geo(), old(StateOf(fs)), MakeDirectory(path), StateOf(fs))
  {
    hide Ext4Fs.Valid, Ext4Fs.Mounted, Ext4Fs.Vw, Ext4Fs.Cnt, Ext4Fs.Geo, Inv, OthersKept, OnlyAllocates, FindsKept,
      PlanMkdir, Fits, MkdirDone, FixedOf;
    ghost var g, w, c, own := fs.Geo(), fs.Vw(), fs.Cnt(), fs.own;
    fs.OpenRoot();
    CountersOf(fs);
    KeepsSelf(g, w, c, own);
    var r := fs.Mkdir(path);
    fs.OpenRoot();
    CountersOf(fs);
    MkdirKeeps(g, w, own, c, fs.Vw(), fs.own, fs.Cnt(), path, c.sbInodes, c.sbBlocks, fs.sb.FreeBlocks(), r);
  }

  lemma WriteKeeps(g: Geometry, u: View, before: Owners, w: View, after: Owners, path: seq<byte>, t: nat, bl: seq<nat>,
                   data: seq<byte>, bs: nat, freeInodes: nat, free: nat, left: nat, r: Result<()>)
    ensures forall target: nat :: OverwriteDone(g, u, before, w, after, path, target, bl, data, bs, free, left, r) ==>
      OthersKept(u, before, w, after, {target})
    ensures forall p: nat :: CreateDone(u, before, w, after, path, p, t, bl, data, bs, freeInodes, free, left, r) ==>
      OthersKept(u, before, w, after, {p})
  {
    hide OthersKept, FileRewritten, FileMade, CreateOutcome, ContentsOutcome, BlocksTaken, OtherNamesKept, SplitPath,
      BlocksFor, EntryTaken, NeededFor;
  }

  lemma MkdirKeeps(g: Geometry, u: View, before: Owners, a: Counts, w: View, after: Owners, b: Counts, path: seq<byte>,
                   freeInodes: nat, free: nat, left: nat, r: Result<nat>)
    ensures forall p: nat :: MkdirDone(g, u, before, a, w, after, b, path, p, freeInodes, free, left, r) ==>
      OthersKept(u, before, w, after, {p})
  {
    hide OthersKept, DirMade, OneMoreIn, MkdirOutcome, OtherNamesKept, SplitPath, EntryTaken, NeededFor;
  }

  // --- What mkdir counts ---

  /** The group in which an operation counts a directory, if it makes one; `mkdir` uses the parent's group. */
  function CountsDirIn(g: Geometry, a: State, op: Op): Option<nat> {
    match op
    case MakeDirectory(path) =>
      (match PlanMkdir(a.view, path)
       case Ok(p) =>
         if 0 < p && g.inodesPerGroup > 0 && p in a.view.inodes && SplitPath(path).Ok?
            && MkdirOutcome(a.view.blocks, a.view.inodes[p], NeededFor(SplitPath(path).value.1),
                            a.counts.sbInodes, a.counts.sbBlocks).Ok?
         then Some(g.GroupOf(p)) else None
       case Err(_) => None)
    case _ => None
  }

  lemma StepCounts(g: Geometry, a: State, op: Op, b: State)
    requires StepOk(g, a, op, b)
    ensures |a.counts.usedDirs| == |b.counts.usedDirs| == |g.loc|
    ensures CountsDirIn(g, a, op).Some? ==> CountsDirIn(g, a, op).value < |g.loc|
    ensures forall k: nat :: k < |g.loc| ==>
      b.counts.usedDirs[k] == a.counts.usedDirs[k] + if CountsDirIn(g, a, op) == Some(k) then 1 else 0
    ensures Sum(b.counts.usedDirs) == Sum(a.counts.usedDirs) + if CountsDirIn(g, a, op).Some? then 1 else 0
  {
    hide Keeps, OverwriteDone, CreateDone, DirMade, PlanWrite, PlanMkdir, SplitPath, MkdirOutcome, NeededFor,
      UsableKept, SameBitmaps, OthersKept, SameDir, OtherNamesKept, MkdirTaken, Sum, FreeIsUnused, OwnersOk, ViewOk,
      InodeOk, CountClear, BlockTaken, InodeTaken, Geometry.Ok, FirstBlockAt, FirstInodeAt, FreeBlockBit, FreeInodeBit,
      Probe;
  }

  // --- Staying storable ---

  /** The descriptors have high halves, or no group counts more directories than the low half holds. */
  predicate FitsStride(sb: Superblock, groups: seq<Group>) {
    sb.GroupDescSize() >= BlockGroup.BGD_SIZE_64 || forall i :: 0 <= i < |groups| ==> groups[i].UsedDirsCount() < TWO16
  }

  /** Operations leave a storable volume storable exactly when the directory counts still fit. */
  lemma StorableAfter(g: Geometry, u: View, c: Counts, own: Owners, w: View, d: Counts, after: Owners,
                      sb: Superblock, groups: seq<Group>, sb': Superblock, groups': seq<Group>)
    requires Inv(g, u, c, own) && Inv(g, w, d, after) && OnlyAllocates(g, u.blocks, w.blocks)
    requires c == CountsOf(sb, groups) && d == CountsOf(sb', groups') && FixedOf(sb', groups') == FixedOf(sb, groups)
    requires Countable(sb) && Storable(sb, groups)
    ensures Countable(sb') && (Storable(sb', groups') <==> FitsStride(sb', groups'))
  {
    hide Inv, OnlyAllocates, FixedOf, Storable, Countable;
    FreeCountsFall(g, u, c, own, w, d, after);
    FixedFacts(sb, groups, sb', groups');
    assert |c.blockFree| == |groups| && |d.blockFree| == |groups'|;
    forall i | 0 <= i < |groups|
      ensures groups'[i].FreeBlocksCount() <= groups[i].FreeBlocksCount()
        && groups'[i].FreeInodesCount() <= groups[i].FreeInodesCount()
    {
      assert d.blockFree[i] <= c.blockFree[i] && d.inodeFree[i] <= c.inodeFree[i];
    }
    StaysStorable(sb, groups, sb', groups');
  }

  lemma StorableFits(sb: Superblock, groups: seq<Group>)
    requires Countable(sb) && Storable(sb, groups)
    ensures FitsStride(sb, groups)
  {
  }

  lemma StillFits(sb: Superblock, groups: seq<Group>, sb': Superblock, groups': seq<Group>)
    requires FitsStride(sb, groups) && FixedOf(sb', groups') == FixedOf(sb, groups)
    requires CountsOf(sb', groups').usedDirs == CountsOf(sb, groups).usedDirs
    ensures FitsStride(sb', groups')
  {
    FixedFacts(sb, groups, sb', groups');
    hide FixedOf;
    var a, b := CountsOf(sb, groups).usedDirs, CountsOf(sb', groups').usedDirs;
    forall i | 0 <= i < |groups'|
      ensures groups'[i].UsedDirsCount() == groups[i].UsedDirsCount()
    {
      assert a[i] == b[i];
    }
  }

  /**
   Checked before the operation: a 32-byte stride has no room for the upper half of a directory count, so the group in
   which `mkdir` is about to count one must not hold 65535 of them already.
   */
  predicate CounterFits(g: Geometry, a: State, op: Op, stride: nat) {
    stride >= BlockGroup.BGD_SIZE_64 ||
    match CountsDirIn(g, a, op)
    case Some(k) => k < |a.counts.usedDirs| && a.counts.usedDirs[k] + 1 < TWO16
    case None => true
  }

  lemma FitsIs(sb: Superblock, groups: seq<Group>)
    ensures var d := CountsOf(sb, groups).usedDirs;
      FitsStride(sb, groups) <==>
        sb.GroupDescSize() >= BlockGroup.BGD_SIZE_64 || forall k: nat :: k < |d| ==> d[k] < TWO16
  {
    hide Superblock.GroupDescSize;
    var d := CountsOf(sb, groups).usedDirs;
    forall k: nat | k < |d|
      ensures d[k] == groups[k].UsedDirsCount()
    {
    }
  }

  /** One operation leaves a storable volume storable exactly when the counter it will raise fits. */
  lemma StepStorable(g: Geometry, a: State, op: Op, b: State, sb: Superblock, groups: seq<Group>, sb': Superblock,
                     groups': seq<Group>)
    requires StepOk(g, a, op, b) && FixedOf(sb', groups') == FixedOf(sb, groups)
    requires a.counts == CountsOf(sb, groups) && b.counts == CountsOf(sb', groups')
    requires Countable(sb) && Storable(sb, groups)
    ensures Countable(sb') && (Storable(sb', groups') <==> CounterFits(g, a, op, sb.GroupDescSize()))
  {
    hide Inv, Did, FixedOf, Storable, Countable, CountsDirIn, CountsOf, OnlyAllocates, OthersKept, FindsKept,
      Superblock.GroupDescSize, Sum, FitsStride;
    StepCounts(g, a, op, b);
    StorableFits(sb, groups);
    StorableAfter(g, a.view, a.counts, a.own, b.view, b.counts, b.own, sb, groups, sb', groups');
    FixedFacts(sb, groups, sb', groups');
    FitsIs(sb, groups);
    FitsIs(sb', groups');
    var d, d' := a.counts.usedDirs, b.counts.usedDirs;
    if sb.GroupDescSize() < BlockGroup.BGD_SIZE_64 && CountsDirIn(g, a, op).Some? {
      var k := CountsDirIn(g, a, op).value;
      assert d'[k] == d[k] + 1;
    }
  }

  /** One operation; a failure is no more than an outcome. */
  method Perform(fs: Ext4Fs, op: Op)
    requires fs.Valid() && Sane(op)
    modifies fs`device, fs`sb, fs`groups, fs`own, fs`blockLog, fs`inodeLog
    ensures fs.Valid() && fs.Geo() == old(fs.Geo()) && FixedOf(fs.sb, fs.groups) == old(FixedOf(fs.sb, fs.groups))
    ensures StepOk(fs.Geo(), old(StateOf(fs)), op, StateOf(fs))
    ensures op.SyncAll? ==> Synced(fs.device, fs.sb, fs.groups)
    ensures old(Countable(fs.sb) && Storable(fs.sb, fs.groups)) ==>
      && Countable(fs.sb)
      && (Storable(fs.sb, fs.groups) <==> old(CounterFits(fs.Geo(), StateOf(fs), op, fs.sb.GroupDescSize())))
  {
    hide Ext4Fs.Valid, Ext4Fs.Mounted, Ext4Fs.Vw, Ext4Fs.Cnt, Ext4Fs.Geo, StepOk, FixedOf, Storable, Countable,
      CounterFits, Superblock.GroupDescSize, Synced;
    ghost var g, a, sb0, groups0 := fs.Geo(), StateOf(fs), fs.sb, fs.groups;
    CountsAre(fs);
    fs.OpenFixed();
    Dispatch(fs, op);
    CountsAre(fs);
    fs.OpenFixed();
    if Countable(sb0) && Storable(sb0, groups0) {
      StepStorable(g, a, op, StateOf(fs), sb0, groups0, fs.sb, fs.groups);
    }
  }

  // --- Runs ---

  ghost predicate IsTrace(g: Geometry, states: seq<State>, ops: seq<Op>) {
    && |states| == |ops| + 1 && Inv(g, states[0].view, states[0].counts, states[0].own)
    && forall i :: 0 <= i < |ops| ==> StepOk(g, states[i], ops[i], states[i + 1])
  }

  /** A whole run changes at most the targets of its operations, only allocates, and forgets no name. */
  lemma {:induction false} TraceKeeps(g: Geometry, states: seq<State>, ops: seq<Op>)
    requires IsTrace(g, states, ops)
    ensures Keeps(g, states[0].view, states[0].own, states[|ops|].view, states[|ops|].own, Targets(states, ops))
    decreases |ops|
  {
    hide Inv, Keeps, Did, Target;
    if ops == [] {
      KeepsSelf(g, states[0].view, states[0].counts, states[0].own);
    } else {
      var last := |ops| - 1;
      var a, b, c := states[0], states[last], states[last + 1];
      assert StepOk(g, states[last], ops[last], states[last + 1]);
      TraceKeeps(g, states[..last + 1], ops[..last]);
      TargetsPrefix(states, states[..last + 1], ops[..last]);
      KeepsTrans(g, a.view, a.own, b.view, b.own, c.view, c.own, Targets(states, ops[..last]),
                 Target(b.view, ops[last]));
    }
  }

  /** Without a sync, no block changes that holds superblock or descriptors or lies past the volume. */
  lemma {:induction false} TraceOutside(g: Geometry, states: seq<State>, ops: seq<Op>)
    requires IsTrace(g, states, ops) && forall i :: 0 <= i < |ops| ==> !ops[i].SyncAll?
    ensures OutsideKept(g, states[0].view.blocks, states[|ops|].view.blocks)
    decreases |ops|
  {
    hide Inv, Keeps, Did, Target;
    if ops != [] {
      var last := |ops| - 1;
      assert StepOk(g, states[last], ops[last], states[last + 1]);
      TraceOutside(g, states[..last + 1], ops[..last]);
    }
  }

  lemma {:induction false} TargetsPrefix(a: seq<State>, b: seq<State>, ops: seq<Op>)
    requires |ops| <= |b| <= |a| && b == a[..|b|]
    ensures Targets(a, ops) == Targets(b, ops)
    decreases |ops|
  {
    hide Target;
    if ops != [] {
      TargetsPrefix(a, b, ops[..|ops| - 1]);
    }
  }

  /** How many operations of the run make a directory that is counted in group `k`, */
  function MadeIn(g: Geometry, states: seq<State>, ops: seq<Op>, k: nat): nat
    requires |ops| <= |states|
    decreases |ops|
  {
    if ops == [] then 0
    else
      var last := |ops| - 1;
      MadeIn(g, states, ops[..last], k) + if CountsDirIn(g, states[last], ops[last]) == Some(k) then 1 else 0
  }

  /** ... and how many make one at all. */
  function Made(g: Geometry, states: seq<State>, ops: seq<Op>): nat
    requires |ops| <= |states|
    decreases |ops|
  {
    if ops == [] then 0
    else
      var last := |ops| - 1;
      Made(g, states, ops[..last]) + if CountsDirIn(g, states[last], ops[last]).Some? then 1 else 0
  }

  lemma {:induction false} MadePrefix(g: Geometry, a: seq<State>, b: seq<State>, ops: seq<Op>, k: nat)
    requires |ops| <= |b| <= |a| && b == a[..|b|]
    ensures MadeIn(g, a, ops, k) == MadeIn(g, b, ops, k) && Made(g, a, ops) == Made(g, b, ops)
    decreases |ops|
  {
    hide CountsDirIn;
    if ops != [] {
      MadePrefix(g, a, b, ops[..|ops| - 1], k);
    }
  }

  /** Over any run the directory counters grow by exactly the directories made, group by group and in total. */
  lemma {:induction false} DirsCounted(g: Geometry, states: seq<State>, ops: seq<Op>)
    requires IsTrace(g, states, ops)
    ensures var u, w := states[0].counts.usedDirs, states[|ops|].counts.usedDirs;
      && |u| == |w| == |g.loc| && Sum(w) == Sum(u) + Made(g, states, ops)
      && forall k: nat :: k < |g.loc| ==> w[k] == u[k] + MadeIn(g, states, ops, k)
    decreases |ops|
  {
    hide Inv, StepOk, CountsDirIn, Sum;
    if ops == [] {
      CountsPerGroup(g, states[0]);
    } else {
      var last := |ops| - 1;
      assert StepOk(g, states[last], ops[last], states[last + 1]);
      StepCounts(g, states[last], ops[last], states[last + 1]);
      DirsCounted(g, states[..last + 1], ops[..last]);
      forall k: nat | k < |g.loc|
        ensures states[|ops|].counts.usedDirs[k] == states[0].counts.usedDirs[k] + MadeIn(g, states, ops, k)
      {
        MadePrefix(g, states, states[..last + 1], ops[..last], k);
      }
      MadePrefix(g, states, states[..last + 1], ops[..last], 0);
    }
  }

  lemma CountsPerGroup(g: Geometry, a: State)
    requires Inv(g, a.view, a.counts, a.own)
    ensures |a.counts.usedDirs| == |g.loc|
  {
    hide FreeIsUnused, OwnersOk, ViewOk, InodeOk, Sum, CountClear, Geometry.Ok;
  }

  /** What has to hold of a run for the volume to be storable at its end. */
  predicate CountersFit(g: Geometry, states: seq<State>, ops: seq<Op>, stride: nat)
    requires |ops| < |states|
  {
    var used := states[0].counts.usedDirs;
    stride >= BlockGroup.BGD_SIZE_64 || forall k: nat :: k < |used| ==> used[k] + MadeIn(g, states, ops, k) < TWO16
  }

  lemma RunStorable(g: Geometry, states: seq<State>, ops: seq<Op>, sb: Superblock, groups: seq<Group>, sb': Superblock,
                    groups': seq<Group>)
    requires IsTrace(g, states, ops) && FixedOf(sb', groups') == FixedOf(sb, groups)
    requires states[0].counts == CountsOf(sb, groups) && states[|ops|].counts == CountsOf(sb', groups')
    requires Inv(g, states[|ops|].view, states[|ops|].counts, states[|ops|].own)
    requires Countable(sb) && Storable(sb, groups)
    ensures Countable(sb') && (Storable(sb', groups') <==> CountersFit(g, states, ops, sb.GroupDescSize()))
  {
    hide Inv, StepOk, FixedOf, Storable, Countable, CountsOf, OnlyAllocates, OthersKept, FindsKept,
      Superblock.GroupDescSize, Sum, FitsStride, MadeIn, Made;
    var a, b := states[0], states[|ops|];
    TraceKeeps(g, states, ops);
    DirsCounted(g, states, ops);
    StorableAfter(g, a.view, a.counts, a.own, b.view, b.counts, b.own, sb, groups, sb', groups');
    FixedFacts(sb, groups, sb', groups');
    FitsIs(sb', groups');
  }

  /** An inode that no operation of the run targets keeps its record and, if it is a file, its contents. */
  lemma UntargetedKept(g: Geometry, states: seq<State>, ops: seq<Op>, ino: nat, bs: nat)
    requires IsTrace(g, states, ops) && ino in states[0].own && ino !in Targets(states, ops) && bs > 0
    ensures var u, w := states[0].view, states[|ops|].view;
      && ino in states[|ops|].own && ino in u.inodes && ino in w.inodes && w.inodes[ino] == u.inodes[ino]
      && ReadData(w, w.inodes[ino], bs) == ReadData(u, u.inodes[ino], bs)
  {
    hide Inv, StepOk, OnlyAllocates, FindsKept, ReadData, Targets, Footprint, SameOn;
    TraceKeeps(g, states, ops);
    var u, w := states[0].view, states[|ops|].view;
    OwnedIsFootprint(g, u, states[0].counts, states[0].own, ino);
    ReadDataFrame(u, w, u.inodes[ino], bs);
  }

  /** A path to an inode that is not targeted leads to the same record, and a file there reads the same. */
  lemma OtherPathsKept(g: Geometry, u: View, c: Counts, own: Owners, w: View, after: Owners, touched: set<nat>,
                       path: seq<byte>, bs: nat)
    requires Inv(g, u, c, own) && Keeps(g, u, own, w, after, touched) && bs > 0
    requires LookupPath(u, path).Ok? && LookupPath(u, path).value.0 !in touched
    ensures LookupPath(w, path) == LookupPath(u, path) && ReadFile(w, path, bs) == ReadFile(u, path, bs)
  {
    hide Inv, LookupPath, OnlyAllocates, FindsKept, ReadData, Inode.IsDir, Footprint, SameOn;
    PathIsLive(g, u, c, own, path);
    PathKept(g, u, c, own, w, path);
    var f := LookupPath(u, path).value.0;
    OwnedIsFootprint(g, u, c, own, f);
    ReadDataFrame(u, w, u.inodes[f], bs);
  }

  /** What has been handed out: no number twice, and none that was in use, metadata or padding when the run began. */
  ghost predicate Fresh(g: Geometry, own: Owners, now: Blocks, blockLog: seq<nat>, inodeLog: seq<nat>) {
    && g.blockSize > 0
    && Distinct(blockLog) && (forall b :: b in blockLog ==> g.Usable(b) && Unowned(own, b) && NotFree(g, now, b))
    && Distinct(inodeLog)
    && (forall n :: n in inodeLog ==> 1 <= n <= g.InodeCount() && n !in own && NotFreeInode(g, now, n))
  }

  lemma LogsAreFresh(g: Geometry, u: View, c: Counts, own: Owners, now: Blocks, blockLog: seq<nat>, inodeLog: seq<nat>)
    requires Inv(g, u, c, own) && LogsOk(g, u.blocks, now, blockLog, inodeLog)
    ensures Fresh(g, own, now, blockLog, inodeLog)
  {
    hide CountsOk, InodeOk, Geometry.Ok, OwnersOk, ViewOk, FreeBlockBit, FreeInodeBit, BlockAt, InodeAt,
      Geometry.Usable, Unowned, Distinct, Geometry.InodeCount;
    forall n | n in inodeLog
      ensures 1 <= n <= g.InodeCount() && n !in own
    {
      var k: nat, i: nat :| FreeInodeBit(g, u.blocks, k, i) && InodeAt(g, k, i) == n;
      InodeAtBounded(g, u.blocks, k, i);
    }
  }

  /** No group's free counts grow while only allocations happen. */
  lemma FreeCountsFall(g: Geometry, u: View, c: Counts, own: Owners, w: View, d: Counts, after: Owners)
    requires Inv(g, u, c, own) && Inv(g, w, d, after) && OnlyAllocates(g, u.blocks, w.blocks)
    ensures |c.blockFree| == |d.blockFree| == |g.loc| && |c.inodeFree| == |d.inodeFree| == |g.loc|
    ensures forall k :: 0 <= k < |g.loc| ==> d.blockFree[k] <= c.blockFree[k] && d.inodeFree[k] <= c.inodeFree[k]
  {
    hide FreeIsUnused, InodeOk, Geometry.Ok, OwnersOk, ViewOk, Sum, Geometry.InodeCount, IsSet, CountClear;
    forall k: nat | k < |g.loc|
      ensures d.blockFree[k] <= c.blockFree[k] && d.inodeFree[k] <= c.inodeFree[k]
    {
      var a, b := u.blocks[g.loc[k].blockBitmap], w.blocks[g.loc[k].blockBitmap];
      forall i: nat | i < g.blocksPerGroup && IsSet(a, i)
        ensures IsSet(b, i)
      {
        FreeBitIs(g, u.blocks, k, i);
        FreeBitIs(g, w.blocks, k, i);
      }
      CountFalls(a, b, g.blocksPerGroup);
      var a', b' := u.blocks[g.loc[k].inodeBitmap], w.blocks[g.loc[k].inodeBitmap];
      forall i: nat | i < g.inodesPerGroup && IsSet(a', i)
        ensures IsSet(b', i)
      {
        FreeBitIs(g, u.blocks, k, i);
        FreeBitIs(g, w.blocks, k, i);
      }
      CountFalls(a', b', g.inodesPerGroup);
    }
  }

  /**
   A run of operations. Whatever succeeds or fails in it, the invariant holds at the end, and the states in between form
   a trace; the numbers handed out are fresh and are exactly what the free counts lost; nothing but counters changes in
   superblock and descriptors.
   */
  method Run(fs: Ext4Fs, ops: seq<Op>) returns (ghost states: seq<State>)
    requires fs.Valid() && forall i :: 0 <= i < |ops| ==> Sane(ops[i])
    modifies fs`device, fs`sb, fs`groups, fs`own, fs`start, fs`blockLog, fs`inodeLog
    ensures fs.Valid() && fs.Geo() == old(fs.Geo())
    ensures IsTrace(fs.Geo(), states, ops) && states[0] == old(StateOf(fs)) && states[|ops|] == StateOf(fs)
    ensures Keeps(fs.Geo(), old(fs.Vw()), old(fs.own), fs.Vw(), fs.own, Targets(states, ops))
    ensures Fresh(fs.Geo(), old(fs.own), fs.Vw().blocks, fs.blockLog, fs.inodeLog)
    ensures fs.sb.FreeBlocks() + |fs.blockLog| == old(fs.sb.FreeBlocks())
    ensures fs.sb.freeInodesCount + |fs.inodeLog| == old(fs.sb.freeInodesCount)
    ensures FixedOf(fs.sb, fs.groups) == old(FixedOf(fs.sb, fs.groups))
    ensures old(Countable(fs.sb) && Storable(fs.sb, fs.groups)) ==>
      && Countable(fs.sb)
      && (Storable(fs.sb, fs.groups) <==> CountersFit(fs.Geo(), states, ops, old(fs.sb.GroupDescSize())))
    ensures ops != [] && ops[|ops| - 1].SyncAll? ==> Synced(fs.device, fs.sb, fs.groups)
  {
    hide Ext4Fs.Valid, Ext4Fs.Mounted, Ext4Fs.Vw, Ext4Fs.Cnt, Ext4Fs.Geo, Inv, Keeps, LogsOk, Targets, Fresh, StepOk,
      FixedOf, Storable, CountersFit, Countable, Superblock.GroupDescSize, Synced;
    ghost var g, w, c, own, sb0, groups0 := fs.Geo(), fs.Vw(), fs.Cnt(), fs.own, fs.sb, fs.groups;
    fs.OpenRoot();
    fs.OpenFixed();
    fs.BeginRun();
    ghost var start := fs.start;
    states := [StateOf(fs)];
    CountsAre(fs);
    for i := 0 to |ops|
      invariant fs.Valid() && fs.Geo() == g && fs.start == start && fs.fixed == FixedOf(sb0, groups0)
      invariant IsTrace(g, states, ops[..i]) && states[0] == State(w, c, own) && states[i] == StateOf(fs)
      invariant i > 0 && ops[i - 1].SyncAll? ==> Synced(fs.device, fs.sb, fs.groups)
    {
      ghost var before := states;
      Perform(fs, ops[i]);
      states := states + [StateOf(fs)];
      OneStepMore(g, before, ops[..i], ops[i], StateOf(fs));
      assert ops[..i + 1] == ops[..i] + [ops[i]];
    }
    assert ops[..|ops|] == ops;
    fs.OpenRoot();
    fs.OpenLogs();
    fs.OpenFixed();
    TraceKeeps(g, states, ops);
    LogsAreFresh(g, w, c, own, fs.Vw().blocks, fs.blockLog, fs.inodeLog);
    KeepsAllocates(g, w, own, fs.Vw(), fs.own, Targets(states, ops));
    CountsAre(fs);
    if old(Countable(fs.sb) && Storable(fs.sb, fs.groups)) {
      RunStorable(g, states, ops, sb0, groups0, fs.sb, fs.groups);
    }
  }

  lemma OneStepMore(g: Geometry, states: seq<State>, ops: seq<Op>, op: Op, b: State)
    requires IsTrace(g, states, ops) && StepOk(g, states[|ops|], op, b)
    ensures IsTrace(g, states + [b], ops + [op])
  {
    hide Inv, StepOk;
  }

  lemma KeepsAllocates(g: Geometry, u: View, before: Owners, w: View, after: Owners, touched: set<nat>)
    requires Keeps(g, u, before, w, after, touched)
    ensures OnlyAllocates(g, u.blocks, w.blocks)
  {
    hide OnlyAllocates, OthersKept, FindsKept;
  }

  lemma CountsAre(fs: Ext4Fs)
    ensures fs.Cnt() == CountsOf(fs.sb, fs.groups)
  {
  }

  // --- Across a mount ---

  /** Every path leads to the same inode and record, and every file reads the same. */
  ghost predicate SameReads(v: View, w: View) {
    && (forall path: seq<byte> :: LookupPath(w, path) == LookupPath(v, path))
    && (forall path: seq<byte>, bs: nat :: bs > 0 ==> ReadFile(w, path, bs) == ReadFile(v, path, bs))
  }

  lemma LookupSame(g: Geometry, v: View, c: Counts, own: Owners, w: View, d: nat, name: seq<byte>)
    requires Inv(g, v, c, own) && OthersKept(v, own, w, own, {}) && w.inodes == v.inodes && d in own && d in v.inodes
    ensures LookupInDir(w, v.inodes[d], name) == LookupInDir(v, v.inodes[d], name)
  {
    hide Inv, LookupInDir, FindIno, Footprint;
    OwnedIsFootprint(g, v, c, own, d);
    FindInoFrame(v.blocks, w.blocks, v.inodes[d], name);
    LookupIsFind(v, v.inodes[d], name);
    LookupIsFind(w, v.inodes[d], name);
  }

  lemma {:induction false} WalkSame(g: Geometry, v: View, c: Counts, own: Owners, w: View, ino: nat,
                                    components: seq<seq<byte>>)
    requires Inv(g, v, c, own) && OthersKept(v, own, w, own, {}) && w.inodes == v.inodes && ino in own
      && ino in v.inodes
    ensures Walk(w, ino, v.inodes[ino], components) == Walk(v, ino, v.inodes[ino], components)
    decreases |components|
  {
    hide Inv, OthersKept, LookupInDir, FindIno, Inode.IsDir;
    if components != [] && v.inodes[ino].IsDir() {
      LookupSame(g, v, c, own, w, ino, components[0]);
      FoundIsLive(g, v, c, own, ino, components[0]);
      if LookupInDir(v, v.inodes[ino], components[0]).Ok? {
        WalkSame(g, v, c, own, w, LookupInDir(v, v.inodes[ino], components[0]).value.0, components[1..]);
      }
    }
  }

  lemma ReadSame(g: Geometry, v: View, c: Counts, own: Owners, w: View, path: seq<byte>, bs: nat)
    requires Inv(g, v, c, own) && OthersKept(v, own, w, own, {}) && w.inodes == v.inodes
    ensures LookupPath(w, path) == LookupPath(v, path)
    ensures bs > 0 ==> ReadFile(w, path, bs) == ReadFile(v, path, bs)
  {
    hide Inv, OthersKept, Walk, Components, ReadData, Inode.IsDir;
    RootIsLive(g, v, c, own);
    if path != [] {
      WalkSame(g, v, c, own, w, ROOT_INODE, Components(path[1..]));
    }
    if bs > 0 && LookupPath(v, path).Ok? {
      PathIsLive(g, v, c, own, path);
      LiveReads(g, v, c, own, w, LookupPath(v, path).value.0, bs);
    }
  }

  lemma RootIsLive(g: Geometry, w: View, c: Counts, own: Owners)
    requires Inv(g, w, c, own)
    ensures ROOT_INODE in own && ROOT_INODE in w.inodes
  {
    hide CountsOk, FreeIsUnused, Geometry.Ok, ViewOk, InodeOk;
    OwnedIsUsable(g, w, c, own, ROOT_INODE);
  }

  lemma LiveReads(g: Geometry, v: View, c: Counts, own: Owners, w: View, f: nat, bs: nat)
    requires Inv(g, v, c, own) && OthersKept(v, own, w, own, {}) && f in own && f in v.inodes && bs > 0
    ensures ReadData(w, v.inodes[f], bs) == ReadData(v, v.inodes[f], bs)
  {
    hide Inv, ReadData, Footprint;
    OwnedIsFootprint(g, v, c, own, f);
    ReadDataFrame(v, w, v.inodes[f], bs);
  }

  lemma UsableKeptReads(g: Geometry, v: View, c: Counts, own: Owners, w: View)
    requires Inv(g, v, c, own) && UsableKept(g, v, w)
    ensures SameReads(v, w)
  {
    hide CountsOk, FreeIsUnused, InodeOk, Geometry.Ok, OthersKept, OwnersOk, ViewOk, LookupPath, ReadFile;
    UsableKeptMeansKept(g, v, w, own);
    forall path: seq<byte>
      ensures LookupPath(w, path) == LookupPath(v, path)
    {
      ReadSame(g, v, c, own, w, path, 0);
    }
    forall path: seq<byte>, bs: nat | bs > 0
      ensures ReadFile(w, path, bs) == ReadFile(v, path, bs)
    {
      ReadSame(g, v, c, own, w, path, bs);
    }
  }

  /**
   Sync, and mount of the same device. The new handle has the same superblock and descriptors exactly when they are
   storable; then it goes on where the old one stopped, and every path reads the same.
   */
  method Remount(fs: Ext4Fs) returns (r: Result<Ext4Fs>)
    requires fs.Valid() && Countable(fs.sb)
    modifies fs`device
    ensures fs.Valid() && SameReads(old(fs.Vw()), fs.Vw())
    ensures r.Ok? ==> fresh(r.value) && r.value.device == fs.device
    ensures r.Ok? && r.value.sb == fs.sb && r.value.groups == fs.groups <==> Storable(fs.sb, fs.groups)
    ensures Counted(fs.sb, fs.groups) ==> r.Ok? && r.value.sb == fs.sb && r.value.groups == KeptAll(fs.sb, fs.groups)
    ensures Storable(fs.sb, fs.groups) ==> r.value.Valid() && r.value.Vw() == fs.Vw() && r.value.own == fs.own
  {
    hide Inv, LogsOk, UsableKept, Image, Mountable, Storable, ViewOf, Fits, SameReads, Counted, KeptAll;
    ghost var g, v, c := fs.Geo(), fs.Vw(), fs.Cnt();
    var synced := fs.SyncMetadata();
    UsableKeptReads(g, v, c, fs.own, fs.Vw());
    r := Mount(fs.device, fs.own, fs.start, fs.blockLog, fs.inodeLog);
  }

  /** Read-after-write across a sync and a mount. */
  method WriteSyncRead(fs: Ext4Fs, path: seq<byte>, data: seq<byte>) returns (r: Result<()>, back: Result<seq<byte>>)
    requires fs.Valid() && |data| + TWO16 < TWO64 && Countable(fs.sb) && Storable(fs.sb, fs.groups)
    modifies fs`device, fs`sb, fs`groups, fs`own, fs`blockLog, fs`inodeLog
    ensures fs.Valid() && Countable(fs.sb) && Storable(fs.sb, fs.groups)
    ensures r.Ok? ==> WrittenBack(old(fs.Vw()), path, data, back)
  {
    hide Ext4Fs.Valid, Ext4Fs.Mounted, Ext4Fs.Vw, Ext4Fs.Cnt, Ext4Fs.Geo, Inv, PlanWrite, FixedOf, Storable,
      Countable, FitsStride, OverwriteDone, CreateDone, FileTree.ReadFile, OnlyAllocates, FindsKept, WrittenBack,
      BlocksFor, WrittenAt;
    ghost var g, w0, c0, own0, sb0, groups0 := fs.Geo(), fs.Vw(), fs.Cnt(), fs.own, fs.sb, fs.groups;
    fs.OpenRoot();
    CountsAre(fs);
    ghost var t, bl;
    r, t, bl := fs.WriteFile(path, data);
    fs.OpenRoot();
    CountsAre(fs);
    StorableFits(sb0, groups0);
    StillFits(sb0, groups0, fs.sb, fs.groups);
    StorableAfter(g, w0, c0, own0, fs.Vw(), fs.Cnt(), fs.own, sb0, groups0, fs.sb, fs.groups);
    if r.Err? {
      return r, Err(r.error);
    }
    ghost var w1 := fs.Vw();
    PlanWriteIs(w0, path);
    DoneReads(w0, w1, path, t, data, fs.sb.BlockSize(), sb0.freeInodesCount, sb0.FreeBlocks(), r);
    var again := Remount(fs);
    again.value.OpenRoot();
    SameReadsAt(w1, again.value.Vw(), path, fs.sb.BlockSize());
    back := again.value.ReadFile(path);
  }

  /** What reading a path gives after it was written: the data, or nothing when the new name is out of reach. */
  ghost predicate WrittenBack(u: View, path: seq<byte>, data: seq<byte>, back: Result<seq<byte>>) {
    && SplitPath(path).Ok?
    && match LookupPath(u, path)
       case Ok(_) => back == Ok(data)
       case Err(_) =>
         && LookupPath(u, SplitPath(path).value.0).Ok?
         && var dir, needed := LookupPath(u, SplitPath(path).value.0).value.1, NeededFor(SplitPath(path).value.1);
         back == if Findable(DirItems(u.blocks, dir), needed) then Ok(data) else Err(NotFound)
  }

  lemma DoneReads(u: View, w: View, path: seq<byte>, t: nat, data: seq<byte>, bs: nat, freeInodes: nat, free: nat,
                  r: Result<()>)
    requires r.Ok? && WrittenAt(u, w, path, t, data, bs, freeInodes, free, r)
    ensures WrittenBack(u, path, data, ReadFile(w, path, bs))
  {
    hide LookupPath, ReadFile, SplitPath, BlocksFor, NeededFor, Inode.IsDir, EntryCost, Findable, DirItems;
  }

  lemma SameReadsAt(v: View, w: View, path: seq<byte>, bs: nat)
    requires SameReads(v, w) && bs > 0
    ensures ReadFile(w, path, bs) == ReadFile(v, path, bs)
  {
    hide ReadFile, LookupPath;
  }
}
