/**
 What holds over whole runs: which write a file reads back, which paths keep their outcome, and what becomes of a
 directory that was made on the way.
 */
module History {
  import opened Bytes
  import opened Wrappers
  import opened ExtentTree
  import opened InodeRecord
  import opened Directory
  import opened Layout
  import opened Path
  import opened FileTree
  import opened DirRow
  import opened Invariant
  import opened Grow
  import opened Ops
  import opened Ext4
  import opened Runs

  /** What is left of a run after its first `i` operations is a run. */
  lemma Rest(g: Geometry, states: seq<State>, ops: seq<Op>, i: nat)
    requires IsTrace(g, states, ops) && i <= |ops|
    ensures IsTrace(g, states[i..], ops[i..])
  {
    hide Inv, Keeps, Did;
    if i > 0 {
      assert StepOk(g, states[i - 1], ops[i - 1], states[i]);
    }
    forall k | 0 <= k < |ops[i..]|
      ensures StepOk(g, states[i..][k], ops[i..][k], states[i..][k + 1])
    {
      assert StepOk(g, states[i + k], ops[i + k], states[i + k + 1]);
    }
  }

  // --- Reading what was written ---

  /**
   Seen from the state before: the path leads to a file, or to nothing and its parent to a directory, in which the new
   name will be found; and there is room for the data.
   */
  ghost predicate Lands(g: Geometry, a: State, path: seq<byte>, data: seq<byte>)
    requires g.blockSize > 0
  {
    var need, free := BlocksFor(|data|, g.blockSize), a.counts.sbBlocks;
    && SplitPath(path).Ok? && need <= 4
    && match LookupPath(a.view, path)
       case Ok(found) => !found.1.IsDir() && need <= free
       case Err(e) =>
         && e == NotFound && LookupPath(a.view, SplitPath(path).value.0).Ok?
         && var blocks, dir := a.view.blocks, LookupPath(a.view, SplitPath(path).value.0).value.1;
         && var needed := NeededFor(SplitPath(path).value.1);
         && var cost := EntryCost(blocks, dir, needed);
         && dir.IsDir() && Findable(DirItems(blocks, dir), needed)
         && a.counts.sbInodes > 0 && cost.Some? && cost.value + need <= free
  }

  lemma WriteReads(g: Geometry, a: State, b: State, path: seq<byte>, data: seq<byte>)
    requires StepOk(g, a, WriteTo(path, data), b) && g.blockSize > 0 && Lands(g, a, path, data)
    ensures ReadFile(b.view, path, g.blockSize) == Ok(data) && LookupPath(b.view, path).Ok?
  {
    hide Inv, Keeps, LookupPath, BlocksFor, ReadData, SplitPath, PlanWrite, NeededFor, Inode.IsDir, EntryCost, Findable,
      DirItems, OverwriteDone, CreateDone;
    var bs, inodes, free, left := g.blockSize, a.counts.sbInodes, a.counts.sbBlocks, b.counts.sbBlocks;
    PlanWriteIs(a.view, path);
    match PlanWrite(a.view, path)
    case Ok(Overwrite(p, t)) =>
      var bl: seq<nat>, r: Result<()> :|
        OverwriteDone(g, a.view, a.own, b.view, b.own, path, t, bl, data, bs, free, left, r);
      WriteOver(g, a.view, a.own, b.view, b.own, path, p, t, bl, data, bs, inodes, free, left, r);
    case Ok(Create(p)) =>
      var t: nat, bl: seq<nat>, r: Result<()> :|
        CreateDone(a.view, a.own, b.view, b.own, path, p, t, bl, data, bs, inodes, free, left, r);
      WroteNew(g, a.view, a.counts, a.own, b.view, b.own, path, p, t, bl, data, bs, inodes, free, left, r);
    case Err(_) =>
  }

  /**
   The last write wins. If an operation of the run writes `data` to a path, the data fits and its name is found, and no
   later operation targets the file, then at the end the path reads back exactly that data; the file may have been
   created by that operation or have existed before.
   */
  lemma LastWriteWins(g: Geometry, states: seq<State>, ops: seq<Op>, i: nat, path: seq<byte>, data: seq<byte>)
    requires IsTrace(g, states, ops) && i < |ops| && ops[i] == WriteTo(path, data) && g.blockSize > 0
    requires Lands(g, states[i], path, data)
    requires LookupPath(states[i + 1].view, path).Ok? ==>
      LookupPath(states[i + 1].view, path).value.0 !in Targets(states[i + 1..], ops[i + 1..])
    ensures ReadFile(states[|ops|].view, path, g.blockSize) == Ok(data)
  {
    hide Inv, Keeps, Did, Targets, LookupPath, ReadFile, Lands;
    assert StepOk(g, states[i], ops[i], states[i + 1]);
    WriteReads(g, states[i], states[i + 1], path, data);
    Rest(g, states, ops, i + 1);
    var rest, after := states[i + 1..], ops[i + 1..];
    TraceKeeps(g, rest, after);
    var a, b := rest[0], rest[|after|];
    OtherPathsKept(g, a.view, a.counts, a.own, b.view, b.own, Targets(rest, after), path, g.blockSize);
  }

  // --- Paths that keep their outcome ---

  /** The name, with its directory, that an operation makes found: at most one, and only where a search will come by. */
  function Gain(a: State, op: Op): Option<(nat, seq<byte>)> {
    match op
    case WriteTo(path, _) =>
      (match PlanWrite(a.view, path)
       case Ok(Create(p)) => if NameLands(a, path, p, false) then Some((p, SplitPath(path).value.1)) else None
       case _ => None)
    case MakeDirectory(path) =>
      (match PlanMkdir(a.view, path)
       case Ok(p) => if NameLands(a, path, p, true) then Some((p, SplitPath(path).value.1)) else None
       case Err(_) => None)
    case _ => None
  }

  /** A record for a new file or directory at this path goes into directory `p`, where it will be found. */
  predicate NameLands(a: State, path: seq<byte>, p: nat, isDir: bool) {
    && p in a.view.inodes && SplitPath(path).Ok?
    && var blocks, dir, needed := a.view.blocks, a.view.inodes[p], NeededFor(SplitPath(path).value.1);
    && Reachable(blocks, dir, needed)
    && (if isDir then MkdirOutcome(blocks, dir, needed, a.counts.sbInodes, a.counts.sbBlocks)
        else NewNameOutcome(blocks, dir, needed, a.counts.sbInodes, a.counts.sbBlocks)).Ok?
  }

  /** Directories stay directories, files stay files, and no lookup but that of `gain` changes its outcome. */
  ghost predicate NamesKept(u: View, own: Owners, w: View, gain: Option<(nat, seq<byte>)>) {
    && own.Keys <= u.inodes.Keys && own.Keys <= w.inodes.Keys
    && forall d :: d in own ==> DirNamesKept(u, w, d, gain)
  }

  ghost predicate DirNamesKept(u: View, w: View, d: nat, gain: Option<(nat, seq<byte>)>) {
    && d in u.inodes && d in w.inodes && w.inodes[d].IsDir() == u.inodes[d].IsDir()
    && (u.inodes[d].IsDir() ==>
      forall name: seq<byte> :: gain != Some((d, name)) ==>
        FindIno(w.blocks, w.inodes[d], name) == FindIno(u.blocks, u.inodes[d], name))
  }

  lemma UntouchedNames(g: Geometry, a: State, w: View, after: Owners, touched: set<nat>, d: nat,
                       gain: Option<(nat, seq<byte>)>)
    requires Inv(g, a.view, a.counts, a.own) && OthersKept(a.view, a.own, w, after, touched) && d in a.own
      && d !in touched
    ensures DirNamesKept(a.view, w, d, gain)
  {
    hide Inv, FindIno, Inode.IsDir, Footprint, SameOn;
    OwnedIsFootprint(g, a.view, a.counts, a.own, d);
    forall name: seq<byte>
      ensures FindIno(w.blocks, w.inodes[d], name) == FindIno(a.view.blocks, a.view.inodes[d], name)
    {
      FindInoFrame(a.view.blocks, w.blocks, a.view.inodes[d], name);
    }
  }

  lemma StepNames(g: Geometry, a: State, op: Op, b: State)
    requires StepOk(g, a, op, b)
    ensures NamesKept(a.view, a.own, b.view, Gain(a, op))
  {
    hide Inv, Did, OnlyAllocates, Target, Gain, DirNamesKept, OthersKept;
    var gain := Gain(a, op);
    KeysLive(a.view, a.own, b.view);
    forall d | d in a.own
      ensures DirNamesKept(a.view, b.view, d, gain)
    {
      if d in Target(a.view, op) {
        TargetNames(g, a, op, b, d);
      } else {
        UntouchedNames(g, a, b.view, b.own, Target(a.view, op), d, gain);
      }
    }
  }

  lemma KeysLive(u: View, own: Owners, w: View)
    requires FindsKept(u, own, w)
    ensures own.Keys <= u.inodes.Keys && own.Keys <= w.inodes.Keys
  {
    hide DirKept, Inode.IsDir;
  }

  lemma TargetNames(g: Geometry, a: State, op: Op, b: State, d: nat)
    requires StepOk(g, a, op, b) && d in Target(a.view, op) && d in a.own
    ensures DirNamesKept(a.view, b.view, d, Gain(a, op))
  {
    hide Inv, OnlyAllocates, OthersKept, LookupPath, LookupInDir, SplitPath, FindIno, Inode.IsDir, FileHolds, Leaked,
      ReadFile, BlocksFor, Inode.Size, ContentsOutcome, ContentsTaken, BlocksTaken, FileMade, SameSpots,
      CreateOutcome, CreateTaken, NewNameOutcome, Reachable, MkdirOutcome, MkdirTaken, OneMoreIn, NeededFor,
      UsableKept, SameBitmaps, NewDirAs, OtherNamesKept;
    match op
    case WriteTo(path, data) =>
      PlanIsLive(g, a, path);
      if PlanWrite(a.view, path).value.Overwrite? {
        SameMode(a.view.inodes[d], b.view.inodes[d]);
      } else {
        assert DirKept(a.view, b.view, d);
      }
    case MakeDirectory(path) =>
      PlanIsLive(g, a, path);
      assert DirKept(a.view, b.view, d);
  }

  /** And the name gained was not there, and leads to a new inode now. */
  lemma GainIsFound(g: Geometry, a: State, op: Op, b: State) returns (t: nat)
    requires StepOk(g, a, op, b) && Gain(a, op).Some?
    ensures var (p, name) := Gain(a, op).value;
      && p in a.own && p in a.view.inodes && p in b.view.inodes && t in b.own && t !in a.own
      && LookupInDir(a.view, a.view.inodes[p], name).Err?
      && FindIno(b.view.blocks, b.view.inodes[p], name) == Ok(Some(t))
  {
    hide Inv, OnlyAllocates, OthersKept, LookupPath, LookupInDir, SplitPath, FindIno, Inode.IsDir, FileHolds, Leaked,
      ReadFile, BlocksFor, ContentsTaken, FileMade, SameSpots, SameDir, CreateOutcome, CreateTaken, NewNameOutcome,
      Reachable, MkdirOutcome, MkdirTaken, OneMoreIn, NeededFor, NewDirAs, OtherNamesKept;
    match op
    case WriteTo(path, data) =>
      PlanIsLive(g, a, path);
      var p := PlanWrite(a.view, path).value.parent;
      PlanLooked(g, a, path);
      var u: nat, bl: seq<nat>, r: Result<()> :|
        CreateDone(a.view, a.own, b.view, b.own, path, p, u, bl, data, g.blockSize,
                   a.counts.sbInodes, a.counts.sbBlocks, b.counts.sbBlocks, r);
      t := u;
    case MakeDirectory(path) =>
      PlanIsLive(g, a, path);
      PlanLooked(g, a, path);
      var p := PlanMkdir(a.view, path).value;
      var r: Result<nat> :|
        MkdirDone(g, a.view, a.own, a.counts, b.view, b.own, b.counts, path, p, a.counts.sbInodes, a.counts.sbBlocks,
                  b.counts.sbBlocks, r);
      t := r.value;
  }

  lemma PlanLooked(g: Geometry, a: State, path: seq<byte>)
    requires Inv(g, a.view, a.counts, a.own)
    ensures PlanWrite(a.view, path).Ok? && PlanWrite(a.view, path).value.Create? ==>
      && SplitPath(path).Ok? && PlanWrite(a.view, path).value.parent in a.view.inodes
      && LookupInDir(a.view, a.view.inodes[PlanWrite(a.view, path).value.parent], SplitPath(path).value.1).Err?
    ensures PlanMkdir(a.view, path).Ok? ==>
      && SplitPath(path).Ok? && PlanMkdir(a.view, path).value in a.view.inodes
      && LookupInDir(a.view, a.view.inodes[PlanMkdir(a.view, path).value], SplitPath(path).value.1).Err?
  {
    hide Inv, LookupPath, LookupInDir, SplitPath, Inode.IsDir;
    if SplitPath(path).Ok? && LookupPath(a.view, SplitPath(path).value.0).Ok? {
      ParentIsLive(g, a.view, a.counts, a.own, path);
    }
  }

  /** A plan is about a live directory, or about a live file in it. */
  lemma PlanIsLive(g: Geometry, a: State, path: seq<byte>)
    requires Inv(g, a.view, a.counts, a.own)
    ensures match PlanWrite(a.view, path)
            case Ok(Overwrite(p, t)) => t in a.own && t in a.view.inodes && !a.view.inodes[t].IsDir()
            case Ok(Create(p)) => p in a.own && p in a.view.inodes && a.view.inodes[p].IsDir()
            case Err(_) => true
    ensures PlanMkdir(a.view, path).Ok? ==>
      PlanMkdir(a.view, path).value in a.own && PlanMkdir(a.view, path).value in a.view.inodes
      && a.view.inodes[PlanMkdir(a.view, path).value].IsDir()
  {
    hide Inv, LookupPath, LookupInDir, SplitPath, Inode.IsDir, FindIno;
    if SplitPath(path).Ok? && LookupPath(a.view, SplitPath(path).value.0).Ok? {
      ParentIsLive(g, a.view, a.counts, a.own, path);
      var (p, n) := LookupPath(a.view, SplitPath(path).value.0).value;
      if n.IsDir() {
        FoundIsLive(g, a.view, a.counts, a.own, p, SplitPath(path).value.1);
      }
    }
  }

  /** The walk along these components looks the name of `gain` up in its directory. */
  predicate Meets(w: View, ino: nat, n: Inode, components: seq<seq<byte>>, gain: Option<(nat, seq<byte>)>)
    decreases |components|
  {
    && components != [] && n.IsDir()
    && (gain == Some((ino, components[0]))
        || match LookupInDir(w, n, components[0])
           case Ok(found) => Meets(w, found.0, found.1, components[1..], gain)
           case Err(_) => false)
  }

  predicate PathMeets(w: View, path: seq<byte>, gain: Option<(nat, seq<byte>)>) {
    && path != [] && path[0] == SLASH
    && match FetchInode(w, ROOT_INODE)
       case Ok(root) => Meets(w, ROOT_INODE, root, Components(path[1..]), gain)
       case Err(_) => false
  }

  /** The walk comes by directory `d` when only components from `name` on are left. */
  ghost predicate ComesBy(w: View, ino: nat, n: Inode, components: seq<seq<byte>>, d: nat, name: seq<byte>) {
    exists k :: 0 <= k < |components| && components[k] == name && LeadsToDir(w, ino, n, components[..k], d)
  }

  predicate LeadsToDir(w: View, ino: nat, n: Inode, components: seq<seq<byte>>, d: nat) {
    match Walk(w, ino, n, components)
    case Ok(found) => found.0 == d && found.1.IsDir()
    case Err(_) => false
  }

  lemma {:induction false} MeetsIs(w: View, ino: nat, n: Inode, components: seq<seq<byte>>,
                                   gain: Option<(nat, seq<byte>)>)
    ensures Meets(w, ino, n, components, gain) <==>
      gain.Some? && ComesBy(w, ino, n, components, gain.value.0, gain.value.1)
    decreases |components|
  {
    hide LookupInDir, Inode.IsDir, ComesBy;
    if components == [] {
      NothingLeft(w, ino, n, if gain.Some? then gain.value else (0, []));
    } else {
      if n.IsDir() && LookupInDir(w, n, components[0]).Ok? {
        var found := LookupInDir(w, n, components[0]).value;
        MeetsIs(w, found.0, found.1, components[1..], gain);
      }
      if gain.Some? {
        ComesByFirst(w, ino, n, components, gain.value.0, gain.value.1);
      }
    }
  }

  lemma NothingLeft(w: View, ino: nat, n: Inode, gain: (nat, seq<byte>))
    ensures !ComesBy(w, ino, n, [], gain.0, gain.1)
  {
  }

  /** One component at a time. */
  lemma ComesByFirst(w: View, ino: nat, n: Inode, components: seq<seq<byte>>, d: nat, name: seq<byte>)
    requires components != []
    ensures ComesBy(w, ino, n, components, d, name) <==>
      && n.IsDir()
      && ((ino == d && components[0] == name)
        || (LookupInDir(w, n, components[0]).Ok?
          && var found := LookupInDir(w, n, components[0]).value;
          ComesBy(w, found.0, found.1, components[1..], d, name)))
  {
    hide LookupInDir, Inode.IsDir;
    var rest := components[1..];
    assert components[..0] == [];
    forall k | 0 < k < |components|
      ensures components[..k] != [] && components[..k][0] == components[0] && components[..k][1..] == rest[..k - 1]
        && components[k] == rest[k - 1]
    {
    }
    if n.IsDir() && LookupInDir(w, n, components[0]).Ok? {
      var found := LookupInDir(w, n, components[0]).value;
      forall k | 0 < k < |components|
        ensures LeadsToDir(w, ino, n, components[..k], d) == LeadsToDir(w, found.0, found.1, rest[..k - 1], d)
      {
        assert Walk(w, ino, n, components[..k]) == Walk(w, found.0, found.1, components[..k][1..]);
      }
      if ComesBy(w, found.0, found.1, rest, d, name) {
        var k :| 0 <= k < |rest| && rest[k] == name && LeadsToDir(w, found.0, found.1, rest[..k], d);
        assert components[k + 1] == name && LeadsToDir(w, ino, n, components[..k + 1], d);
      }
    }
    if n.IsDir() && ino == d && components[0] == name {
      assert LeadsToDir(w, ino, n, components[..0], d);
    }
  }

  /** The same outcome, with the record that the inode has now. */
  function Now(w: View, r: Result<(nat, Inode)>): Result<(nat, Inode)> {
    match r
    case Err(e) => Err(e)
    case Ok(found) => if found.0 in w.inodes then Ok((found.0, w.inodes[found.0])) else r
  }

  lemma {:induction false} WalkFrame(g: Geometry, a: State, w: View, gain: Option<(nat, seq<byte>)>, ino: nat,
                                     components: seq<seq<byte>>)
    requires Inv(g, a.view, a.counts, a.own) && NamesKept(a.view, a.own, w, gain) && ino in a.own
    requires !Meets(a.view, ino, a.view.inodes[ino], components, gain)
    ensures Walk(w, ino, w.inodes[ino], components) == Now(w, Walk(a.view, ino, a.view.inodes[ino], components))
    decreases |components|
  {
    hide Inv, LookupInDir, FindIno, Inode.IsDir;
    assert DirNamesKept(a.view, w, ino, gain);
    if components != [] && a.view.inodes[ino].IsDir() {
      FoundIsLive(g, a.view, a.counts, a.own, ino, components[0]);
      LookupIsFind(a.view, a.view.inodes[ino], components[0]);
      LookupIsFind(w, w.inodes[ino], components[0]);
      if LookupInDir(a.view, a.view.inodes[ino], components[0]).Ok? {
        WalkFrame(g, a, w, gain, LookupInDir(a.view, a.view.inodes[ino], components[0]).value.0, components[1..]);
      }
    }
  }

  /** A path that does not come by the one name gained keeps its outcome, be that an inode or an error. */
  lemma StepPath(g: Geometry, a: State, op: Op, b: State, path: seq<byte>)
    requires StepOk(g, a, op, b) && !PathMeets(a.view, path, Gain(a, op))
    ensures LookupPath(b.view, path) == Now(b.view, LookupPath(a.view, path))
  {
    hide Inv, Keeps, Did, Gain, Meets, Walk, Components, DirNamesKept;
    StepNames(g, a, op, b);
    RootIsLive(g, a.view, a.counts, a.own);
    RootIsLive(g, b.view, b.counts, b.own);
    if path != [] && path[0] == SLASH {
      WalkFrame(g, a, b.view, Gain(a, op), ROOT_INODE, Components(path[1..]));
    }
  }

  /** No operation of the run gains a name that the path comes by when that operation starts. */
  predicate Undisturbed(states: seq<State>, ops: seq<Op>, path: seq<byte>)
    requires |ops| <= |states|
  {
    forall i :: 0 <= i < |ops| ==> !PathMeets(states[i].view, path, Gain(states[i], ops[i]))
  }

  /** Over a whole run, a path that is not disturbed keeps its outcome: the same inode, or the same error. */
  lemma {:induction false} PathOverRun(g: Geometry, states: seq<State>, ops: seq<Op>, path: seq<byte>)
    requires IsTrace(g, states, ops) && Undisturbed(states, ops, path)
    ensures LookupPath(states[|ops|].view, path) == Now(states[|ops|].view, LookupPath(states[0].view, path))
    decreases |ops|
  {
    hide Inv, Keeps, Did, Gain, PathMeets, LookupPath;
    var a := states[0];
    PathIsLive(g, a.view, a.counts, a.own, path);
    if ops != [] {
      var last := |ops| - 1;
      assert StepOk(g, states[last], ops[last], states[last + 1]);
      PathOverRun(g, states[..last + 1], ops[..last], path);
      StepPath(g, states[last], ops[last], states[last + 1], path);
      StillThere(g, states, ops, path);
    }
  }

  lemma StillThere(g: Geometry, states: seq<State>, ops: seq<Op>, path: seq<byte>)
    requires IsTrace(g, states, ops)
    ensures LookupPath(states[0].view, path).Ok? ==>
      forall i :: 0 <= i <= |ops| ==> LookupPath(states[0].view, path).value.0 in states[i].view.inodes
  {
    hide Inv, StepOk, OnlyAllocates, OthersKept, LookupPath;
    var a := states[0];
    PathIsLive(g, a.view, a.counts, a.own, path);
    forall i | 0 <= i <= |ops|
      ensures a.own.Keys <= states[i].view.inodes.Keys
    {
      TraceKeeps(g, states[..i + 1], ops[..i]);
      KeysLive(a.view, a.own, states[i].view);
    }
  }

  /** Reading a path gives the same data, or the same error, while nothing touches its file or gains its name. */
  lemma ReadsOverRun(g: Geometry, states: seq<State>, ops: seq<Op>, path: seq<byte>, bs: nat)
    requires IsTrace(g, states, ops) && bs > 0
    requires match LookupPath(states[0].view, path)
             case Ok(found) => found.0 !in Targets(states, ops)
             case Err(_) => Undisturbed(states, ops, path)
    ensures ReadFile(states[|ops|].view, path, bs) == ReadFile(states[0].view, path, bs)
  {
    hide Inv, StepOk, Targets, LookupPath, Undisturbed, ReadData, Inode.IsDir, Keeps;
    var a, b := states[0], states[|ops|];
    if LookupPath(a.view, path).Ok? {
      TraceKeeps(g, states, ops);
      OtherPathsKept(g, a.view, a.counts, a.own, b.view, b.own, Targets(states, ops), path, bs);
    } else {
      PathOverRun(g, states, ops, path);
    }
  }

  // --- Directories that never show what is put into them ---

  /** A record of any length would go where no lookup finds it. */
  ghost predicate Sealed(w: View, d: nat) {
    && d in w.inodes && w.inodes[d].IsDir()
    && forall needed: u16 :: 0 < needed as int <= MAX_RECORD ==> !Reachable(w.blocks, w.inodes[d], needed)
  }

  /** Whatever is done to a sealed directory, it finds what it found, and stays sealed. */
  lemma SealedStep(g: Geometry, a: State, op: Op, b: State, d: nat)
    requires StepOk(g, a, op, b) && d in a.own && Sealed(a.view, d)
    ensures d in b.own && Sealed(b.view, d) && SameDir(a.view.blocks, a.view.inodes[d], b.view.blocks, b.view.inodes[d])
  {
    hide Inv, Did, OnlyAllocates, OthersKept, Target, SameDir, SpotFor, Inode.IsDir, FindIno;
    KeysGrow(a, b.view, b.own, Target(a.view, op));
    assert DirKept(a.view, b.view, d);
    if d in Target(a.view, op) {
      SealedTarget(g, a, op, b, d);
    } else {
      UntouchedDir(g, a, b.view, b.own, Target(a.view, op), d);
    }
    SameSpotsSealed(a.view.blocks, a.view.inodes[d], b.view.blocks, b.view.inodes[d]);
  }

  lemma KeysGrow(a: State, w: View, after: Owners, touched: set<nat>)
    requires OthersKept(a.view, a.own, w, after, touched)
    ensures a.own.Keys <= after.Keys
  {
    hide SameOn;
  }

  lemma SameSpotsSealed(a: Blocks, n: Inode, b: Blocks, m: Inode)
    requires SameDir(a, n, b, m)
    ensures forall needed: u16 :: Reachable(b, m, needed) == Reachable(a, n, needed)
  {
    hide SpotFor, FindIno;
    forall needed: u16
      ensures Reachable(b, m, needed) == Reachable(a, n, needed)
    {
      assert SpotFor(b, m, needed) == SpotFor(a, n, needed);
    }
  }

  lemma UntouchedDir(g: Geometry, a: State, w: View, after: Owners, touched: set<nat>, d: nat)
    requires Inv(g, a.view, a.counts, a.own) && OthersKept(a.view, a.own, w, after, touched) && d in a.own
      && d !in touched
    ensures d in a.view.inodes && d in w.inodes && SameDir(a.view.blocks, a.view.inodes[d], w.blocks, w.inodes[d])
  {
    hide Inv, SameDir, Footprint, SameOn;
    OwnedIsFootprint(g, a.view, a.counts, a.own, d);
    NamesFrame(a.view.blocks, w.blocks, a.view.inodes[d]);
  }

  lemma SealedTarget(g: Geometry, a: State, op: Op, b: State, d: nat)
    requires StepOk(g, a, op, b) && d in Target(a.view, op) && d in a.own && Sealed(a.view, d)
    ensures d in b.view.inodes && SameDir(a.view.blocks, a.view.inodes[d], b.view.blocks, b.view.inodes[d])
  {
    hide Inv, OnlyAllocates, OthersKept, LookupPath, LookupInDir, SplitPath, FindIno, SpotFor, Reachable, Inode.IsDir,
      FileHolds, ReadFile, BlocksFor, ContentsTaken, FileMade, CreateOutcome, CreateTaken, NewNameOutcome,
      OverwriteDone, MkdirOutcome, MkdirTaken, OneMoreIn, NeededFor, OtherNamesKept, NewDirAs, PlanWrite, PlanMkdir,
      HasRecord, HoldsRecord, Regrown;
    match op
    case WriteTo(path, data) =>
      PlanIsLive(g, a, path);
      NeededBound(SplitPath(path).value.1);
    case MakeDirectory(path) =>
      PlanIsLive(g, a, path);
      NeededBound(SplitPath(path).value.1);
  }

  lemma {:induction false} SealedOverRun(g: Geometry, states: seq<State>, ops: seq<Op>, d: nat)
    requires IsTrace(g, states, ops) && d in states[0].own && Sealed(states[0].view, d)
    ensures var w := states[|ops|].view;
      d in states[|ops|].own && Sealed(w, d)
        && SameDir(states[0].view.blocks, states[0].view.inodes[d], w.blocks, w.inodes[d])
    decreases |ops|
  {
    hide Inv, Keeps, Did, SameDir, Reachable;
    if ops == [] {
      SameDirSelf(states[0].view, d);
    } else {
      var last := |ops| - 1;
      assert StepOk(g, states[last], ops[last], states[last + 1]);
      SealedOverRun(g, states[..last + 1], ops[..last], d);
      SealedStep(g, states[last], ops[last], states[last + 1], d);
      var u, v, w := states[0].view, states[last].view, states[last + 1].view;
      NamesTwice(u.blocks, u.inodes[d], v.blocks, v.inodes[d], w.blocks, w.inodes[d]);
    }
  }

  lemma SameDirSelf(w: View, d: nat)
    requires d in w.inodes
    ensures SameDir(w.blocks, w.inodes[d], w.blocks, w.inodes[d])
  {
    hide FindIno, SpotFor;
  }

  lemma NewDirIsSealed(w: View, ino: nat, parent: nat, bs: nat)
    requires NewDirAs(w, ino, parent, bs) && 1024 <= bs && ino != 0 && parent != 0
    ensures Sealed(w, ino)
  {
    hide Reachable, EntryCost, LeafRoot, RootBlocks, CreateDotEntries, Inode.IsDir, Inode.Size;
    forall needed: u16 | 0 < needed as int <= MAX_RECORD
      ensures !Reachable(w.blocks, w.inodes[ino], needed)
    {
      NewDirHidesEntries(w, ino, parent, bs, needed);
    }
  }

  /** What a directory made by `mkdir` in `parent` finds, then and ever after. */
  ghost predicate FindsDotsOnly(w: View, d: nat, parent: nat) {
    && d in w.inodes
    && forall name: seq<byte> ::
      FindIno(w.blocks, w.inodes[d], name)
        == Ok(if name == DOT then Some(d) else if name == DOTDOT then Some(parent) else None)
  }

  /**
   A directory that an operation of the run made: to the end of the run it finds itself and its parent, and nothing that
   was created in it since.
   */
  lemma NewDirStaysEmpty(g: Geometry, states: seq<State>, ops: seq<Op>, i: nat, path: seq<byte>) returns (d: nat)
    requires IsTrace(g, states, ops) && i < |ops| && ops[i] == MakeDirectory(path)
      && CountsDirIn(g, states[i], ops[i]).Some?
    ensures d !in states[i].own && d in states[i + 1].own && d in states[|ops|].own
    ensures PlanMkdir(states[i].view, path).Ok?
      && FindsDotsOnly(states[|ops|].view, d, PlanMkdir(states[i].view, path).value)
  {
    hide Inv, Keeps, Did, Reachable, FindsDotsOnly, SameDir, PlanMkdir, SplitPath, MkdirOutcome, NewDirAs,
      EntryCost;
    var a, b, c := states[i], states[i + 1], states[|ops|];
    assert StepOk(g, a, ops[i], b);
    var p: nat;
    d, p := MadeHere(g, a, path, b);
    InvIsOk(g, a.view, a.counts, a.own);
    NewDirIsSealed(b.view, d, p, g.blockSize);
    Rest(g, states, ops, i + 1);
    SealedOverRun(g, states[i + 1..], ops[i + 1..], d);
    DotsOnly(b.view, d, p, g.blockSize, c.view);
  }

  lemma MadeHere(g: Geometry, a: State, path: seq<byte>, b: State) returns (d: nat, p: nat)
    requires StepOk(g, a, MakeDirectory(path), b) && CountsDirIn(g, a, MakeDirectory(path)).Some?
    ensures PlanMkdir(a.view, path) == Ok(p) && d in b.own && d !in a.own && d != 0 && p != 0
      && NewDirAs(b.view, d, p, g.blockSize)
  {
    hide Inv, Keeps, PlanMkdir, SplitPath, MkdirOutcome, MkdirTaken, NewDirAs, OthersKept, OtherNamesKept, OneMoreIn,
      Gained, Reachable, LookupPath, NeededFor, SameDir;
    p := PlanMkdir(a.view, path).value;
    var r: Result<nat> :|
      MkdirDone(g, a.view, a.own, a.counts, b.view, b.own, b.counts, path, p, a.counts.sbInodes, a.counts.sbBlocks,
                b.counts.sbBlocks, r);
    d := r.value;
  }

  lemma DotsOnly(v: View, d: nat, p: nat, bs: nat, w: View)
    requires NewDirAs(v, d, p, bs) && d != 0 && p != 0 && d in v.inodes && d in w.inodes
    requires SameDir(v.blocks, v.inodes[d], w.blocks, w.inodes[d])
    ensures FindsDotsOnly(w, d, p)
  {
    hide NewDirAs, FindIno, SpotFor;
    forall name: seq<byte>
      ensures FindIno(w.blocks, w.inodes[d], name)
        == Ok(if name == DOT then Some(d) else if name == DOTDOT then Some(p) else None)
    {
      NewDirFinds(v, d, p, bs, name);
    }
  }

  /** So no path to an entry of such a directory leads anywhere, whatever was written to it. */
  lemma LostBelow(w: View, d: nat, parent: nat, path: seq<byte>)
    requires FindsDotsOnly(w, d, parent) && SplitPath(path).Ok?
      && LookupPath(w, SplitPath(path).value.0) == Ok((d, w.inodes[d]))
    requires w.inodes[d].IsDir() && SplitPath(path).value.1 != DOT && SplitPath(path).value.1 != DOTDOT
    ensures LookupPath(w, path) == Err(NotFound)
  {
    hide LookupPath, SplitPath, LookupInDir, FindIno, Inode.IsDir;
    SplitAgreesWithLookup(w, path);
    LookupIsFind(w, w.inodes[d], SplitPath(path).value.1);
  }
}
