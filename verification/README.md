# An ext4 driver, modelled in Dafny

This project models a small ext4 driver written in Rust: mounting a volume, reading files by path, allocating blocks and
inodes from bitmaps, growing extent trees, adding directory records, `write_file`, `mkdir`, and writing metadata back.
It proves what those operations keep and what they achieve.

The device is a range of bytes. `Ext4.Ext4Fs` is a class with the device, the superblock and the group descriptors as
fields, and one method per operation of the driver. Most reasoning happens on a `View` of the device: its blocks by
number and its inode records by number. `Layout` says how a single write changes the view. Below that sit the codecs and
the parsers (`Superblock`, `BlockGroup`, `Inode`, `Extent`, `Directory`), and the bitmap allocator, which runs in place
over an array (`Bitmap`). `OnDisk` and `Volume` say what the bytes mean, without the codecs: numbers, least significant
byte first, at fixed offsets.

One invariant, `Invariant.Inv`, carries the results; `Ext4Fs.Valid` adds the record of what has been handed out. It says:

- metadata regions (descriptor table, bitmaps, inode tables) lie inside the volume and are pairwise disjoint;
- each group's free counts are the clear bits of its bitmaps on the device, and the superblock's are their sums;
- what a clear bit stands for is not metadata, not padding and not in use;
- different live inodes own disjoint sets of blocks, tree nodes included;
- every block of a live directory is tiled by records, and each live record names a live inode.

`Example.MountShape` mounts two concrete devices, given byte for byte, and the handle it gets satisfies the invariant.

The main results:

- **Runs.** A run is a trace of states, one step per operation, failures included (`Runs.Run`); each step does exactly
  what the contract of its operation says (`Runs.Did`). After a run the invariant holds; the numbers handed out are
  pairwise distinct, were free before, are never metadata or padding, and are exactly what the free counts lost; every
  path that resolved still resolves to the same inode; an inode that no operation targets keeps its record and contents
  (`Runs.UntargetedKept`); directory counters grow by exactly the directories made (`Runs.DirsCounted`). The last write
  to a file wins, be the file old or new (`History.LastWriteWins`), and a path that failed keeps failing with the same
  error unless it comes by a name that was gained (`History.PathOverRun`, `History.ReadsOverRun`).
- **`write_file`** (`Ext4.Ext4Fs.WriteFile`). Its outcome is given exactly, which error included, and so are the blocks
  it consumes, by what the path leads to (`Ext4.WrittenAt`): a file is overwritten, a directory refused, and a name that
  its parent lacks created there. Overwriting succeeds exactly when the data fits in four blocks and that many are free,
  and then reading the path gives back the data. When it stops early the file holds what was written so far: it then reads as that, cut to the old
  size, or fails when the old size reaches past it (`FileTree.PrefixReadIs`).
- **`mkdir`** (`Ext4.Ext4Fs.Mkdir`). The same (`Ext4.MadeAt`), with the contents of the new directory, the link count of
  the parent, and the directory counters. It says AlreadyExists exactly when the whole path leads somewhere.
- **A property that fails.** A file or directory that was just created is not always found. When the new record goes
  into the slack behind another record, the driver does not shorten that record (src/readwrite.rs:585-591,
  src/dir.rs:285-292), so iteration steps over the new one. The name is found afterwards exactly when no record of the
  directory can host the new one, or the first that can is deleted and long enough (`Grow.ReachableIs`, on the records
  alone): a deleted record is preferred to the slack behind its own name. For a directory that
  `mkdir` made it never holds: over any run such a directory finds "." and ".." alone, whatever is created in it
  (`History.NewDirStaysEmpty`). `Example.CreatedIsNotFound` mounts a concrete device, creates a file, and does not find it.
- **Another one.** With 32-byte descriptors, a volume that a mount would recover need not stay one: `mkdir` counts
  directories in the group of the parent without a bound, and the record keeps 16 bits of the count. An operation on such
  a volume leaves it one exactly when `Runs.CounterFits` holds before: the stride is 64 bytes or more, or the operation
  makes no directory, or the group of the parent counts fewer than 65535 (`Runs.StepStorable`; `Runs.RunStorable` for a
  run). `Example.DirectoriesAreLost` gives a concrete device on which it does not hold.
- **Extent trees.** Flattening a well-formed tree of any depth gives its leaves in order and disjoint, and descending by
  binary search finds the same leaf as scanning all of them. Appending to any root of ordered leaves keeps them so. On
  bytes, a node of any depth resolves to the leaves under the blocks that its records name, in order
  (`OnDisk.NodeResolves`).
- **Mounting.** What a mount finds is given by the bytes of the device (`Volume.ImageShown`), with exactly as many groups
  as cover the volume (`SuperblockRecord.BlockGroupCountExact`).
- **Persistence.** Mounting after a sync recovers superblock and descriptors exactly when the magic is right, the number
  of groups matches, and no high half is lost. Files read the same through the new handle (`Runs.WriteSyncRead`).

Where documentation and code differ, the model follows the code: the comment at src/readwrite.rs:583-591 says that the
record before the slack has been dealt with, but no code does so, and `mkdir` counts the new directory in the group of its
parent rather than in the group that supplied its inode (src/readwrite.rs:794, 820-824).

## Model

| member | source | states |
|---|---|---|
| Runs.Run | src/readwrite.rs:488-856 | over any run, errors included: the invariant is kept; the states in between form a trace, each step doing what its operation's contract says; numbers handed out are fresh and account for the whole drop of both free counts; only counters change in superblock and descriptors; after a sync at the end a mount of the device recovers what is storable; a storable volume stays storable exactly when the counts at the start, plus the directories made in each group, fit the stride |
| Runs.Perform | src/readwrite.rs:488-856 | one operation is one step: it changes at most the one inode that its target or parent directory names, only sets bitmap bits, no directory forgets a name; an allocation takes the first clear bit and counts it, or changes nothing when none is left; `write_file` leaves directory counters alone, and it and `mkdir` did what their contracts say; a sync changes no count and no file, and afterwards a mount of the device recovers what is storable; no other operation writes to superblock, descriptor table or past the volume; a storable volume stays storable exactly when `CounterFits` held before |
| Runs.StepStorable | src/readwrite.rs:820-856 | the condition is on the state before: descriptors have high halves, or no directory is about to be counted, or the group of the parent counts fewer than 65535 |
| Runs.StepCounts | src/readwrite.rs:820-824 | an operation raises the directory count of the one group in which it makes a directory by one, and no other; which group, if any, is read off the state before |
| Runs.DirsCounted | src/readwrite.rs:820-824 | over a run each group's directory count, and their sum, grow by exactly the directories made |
| Runs.RunStorable | src/readwrite.rs:820-856 | a run leaves a storable volume storable exactly when descriptors have high halves or no group's count at the start, plus the directories made in it, reaches 65536 |
| Runs.TraceKeeps | src/readwrite.rs:488-856 | a run changes at most the union of the targets of its operations, each seen from the state in which it starts |
| Runs.TraceOutside | src/readwrite.rs:488-830 | without a sync a run leaves every block of superblock and descriptor table, and every block past the volume, as it was |
| Runs.TargetIs | src/readwrite.rs:686-792 | the target of an operation by what its path leads to: the file that `write_file` finds there, or the directory in which the last name is missing |
| Runs.TargetsIs | src/readwrite.rs:686-830 | an inode is among the targets of a run exactly when it is the target of one of its operations |
| Runs.UntargetedKept | src/readwrite.rs:686-830 | an inode that no operation of a run targets keeps its record and contents |
| History.LastWriteWins | src/readwrite.rs:686-770 | writing data that fits to a path whose file exists, or whose new name will be found, followed by any operations that do not target the file, leaves the path reading back as that data |
| History.WriteReads | src/readwrite.rs:686-770 | the step itself: what a caller can check before the write suffices for the data to read back |
| History.PathOverRun | src/readwrite.rs:332-377 | a path keeps its outcome over a run, the same inode or the same error, unless some operation gains a name that the path looks up |
| History.MeetsIs | src/readwrite.rs:355-370 | a path comes by a name exactly when the components before it lead to the directory of that name |
| History.ReadsOverRun | src/readwrite.rs:406-421 | reading a path gives the same data, or the same error, as long as nothing targets its file or gains a name on its way |
| History.StepNames | src/readwrite.rs:568-632 | an operation changes the outcome of no lookup in any directory but that of the one name gained; files stay files and directories stay directories |
| History.GainIsFound | src/readwrite.rs:568-632 | and that name was not found before and leads to a new inode afterwards |
| History.SealedStep | src/readwrite.rs:573-602 | a directory with slack for every record keeps its lookups and its slack through any operation, those that insert into it included |
| History.NewDirStaysEmpty | src/readwrite.rs:776-830 | a directory made during a run finds itself and its parent to the end of the run, and nothing else, whatever is created in it |
| History.LostBelow | src/readwrite.rs:332-377 | so a path to any entry below it is NotFound |
| Runs.FreeCountsFall | src/readwrite.rs:488-563 | no group's free counts ever grow |
| Runs.StorableAfter | src/readwrite.rs:835-856 | operations lower free counts and touch nothing but counters, so storability afterwards comes down to the directory counts |
| Runs.WriteSyncRead | src/readwrite.rs:686-770 | read-after-write across sync and mount: the new handle reads the data, or nothing when a new name is out of reach |
| Runs.LogsAreFresh | src/readwrite.rs:488-563 | numbers handed out are pairwise distinct, were not in use when the run began, are usable blocks or existing inode numbers, and are not free any more |
| Runs.OtherPathsKept | src/readwrite.rs:332-421 | a path to an inode outside the touched ones leads to the same record and reads the same bytes |
| Runs.Remount | src/readwrite.rs:126-163 | sync and then mount gives the same superblock and descriptors exactly when they are storable; then the new handle is valid and shows the same view; otherwise each descriptor comes back as its record keeps it; every path reads the same |
| Ext4.Ext4Fs.WriteFile | src/readwrite.rs:686-770 | errors of the checks change nothing; otherwise the exact outcome, which error included, and on every outcome the exact number of blocks and inodes consumed; the blocks of the file are among those logged by this call. Overwriting: the file owns and holds them in order, the first of them on failure, or nothing has changed; its old blocks stay allocated and unowned; on success the path reads back as the data, mode and links stay, sectors are exact; on failure it reads as what was written so far within the old size. Creating: the parent gains exactly this name, found exactly when reachable, and no other, in a record of type file; the new inode has mode 0644 and one link; the path then reads back as the data or is not found; on failure it reads as an empty file or is not found. Other live inodes keep record and blocks on every outcome. Which case applies, when it succeeds, and what the path reads as is also said without the plan, from what the whole path and its parent lead to and from the records of the parent (`WrittenAt`) |
| Ops.PlanWriteIs | src/readwrite.rs:695-716 | which inode `write_file` overwrites, in which directory it creates one, or which error it gives, by what the path and its parent lead to |
| Ext4.WriteOver | src/readwrite.rs:701-762 | overwriting, from the path alone: success exactly when the data fits in four blocks and that many are free, and then the path reads as the data |
| Ext4.WroteNew | src/readwrite.rs:709-762 | creating, from the path and the records of the parent alone: success exactly with a free inode and the blocks for record and data, and then the path reads as the data or is NotFound |
| Ext4.NextAfter | src/readwrite.rs:488-525 | taking one block after the other takes the first free ones in the order of the probe, none of them twice |
| FileTree.PrefixReadIs | src/readwrite.rs:294-326 | below 2^32 blocks, reading a file whose first blocks hold data and whose others are unmapped fails with Corrupt exactly when the size reaches past those blocks, and otherwise gives the data cut or zero-padded to the size |
| FileTree.ReadsPrefix | src/readwrite.rs:294-326 | the read loop over such a file |
| Ext4.Ext4Fs.WriteContents | src/readwrite.rs:724-762 | the block loop and the final record: the blocks handed out are a segment of the log, owned by the inode, mapped in order to logical blocks 0, 1, ..., and hold the data chunk by chunk, also when it stops early; they are the first free ones, probing from the group of the inode; how many they are, which error is returned, what stays allocated; on success the inode reads as the data |
| Ext4.Ext4Fs.AppendData | src/readwrite.rs:747-757 | one round of the loop: block, contents and extent, or the exact error with the inode as it was |
| Ext4.Ext4Fs.FinishContents | src/readwrite.rs:760-762 | the final record: exact size and sectors, every other field but the tree as before, and the inode then reads as the data |
| Ext4.OldBlocksLeak | src/readwrite.rs:707 | what the file owned before stays allocated and belongs to nobody |
| Ext4.Ext4Fs.WriteNew | src/readwrite.rs:709-762 | creation and writing of a file whose name the parent lacks, with the exact outcome and what the parent finds afterwards |
| Ext4.Ext4Fs.CreateFile | src/readwrite.rs:709-722 | the exact outcome of taking an inode and adding its record; the parent gains exactly this name if it is reachable, in a record of type file, and nothing on failure; its own record changes in tree and size only |
| Ext4.Ext4Fs.AllocateFile | src/readwrite.rs:710-714 | a new live inode that was not live, the first free one from the group of the parent, with the record of an empty file of mode 0644; everything else as before; fails exactly without free inodes |
| Ext4.Ext4Fs.Mkdir | src/readwrite.rs:776-830 | errors of the checks change nothing; otherwise the exact outcome, which error included, and on every outcome the exact number of blocks and inodes consumed; on success the new inode is a directory of one block with "." and "..", the parent has one link more and gains exactly this name if it is reachable, in a record of type directory, and is otherwise unchanged but for tree and size; the new directory has mode 0755 and two links; one directory more is counted, and the path leads to it or nowhere accordingly; on failure no name and no directory count changes. AlreadyExists exactly when the whole path leads somewhere, success exactly when it is NotFound and inode and blocks are there (`MadeAt`) |
| Ops.PlanMkdirIs | src/readwrite.rs:780-792 | in which directory `mkdir` makes one, or which error it gives, by what the path and its parent lead to |
| Ext4.DirWasMade | src/readwrite.rs:776-830 | AlreadyExists exactly when the whole path leads somewhere; success exactly when it is NotFound and inode and blocks are there, and then the path leads to the new inode or is NotFound |
| Ext4.Ext4Fs.MkdirIn | src/readwrite.rs:791-829 | the same once the parent is known, with no live inode but the parent changed on any outcome |
| Ext4.Ext4Fs.AllocateDir | src/readwrite.rs:791-807 | inode, dot block, extent and record of a new directory of mode 0755, inode and block being the first free ones from the group of the parent; fails exactly when inodes or blocks run out, and what it has consumed then; nothing that was live changes |
| Ext4.Ext4Fs.StoreDir | src/readwrite.rs:796-807 | the new directory owns exactly the block with its dots |
| Ext4.Ext4Fs.RegisterDir | src/readwrite.rs:813-824 | link count of the parent up by one, saturating, and no other field changed; used directories of the parent's group, and their sum, up by exactly one; no name in the parent changes |
| Ext4.Ext4Fs.CountDirectory | src/readwrite.rs:820-824 | the counter grows by one without overflow, because allocated inodes bound counted directories |
| Ext4.NewDirFinds | src/dir.rs:305-324 | a new directory iterates to exactly "." and ".."; lookups give itself, its parent, and nothing for any other name |
| Ext4.NewDirHidesEntries | src/readwrite.rs:581-602 | in a new directory a record of any length goes into the slack of ".." first, at no block's cost, and is not reachable |
| Example.MountShape | src/readwrite.rs:126-163 | mounting either of two concrete devices, given byte for byte, yields a handle that satisfies the invariant |
| Example.VolumeIsValid | src/readwrite.rs:112-120 | what those bytes show satisfies the invariant |
| Example.ImageOfDisk | src/readwrite.rs:126-163 | their superblock and descriptor are found where mount looks for them |
| Example.CreatedIsNotFound | src/readwrite.rs:581-602 | on the first device, writing a new file in the root succeeds and reading it back gives NotFound, whatever its name and up to two blocks of data |
| Example.CounterIsFull | src/readwrite.rs:820-824 | on the second device, `CounterFits` does not hold before a `mkdir` in the root |
| Example.DirectoriesAreLost | src/readwrite.rs:820-856 | there `mkdir` succeeds, and after sync and mount the group counts no directories |
| Ext4.Ext4Fs.AddDirEntry | src/readwrite.rs:568-632 | the exact outcome, which error included, and the blocks consumed on every outcome; afterwards the directory holds the record as given, and the name is found exactly when no record could host it or the first that could is deleted and long enough; every other lookup is unchanged, all blocks stay tiled; a record out of reach does not even take space from later ones; when a block is added it is the first free one from the directory's group, the size grows by it, no field but tree and size changes, and the leaves, if in order and disjoint, stay so and map one logical block more |
| Ext4.Ext4Fs.FindSpot | src/readwrite.rs:573-600 | the scan for space: the first block of the directory with a slot that fits, and errors of the tree or the device |
| Ext4.Ext4Fs.InsertRecord | src/readwrite.rs:585-602 | writing the record into that slot: the name is found afterwards exactly when a deleted record was reused, nothing else changes |
| Grow.EntryOutcome | src/readwrite.rs:568-632 | adding a record succeeds exactly when the blocks it costs are free |
| Grow.ReachableIs | src/readwrite.rs:573-602 | on the records of a live directory alone: a new name will be found exactly when none can host it or the first that can is deleted and long enough; it costs no block exactly when one can, and one block exactly when none can and the root has room; and which error it gives otherwise |
| Grow.FindsFirstBearer | src/dir.rs:234-250 | a live directory finds the first live record with the name, and nothing exactly when no record has it |
| Grow.EntryErrors | src/readwrite.rs:568-632 | adding a record fails for the tree, the device or the free blocks, never because of other records |
| DirRow.SlotIsFirst | src/readwrite.rs:573-600 | the scan over the blocks of a directory stops at the first of all its records that can host the new one |
| DirRow.ScanIsFirst | src/readwrite.rs:382-401 | the scan for a name over readable blocks finds the first live record of all that bears it |
| Ext4.Ext4Fs.AddDirBlock | src/readwrite.rs:607-631 | a new block with the record alone: the directory gains exactly this name; Ok exactly with a free block and room in the root |
| Ext4.Ext4Fs.AttachDirBlock | src/readwrite.rs:622-628 | one more block at the end of the directory's row, exactly when the root has room, or no change at all; leaves in order and disjoint stay so |
| Ext4.Ext4Fs.AppendExtent | src/readwrite.rs:638-680 | an error (no header, index root, full root) changes nothing; otherwise the inode's blocks are the old ones followed by the new one, in the record on the device too, and order and disjointness of any leaves are kept |
| Grow.AppendToFacts | src/readwrite.rs:653-674 | the edited root parses to the old leaves followed by a one-block leaf at the old logical end |
| Grow.AppendKeepsOrder | src/readwrite.rs:653-674 | whatever leaves the root had, if they were in order and disjoint they stay so, and the tree maps exactly one logical block more, the one past its old end |
| Extent.AppendRefinesSequence | src/readwrite.rs:667-674 | the byte edits of the root are an append on the sequence of leaves, and count one entry more |
| Ops.FileGrows | src/readwrite.rs:638-680 | from an empty root the first four appends succeed and keep logical order, the fifth is refused |
| Ops.FinishedReadsBack | src/readwrite.rs:747-762 | blocks that hold the chunks of the data, mapped in order, read back as the data, with any partial last block |
| FileTree.ReadsBack | src/readwrite.rs:294-326 | chunks stored in order under a matching size are read as exactly the data |
| Ext4.Ext4Fs.AllocateBlock | src/readwrite.rs:488-525 | fails exactly when every bitmap is full, equivalently when the superblock counts no free block, and then changes nothing; otherwise takes the first clear bit of the first group that has one, probing from the preferred group, and changes exactly that bit and its two counters; the block was never handed out before, is usable and owned by nobody |
| Ext4.Ext4Fs.MarkBlock | src/readwrite.rs:500-519 | exactly one bit of the bitmap, the group counter and the superblock counter move together, so the subtraction never saturates; nothing a file can use changes |
| Ext4.Ext4Fs.AllocateInode | src/readwrite.rs:530-563 | the same for inode numbers |
| Ext4.Ext4Fs.MarkInode | src/readwrite.rs:542-557 | the same for the inode bitmap and counters |
| Ext4.Ext4Fs.AllocateAndWrite | src/readwrite.rs:747-755 | a fresh block with the given contents, the first free one from the preferred group; fails exactly without free blocks; live inodes unchanged |
| Invariant.TakeBlock | src/readwrite.rs:500-519 | setting the bit of a free block and lowering both counters keeps the invariant, and the block belongs to nobody |
| Invariant.TakeInode | src/readwrite.rs:542-557 | the same for an inode bit; afterwards allocated inodes outnumber counted directories |
| Invariant.PositionsDistinct | src/readwrite.rs:515-517 | (group, bit) to absolute number is injective across groups |
| Invariant.BlockPlace | src/readwrite.rs:515-517 | every block from the first data block on stands for the bit of its group that division gives |
| Invariant.InodePlace | src/readwrite.rs:192-205 | bit `i` of group `k` stands for the inode whose record is number `i` in the inode table of that group |
| Invariant.ProbeInOrder | src/readwrite.rs:491-493 | the probe starts at the preferred group and goes up, from the last group on to the first |
| Invariant.ProbeReaches | src/readwrite.rs:491-493 | the modular probe reaches every group |
| Invariant.ProbeOnce | src/readwrite.rs:491-493 | and reaches none twice |
| Invariant.LogBlock | src/readwrite.rs:502-519 | a block with a clear bit has not been handed out in this run |
| Invariant.ChangeKeepsInv | src/readwrite.rs:177-239 | a write that leaves the bitmaps alone keeps the invariant if the inodes it touches stay well formed |
| Invariant.WriteRecord | src/readwrite.rs:217-239 | writing the record of a live or newly allocated inode whose blocks are its own or loose keeps the invariant and every other inode |
| Grow.InsertKeepsInv | src/readwrite.rs:575-602 | a record written into an existing block keeps the invariant, and makes the name found exactly when it reuses a deleted record |
| DirRow.InsertInRow | src/readwrite.rs:575-602 | the same on the row of blocks: blocks stay tiled and every other name scans alike |
| DirRow.GrowRow | src/readwrite.rs:607-628 | one more block with a single record: that name is found, every other name scans alike |
| DirRow.SlackKeepsSlots | src/dir.rs:258-299 | a record written into slack leaves every search for space, of any length, where it was |
| Ops.FoundIsLive | src/readwrite.rs:382-401 | lookups in live directories lead to live inodes, and fail with NotFound exactly when no record has the name |
| Ops.PathIsLive | src/readwrite.rs:332-377 | a path that resolves leads to a live inode and its record |
| Ops.PathKept | src/readwrite.rs:332-377 | when directories keep what they find, a resolved path keeps its inode number |
| FileTree.SplitAgreesWithLookup | src/readwrite.rs:332-377 | resolving a path is looking its file name up in its parent, repeated slashes included |
| FileTree.LookupPathIs | src/readwrite.rs:332-377 | what any path leads to, from its last slash on: the root, the name looked up in what the rest leads to, NotADirectory, or InvalidPath without a leading slash; a trailing slash changes nothing |
| Path.SplitPathIs | src/readwrite.rs:863-885 | what any path with a slash in front splits into, by its last slash, and its errors |
| Path.JoinRoundTrip | src/readwrite.rs:347-351 | names joined by slashes have exactly those names as components |
| Path.ComponentsAreNames | src/readwrite.rs:347-351 | components are never empty and hold no slash |
| Path.SplitKeepsComponents | src/readwrite.rs:863-885 | the components of a path that splits are those of the parent followed by the file name |
| Ext4.Ext4Fs.LookupPath | src/readwrite.rs:332-377 | the loop over components computes the walk that the path lemmas are about |
| Ext4.Ext4Fs.LookupInDir | src/readwrite.rs:382-401 | the nested loop over extents and blocks is the scan of the directory's blocks in order, errors included |
| Ext4.Ext4Fs.ReadFile | src/readwrite.rs:406-421 | computes the read that `ReadFileIs` and the other read lemmas are about |
| Ext4.Ext4Fs.ReadInodeData | src/readwrite.rs:294-326 | the loop reads logical blocks in order and stops at the first hole or failing block |
| FileTree.ReadPointwise | src/readwrite.rs:294-326 | a successful read has exactly `size` bytes, each being its byte of the physical block mapped from its logical block, below 2^32 blocks |
| FileTree.ReadFailsExactly | src/readwrite.rs:294-326 | with a resolvable tree and readable blocks, reading fails exactly when a logical block below the size is unmapped |
| FileTree.ReadFailsOnHoles | src/readwrite.rs:308-315 | and the error is then `Corrupt` |
| FileTree.ReadStopsAt | src/readwrite.rs:308-319 | reading stops at the first logical block that is unmapped, with Corrupt, or past the device, with IoError, and succeeds when there is none |
| FileTree.ReadFileIs | src/readwrite.rs:294-421 | errors of the path, IsADirectory, an empty file without a look at its tree, errors of the tree, and the contents, in that order |
| FileTree.BlocksToReadIs | src/readwrite.rs:302-303 | how many blocks a read looks at: the number that the size takes, modulo 2^32, and none for sizes whose rounding wraps |
| FileTree.ReadDataFrame | src/readwrite.rs:294-326 | what is read depends on the inode's tree nodes and data blocks only |
| Ext4.Ext4Fs.ResolveExtents | src/readwrite.rs:245-268 | flag and header errors, leaf roots, and index roots |
| Ext4.Ext4Fs.ResolveExtentTreeRecursive | src/readwrite.rs:271-289 | the loop over children computes the flattening that `OnDisk.NodeResolves` and the tree lemmas are about |
| ExtentTree.FlattenOrdered | src/readwrite.rs:271-289 | flattening a well-formed tree of any depth succeeds, with the leaves in order and disjoint |
| OnDisk.NodeResolves | src/readwrite.rs:271-289 | on bytes, at any depth: a node resolves to the leaves under the blocks its records name, low half and high half joined, one child after the other, and to the error of the first child that cannot be read or resolved |
| OnDisk.DepthOneResolves | src/readwrite.rs:271-289 | a node right above the leaves resolves to the leaves of its children in order |
| OnDisk.RootResolves | src/readwrite.rs:245-268 | the root in the inode is resolved with as many levels as it says |
| ExtentTree.ResolveErrors | src/readwrite.rs:245-289 | UnsupportedFeature exactly without the flag, Corrupt exactly without a header, IoError exactly for a block past the device; no other error |
| ExtentTree.DescentAgreesWithScan | src/extent.rs:316-357 | descending by index finds the leaf that the linear scan of all leaves finds, or neither finds one |
| ExtentTree.ScanOfChildren | src/readwrite.rs:279-285 | no leaf under any other child than the one the index search picks covers the block |
| ExtentTree.FirstMatchIsOnlyMatch | src/extent.rs:228-241 | in ordered leaves the first match is the only one, and gives the physical block |
| ExtentTree.ResolveFrame | src/readwrite.rs:271-289 | a tree depends on the blocks of its nodes only |
| Extent.FindIndexForBlock | src/extent.rs:316-342 | the binary search returns the last entry with key at most the block, and nothing exactly when all keys are greater |
| Extent.IndexFor | src/extent.rs:316-342 | what "last entry with key at most b" means |
| Extent.FindLeafForBlock | src/extent.rs:348-357 | the first leaf that covers the block |
| Extent.FindLeafConcat | src/extent.rs:348-357 | scanning a concatenation scans the first part, then the second |
| Extent.ParseLeaves | src/extent.rs:259-283 | as many leaves as the header counts and the buffer holds whole; none from an index node |
| Extent.ParseIndices | src/extent.rs:286-310 | the same for index entries |
| OnDisk.LeafNode | src/extent.rs:180-283 | the leaves of a node by its bytes: first block, length without the high bit, start from its two halves; as many as counted and held whole |
| OnDisk.IndexNode | src/extent.rs:121-310 | its index entries by its bytes |
| OnDisk.WrongNode | src/extent.rs:259-310 | no leaves from a node that is not a leaf node, no index entries from one that is |
| OnDisk.HeaderFields | src/extent.rs:51-74 | a header is accepted exactly with its magic and 12 bytes, and its fields lie at their offsets |
| Extent.LeafMaps | src/extent.rs:228-241 | which blocks a leaf maps and to what; none when their numbers reach 2^32 |
| Extent.NextLogicalIs | src/readwrite.rs:653-665 | the new extent starts past every leaf and no further than it must |
| Extent.HeaderRoundTrip | src/extent.rs:51-86 | a header with the magic parses back from its bytes |
| Extent.IndexRoundTrip | src/extent.rs:121-146 | an index entry parses back from its bytes |
| Extent.LeafRoundTrip | src/extent.rs:180-206 | a leaf parses back from its bytes |
| Directory.ChainRoundTrip | src/dir.rs:63-119 | iterating over concatenated records yields exactly those records, at prefix-sum offsets |
| Directory.EntriesInBounds | src/dir.rs:205-229 | on arbitrary bytes the records yielded are in bounds and each starts where the one before it ends |
| Directory.DirEntryIter.Next | src/dir.rs:208-228 | yields the head of what is left and moves strictly forward, or ends |
| Directory.LookupInBlock | src/dir.rs:234-250 | the first live record with the name |
| Directory.FindSpaceInBlock | src/dir.rs:258-299 | the loop finds the first slot that the slot lemmas are about |
| Directory.FirstHost | src/dir.rs:258-299 | None exactly when no record can host the new one; otherwise the first that can, with a slot at least as long as needed that ends at the record's end, and that is the whole record exactly when it is deleted and long enough |
| Directory.SlotMissesNames | src/dir.rs:258-299 | the slot lies in the block and misses header and name of every live record |
| Directory.SlotStart | src/dir.rs:279-292 | the slot starts at a record exactly when it reuses a deleted one |
| Directory.InsertKeepsChain | src/readwrite.rs:585-602 | writing into a deleted record replaces it in the chain; writing into slack changes nothing that iteration yields; the block stays tiled |
| Directory.DotEntriesIterate | src/dir.rs:305-324 | the dot block is tiled by exactly two records of type 2: "." in 12 bytes, and ".." up to the end of the block |
| Directory.EntryRoundTrip | src/dir.rs:63-119 | a record whose name fits parses back from its bytes wherever they lie |
| OnDisk.EntryFields | src/dir.rs:63-104 | a record is accepted exactly when it and its name fit, and its fields lie at their offsets |
| OnDisk.EntryWrites | src/dir.rs:107-119 | the bytes of a record that is written, zeros behind the name included |
| Bitmap.MaskedBit | src/bitmap.rs:37-73 | or-ing and and-ing the masks of the source are setting and clearing one bit |
| Bitmap.TestMask | src/bitmap.rs:23-31 | the mask test reads that bit |
| Bitmap.Set | src/bitmap.rs:37-52 | exactly one bit becomes set; true when it was clear; nothing past the end |
| Bitmap.Clear | src/bitmap.rs:58-73 | exactly one bit becomes clear; true when it was set; nothing past the end |
| Bitmap.WithBit | src/bitmap.rs:37-52 | bit by bit, the bitmap after setting one |
| Bitmap.WithoutBit | src/bitmap.rs:58-73 | bit by bit, the bitmap after clearing one |
| Bitmap.FindFirstFree | src/bitmap.rs:79-100 | the first clear bit of [start, total), else the first of [0, start), else none |
| Bitmap.FirstFreeInRange | src/bitmap.rs:79-100 | exactly when the bit found is below `total`, should a search start past it |
| Bitmap.ScanRun | src/bitmap.rs:112-129 | one pass finds the first all-clear window of the range, or there is none |
| Bitmap.FindContiguousFree | src/bitmap.rs:106-151 | the first window inside [start, total), else inside [0, start); None exactly when neither exists |
| Bitmap.CountFree | src/bitmap.rs:154-163 | the number of clear bits below `total` |
| Bitmap.CountAfterSet | src/bitmap.rs:154-174 | setting a clear bit in range lowers that number by one |
| Bitmap.AllocateOne | src/bitmap.rs:168-174 | sets the first free bit and nothing else |
| Bitmap.AllocateContiguous | src/bitmap.rs:180-188 | sets exactly the first window found, on any arguments; freeing it would restore the bitmap; when the window lies below a `total` that the bitmap covers, the free count falls by exactly `count` |
| Bitmap.FreeRange | src/bitmap.rs:191-197 | clears exactly the indices of the range, also where they wrap at 2^32; a range that does not wrap is a window |
| Bitmap.FreeUndoesAllocate | src/bitmap.rs:180-197 | freeing an allocated window restores the bitmap byte for byte |
| BlockGroup.DescriptorRoundTrip | src/block_group.rs:79-154 | 64-byte form: everything comes back; 32-byte form: everything but the high halves |
| BlockGroup.DescriptorMoves | src/block_group.rs:79-117 | a descriptor reads the same wherever its bytes lie in a table |
| OnDisk.GroupFields | src/block_group.rs:79-190 | locations and counts of a descriptor by its bytes, both halves in the 64-byte form |
| OnDisk.GroupWrites | src/block_group.rs:122-154 | what a descriptor that is written shows |
| BlockGroup.ParseBlockGroupTable | src/block_group.rs:227-252 | descriptors in order, one stride apart: `count` of them or as many as the buffer holds whole |
| BlockGroup.BlockGroupDesc.SetFreeBlocksCount | src/block_group.rs:193-197 | the split counter reads back, and no other count or location moves |
| BlockGroup.BlockGroupDesc.SetFreeInodesCount | src/block_group.rs:200-204 | the same for free inodes |
| BlockGroup.BlockGroupDesc.SetUsedDirsCount | src/readwrite.rs:820-824 | the same for used directories, as `mkdir` stores them |
| InodeRecord.InodeRoundTrip | src/inode.rs:158-251 | an inode comes back from its bytes; records below 256 bytes drop the extended fields |
| OnDisk.InodeFields | src/inode.rs:158-301 | every field of an inode record by its bytes; size, directory type and the extents flag too; the extended fields exactly in long records |
| OnDisk.InodeWrites | src/inode.rs:211-251 | what an inode record that is written shows |
| InodeRecord.Inode.SetSize | src/inode.rs:255-264 | the split size reads back |
| InodeRecord.Inode.WithEmptyTree | src/readwrite.rs:729-740 | an extent root with no leaves and the extents flag; no other field changes |
| InodeRecord.NewFile | src/inode.rs:372-389 | a file with an empty extent tree and size 0, one link, the extents flag, and nothing else set |
| InodeRecord.NewDir | src/inode.rs:392-408 | a directory with an empty extent tree, size 0 and two links, the extents flag, and nothing else set |
| SuperblockRecord.SuperblockRoundTrip | src/superblock.rs:193-313 | a superblock with the magic comes back from its bytes, any other is refused |
| OnDisk.SuperblockFields | src/superblock.rs:193-349 | a superblock is accepted exactly with its magic; its fields, block counts and descriptor stride by its bytes |
| OnDisk.SuperblockWrites | src/superblock.rs:270-313 | what a superblock that is written shows |
| SuperblockRecord.BlockGroupCountExact | src/superblock.rs:335-338 | one number of groups covers the data blocks with none of them empty, and the count is that number modulo 2^32 |
| SuperblockRecord.BlockSizeExact | src/superblock.rs:317-319 | for shifts below 54 the block size is 1024 times a power of two, never between 1024 and 2048; for larger ones it is 0 |
| SuperblockRecord.TablePastSuperblock | src/readwrite.rs:842-845 | the descriptor table starts past the superblock for every block size |
| SuperblockRecord.TableFollows | src/readwrite.rs:145-151 | the table starts in the block behind the one that holds byte 1024 |
| Ext4.Ext4Fs.SyncMetadata | src/readwrite.rs:835-856 | keeps the invariant and every file block and inode, and every byte outside superblock and descriptor table; a mount then recovers superblock and descriptors exactly when they are storable |
| Persist.MountAfterSync | src/readwrite.rs:126-163 | the recovery is exact if and only if magic and group count are right and, in 32-byte form, the high halves are zero; with right magic and count, each descriptor comes back as its record keeps it |
| Persist.StaysStorable | src/readwrite.rs:820-856 | when only counters change and free counts fall, a storable volume stays storable exactly when descriptors have high halves or no group counts 65536 directories |
| Persist.FixedIs | src/readwrite.rs:488-563 | what runs keep of superblock and descriptors is every field but the counters |
| Persist.OneMoreDescriptor | src/readwrite.rs:847-851 | a descriptor write overlaps neither the superblock nor an earlier descriptor, for every stride |
| Ext4.Mount | src/readwrite.rs:126-163 | gives exactly the image of the device; when its groups number n, they are n modulo 2^32 for the n that cover the volume |
| Volume.ImageShown | src/readwrite.rs:126-163 | a mount fails on a device without a whole superblock (IoError), without its magic (InvalidSuperblock), or without the whole table (IoError); else superblock and descriptors are what the bytes show, the descriptors one stride apart |
| Volume.GeometryShown | src/readwrite.rs:126-163 | block size, inode size, groups and locations that operations go by, in terms of those bytes |
| Ext4.BlockHasGroup | src/superblock.rs:335-338 | when the groups cover the volume each data block is a bit of one of them |
| Ext4.Ext4Fs.ReadInode | src/readwrite.rs:185-214 | NotFound for 0, Corrupt for numbers past the last group, and else the record that the bytes at its place in the inode table of its group show |
| Ext4.Ext4Fs.WriteInode | src/readwrite.rs:217-239 | replaces exactly one record; blocks outside the inode tables are untouched; NotFound for 0 and Corrupt for numbers past the last group, with nothing written |
| Ext4.Ext4Fs.ReadBlock | src/readwrite.rs:168-174 | the block, or an I/O error past the end of the device |
| Ext4.Ext4Fs.WriteBlock | src/readwrite.rs:177-182 | replaces exactly one block; inode records change only if it lies in an inode table |
| Layout.WriteBlockView | src/readwrite.rs:177-182 | how a block write changes the two maps of the view |
| Layout.WriteInodeView | src/readwrite.rs:217-239 | how a record write changes them |
| Layout.InodesApart | src/readwrite.rs:192-205 | records of different inodes do not overlap |

## Left out

- Real device backends, flush and durability: the device is a range of bytes that fails only past its end.
- Logging, formatting, UTF-8 helpers, message strings of errors: output. Timestamps and owners are 0 in every call of the write path.
- `list_dir` (src/readwrite.rs:424-452): the scan of `lookup_in_dir` without a name.
- Legacy block pointers (src/inode.rs:314-360): no read or write path uses them.
- Journaling, hashed directories, checksums, encryption, extent splitting and merging, uninitialised groups: not implemented by the driver; bitmaps are taken as initialised.
- Extents marked uninitialised read as their raw blocks, and a length of exactly 0x8000 as 0, as the code masks them.
- Codecs are functions on values: a Rust struct is a datatype with functional updates, a byte buffer a sequence. Bitmaps are arrays, and the filesystem handle is a class. Bytes that no field covers are written as zeros; that they are lost is not stated.
- Ext4.Ext4Fs.WriteFile: lengths within 2^16 of the 64-bit limit are excluded, because the rounding of the block count would wrap there. Byte offsets cannot overflow: block numbers are below 2^48 and blocks below 2^16 bytes.
- Overwriting does not free the old blocks of the file (src/readwrite.rs:707); the model keeps this, and the blocks simply belong to nobody afterwards.
- When an operation fails half way, an inode or block it had allocated stays allocated; the invariant allows this, as in the driver.
- Ext4.Ext4Fs.AddDirEntry: requires a live inode and a name that the directory does not have, as both callers establish; likewise the other private steps of `write_file` and `mkdir`.
- Ext4.Mount: requires that blocks per group is not zero and that the first data block is not past the end of the volume; the source panics otherwise.
- Arithmetic wraps as in a release build where it can (end of an extent, slack of a record, size of a directory, block size); elsewhere the invariant excludes overflow.
- `blocks_lo` of a directory is not updated when it grows (src/readwrite.rs:625-628); the model keeps this.
- ScanRun, FindSpot, AllocateAndWrite, WriteContents, AttachDirBlock and the other parts of `write_file`, `mkdir` and `add_dir_entry` are consecutive pieces of one source function each, in the source's order.
