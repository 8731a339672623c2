/**
 A directory as a row of blocks (src/readwrite.rs:382-401, 568-632): what stays found, and what becomes found, when
 one of its blocks takes a new record or one more block is added.
 */
module DirRow {
  import opened Bytes
  import opened Wrappers
  import opened ExtentTree
  import opened Directory
  import opened FileTree

  /** Every live record of a block names an inode of `live`. */
  predicate EntriesLive(items: seq<Item>, live: set<nat>) {
    items == [] || ((items[0].1.inode == 0 || items[0].1.inode in live) && EntriesLive(items[1..], live))
  }

  ghost predicate DirBlockOk(block: seq<byte>, live: set<nat>) {
    Tiled(block, 0) && EntriesLive(Entries(block, 0), live)
  }

  ghost predicate RowOk(blocks: Blocks, row: seq<nat>, live: set<nat>) {
    forall b | b in row :: b in blocks && DirBlockOk(blocks[b], live)
  }

  lemma {:induction false} EntriesLiveMonotone(items: seq<Item>, a: set<nat>, b: set<nat>)
    requires EntriesLive(items, a) && a <= b
    ensures EntriesLive(items, b)
  {
    if items != [] {
      EntriesLiveMonotone(items[1..], a, b);
    }
  }

  lemma RowOkMonotone(blocks: Blocks, row: seq<nat>, a: set<nat>, b: set<nat>)
    requires RowOk(blocks, row, a) && a <= b
    ensures RowOk(blocks, row, b)
  {
    hide EntriesLive, Tiled, Entries;
    forall x | x in row
      ensures x in blocks && DirBlockOk(blocks[x], b)
    {
      EntriesLiveMonotone(Entries(blocks[x], 0), a, b);
    }
  }

  lemma {:induction false} NamedIsLive(items: seq<Item>, name: seq<byte>, live: set<nat>)
    requires EntriesLive(items, live) && FindNamed(items, name).Some?
    ensures FindNamed(items, name).value.1.inode in live
  {
    if !items[0].1.Named(name) {
      NamedIsLive(items[1..], name, live);
    }
  }

  /** A name found in a well-formed directory belongs to a live inode. */
  lemma {:induction false} ScanFindsLive(blocks: Blocks, row: seq<nat>, name: seq<byte>, live: set<nat>)
    requires RowOk(blocks, row, live)
    ensures ScanFor(blocks, row, name).Ok?
    ensures ScanFor(blocks, row, name).value.Some? ==> ScanFor(blocks, row, name).value.value.inode in live
  {
    hide EntriesLive, Tiled, Entries, FindNamed;
    if row != [] {
      ScanFindsLive(blocks, row[..|row| - 1], name, live);
      var b := row[|row| - 1];
      assert b in row;
      if Lookup(blocks[b], name).Some? {
        NamedIsLive(Entries(blocks[b], 0), name, live);
      }
    }
  }

  /** Blocks that answer a lookup alike give the same scan. */
  lemma {:induction false} ScanSameLookups(a: Blocks, b: Blocks, row: seq<nat>, name: seq<byte>)
    requires forall x | x in row :: x in a && x in b && Lookup(a[x], name) == Lookup(b[x], name)
    ensures ScanFor(a, row, name) == ScanFor(b, row, name)
  {
    hide Lookup;
    if row != [] {
      assert row[|row| - 1] in row;
      ScanSameLookups(a, b, row[..|row| - 1], name);
    }
  }

  /** A name that was nowhere and appears in one block is found there. */
  lemma {:induction false} ScanFindsNew(a: Blocks, b: Blocks, row: seq<nat>, name: seq<byte>, at: nat, item: Item)
    requires ScanFor(a, row, name) == Ok(None)
    requires forall x | x in row ::
      && x in a && x in b
      && if x == at then Lookup(b[x], name) == Some(item) else Lookup(a[x], name) == Lookup(b[x], name)
    ensures ScanFor(b, row, name) == Ok(if at in row then Some(item.1) else None)
  {
    hide Lookup;
    if row != [] {
      assert row[|row| - 1] in row;
      ScanFindsNew(a, b, row[..|row| - 1], name, at, item);
    }
  }

  lemma ScanAppend(blocks: Blocks, row: seq<nat>, last: nat, name: seq<byte>)
    requires last in blocks
    ensures ScanFor(blocks, row + [last], name)
            == if ScanFor(blocks, row, name) != Ok(None) then ScanFor(blocks, row, name)
               else match Lookup(blocks[last], name) case Some(item) => Ok(Some(item.1)) case None => Ok(None)
  {
    hide Lookup;
    assert (row + [last])[..|row|] == row;
  }

  // --- Where a new record goes ---

  /** The first block of the row with a slot that fits, as `add_dir_entry` scans for it. */
  function DirSlot(blocks: Blocks, row: seq<nat>, needed: u16): Result<Option<(nat, Slot)>> {
    if row == [] then Ok(None)
    else
      var last := row[|row| - 1];
      match DirSlot(blocks, row[..|row| - 1], needed)
      case Err(e) => Err(e)
      case Ok(Some(s)) => Ok(Some(s))
      case Ok(None) =>
        if last !in blocks then Err(IoError)
        else match FindSlot(blocks[last], 0, needed)
        case Some(s) => if s.off + s.len as int <= |blocks[last]| then Ok(Some((last, s))) else Ok(None)
        case None => Ok(None)
  }

  lemma {:induction false} SlotErrors(blocks: Blocks, row: seq<nat>, needed: u16)
    ensures DirSlot(blocks, row, needed).Err? ==> DirSlot(blocks, row, needed).error == IoError
  {
    hide FindSlot;
    if row != [] {
      SlotErrors(blocks, row[..|row| - 1], needed);
    }
  }

  lemma {:induction false} SlotPrefix(blocks: Blocks, row: seq<nat>, n: nat, needed: u16)
    requires n <= |row| && DirSlot(blocks, row[..n], needed) != Ok(None)
    ensures DirSlot(blocks, row, needed) == DirSlot(blocks, row[..n], needed)
  {
    hide FindSlot;
    if n == |row| {
      assert row[..n] == row;
    } else {
      assert row[..|row| - 1][..n] == row[..n];
      SlotPrefix(blocks, row[..|row| - 1], n, needed);
    }
  }

  lemma {:induction false} SlotInRow(blocks: Blocks, row: seq<nat>, needed: u16)
    requires DirSlot(blocks, row, needed).Ok? && DirSlot(blocks, row, needed).value.Some?
    ensures var (b, s) := DirSlot(blocks, row, needed).value.value;
      b in row && b in blocks && FindSlot(blocks[b], 0, needed) == Some(s)
  {
    hide FindSlot;
    if DirSlot(blocks, row[..|row| - 1], needed) != Ok(None) {
      SlotInRow(blocks, row[..|row| - 1], needed);
    }
  }

  /** The directory after the new record is written into the slot `s` of block `b`. */
  function WithRecord(blocks: Blocks, b: nat, s: Slot, e: DirEntry): (r: Blocks)
    requires b in blocks && s.off + s.len as int <= |blocks[b]| && Encodable(e.(recLen := s.len))
    ensures r.Keys == blocks.Keys && |r[b]| == |blocks[b]|
  {
    blocks[b := InsertAt(blocks[b], s, e)]
  }

  lemma {:induction false} EntriesLiveReplace(items: seq<Item>, off: nat, e: DirEntry, live: set<nat>)
    requires EntriesLive(items, live) && e.inode in live
    ensures EntriesLive(Replace(items, off, e), live)
  {
    if items != [] {
      var r := Replace(items, off, e);
      assert r[1..] == Replace(items[1..], off, e);
      EntriesLiveReplace(items[1..], off, e, live);
    }
  }

  /** One block: insertion keeps it well formed, finds what was found, and finds the new name exactly on reuse. */
  lemma InsertInBlock(block: seq<byte>, needed: u16, e: DirEntry, live: set<nat>, n: seq<byte>)
    requires DirBlockOk(block, live) && FindSlot(block, 0, needed).Some? && needed == e.ActualSize()
    requires e.nameLen == |e.name| && e.inode != 0 && e.inode in live && Lookup(block, e.name) == None
    ensures var s := FindSlot(block, 0, needed).value;
      && s.off + s.len as int <= |block| && Encodable(e.(recLen := s.len))
      && DirBlockOk(InsertAt(block, s, e), live)
      && Lookup(InsertAt(block, s, e), n)
         == if s.reuse && n == e.name then Some((s.off, e.(recLen := s.len))) else Lookup(block, n)
  {
    hide Tiled, Entries, EntriesLive, FindNamed, FindSlot, InsertAt, Replace, DirEntry.ActualSize;
    InsertKeepsChain(block, 0, needed, e);
    var s := FindSlot(block, 0, needed).value;
    if s.reuse {
      SlotStart(block, 0, needed);
      EntriesLiveReplace(Entries(block, 0), s.off, e.(recLen := s.len), live);
      FindAfterReplace(Entries(block, 0), s.off, e.(recLen := s.len), n);
    }
  }

  lemma {:induction false} NotInRowNotInBlock(blocks: Blocks, row: seq<nat>, name: seq<byte>, b: nat)
    requires ScanFor(blocks, row, name) == Ok(None) && b in row
    ensures b in blocks && Lookup(blocks[b], name) == None
  {
    hide Lookup;
    if b != row[|row| - 1] {
      NotInRowNotInBlock(blocks, row[..|row| - 1], name, b);
    }
  }

  /**
   Insertion into an existing block of a directory where the name was absent. Every other lookup is unchanged; the new
   name is found exactly when the slot was a deleted record. In slack the record is written but no chain leads to it.
   */
  lemma InsertInRow(blocks: Blocks, row: seq<nat>, e: DirEntry, live: set<nat>, n: seq<byte>)
    requires RowOk(blocks, row, live) && ScanFor(blocks, row, e.name) == Ok(None)
    requires e.nameLen == |e.name| && e.inode != 0 && e.inode in live
    requires DirSlot(blocks, row, e.ActualSize()).Ok? && DirSlot(blocks, row, e.ActualSize()).value.Some?
    ensures var (b, s) := DirSlot(blocks, row, e.ActualSize()).value.value;
      && b in row && b in blocks && s.off + s.len as int <= |blocks[b]| && Encodable(e.(recLen := s.len))
      && RowOk(WithRecord(blocks, b, s, e), row, live)
      && ScanFor(WithRecord(blocks, b, s, e), row, n)
         == if s.reuse && n == e.name then Ok(Some(e.(recLen := s.len))) else ScanFor(blocks, row, n)
  {
    hide DirBlockOk, Lookup, FindSlot, InsertAt, DirEntry.ActualSize, DirSlot, ScanFor;
    SlotInRow(blocks, row, e.ActualSize());
    var (b, s) := DirSlot(blocks, row, e.ActualSize()).value.value;
    NotInRowNotInBlock(blocks, row, e.name, b);
    InsertInBlock(blocks[b], e.ActualSize(), e, live, n);
    var after := WithRecord(blocks, b, s, e);
    if s.reuse && n == e.name {
      ScanFindsNew(blocks, after, row, n, b, (s.off, e.(recLen := s.len)));
    } else {
      ScanSameLookups(blocks, after, row, n);
    }
  }

  lemma {:induction false} SameSlots(a: Blocks, b: Blocks, row: seq<nat>, needed: u16)
    requires forall x | x in row ::
      x in a && x in b && |a[x]| == |b[x]| && FindSlot(a[x], 0, needed) == FindSlot(b[x], 0, needed)
    ensures DirSlot(a, row, needed) == DirSlot(b, row, needed)
  {
    hide FindSlot;
    if row != [] {
      assert row[|row| - 1] in row;
      SameSlots(a, b, row[..|row| - 1], needed);
    }
  }

  /** A record written into slack takes no space from any later record, of whatever length. */
  lemma SlackKeepsSlots(blocks: Blocks, row: seq<nat>, e: DirEntry, live: set<nat>, other: u16)
    requires RowOk(blocks, row, live) && e.nameLen == |e.name|
    requires DirSlot(blocks, row, e.ActualSize()).Ok? && DirSlot(blocks, row, e.ActualSize()).value.Some?
    requires !DirSlot(blocks, row, e.ActualSize()).value.value.1.reuse
    ensures var (b, s) := DirSlot(blocks, row, e.ActualSize()).value.value;
      && b in blocks && s.off + s.len as int <= |blocks[b]| && Encodable(e.(recLen := s.len))
      && DirSlot(WithRecord(blocks, b, s, e), row, other) == DirSlot(blocks, row, other)
  {
    hide FindSlot, EntryAt, Tiled, Entries, DirEntry.ActualSize, InsertAt, EntriesLive;
    SlotInRow(blocks, row, e.ActualSize());
    var (b, s) := DirSlot(blocks, row, e.ActualSize()).value.value;
    assert DirBlockOk(blocks[b], live);
    InsertKeepsChain(blocks[b], 0, e.ActualSize(), e);
    SlotByEntries(blocks[b], InsertAt(blocks[b], s, e), 0, other);
    SameSlots(blocks, WithRecord(blocks, b, s, e), row, other);
  }

  lemma LookupInSingle(e: DirEntry, n: seq<byte>)
    requires Encodable(e) && e.recLen >= e.ActualSize() && e.inode != 0
    ensures Lookup(ToBytes(e), n) == if n == e.name then Some((0, e)) else None
  {
    hide ToBytes, Entries, DirEntry.ActualSize;
    SingleEntry(e);
    assert e.name[..e.nameLen] == e.name;
    var items: seq<Item> := [(0, e)];
    assert Lookup(ToBytes(e), n) == FindNamed(items, n);
    assert items[1..] == [];
    assert FindNamed(items[1..], n) == None;
  }

  /** A directory that grows by such a block finds the new name, and everything else as before. */
  lemma GrowRow(a: Blocks, b: Blocks, row: seq<nat>, last: nat, e: DirEntry, live: set<nat>, n: seq<byte>)
    requires RowOk(a, row, live) && (forall x | x in row :: x in b && b[x] == a[x])
    requires last in b && Encodable(e) && b[last] == ToBytes(e) && e.recLen >= e.ActualSize()
    requires e.inode != 0 && e.inode in live && ScanFor(a, row, e.name) == Ok(None)
    ensures RowOk(b, row + [last], live)
    ensures ScanFor(b, row + [last], n) == if n == e.name then Ok(Some(e)) else ScanFor(a, row, n)
  {
    hide ToBytes, Lookup, DirEntry.ActualSize, Tiled, Entries, ScanFor;
    LookupInSingle(e, n);
    ScanSameLookups(a, b, row, n);
    ScanAppend(b, row, last, n);
    ScanFindsLive(a, row, n, live);
    SingleEntry(e);
    SingleLive(e, live);
    assert DirBlockOk(b[last], live);
  }

  lemma SingleLive(e: DirEntry, live: set<nat>)
    requires e.inode in live
    ensures EntriesLive([(0, e)], live)
  {
    assert [(0, e)][1..] == [];
  }

  // --- The records of a row ---

  /** The records of a row of blocks, one block after the other. */
  function RowItems(blocks: Blocks, row: seq<nat>): seq<Item> {
    if row == [] then []
    else
      var last := row[|row| - 1];
      RowItems(blocks, row[..|row| - 1]) + if last in blocks then Entries(blocks[last], 0) else []
  }

  lemma {:induction false} RowItemsNamed(blocks: Blocks, row: seq<nat>)
    ensures forall k :: 0 <= k < |RowItems(blocks, row)| ==>
      |RowItems(blocks, row)[k].1.name| == RowItems(blocks, row)[k].1.nameLen
  {
    hide Entries;
    if row != [] {
      RowItemsNamed(blocks, row[..|row| - 1]);
      if row[|row| - 1] in blocks {
        EntriesNamed(blocks[row[|row| - 1]], 0);
      }
    }
  }

  lemma {:induction false} FindsInConcat(a: seq<Item>, b: seq<Item>, name: seq<byte>)
    ensures FindNamed(a + b, name) == if FindNamed(a, name).Some? then FindNamed(a, name) else FindNamed(b, name)
  {
    hide DirEntry.Named;
    if a == [] {
      assert a + b == b;
    } else {
      assert (a + b)[1..] == a[1..] + b;
      FindsInConcat(a[1..], b, name);
    }
  }

  lemma {:induction false} ScanIsSearch(blocks: Blocks, row: seq<nat>, name: seq<byte>)
    requires forall b | b in row :: b in blocks
    ensures ScanFor(blocks, row, name)
      == match FindNamed(RowItems(blocks, row), name) case Some(item) => Ok(Some(item.1)) case None => Ok(None)
  {
    hide Entries, FindNamed;
    if row == [] {
      assert FindNamed([], name) == None by { FindsFirst([], name); }
    } else {
      ScanIsSearch(blocks, row[..|row| - 1], name);
      assert row[|row| - 1] in row;
      FindsInConcat(RowItems(blocks, row[..|row| - 1]), Entries(blocks[row[|row| - 1]], 0), name);
    }
  }

  /** Looking a name up in a row that can be read finds the first live record with it, and nothing if there is none. */
  lemma ScanIsFirst(blocks: Blocks, row: seq<nat>, name: seq<byte>)
    requires forall b | b in row :: b in blocks
    ensures ScanFor(blocks, row, name) == Ok(None) <==>
      forall k :: 0 <= k < |RowItems(blocks, row)| ==> !Bears(RowItems(blocks, row)[k], name)
    ensures forall k: nat :: FirstBearer(RowItems(blocks, row), name, k) ==>
      ScanFor(blocks, row, name) == Ok(Some(RowItems(blocks, row)[k].1))
  {
    hide RowItems, ScanFor, FindNamed, Bears;
    RowItemsNamed(blocks, row);
    ScanIsSearch(blocks, row, name);
    FindsFirst(RowItems(blocks, row), name);
  }

  /** A block that cannot be read is an error exactly if no block before it has the name. */
  lemma ScanStops(blocks: Blocks, row: seq<nat>, name: seq<byte>, n: nat)
    requires n < |row| && row[n] !in blocks
    ensures ScanFor(blocks, row[..n], name) == Ok(None) ==> ScanFor(blocks, row, name) == Err(IoError)
    ensures ScanFor(blocks, row[..n], name) != Ok(None) ==>
      ScanFor(blocks, row, name) == ScanFor(blocks, row[..n], name)
  {
    hide Lookup;
    assert row[..n + 1][..n] == row[..n];
    if ScanFor(blocks, row[..n], name) == Ok(None) {
      ScanPrefix(blocks, row, n + 1, name);
    } else {
      ScanPrefix(blocks, row, n, name);
    }
  }

  // --- Which record takes the new one ---

  /**
   A record of `needed` bytes will be found: no record can take it, or the first that can is deleted and long enough.
   */
  ghost predicate Findable(items: seq<Item>, needed: u16) {
    forall k: nat :: IsFirstHost(items, needed, k) ==> Vacant(items[k], needed)
  }

  /** Record `k` is the first that can take `needed` more bytes. */
  predicate IsFirstHost(items: seq<Item>, needed: u16, k: nat) {
    k < |items| && CanHost(items[k], needed) && forall j :: 0 <= j < k ==> !CanHost(items[j], needed)
  }

  predicate NoHost(items: seq<Item>, needed: u16) {
    forall k :: 0 <= k < |items| ==> !CanHost(items[k], needed)
  }

  lemma HostInConcat(a: seq<Item>, b: seq<Item>, needed: u16)
    ensures NoHost(a + b, needed) <==> NoHost(a, needed) && NoHost(b, needed)
    ensures forall k: nat :: IsFirstHost(a + b, needed, k) ==>
      if k < |a| then IsFirstHost(a, needed, k) else NoHost(a, needed) && IsFirstHost(b, needed, k - |a|)
    ensures forall k: nat :: IsFirstHost(a, needed, k) ==> !NoHost(a, needed)
  {
    hide CanHost;
    var c := a + b;
    assert forall k :: 0 <= k < |a| ==> c[k] == a[k];
    assert forall k :: 0 <= k < |b| ==> b[k] == c[|a| + k];
    forall k: nat | IsFirstHost(c, needed, k)
      ensures if k < |a| then IsFirstHost(a, needed, k) else NoHost(a, needed) && IsFirstHost(b, needed, k - |a|)
    {
      assert k >= |a| ==> c[k] == b[k - |a|];
    }
  }

  lemma HostInBlock(block: seq<byte>, needed: u16)
    requires Tiled(block, 0) && needed as int >= DIR_ENTRY_MIN_SIZE
    ensures FindSlot(block, 0, needed) == None <==> NoHost(Entries(block, 0), needed)
    ensures FindSlot(block, 0, needed).Some? ==>
      var s := FindSlot(block, 0, needed).value;
      && s.off + s.len as int <= |block|
      && forall k: nat :: IsFirstHost(Entries(block, 0), needed, k) ==>
        (s.reuse <==> Vacant(Entries(block, 0)[k], needed))
  {
    hide Entries, FindSlot, Tiled, CanHost, Vacant;
    var k := FirstHost(block, 0, needed);
    EntriesInBounds(block, 0);
    forall j: nat | IsFirstHost(Entries(block, 0), needed, j)
      ensures j == k
    {
    }
  }

  /**
   Where `add_dir_entry` puts a record, in terms of the directory's records alone: in the first that can take it, in its
   place if that is deleted and long enough and behind its name otherwise; or nowhere if there is none.
   */
  lemma {:induction false} SlotIsFirst(blocks: Blocks, row: seq<nat>, needed: u16, live: set<nat>)
    requires RowOk(blocks, row, live) && needed as int >= DIR_ENTRY_MIN_SIZE
    ensures DirSlot(blocks, row, needed).Ok?
    ensures DirSlot(blocks, row, needed) == Ok(None) <==> NoHost(RowItems(blocks, row), needed)
    ensures DirSlot(blocks, row, needed).value.Some? ==>
      forall k: nat :: IsFirstHost(RowItems(blocks, row), needed, k) ==>
        (DirSlot(blocks, row, needed).value.value.1.reuse <==> Vacant(RowItems(blocks, row)[k], needed))
  {
    hide Entries, FindSlot, Tiled, CanHost, Vacant, IsFirstHost, NoHost, EntriesLive;
    if row == [] {
      assert NoHost(RowItems(blocks, row), needed) by { NothingHosts(needed); }
    } else {
      var last, before := row[|row| - 1], row[..|row| - 1];
      assert last in row;
      assert DirBlockOk(blocks[last], live);
      SlotIsFirst(blocks, before, needed, live);
      HostInBlock(blocks[last], needed);
      HostInConcat(RowItems(blocks, before), Entries(blocks[last], 0), needed);
      OnlyInside(RowItems(blocks, before), needed);
    }
  }

  lemma NothingHosts(needed: u16)
    ensures NoHost([], needed)
  {
  }

  lemma OnlyInside(items: seq<Item>, needed: u16)
    ensures forall k: nat :: IsFirstHost(items, needed, k) ==> k < |items|
    ensures !NoHost(items, needed) ==> exists k: nat :: IsFirstHost(items, needed, k)
  {
    hide CanHost;
    if !NoHost(items, needed) {
      var k := 0;
      while !CanHost(items[k], needed)
        invariant 0 <= k < |items| && forall j :: 0 <= j < k ==> !CanHost(items[j], needed)
        decreases |items| - k
      {
        assert exists m :: k < m < |items| && CanHost(items[m], needed);
        k := k + 1;
      }
      assert IsFirstHost(items, needed, k);
    }
  }
}
