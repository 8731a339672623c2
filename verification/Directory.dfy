/**
 Directory blocks (src/dir.rs): a chain of variable-length records, each giving the distance to the next one, its
 parser, the lookup in one block, the search for space, and what inserting into that space does to the chain.
 */
module Directory {
  import opened Bytes
  import opened Wrappers

  const DIR_ENTRY_MIN_SIZE: nat := 8
  const EXT4_NAME_LEN: nat := 255
  const FT_REG_FILE: byte := 1
  const FT_DIR: byte := 2
  const DOT: seq<byte> := [0x2E]
  const DOTDOT: seq<byte> := [0x2E, 0x2E]

  datatype DirEntry = DirEntry(inode: u32, recLen: u16, nameLen: byte, fileType: byte, name: seq<byte>) {
    /** Header and name, rounded up to four bytes. */
    function ActualSize(): (r: u16)
      ensures DIR_ENTRY_MIN_SIZE + nameLen <= r as int < DIR_ENTRY_MIN_SIZE + nameLen + 4 && r as int % 4 == 0
    {
      (DIR_ENTRY_MIN_SIZE + nameLen + 3) / 4 * 4
    }

    predicate Named(n: seq<byte>) {
      inode != 0 && nameLen == |n| && nameLen <= |name| && name[..nameLen] == n
    }
  }

  /** `DirEntry::new`; the name length is cast to a byte. */
  function NewEntry(inode: u32, name: seq<byte>, fileType: byte, recLen: u16): DirEntry {
    DirEntry(inode, recLen, |name| % 0x100, fileType, name)
  }

  /** `rec_len` bytes: the header, the name if it fits, zeros. */
  function ToBytes(e: DirEntry): (r: seq<byte>)
    requires DIR_ENTRY_MIN_SIZE <= e.recLen as int && e.nameLen <= |e.name|
    ensures |r| == e.recLen as int
  {
    var buf := PutU32(Zeros(e.recLen as int), 0, e.inode);
    var buf := PutU16(buf, 4, e.recLen);
    var buf := buf[6 := e.nameLen][7 := e.fileType];
    if DIR_ENTRY_MIN_SIZE + e.nameLen <= |buf| then Splice(buf, DIR_ENTRY_MIN_SIZE, e.name[..e.nameLen]) else buf
  }

  /** `from_bytes(&buf[at..])`: the record must fit in what is left of the buffer, and so must the name. */
  function EntryAt(buf: seq<byte>, at: nat): (r: Option<DirEntry>)
    ensures r.Some? ==>
      |r.value.name| == r.value.nameLen && DIR_ENTRY_MIN_SIZE <= r.value.recLen as int
        && at + r.value.recLen as int <= |buf|
  {
    if |buf| < at + DIR_ENTRY_MIN_SIZE then None
    else
      var recLen, nameLen := GetU16(buf, at + 4), buf[at + 6];
      if recLen as int < DIR_ENTRY_MIN_SIZE || at + recLen as int > |buf|
        || at + DIR_ENTRY_MIN_SIZE + nameLen > |buf| then None
      else Some(DirEntry(GetU32(buf, at), recLen, nameLen, buf[at + 7],
                         buf[at + DIR_ENTRY_MIN_SIZE..at + DIR_ENTRY_MIN_SIZE + nameLen]))
  }

  type Item = (nat, DirEntry)

  /** Everything the iterator yields from `at` on: offsets and records, until the chain ends or breaks. */
  function Entries(buf: seq<byte>, at: nat): seq<Item>
    decreases |buf| - at
  {
    if at >= |buf| || EntryAt(buf, at) == None then []
    else [(at, EntryAt(buf, at).value)] + Entries(buf, at + EntryAt(buf, at).value.recLen as int)
  }

  class DirEntryIter {
    const buf: seq<byte>
    var offset: nat

    constructor (buf: seq<byte>)
      ensures this.buf == buf && offset == 0
    {
      this.buf := buf;
      offset := 0;
    }

    /** Yields the head of what is left and leaves the tail. */
    method Next() returns (r: Option<Item>)
      modifies this
      ensures Entries(buf, old(offset)) == if r == None then [] else [r.value] + Entries(buf, offset)
      ensures r.Some? ==> old(offset) < offset <= |buf|
    {
      if offset >= |buf| || |buf| - offset < DIR_ENTRY_MIN_SIZE {
        return None;
      }
      var entry := EntryAt(buf, offset);
      if entry == None {
        return None;
      }
      r := Some((offset, entry.value));
      offset := offset + entry.value.recLen as int;
    }
  }

  /** On arbitrary bytes the records are in bounds, and each one starts where the one before it ends. */
  lemma {:induction false} EntriesInBounds(buf: seq<byte>, at: nat)
    ensures var r := Entries(buf, at);
      && (|r| > 0 ==> r[0].0 == at)
      && (forall k :: 0 <= k < |r| ==>
        at <= r[k].0 && r[k].1.recLen as int >= DIR_ENTRY_MIN_SIZE && r[k].0 + r[k].1.recLen as int <= |buf|)
      && (forall k :: 0 < k < |r| ==> r[k].0 == r[k - 1].0 + r[k - 1].1.recLen as int)
    decreases |buf| - at
  {
    hide EntryAt;
    if at < |buf| && EntryAt(buf, at).Some? {
      EntriesInBounds(buf, at + EntryAt(buf, at).value.recLen as int);
    }
  }

  // --- Lookup ---

  function FindNamed(items: seq<Item>, name: seq<byte>): Option<Item>
  {
    if items == [] then None
    else if items[0].1.Named(name) then Some(items[0])
    else FindNamed(items[1..], name)
  }

  /** A live record with this name. */
  predicate Bears(item: Item, name: seq<byte>) { item.1.inode != 0 && item.1.name == name }

  predicate FirstBearer(items: seq<Item>, name: seq<byte>, k: nat) {
    k < |items| && Bears(items[k], name) && forall j :: 0 <= j < k ==> !Bears(items[j], name)
  }

  lemma {:induction false} EntriesNamed(buf: seq<byte>, at: nat)
    ensures forall k :: 0 <= k < |Entries(buf, at)| ==> |Entries(buf, at)[k].1.name| == Entries(buf, at)[k].1.nameLen
    decreases |buf| - at
  {
    hide EntryAt;
    if at < |buf| && EntryAt(buf, at).Some? {
      EntriesNamed(buf, at + EntryAt(buf, at).value.recLen as int);
    }
  }

  /** The search finds the first live record with the name, and nothing exactly when there is none. */
  lemma {:induction false} FindsFirst(items: seq<Item>, name: seq<byte>)
    requires forall k :: 0 <= k < |items| ==> |items[k].1.name| == items[k].1.nameLen
    ensures FindNamed(items, name) == None <==> forall k :: 0 <= k < |items| ==> !Bears(items[k], name)
    ensures forall k: nat :: FirstBearer(items, name, k) ==> FindNamed(items, name) == Some(items[k])
  {
    if items != [] {
      var rest := items[1..];
      var e := items[0].1;
      assert e.name[..e.nameLen] == e.name;
      assert e.Named(name) <==> Bears(items[0], name);
      FindsFirst(rest, name);
      forall k: nat | FirstBearer(items, name, k)
        ensures FindNamed(items, name) == Some(items[k])
      {
        if k > 0 {
          forall j | 0 <= j < k - 1 ensures !Bears(rest[j], name) { assert rest[j] == items[j + 1]; }
          assert FirstBearer(rest, name, k - 1);
        }
      }
      if !Bears(items[0], name) {
        assert forall k :: 0 < k < |items| ==> items[k] == rest[k - 1];
        assert forall k :: 0 <= k < |rest| ==> rest[k] == items[k + 1];
      }
    }
  }

  function Lookup(block: seq<byte>, name: seq<byte>): Option<Item> {
    FindNamed(Entries(block, 0), name)
  }

  method LookupInBlock(block: seq<byte>, name: seq<byte>) returns (r: Option<Item>)
    ensures r == Lookup(block, name)
  {
    var iter := new DirEntryIter(block);
    while true
      invariant iter.buf == block
      invariant Lookup(block, name) == FindNamed(Entries(block, iter.offset), name)
      decreases |block| - iter.offset
    {
      var item := iter.Next();
      if item == None {
        return None;
      }
      if item.value.1.Named(name) {
        return item;
      }
    }
  }

  // --- Round trip ---

  predicate Encodable(e: DirEntry) {
    e.nameLen == |e.name| && DIR_ENTRY_MIN_SIZE + e.nameLen <= e.recLen as int
  }

  lemma EncodedFields(e: DirEntry)
    requires Encodable(e)
    ensures var b := ToBytes(e);
      GetU32(b, 0) == e.inode && GetU16(b, 4) == e.recLen && b[6] == e.nameLen && b[7] == e.fileType
      && b[DIR_ENTRY_MIN_SIZE..DIR_ENTRY_MIN_SIZE + e.nameLen] == e.name
  {
    assert e.name[..e.nameLen] == e.name;
  }

  lemma EntryRoundTrip(e: DirEntry, buf: seq<byte>, at: nat)
    requires Encodable(e) && at + e.recLen as int <= |buf| && buf[at..at + e.recLen as int] == ToBytes(e)
    ensures EntryAt(buf, at) == Some(e)
  {
    hide ToBytes;
    var b := ToBytes(e);
    EncodedFields(e);
    forall k | 0 <= k < |b| ensures buf[at + k] == b[k] { assert buf[at..at + e.recLen as int][k] == buf[at + k]; }
    assert buf[at + DIR_ENTRY_MIN_SIZE..at + DIR_ENTRY_MIN_SIZE + e.nameLen]
      == b[DIR_ENTRY_MIN_SIZE..DIR_ENTRY_MIN_SIZE + e.nameLen];
  }

  function Concat(es: seq<DirEntry>): seq<byte>
    requires forall k :: 0 <= k < |es| ==> Encodable(es[k])
  {
    if es == [] then [] else assert Encodable(es[0]); ToBytes(es[0]) + Concat(es[1..])
  }

  /** The records with their prefix-sum offsets. */
  function Placed(es: seq<DirEntry>, at: nat): seq<Item> {
    if es == [] then [] else [(at, es[0])] + Placed(es[1..], at + es[0].recLen as int)
  }

  /** Iterating over concatenated records yields exactly those records at prefix-sum offsets. */
  lemma {:induction false} ChainRoundTrip(es: seq<DirEntry>, before: seq<byte>)
    requires forall k :: 0 <= k < |es| ==> Encodable(es[k])
    ensures Entries(before + Concat(es), |before|) == Placed(es, |before|)
    decreases |es|
  {
    hide EntryAt, ToBytes;
    var buf := before + Concat(es);
    if es != [] {
      var b := ToBytes(es[0]);
      assert Encodable(es[0]);
      assert buf == (before + b) + Concat(es[1..]);
      assert buf[|before|..|before| + |b|] == b;
      EntryRoundTrip(es[0], buf, |before|);
      ChainRoundTrip(es[1..], before + b);
    }
  }

  // --- Well-formed blocks ---

  /** From `at` on, records tile the block exactly, each with room for its own header and name. */
  ghost predicate Tiled(block: seq<byte>, at: nat)
    decreases |block| - at
  {
    || at == |block|
    || (&& EntryAt(block, at).Some?
        && EntryAt(block, at).value.recLen >= EntryAt(block, at).value.ActualSize()
        && Tiled(block, at + EntryAt(block, at).value.recLen as int))
  }

  lemma SameEntry(a: seq<byte>, b: seq<byte>, at: nat)
    requires |a| == |b| && EntryAt(a, at).Some?
    requires forall k :: at <= k < at + DIR_ENTRY_MIN_SIZE + EntryAt(a, at).value.nameLen ==> a[k] == b[k]
    ensures EntryAt(b, at) == EntryAt(a, at)
  {
    var n := a[at + 6];
    assert a[at + DIR_ENTRY_MIN_SIZE..at + DIR_ENTRY_MIN_SIZE + n]
      == b[at + DIR_ENTRY_MIN_SIZE..at + DIR_ENTRY_MIN_SIZE + n];
  }

  /** What the iterator yields from `at` on depends on the bytes from `at` on only. */
  lemma {:induction false} SameTail(a: seq<byte>, b: seq<byte>, at: nat)
    requires |a| == |b| && Tiled(a, at) && forall k :: at <= k < |a| ==> a[k] == b[k]
    ensures Tiled(b, at) && Entries(b, at) == Entries(a, at)
    decreases |a| - at
  {
    hide EntryAt, DirEntry.ActualSize;
    if at < |a| {
      var e := EntryAt(a, at).value;
      SameEntry(a, b, at);
      SameTail(a, b, at + e.recLen as int);
    }
  }

  // --- Space for a new record ---

  /** Where a new record may go: a whole deleted record (`reuse`), or the slack behind a record's name. */
  datatype Slot = Slot(off: nat, len: u16, reuse: bool)

  /** `rec_len - actual_size`, which wraps for a record too short for its own name. */
  function SlackOf(e: DirEntry): (r: u16)
    ensures r as int == e.recLen as int - e.ActualSize() as int + if e.recLen < e.ActualSize() then TWO16 else 0
  {
    (e.recLen as int - e.ActualSize() as int) % TWO16
  }

  function FindSlot(block: seq<byte>, at: nat, needed: u16): Option<Slot>
    decreases |block| - at
  {
    if at >= |block| || EntryAt(block, at) == None then None
    else
      var e := EntryAt(block, at).value;
      if e.inode == 0 && e.recLen >= needed then Some(Slot(at, e.recLen, true))
      else if SlackOf(e) >= needed then Some(Slot(at + e.ActualSize() as int, SlackOf(e), false))
      else FindSlot(block, at + e.recLen as int, needed)
  }

  method FindSpaceInBlock(block: seq<byte>, needed: u16) returns (r: Option<(nat, u16)>)
    ensures r == match FindSlot(block, 0, needed) case Some(s) => Some((s.off, s.len)) case None => None
  {
    hide DirEntry.ActualSize, SlackOf, EntryAt;
    var offset := 0;
    while offset < |block|
      invariant FindSlot(block, 0, needed) == FindSlot(block, offset, needed)
    {
      if |block| - offset < DIR_ENTRY_MIN_SIZE {
        break;
      }
      var entry := EntryAt(block, offset);
      if entry == None {
        break;
      }
      var e := entry.value;
      if e.inode == 0 && e.recLen >= needed {
        return Some((offset, e.recLen));
      }
      var slack := SlackOf(e);
      if slack >= needed {
        return Some((offset + e.ActualSize() as int, slack));
      }
      offset := offset + e.recLen as int;
    }
    return None;
  }

  /** `item` is a deleted record of at least `needed` bytes. */
  predicate Vacant(item: Item, needed: u16) { item.1.inode == 0 && item.1.recLen >= needed }

  /** `item` can take `needed` more bytes, in its place or behind its name. */
  predicate CanHost(item: Item, needed: u16) {
    Vacant(item, needed) || item.1.recLen as int - item.1.ActualSize() as int >= needed as int
  }

  /** The slot found is inside one record, misses its name, and ends where the record ends. */
  ghost predicate SlotIn(item: Item, s: Slot) {
    && s.off + s.len as int == item.0 + item.1.recLen as int
    && s.off == (if s.reuse then item.0 else item.0 + item.1.ActualSize() as int)
    && (s.reuse ==> item.1.inode == 0)
  }

  /** The search finds nothing exactly when no record can host the new one, and otherwise takes the first that can. */
  lemma {:induction false} FirstHost(block: seq<byte>, at: nat, needed: u16) returns (k: nat)
    requires Tiled(block, at) && needed as int >= DIR_ENTRY_MIN_SIZE
    ensures FindSlot(block, at, needed) == None <==> k == |Entries(block, at)|
    ensures k <= |Entries(block, at)| && forall j :: 0 <= j < k ==> !CanHost(Entries(block, at)[j], needed)
    ensures k < |Entries(block, at)| ==>
      CanHost(Entries(block, at)[k], needed) && SlotIn(Entries(block, at)[k], FindSlot(block, at, needed).value)
      && FindSlot(block, at, needed).value.len >= needed
      && (FindSlot(block, at, needed).value.reuse <==> Vacant(Entries(block, at)[k], needed))
    decreases |block| - at
  {
    hide EntryAt, DirEntry.ActualSize;
    k := 0;
    if at < |block| {
      var e := EntryAt(block, at).value;
      var next := at + e.recLen as int;
      var items, rest := Entries(block, at), Entries(block, next);
      assert items == [(at, e)] + rest;
      if (e.inode != 0 || e.recLen < needed) && SlackOf(e) < needed {
        var r := FirstHost(block, next, needed);
        k := r + 1;
        forall j | 0 <= j < k ensures !CanHost(items[j], needed) { assert j > 0 ==> items[j] == rest[j - 1]; }
      }
    }
  }

  /** The slot is off the header and name of every live record. */
  ghost predicate Misses(s: Slot, items: seq<Item>) {
    forall k :: 0 <= k < |items| && items[k].1.inode != 0 ==>
      items[k].0 + DIR_ENTRY_MIN_SIZE + items[k].1.nameLen <= s.off || s.off + s.len as int <= items[k].0
  }

  /** The slot found lies inside the block and misses what is live there. */
  lemma {:induction false} SlotMissesNames(block: seq<byte>, at: nat, needed: u16)
    requires Tiled(block, at) && needed as int >= DIR_ENTRY_MIN_SIZE && FindSlot(block, at, needed).Some?
    ensures var s := FindSlot(block, at, needed).value;
      at <= s.off && s.off + s.len as int <= |block| && Misses(s, Entries(block, at))
    decreases |block| - at
  {
    hide EntryAt, DirEntry.ActualSize, Misses;
    var e := EntryAt(block, at).value;
    var next := at + e.recLen as int;
    var rest, s := Entries(block, next), FindSlot(block, at, needed).value;
    assert Entries(block, at) == [(at, e)] + rest;
    EntriesFrom(block, next);
    TiledFits(block, next);
    if (e.inode != 0 || e.recLen < needed) && SlackOf(e) < needed {
      SlotMissesNames(block, next, needed);
    } else {
      MissesLater(s, rest);
    }
    MissesOneMore(s, at, e, rest);
  }

  lemma {:induction false} TiledFits(block: seq<byte>, at: nat)
    requires Tiled(block, at)
    ensures at <= |block|
  {
    hide DirEntry.ActualSize;
  }

  lemma MissesLater(s: Slot, items: seq<Item>)
    requires forall k :: 0 <= k < |items| ==> s.off + s.len as int <= items[k].0
    ensures Misses(s, items)
  {
  }

  lemma MissesOneMore(s: Slot, at: nat, e: DirEntry, rest: seq<Item>)
    requires Misses(s, rest) && (e.inode != 0 ==> at + DIR_ENTRY_MIN_SIZE + e.nameLen <= s.off)
    ensures Misses(s, [(at, e)] + rest)
  {
    var items := [(at, e)] + rest;
    forall k | 0 <= k < |items| && items[k].1.inode != 0
      ensures items[k].0 + DIR_ENTRY_MIN_SIZE + items[k].1.nameLen <= s.off || s.off + s.len as int <= items[k].0
    {
      assert k > 0 ==> items[k] == rest[k - 1];
    }
  }

  lemma EntriesFrom(buf: seq<byte>, at: nat)
    ensures forall k :: 0 <= k < |Entries(buf, at)| ==> at <= Entries(buf, at)[k].0
  {
    hide Entries;
    EntriesInBounds(buf, at);
  }

  /** Some record starts at `off`. */
  predicate StartsAt(items: seq<Item>, off: nat) {
    items != [] && (items[0].0 == off || StartsAt(items[1..], off))
  }

  /** Any record that starts at `off` is deleted. */
  predicate DeletedAt(items: seq<Item>, off: nat) {
    items == [] || ((items[0].0 == off ==> items[0].1.inode == 0) && DeletedAt(items[1..], off))
  }

  lemma {:induction false} NothingBefore(buf: seq<byte>, at: nat, off: nat)
    requires off < at
    ensures !StartsAt(Entries(buf, at), off) && DeletedAt(Entries(buf, at), off)
    decreases |buf| - at
  {
    hide EntryAt;
    if at < |buf| && EntryAt(buf, at).Some? {
      NothingBefore(buf, at + EntryAt(buf, at).value.recLen as int, off);
    }
  }

  /** A slot starts where a record starts exactly when it reuses that record, which is then deleted. */
  lemma {:induction false} SlotStart(block: seq<byte>, at: nat, needed: u16)
    requires Tiled(block, at) && needed as int >= DIR_ENTRY_MIN_SIZE && FindSlot(block, at, needed).Some?
    ensures var s := FindSlot(block, at, needed).value;
      s.off >= at && s.reuse == StartsAt(Entries(block, at), s.off) && DeletedAt(Entries(block, at), s.off)
    decreases |block| - at
  {
    hide EntryAt, DirEntry.ActualSize;
    var e := EntryAt(block, at).value;
    var next := at + e.recLen as int;
    var items := Entries(block, at);
    assert items[0] == (at, e) && items[1..] == Entries(block, next);
    if (e.inode == 0 && e.recLen >= needed) || SlackOf(e) >= needed {
      NothingBefore(block, next, FindSlot(block, at, needed).value.off);
    } else {
      SlotStart(block, next, needed);
    }
  }

  /** Where a record goes depends on the records of the block only. */
  lemma {:induction false} SlotByEntries(a: seq<byte>, b: seq<byte>, at: nat, needed: u16)
    requires |a| == |b| && Entries(a, at) == Entries(b, at)
    ensures FindSlot(a, at, needed) == FindSlot(b, at, needed)
    decreases |a| - at
  {
    hide EntryAt, DirEntry.ActualSize, SlackOf;
    if Entries(a, at) != [] {
      var e := EntryAt(a, at).value;
      assert Entries(a, at)[0] == (at, e) && Entries(b, at)[0] == (at, EntryAt(b, at).value);
      assert Entries(a, at)[1..] == Entries(b, at)[1..];
      SlotByEntries(a, b, at + e.recLen as int, needed);
    }
  }

  /** The bytes after the new record is written into a slot, `rec_len` set to the length of the slot. */
  function InsertAt(block: seq<byte>, s: Slot, e: DirEntry): (r: seq<byte>)
    requires s.off + s.len as int <= |block| && Encodable(e.(recLen := s.len))
    ensures |r| == |block|
  {
    Splice(block, s.off, ToBytes(e.(recLen := s.len)))
  }

  function Replace(items: seq<Item>, off: nat, e: DirEntry): (r: seq<Item>)
    ensures |r| == |items|
  {
    if items == [] then [] else [if items[0].0 == off then (off, e) else items[0]] + Replace(items[1..], off, e)
  }

  /** Reusing a deleted record replaces it in the chain; writing into slack changes nothing the iterator yields. */
  lemma {:induction false} InsertKeepsChain(block: seq<byte>, at: nat, needed: u16, e: DirEntry)
    requires Tiled(block, at) && FindSlot(block, at, needed).Some? && needed == e.ActualSize() && e.nameLen == |e.name|
    ensures var s := FindSlot(block, at, needed).value;
      && at <= s.off && s.off + s.len as int <= |block| && Encodable(e.(recLen := s.len))
      && Tiled(InsertAt(block, s, e), at)
      && Entries(InsertAt(block, s, e), at)
         == if s.reuse then Replace(Entries(block, at), s.off, e.(recLen := s.len)) else Entries(block, at)
    decreases |block| - at
  {
    hide EntryAt, ToBytes, DirEntry.ActualSize;
    var first := EntryAt(block, at).value;
    var next := at + first.recLen as int;
    if (first.inode == 0 && first.recLen >= needed) || SlackOf(first) >= needed {
      InsertHere(block, at, needed, e);
    } else {
      InsertKeepsChain(block, next, needed, e);
      SameEntry(block, InsertAt(block, FindSlot(block, next, needed).value, e), at);
    }
  }

  lemma InsertHere(block: seq<byte>, at: nat, needed: u16, e: DirEntry)
    requires Tiled(block, at) && EntryAt(block, at).Some? && needed == e.ActualSize() && e.nameLen == |e.name|
    requires var first := EntryAt(block, at).value;
      (first.inode == 0 && first.recLen >= needed) || SlackOf(first) >= needed
    ensures var s := FindSlot(block, at, needed).value;
      && at <= s.off && s.off + s.len as int <= |block| && Encodable(e.(recLen := s.len))
      && Tiled(InsertAt(block, s, e), at)
      && Entries(InsertAt(block, s, e), at)
         == if s.reuse then Replace(Entries(block, at), s.off, e.(recLen := s.len)) else Entries(block, at)
  {
    hide EntryAt, DirEntry.ActualSize, InsertAt;
    var first := EntryAt(block, at).value;
    if first.inode == 0 && first.recLen >= needed {
      ReuseHere(block, at, Slot(at, first.recLen, true), e);
    } else {
      SlackHere(block, at, Slot(at + first.ActualSize() as int, SlackOf(first), false), e);
    }
  }

  lemma ReuseHere(block: seq<byte>, at: nat, s: Slot, e: DirEntry)
    requires Tiled(block, at) && EntryAt(block, at).Some? && s == Slot(at, EntryAt(block, at).value.recLen, true)
    requires e.nameLen == |e.name| && s.len >= e.ActualSize() && Encodable(e.(recLen := s.len))
    ensures var b := InsertAt(block, s, e);
      Tiled(b, at) && Entries(b, at) == Replace(Entries(block, at), at, e.(recLen := s.len))
  {
    hide EntryAt, ToBytes, DirEntry.ActualSize, InsertAt, Tiled, Entries, Replace;
    var next := at + s.len as int;
    var b := InsertAt(block, s, e);
    InsertedBytes(block, s, e);
    EntryRoundTrip(e.(recLen := s.len), b, at);
    SameActualSize(e, s.len);
    Unfolds(block, at);
    Unfolds(b, at);
    SameTail(block, b, next);
    NothingBefore(block, next, at);
    ReplaceHead(at, EntryAt(block, at).value, Entries(block, next), e.(recLen := s.len));
  }

  /** Iteration and tiling, one record at a time. */
  lemma Unfolds(block: seq<byte>, at: nat)
    requires EntryAt(block, at).Some?
    ensures var e := EntryAt(block, at).value;
      && Entries(block, at) == [(at, e)] + Entries(block, at + e.recLen as int)
      && (Tiled(block, at) <==> e.recLen >= e.ActualSize() && Tiled(block, at + e.recLen as int))
  {
    hide DirEntry.ActualSize;
  }

  lemma ReplaceHead(at: nat, old': DirEntry, rest: seq<Item>, e: DirEntry)
    requires !StartsAt(rest, at)
    ensures Replace([(at, old')] + rest, at, e) == [(at, e)] + rest
  {
    ReplaceAbsent(rest, at, e);
    assert ([(at, old')] + rest)[1..] == rest;
  }

  lemma InsertedBytes(block: seq<byte>, s: Slot, e: DirEntry)
    requires s.off + s.len as int <= |block| && Encodable(e.(recLen := s.len))
    ensures var b, next := InsertAt(block, s, e), s.off + s.len as int;
      b[s.off..next] == ToBytes(e.(recLen := s.len)) && b[next..] == block[next..]
  {
    hide ToBytes;
  }

  lemma SameActualSize(e: DirEntry, len: u16)
    ensures e.(recLen := len).ActualSize() == e.ActualSize()
  {
  }

  lemma SlackHere(block: seq<byte>, at: nat, s: Slot, e: DirEntry)
    requires Tiled(block, at) && EntryAt(block, at).Some? && Encodable(e.(recLen := s.len))
    requires SlotIn((at, EntryAt(block, at).value), s) && !s.reuse
    ensures var b := InsertAt(block, s, e); Tiled(b, at) && Entries(b, at) == Entries(block, at)
  {
    hide EntryAt, ToBytes, DirEntry.ActualSize;
    var b := InsertAt(block, s, e);
    SameEntry(block, b, at);
    SameTail(block, b, s.off + s.len as int);
  }

  lemma {:induction false} ReplaceAbsent(items: seq<Item>, off: nat, e: DirEntry)
    requires !StartsAt(items, off)
    ensures Replace(items, off, e) == items
  {
    if items != [] {
      ReplaceAbsent(items[1..], off, e);
    }
  }

  /** Replacing a deleted record by one with an absent name makes that name visible and changes no other lookup. */
  lemma {:induction false} FindAfterReplace(items: seq<Item>, off: nat, e: DirEntry, n: seq<byte>)
    requires e.nameLen == |e.name| && e.inode != 0 && FindNamed(items, e.name) == None
    requires StartsAt(items, off) && DeletedAt(items, off)
    ensures FindNamed(Replace(items, off, e), n) == if n == e.name then Some((off, e)) else FindNamed(items, n)
  {
    var rest, replaced := items[1..], Replace(items, off, e);
    assert replaced[1..] == Replace(rest, off, e);
    assert e.name[..e.nameLen] == e.name;
    if StartsAt(rest, off) {
      FindAfterReplace(rest, off, e, n);
    } else {
      ReplaceAbsent(rest, off, e);
    }
  }

  // --- New blocks ---

  lemma {:induction false} ChainTiles(es: seq<DirEntry>, before: seq<byte>)
    requires forall k :: 0 <= k < |es| ==> Encodable(es[k]) && es[k].recLen >= es[k].ActualSize()
    ensures Tiled(before + Concat(es), |before|)
    decreases |es|
  {
    hide EntryAt, ToBytes, DirEntry.ActualSize;
    var buf := before + Concat(es);
    if es != [] {
      var b := ToBytes(es[0]);
      assert Encodable(es[0]);
      assert buf == (before + b) + Concat(es[1..]);
      assert buf[|before|..|before| + |b|] == b;
      EntryRoundTrip(es[0], buf, |before|);
      ChainTiles(es[1..], before + b);
    }
  }

  const DOT_SIZE: u16 := 12

  function DotEntry(selfInode: u32): DirEntry { NewEntry(selfInode, DOT, FT_DIR, DOT_SIZE) }

  function DotDotEntry(parentInode: u32, blockSize: nat): DirEntry
    requires DOT_SIZE as int <= blockSize < TWO16
  {
    NewEntry(parentInode, DOTDOT, FT_DIR, blockSize - DOT_SIZE)
  }

  /** The block of a new directory: "." and "..", the second one up to the end of the block. */
  function CreateDotEntries(selfInode: u32, parentInode: u32, blockSize: nat): (r: seq<byte>)
    requires 2 * DOT_SIZE as int <= blockSize < TWO16
    ensures |r| == blockSize
  {
    var block := Splice(Zeros(blockSize), 0, ToBytes(DotEntry(selfInode)));
    Splice(block, DOT_SIZE as int, ToBytes(DotDotEntry(parentInode, blockSize)))
  }

  /**
   A new directory iterates to exactly "." for itself, in 12 bytes, and ".." for its parent up to the end of the block,
   both of file type 2.
   */
  lemma DotEntriesIterate(selfInode: u32, parentInode: u32, blockSize: nat)
    requires 2 * DOT_SIZE as int <= blockSize < TWO16
    ensures var b := CreateDotEntries(selfInode, parentInode, blockSize);
      && Tiled(b, 0)
      && Entries(b, 0) == [(0, DirEntry(selfInode, 12, 1, 2, [0x2E])),
                           (12, DirEntry(parentInode, blockSize - 12, 2, 2, [0x2E, 0x2E]))]
  {
    hide EntryAt, ToBytes, Entries, Tiled;
    var es := [DotEntry(selfInode), DotDotEntry(parentInode, blockSize)];
    var b := CreateDotEntries(selfInode, parentInode, blockSize);
    ConcatTwo(es[0], es[1]);
    assert b == ToBytes(es[0]) + ToBytes(es[1]);
    assert [] + Concat(es) == b;
    ChainRoundTrip(es, []);
    ChainTiles(es, []);
    assert es[1..][1..] == [];
    assert Placed(es, 0) == [(0, es[0])] + Placed(es[1..], DOT_SIZE as int);
    assert Placed(es[1..], DOT_SIZE as int) == [(DOT_SIZE as int, es[1])] + Placed(es[1..][1..], blockSize);
  }

  lemma ConcatTwo(a: DirEntry, b: DirEntry)
    requires Encodable(a) && Encodable(b)
    ensures Concat([a, b]) == ToBytes(a) + ToBytes(b)
  {
    assert [a, b][1..] == [b] && [b][1..] == [];
    assert Concat([b]) == ToBytes(b) + Concat([]);
  }

  /** A block that is one record. */
  lemma SingleEntry(e: DirEntry)
    requires Encodable(e) && e.recLen >= e.ActualSize()
    ensures Tiled(ToBytes(e), 0) && Entries(ToBytes(e), 0) == [(0, e)]
  {
    hide EntryAt, ToBytes, Entries, Tiled;
    assert [e][1..] == [];
    assert [] + Concat([e]) == ToBytes(e);
    ChainRoundTrip([e], []);
    ChainTiles([e], []);
    assert Placed([e], 0) == [(0, e)] + Placed([e][1..], e.recLen as int);
  }
}
