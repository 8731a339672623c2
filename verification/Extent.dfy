/**
 Extent tree nodes (src/extent.rs): the 12-byte header, index and leaf records, the parsers of one node, and the two
 searches. A node is a header followed by `entries` records; the root is the 60-byte `i_block` of an inode.
 */
module Extent {
  import opened Bytes
  import opened Wrappers

  const EXTENT_MAGIC: u16 := 0xF30A
  const ROOT_MAX_ENTRIES: u16 := 4
  /** Header, index and leaf records all have this size. */
  const RECORD_SIZE: nat := 12

  datatype ExtentHeader = ExtentHeader(magic: u16, entries: u16, max: u16, depth: u16, generation: u32) {
    predicate IsLeaf() { depth == 0 }

    function ToBytes(): (s: seq<byte>)
      ensures |s| == RECORD_SIZE
    {
      Le16(magic) + Le16(entries) + Le16(max) + Le16(depth) + Le32(generation)
    }
  }

  datatype ExtentIndex = ExtentIndex(block: u32, leafLo: u32, leafHi: u16, padding: u16) {
    function ToBytes(): (s: seq<byte>)
      ensures |s| == RECORD_SIZE
    {
      Le32(block) + Le32(leafLo) + Le16(leafHi) + Le16(padding)
    }

    function PhysicalBlock(): nat { leafLo + TWO32 * leafHi }
  }

  datatype ExtentLeaf = ExtentLeaf(block: u32, len: u16, startHi: u16, startLo: u32) {
    function ToBytes(): (s: seq<byte>)
      ensures |s| == RECORD_SIZE
    {
      Le32(block) + Le16(len) + Le16(startHi) + Le32(startLo)
    }

    function PhysicalStart(): nat { startLo + TWO32 * startHi }

    /** `len & 0x7FFF`: the high bit marks an uninitialized extent. */
    function BlockCount(): nat { len % 0x8000 }

    /** One past the last logical block; the 32-bit sum wraps. */
    function LogicalEnd(): u32 { (block + BlockCount()) % TWO32 }

    predicate ContainsBlock(b: u32) { block <= b < LogicalEnd() }

    function MapBlock(b: u32): Option<nat> {
      if ContainsBlock(b) then Some(PhysicalStart() + (b - block)) else None
    }
  }

  /** A leaf maps the blocks from its first one on, as many as it counts, unless their numbers reach 2^32: then none. */
  lemma LeafMaps(leaf: ExtentLeaf, b: u32)
    ensures leaf.MapBlock(b)
      == if leaf.block <= b < leaf.block + leaf.BlockCount() < TWO32 then Some(leaf.PhysicalStart() + (b - leaf.block))
      else None
  {
    hide ExtentLeaf.PhysicalStart;
    if leaf.block + leaf.BlockCount() >= TWO32 {
      assert (leaf.block + leaf.BlockCount()) % TWO32 == leaf.block + leaf.BlockCount() - TWO32;
    }
  }

  /** The source's parsers take a byte slice; `at` is where that slice starts. */
  function HeaderAt(buf: seq<byte>, at: nat): Option<ExtentHeader>
  {
    if |buf| < at + RECORD_SIZE || GetU16(buf, at) != EXTENT_MAGIC then None
    else Some(ExtentHeader(GetU16(buf, at), GetU16(buf, at + 2), GetU16(buf, at + 4), GetU16(buf, at + 6),
                           GetU32(buf, at + 8)))
  }

  function IndexAt(buf: seq<byte>, at: nat): Option<ExtentIndex>
  {
    if |buf| < at + RECORD_SIZE then None
    else Some(ExtentIndex(GetU32(buf, at), GetU32(buf, at + 4), GetU16(buf, at + 8), GetU16(buf, at + 10)))
  }

  function LeafAt(buf: seq<byte>, at: nat): Option<ExtentLeaf>
  {
    if |buf| < at + RECORD_SIZE then None
    else Some(ExtentLeaf(GetU32(buf, at), GetU16(buf, at + 4), GetU16(buf, at + 6), GetU32(buf, at + 8)))
  }

  ghost predicate BytesAt(buf: seq<byte>, at: nat, data: seq<byte>) {
    at + |data| <= |buf| && buf[at..at + |data|] == data
  }

  lemma HeaderRoundTrip(h: ExtentHeader, buf: seq<byte>, at: nat)
    requires BytesAt(buf, at, h.ToBytes()) && h.magic == EXTENT_MAGIC
    ensures HeaderAt(buf, at) == Some(h)
  {
    forall k | 0 <= k < RECORD_SIZE
      ensures buf[at + k] == h.ToBytes()[k]
    {
      assert buf[at..at + RECORD_SIZE][k] == buf[at + k];
    }
  }

  lemma IndexRoundTrip(x: ExtentIndex, buf: seq<byte>, at: nat)
    requires BytesAt(buf, at, x.ToBytes())
    ensures IndexAt(buf, at) == Some(x)
  {
    forall k | 0 <= k < RECORD_SIZE
      ensures buf[at + k] == x.ToBytes()[k]
    {
      assert buf[at..at + RECORD_SIZE][k] == buf[at + k];
    }
  }

  lemma LeafRoundTrip(x: ExtentLeaf, buf: seq<byte>, at: nat)
    requires BytesAt(buf, at, x.ToBytes())
    ensures LeafAt(buf, at) == Some(x)
  {
    forall k | 0 <= k < RECORD_SIZE
      ensures buf[at + k] == x.ToBytes()[k]
    {
      assert buf[at..at + RECORD_SIZE][k] == buf[at + k];
    }
  }

  // --- One node as a sequence of records ---

  /** How many whole records fit after the header of a node of `len` bytes. */
  function Capacity(len: nat): nat {
    if len < RECORD_SIZE then 0 else (len - RECORD_SIZE) / RECORD_SIZE
  }

  function Min(a: nat, b: nat): nat { if a <= b then a else b }

  function RecordOffset(i: nat): nat { RECORD_SIZE + i * RECORD_SIZE }

  /** The leaves of a leaf node: `entries` of them, or as many as the buffer holds; none for any other node. */
  function Leaves(buf: seq<byte>): seq<ExtentLeaf> {
    match HeaderAt(buf, 0)
    case Some(h) =>
      if h.IsLeaf() then
        seq(Min(h.entries, Capacity(|buf|)),
            i requires 0 <= i < Min(h.entries, Capacity(|buf|)) => LeafAt(buf, RecordOffset(i)).value)
      else []
    case None => []
  }

  function Indices(buf: seq<byte>): seq<ExtentIndex> {
    match HeaderAt(buf, 0)
    case Some(h) =>
      if !h.IsLeaf() then
        seq(Min(h.entries, Capacity(|buf|)),
            i requires 0 <= i < Min(h.entries, Capacity(|buf|)) => IndexAt(buf, RecordOffset(i)).value)
      else []
    case None => []
  }

  method ParseLeaves(buf: seq<byte>) returns (leaves: seq<ExtentLeaf>)
    ensures leaves == Leaves(buf)
  {
    hide GetU16, GetU32;
    leaves := [];
    var header := HeaderAt(buf, 0);
    if header == None || !header.value.IsLeaf() {
      return;
    }
    var i := 0;
    while i < header.value.entries
      invariant 0 <= i <= Min(header.value.entries, Capacity(|buf|))
      invariant leaves == Leaves(buf)[..i]
    {
      var offset := RecordOffset(i);
      if offset + RECORD_SIZE > |buf| {
        break;
      }
      leaves := leaves + [LeafAt(buf, offset).value];
      i := i + 1;
    }
  }

  method ParseIndices(buf: seq<byte>) returns (indices: seq<ExtentIndex>)
    ensures indices == Indices(buf)
  {
    hide GetU16, GetU32;
    indices := [];
    var header := HeaderAt(buf, 0);
    if header == None || header.value.IsLeaf() {
      return;
    }
    var i := 0;
    while i < header.value.entries
      invariant 0 <= i <= Min(header.value.entries, Capacity(|buf|))
      invariant indices == Indices(buf)[..i]
    {
      var offset := RecordOffset(i);
      if offset + RECORD_SIZE > |buf| {
        break;
      }
      indices := indices + [IndexAt(buf, offset).value];
      i := i + 1;
    }
  }

  // --- Appending to the root ---

  /** One past the last logical block of any leaf; 0 for no leaves. */
  function NextLogical(leaves: seq<ExtentLeaf>): u32 {
    if leaves == [] then 0
    else
      var rest := NextLogical(leaves[..|leaves| - 1]);
      var end := leaves[|leaves| - 1].LogicalEnd();
      if rest <= end then end else rest
  }

  /** It is past every leaf, and no further than it must be. */
  lemma {:induction false} NextLogicalIs(leaves: seq<ExtentLeaf>)
    ensures forall k :: 0 <= k < |leaves| ==> leaves[k].LogicalEnd() <= NextLogical(leaves)
    ensures NextLogical(leaves) == 0 || exists k :: 0 <= k < |leaves| && leaves[k].LogicalEnd() == NextLogical(leaves)
  {
    hide ExtentLeaf.LogicalEnd;
    if leaves != [] {
      var last := |leaves| - 1;
      NextLogicalIs(leaves[..last]);
      forall k | 0 <= k < |leaves|
        ensures leaves[k].LogicalEnd() <= NextLogical(leaves)
      {
        assert k < last ==> leaves[..last][k] == leaves[k];
      }
      if NextLogical(leaves) == leaves[last].LogicalEnd() {
      } else if NextLogical(leaves) != 0 {
        var k :| 0 <= k < last && leaves[..last][k].LogicalEnd() == NextLogical(leaves[..last]);
        assert leaves[k].LogicalEnd() == NextLogical(leaves);
      }
    }
  }

  /** The byte edits of `append_extent`: a leaf record after the last one, and the entry count in the header. */
  function WithLeaf(root: seq<byte>, entries: u16, leaf: ExtentLeaf): (r: seq<byte>)
    requires RecordOffset(entries as int) + RECORD_SIZE <= |root| && entries + 1 < TWO16
    ensures |r| == |root|
  {
    PutU16(Splice(root, RecordOffset(entries as int), leaf.ToBytes()), 2, entries + 1)
  }

  lemma SameRecord(a: seq<byte>, b: seq<byte>, at: nat)
    requires |a| == |b| && forall k :: at <= k < at + RECORD_SIZE && k < |a| ==> a[k] == b[k]
    ensures LeafAt(a, at) == LeafAt(b, at)
  {
  }

  lemma CountedHeader(root: seq<byte>, h: ExtentHeader, n: u16)
    requires HeaderAt(root, 0) == Some(h)
    ensures HeaderAt(PutU16(root, 2, n), 0) == Some(h.(entries := n))
  {
  }

  lemma SpliceKeepsHeader(root: seq<byte>, off: nat, data: seq<byte>)
    requires RECORD_SIZE <= off && off + |data| <= |root|
    ensures HeaderAt(Splice(root, off, data), 0) == HeaderAt(root, 0)
  {
  }

  /** On bytes or on sequences, appending a leaf is the same thing. */
  lemma AppendRefinesSequence(root: seq<byte>, h: ExtentHeader, leaf: ExtentLeaf)
    requires HeaderAt(root, 0) == Some(h) && h.IsLeaf()
    requires RecordOffset(h.entries as int) + RECORD_SIZE <= |root| && h.entries < h.max
    ensures HeaderAt(WithLeaf(root, h.entries, leaf), 0) == Some(h.(entries := h.entries + 1))
    ensures Leaves(WithLeaf(root, h.entries, leaf)) == Leaves(root) + [leaf]
  {
    hide HeaderAt, LeafAt, GetU16, GetU32, ExtentLeaf.ToBytes;
    var n := h.entries as int;
    var added := Splice(root, RecordOffset(n), leaf.ToBytes());
    var r := WithLeaf(root, h.entries, leaf);
    SpliceKeepsHeader(root, RecordOffset(n), leaf.ToBytes());
    CountedHeader(added, h, h.entries + 1);
    assert r[RecordOffset(n)..RecordOffset(n) + RECORD_SIZE] == leaf.ToBytes();
    LeafRoundTrip(leaf, r, RecordOffset(n));
    assert n + 1 <= Capacity(|root|);
    forall i | 0 <= i < n
      ensures LeafAt(r, RecordOffset(i)) == LeafAt(root, RecordOffset(i))
    {
      assert forall k :: RecordOffset(i) <= k < RecordOffset(i) + RECORD_SIZE ==> r[k] == root[k];
      SameRecord(r, root, RecordOffset(i));
    }
  }

  /** The root written by `init_extent_tree` and by the reset in `write_file`. */
  const EMPTY_ROOT_HEADER := ExtentHeader(EXTENT_MAGIC, 0, ROOT_MAX_ENTRIES, 0, 0)

  lemma EmptyRoot(root: seq<byte>)
    requires BytesAt(root, 0, EMPTY_ROOT_HEADER.ToBytes())
    ensures HeaderAt(root, 0) == Some(EMPTY_ROOT_HEADER) && Leaves(root) == []
  {
    HeaderRoundTrip(EMPTY_ROOT_HEADER, root, 0);
  }

  // --- Searches ---

  ghost predicate SortedIndices(indices: seq<ExtentIndex>) {
    forall i, j :: 0 <= i < j < |indices| ==> indices[i].block < indices[j].block
  }

  /** The position of the last entry whose key is at most `b`. */
  function IndexFor(indices: seq<ExtentIndex>, b: u32): (r: Option<nat>)
    ensures r.Some? ==> r.value < |indices| && indices[r.value].block <= b
    ensures r.Some? ==> forall j :: r.value < j < |indices| ==> b < indices[j].block
    ensures r == None ==> forall j :: 0 <= j < |indices| ==> b < indices[j].block
  {
    if indices == [] then None
    else if indices[|indices| - 1].block <= b then Some(|indices| - 1)
    else IndexFor(indices[..|indices| - 1], b)
  }

  /** The binary search finds the last entry with key at most `b`, and nothing exactly when every key is greater. */
  method FindIndexForBlock(indices: seq<ExtentIndex>, b: u32) returns (r: Option<ExtentIndex>)
    ensures SortedIndices(indices) ==>
      r == match IndexFor(indices, b) case Some(k) => Some(indices[k]) case None => None
  {
    if indices == [] {
      return None;
    }
    var lo, hi := 0, |indices|;
    while lo < hi
      invariant 0 <= lo <= hi <= |indices|
      invariant lo > 0 ==> indices[lo - 1].block <= b
      invariant hi < |indices| ==> b < indices[hi].block
    {
      var mid := lo + (hi - lo) / 2;
      if indices[mid].block <= b {
        lo := mid + 1;
      } else {
        hi := mid;
      }
    }
    if lo == 0 {
      return None;
    }
    return Some(indices[lo - 1]);
  }

  /** The first leaf that covers `b`. */
  function FindLeaf(leaves: seq<ExtentLeaf>, b: u32): (r: Option<ExtentLeaf>)
    ensures r.Some? ==> r.value in leaves && r.value.ContainsBlock(b)
    ensures r == None <==> forall k :: 0 <= k < |leaves| ==> !leaves[k].ContainsBlock(b)
  {
    if leaves == [] then None
    else if leaves[0].ContainsBlock(b) then Some(leaves[0])
    else
      var r := FindLeaf(leaves[1..], b);
      assert forall k :: 1 <= k < |leaves| ==> leaves[k] == leaves[1..][k - 1];
      r
  }

  method FindLeafForBlock(leaves: seq<ExtentLeaf>, b: u32) returns (r: Option<ExtentLeaf>)
    ensures r == FindLeaf(leaves, b)
  {
    for i := 0 to |leaves|
      invariant FindLeaf(leaves, b) == FindLeaf(leaves[i..], b)
    {
      if leaves[i].ContainsBlock(b) {
        return Some(leaves[i]);
      }
    }
    return None;
  }

  lemma {:induction false} FindLeafConcat(a: seq<ExtentLeaf>, c: seq<ExtentLeaf>, b: u32)
    ensures FindLeaf(a + c, b) == if FindLeaf(a, b).Some? then FindLeaf(a, b) else FindLeaf(c, b)
  {
    if a == [] {
      assert a + c == c;
    } else {
      assert (a + c)[1..] == a[1..] + c;
      FindLeafConcat(a[1..], c, b);
    }
  }

  /** The physical block of logical block `b` under a list of leaves. */
  function MapLogical(leaves: seq<ExtentLeaf>, b: u32): Option<nat> {
    match FindLeaf(leaves, b)
    case Some(leaf) => leaf.MapBlock(b)
    case None => None
  }
}
