/** Bytes, the fixed-width integers of the on-disk format, and little-endian fields. */
module Bytes {

  type byte = x: int | 0 <= x < 0x100
  type u16 = x: int | 0 <= x < 0x1_0000
  type u32 = x: int | 0 <= x < 0x1_0000_0000
  type u64 = x: int | 0 <= x < 0x1_0000_0000_0000_0000

  const TWO16: nat := 0x1_0000
  const TWO32: nat := 0x1_0000_0000
  const TWO64: nat := 0x1_0000_0000_0000_0000

  function Pow2(n: nat): (p: nat)
    ensures p > 0
  {
    if n == 0 then 1 else 2 * Pow2(n - 1)
  }

  function Zeros(n: nat): (z: seq<byte>)
    ensures |z| == n && forall i :: 0 <= i < n ==> z[i] == 0
  {
    seq(n, i => 0)
  }

  /** `buf[off..off + data.len()].copy_from_slice(data)`. */
  function Splice(buf: seq<byte>, off: nat, data: seq<byte>): (r: seq<byte>)
    requires off + |data| <= |buf|
    ensures |r| == |buf|
    ensures forall i :: 0 <= i < |buf| ==> r[i] == if off <= i < off + |data| then data[i - off] else buf[i]
  {
    buf[..off] + data + buf[off + |data|..]
  }

  lemma SpliceSlices(buf: seq<byte>, off: nat, data: seq<byte>, lo: nat, hi: nat)
    requires off + |data| <= |buf| && lo <= hi <= |buf|
    ensures lo == off && hi == off + |data| ==> Splice(buf, off, data)[lo..hi] == data
    ensures hi <= off || off + |data| <= lo ==> Splice(buf, off, data)[lo..hi] == buf[lo..hi]
  {
  }

  lemma FullSplice(data: seq<byte>)
    ensures Splice(Zeros(|data|), 0, data) == data
  {
  }

  // --- Little-endian fields ---

  function Le16(v: u16): (s: seq<byte>)
    ensures |s| == 2 && FromLe16(s) == v
  {
    [v % 0x100, v / 0x100]
  }

  function FromLe16(s: seq<byte>): (v: u16)
    requires |s| >= 2
  {
    s[0] as int + 0x100 * (s[1] as int)
  }

  function Le32(v: u32): (s: seq<byte>)
    ensures |s| == 4 && FromLe32(s) == v
  {
    Le16(v % TWO16) + Le16(v / TWO16)
  }

  function FromLe32(s: seq<byte>): (v: u32)
    requires |s| >= 4
  {
    FromLe16(s) as int + TWO16 * FromLe16(s[2..])
  }

  function GetU16(buf: seq<byte>, off: nat): (v: u16)
    requires off + 2 <= |buf|
  {
    buf[off] as int + 0x100 * (buf[off + 1] as int)
  }

  function GetU32(buf: seq<byte>, off: nat): (v: u32)
    requires off + 4 <= |buf|
  {
    GetU16(buf, off) as int + TWO16 * GetU16(buf, off + 2)
  }

  function PutU16(buf: seq<byte>, off: nat, v: u16): (r: seq<byte>)
    requires off + 2 <= |buf|
    ensures |r| == |buf|
  {
    buf[off := v % 0x100][off + 1 := v / 0x100]
  }

  function PutU32(buf: seq<byte>, off: nat, v: u32): (r: seq<byte>)
    requires off + 4 <= |buf|
    ensures |r| == |buf|
  {
    PutU16(PutU16(buf, off, v % TWO16), off + 2, v / TWO16)
  }

  /** Reading a field of a buffer that was filled by field writes: a read sees the last write to the same field. */
  lemma FieldReads()
    ensures forall buf: seq<byte>, off: nat, v: u16 {:trigger PutU16(buf, off, v)} ::
      off + 2 <= |buf| ==> GetU16(PutU16(buf, off, v), off) == v
    ensures forall buf: seq<byte>, off: nat, v: u32 {:trigger PutU32(buf, off, v)} ::
      off + 4 <= |buf| ==> GetU32(PutU32(buf, off, v), off) == v
    ensures forall buf: seq<byte>, off: nat, v: u16, o: nat {:trigger GetU16(PutU16(buf, off, v), o)} ::
      off + 2 <= |buf| && (o + 2 <= off || off + 2 <= o) && o + 2 <= |buf| ==>
        GetU16(PutU16(buf, off, v), o) == GetU16(buf, o)
    ensures forall buf: seq<byte>, off: nat, v: u32, o: nat {:trigger GetU16(PutU32(buf, off, v), o)} ::
      off + 4 <= |buf| && (o + 2 <= off || off + 4 <= o) && o + 2 <= |buf| ==>
        GetU16(PutU32(buf, off, v), o) == GetU16(buf, o)
    ensures forall buf: seq<byte>, off: nat, v: seq<byte>, o: nat {:trigger GetU16(Splice(buf, off, v), o)} ::
      off + |v| <= |buf| && (o + 2 <= off || off + |v| <= o) && o + 2 <= |buf| ==>
        GetU16(Splice(buf, off, v), o) == GetU16(buf, o)
    ensures forall buf: seq<byte>, off: nat, v: u16, o: nat {:trigger GetU32(PutU16(buf, off, v), o)} ::
      off + 2 <= |buf| && (o + 4 <= off || off + 2 <= o) && o + 4 <= |buf| ==>
        GetU32(PutU16(buf, off, v), o) == GetU32(buf, o)
    ensures forall buf: seq<byte>, off: nat, v: u32, o: nat {:trigger GetU32(PutU32(buf, off, v), o)} ::
      off + 4 <= |buf| && (o + 4 <= off || off + 4 <= o) && o + 4 <= |buf| ==>
        GetU32(PutU32(buf, off, v), o) == GetU32(buf, o)
    ensures forall buf: seq<byte>, off: nat, v: seq<byte>, o: nat {:trigger GetU32(Splice(buf, off, v), o)} ::
      off + |v| <= |buf| && (o + 4 <= off || off + |v| <= o) && o + 4 <= |buf| ==>
        GetU32(Splice(buf, off, v), o) == GetU32(buf, o)
  {
  }

  /** The same for fields that are byte strings. */
  lemma SliceReads()
    ensures forall buf: seq<byte>, off: nat, v: u16, lo: nat, hi: nat {:trigger PutU16(buf, off, v)[lo..hi]} ::
      off + 2 <= |buf| && lo <= hi <= |buf| && (hi <= off || off + 2 <= lo) ==>
        PutU16(buf, off, v)[lo..hi] == buf[lo..hi]
    ensures forall buf: seq<byte>, off: nat, v: u32, lo: nat, hi: nat {:trigger PutU32(buf, off, v)[lo..hi]} ::
      off + 4 <= |buf| && lo <= hi <= |buf| && (hi <= off || off + 4 <= lo) ==>
        PutU32(buf, off, v)[lo..hi] == buf[lo..hi]
    ensures forall buf: seq<byte>, off: nat, v: seq<byte>, lo: nat, hi: nat {:trigger Splice(buf, off, v)[lo..hi]} ::
      off + |v| <= |buf| && lo <= hi <= |buf| && (hi <= off || off + |v| <= lo) ==>
        Splice(buf, off, v)[lo..hi] == buf[lo..hi]
    ensures forall buf: seq<byte>, off: nat, v: seq<byte> {:trigger Splice(buf, off, v)} ::
      off + |v| <= |buf| ==> Splice(buf, off, v)[off..off + |v|] == v
  {
  }
}
