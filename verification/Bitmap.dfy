/**
 Block and inode bitmaps (src/bitmap.rs): bit i of a bitmap is bit i % 8 of byte i / 8, least significant first.
 The searches and updates run in place over an array, as in the source; the functions say what they compute.
 */
module Bitmap {
  import opened Bytes
  import opened Wrappers

  // --- One byte ---

  predicate BitOf(b: nat, k: nat) {
    if k == 0 then b % 2 == 1 else BitOf(b / 2, k - 1)
  }

  function SetIn(b: nat, k: nat): nat {
    if k == 0 then b - b % 2 + 1 else 2 * SetIn(b / 2, k - 1) + b % 2
  }

  function ClearIn(b: nat, k: nat): nat {
    if k == 0 then b - b % 2 else 2 * ClearIn(b / 2, k - 1) + b % 2
  }

  lemma Halves(q: nat, r: nat)
    requires r < 2
    ensures (2 * q + r) / 2 == q && (2 * q + r) % 2 == r
  {
  }

  lemma {:induction false} SetClearBits(b: nat, k: nat, j: nat)
    ensures BitOf(SetIn(b, k), j) == (j == k || BitOf(b, j))
    ensures BitOf(ClearIn(b, k), j) == (j != k && BitOf(b, j))
  {
    if k > 0 {
      Halves(SetIn(b / 2, k - 1), b % 2);
      Halves(ClearIn(b / 2, k - 1), b % 2);
      if j > 0 {
        SetClearBits(b / 2, k - 1, j - 1);
      }
    } else if j > 0 {
      assert SetIn(b, 0) / 2 == b / 2 && ClearIn(b, 0) / 2 == b / 2;
    }
  }

  lemma {:induction false} StaysInWidth(b: nat, k: nat, n: nat)
    requires k < n && b < Pow2(n)
    ensures SetIn(b, k) < Pow2(n) && ClearIn(b, k) < Pow2(n)
  {
    if k > 0 {
      StaysInWidth(b / 2, k - 1, n - 1);
    }
  }

  lemma {:induction false} BitsDetermine(a: nat, b: nat, n: nat)
    requires a < Pow2(n) && b < Pow2(n)
    requires forall k :: 0 <= k < n ==> BitOf(a, k) == BitOf(b, k)
    ensures a == b
  {
    if n > 0 {
      assert BitOf(a, 0) == BitOf(b, 0);
      forall k | 0 <= k < n - 1
        ensures BitOf(a / 2, k) == BitOf(b / 2, k)
      {
        assert BitOf(a, k + 1) == BitOf(b, k + 1);
      }
      BitsDetermine(a / 2, b / 2, n - 1);
    }
  }

  lemma MaskHalves(x: bv8)
    ensures x as int == 2 * ((x >> 1) as int) + (x & 1) as int
  {
  }

  /** The masks of the source, `b & (1 << k)`, `b | (1 << k)` and `b & !(1 << k)`, are the three operations above. */
  lemma {:induction false} TestMask(b: bv8, k: nat)
    requires k < 8
    ensures (b & ((1 as bv8) << k) != 0) == BitOf(b as int, k)
  {
    MaskHalves(b);
    if k > 0 {
      TestMask(b >> 1, k - 1);
      ShiftedTest(b, k);
    }
  }

  lemma ShiftedTest(b: bv8, k: nat)
    requires 0 < k < 8
    ensures (b & ((1 as bv8) << k) != 0) == ((b >> 1) & ((1 as bv8) << (k - 1)) != 0)
  {
  }

  lemma MaskBits(b: bv8, k: nat, j: nat)
    requires k < 8 && j < 8
    ensures ((b | ((1 as bv8) << k)) & ((1 as bv8) << j) != 0) == (j == k || b & ((1 as bv8) << j) != 0)
    ensures ((b & !((1 as bv8) << k)) & ((1 as bv8) << j) != 0) == (j != k && b & ((1 as bv8) << j) != 0)
  {
  }

  lemma StaysByte(b: nat, k: nat)
    requires b < 0x100 && k < 8
    ensures SetIn(b, k) < 0x100 && ClearIn(b, k) < 0x100
  {
    assert Pow2(8) == 0x100;
    StaysInWidth(b, k, 8);
  }

  lemma SameByte(s: nat, t: nat)
    requires s < 0x100 && t < 0x100 && forall j :: 0 <= j < 8 ==> BitOf(s, j) == BitOf(t, j)
    ensures s == t
  {
    assert Pow2(8) == 0x100;
    BitsDetermine(s, t, 8);
  }

  /** `b |= 1 << k` and `b &= !(1 << k)`, bit by bit. */
  lemma MaskedBit(b: bv8, k: nat, j: nat)
    requires k < 8 && j < 8
    ensures BitOf((b | ((1 as bv8) << k)) as int, j) == BitOf(SetIn(b as int, k), j)
    ensures BitOf((b & !((1 as bv8) << k)) as int, j) == BitOf(ClearIn(b as int, k), j)
  {
    hide BitOf, SetIn, ClearIn;
    MaskBits(b, k, j);
    TestMask(b, j);
    TestMask(b | ((1 as bv8) << k), j);
    TestMask(b & !((1 as bv8) << k), j);
    SetClearBits(b as int, k, j);
  }

  // --- One bitmap ---

  /** Bits past the end of the buffer read as clear. */
  predicate IsSet(bm: seq<byte>, i: nat) {
    i / 8 < |bm| && BitOf(bm[i / 8], i % 8)
  }

  /** Setting a bit past the end of the buffer does nothing. */
  function WithBit(bm: seq<byte>, i: nat): (r: seq<byte>)
    ensures |r| == |bm|
    ensures forall j: nat :: IsSet(r, j) == (IsSet(bm, j) || (j == i && i < 8 * |bm|))
  {
    if i / 8 >= |bm| then bm
    else
      StaysByte(bm[i / 8], i % 8);
      var r := bm[i / 8 := SetIn(bm[i / 8], i % 8)];
      assert forall j: nat :: IsSet(r, j) == (IsSet(bm, j) || j == i) by {
        forall j: nat ensures IsSet(r, j) == (IsSet(bm, j) || j == i) {
          SetClearBits(bm[i / 8], i % 8, j % 8);
        }
      }
      r
  }

  function WithoutBit(bm: seq<byte>, i: nat): (r: seq<byte>)
    ensures |r| == |bm|
    ensures forall j: nat :: IsSet(r, j) == (IsSet(bm, j) && j != i)
  {
    if i / 8 >= |bm| then bm
    else
      StaysByte(bm[i / 8], i % 8);
      var r := bm[i / 8 := ClearIn(bm[i / 8], i % 8)];
      assert forall j: nat :: IsSet(r, j) == (IsSet(bm, j) && j != i) by {
        forall j: nat ensures IsSet(r, j) == (IsSet(bm, j) && j != i) {
          SetClearBits(bm[i / 8], i % 8, j % 8);
        }
      }
      r
  }

  /** Two bitmaps of the same size that agree on every bit are the same bytes. */
  lemma SameBits(a: seq<byte>, b: seq<byte>)
    requires |a| == |b| && forall j: nat :: IsSet(a, j) == IsSet(b, j)
    ensures a == b
  {
    forall k | 0 <= k < |a|
      ensures a[k] == b[k]
    {
      forall j | 0 <= j < 8
        ensures BitOf(a[k], j) == BitOf(b[k], j)
      {
        assert IsSet(a, 8 * k + j) == IsSet(b, 8 * k + j);
        assert (8 * k + j) / 8 == k && (8 * k + j) % 8 == j;
      }
      SameByte(a[k], b[k]);
    }
  }

  /** The number of clear bits among the first `n`. */
  function CountClear(bm: seq<byte>, n: nat): (c: nat)
    ensures c <= n
    ensures c == 0 <==> forall i :: 0 <= i < n ==> IsSet(bm, i)
  {
    if n == 0 then 0 else CountClear(bm, n - 1) + if IsSet(bm, n - 1) then 0 else 1
  }

  lemma {:induction false} CountAfterSet(bm: seq<byte>, i: nat, n: nat)
    requires i < 8 * |bm| && !IsSet(bm, i)
    ensures CountClear(WithBit(bm, i), n) == CountClear(bm, n) - if i < n then 1 else 0
  {
    if n > 0 {
      CountAfterSet(bm, i, n - 1);
    }
  }

  lemma {:induction false} CountFalls(a: seq<byte>, b: seq<byte>, n: nat)
    requires forall i :: 0 <= i < n && IsSet(a, i) ==> IsSet(b, i)
    ensures CountClear(b, n) <= CountClear(a, n)
  {
    hide IsSet;
    if n > 0 {
      CountFalls(a, b, n - 1);
    }
  }

  // --- Runs of bits ---

  ghost predicate AllClear(bm: seq<byte>, s: nat, n: nat) {
    forall j :: s <= j < s + n ==> !IsSet(bm, j)
  }

  /** A clear window of `n` bits that starts at `s` and lies inside [lo, hi). */
  ghost predicate WindowIn(bm: seq<byte>, s: nat, n: nat, lo: nat, hi: nat) {
    lo <= s && s + n <= hi && AllClear(bm, s, n)
  }

  ghost predicate FirstWindowIn(bm: seq<byte>, s: nat, n: nat, lo: nat, hi: nat) {
    WindowIn(bm, s, n, lo, hi) && forall t: nat :: WindowIn(bm, t, n, lo, hi) ==> s <= t
  }

  ghost predicate NoWindowIn(bm: seq<byte>, n: nat, lo: nat, hi: nat) {
    forall t: nat :: !WindowIn(bm, t, n, lo, hi)
  }

  function WithRange(bm: seq<byte>, s: nat, n: nat): (r: seq<byte>)
    ensures |r| == |bm|
    ensures forall j: nat :: IsSet(r, j) == (IsSet(bm, j) || (s <= j < s + n && j < 8 * |bm|))
  {
    if n == 0 then bm else WithBit(WithRange(bm, s, n - 1), s + n - 1)
  }

  function WithoutRange(bm: seq<byte>, s: nat, n: nat): (r: seq<byte>)
    ensures |r| == |bm|
    ensures forall j: nat :: IsSet(r, j) == (IsSet(bm, j) && !(s <= j < s + n))
  {
    if n == 0 then bm else WithoutBit(WithoutRange(bm, s, n - 1), s + n - 1)
  }

  /** Allocating a window that was free lowers the free count by exactly its length. */
  lemma {:induction false} CountAfterRange(bm: seq<byte>, s: nat, n: nat, total: nat)
    requires AllClear(bm, s, n) && s + n <= total <= 8 * |bm|
    ensures CountClear(WithRange(bm, s, n), total) == CountClear(bm, total) - n
  {
    hide IsSet, CountClear, WithBit;
    if n > 0 {
      var before := WithRange(bm, s, n - 1);
      assert !IsSet(before, s + n - 1);
      CountAfterRange(bm, s, n - 1, total);
      CountAfterSet(before, s + n - 1, total);
    }
  }

  /** Freeing an allocated window restores the bitmap byte for byte. */
  lemma FreeUndoesAllocate(bm: seq<byte>, s: nat, n: nat)
    requires AllClear(bm, s, n)
    ensures WithoutRange(WithRange(bm, s, n), s, n) == bm
  {
    SameBits(WithoutRange(WithRange(bm, s, n), s, n), bm);
  }

  // --- BitmapAllocator ---

  method Set(bitmap: array<byte>, index: u32) returns (wasClear: bool)
    modifies bitmap
    ensures bitmap[..] == WithBit(old(bitmap[..]), index)
    ensures wasClear == (index < 8 * bitmap.Length && !IsSet(old(bitmap[..]), index))
  {
    var byteIdx, bitIdx := index / 8, index % 8;
    if byteIdx >= bitmap.Length {
      return false;
    }
    wasClear := !BitOf(bitmap[byteIdx], bitIdx);
    StaysByte(bitmap[byteIdx], bitIdx);
    bitmap[byteIdx] := SetIn(bitmap[byteIdx], bitIdx);
  }

  method Clear(bitmap: array<byte>, index: u32) returns (wasSet: bool)
    modifies bitmap
    ensures bitmap[..] == WithoutBit(old(bitmap[..]), index)
    ensures wasSet == IsSet(old(bitmap[..]), index)
  {
    var byteIdx, bitIdx := index / 8, index % 8;
    if byteIdx >= bitmap.Length {
      return false;
    }
    wasSet := BitOf(bitmap[byteIdx], bitIdx);
    StaysByte(bitmap[byteIdx], bitIdx);
    bitmap[byteIdx] := ClearIn(bitmap[byteIdx], bitIdx);
  }

  /** The first clear bit of [start, total), and only when there is none the first clear bit of [0, start). */
  ghost predicate FirstFree(bm: seq<byte>, start: nat, total: nat, r: Option<u32>) {
    match r
    case Some(i) =>
      !IsSet(bm, i) &&
      if start <= i then i < total && forall j :: start <= j < i ==> IsSet(bm, j)
      else forall j :: start <= j < total || 0 <= j < i ==> IsSet(bm, j)
    case None => forall j :: start <= j < total || 0 <= j < start ==> IsSet(bm, j)
  }

  method FindFirstFree(bitmap: array<byte>, start: u32, total: u32) returns (r: Option<u32>)
    ensures FirstFree(bitmap[..], start, total, r)
  {
    hide IsSet;
    ghost var bm := bitmap[..];
    var i := start;
    while i < total
      invariant start <= i && (i <= total || i == start)
      invariant forall j :: start <= j < i ==> IsSet(bm, j)
    {
      if !IsSet(bitmap[..], i) {
        return Some(i);
      }
      i := i + 1;
    }
    i := 0;
    while i < start
      invariant 0 <= i <= start
      invariant forall j :: 0 <= j < i ==> IsSet(bm, j)
    {
      if !IsSet(bitmap[..], i) {
        return Some(i);
      }
      i := i + 1;
    }
    return None;
  }

  /** The bit found is a bit of the bitmap unless the search starts past `total` and every bit below `total` is set. */
  lemma FirstFreeInRange(bm: seq<byte>, start: nat, total: nat, i: u32)
    requires FirstFree(bm, start, total, Some(i))
    ensures i < total <==> start <= total || exists j: nat :: j < total && !IsSet(bm, j)
  {
  }

  /** One left-to-right pass of the contiguous search; the source runs it over [start, total) and then [0, start). */
  method ScanRun(bitmap: array<byte>, lo: u32, hi: u32, count: u32) returns (r: Option<u32>)
    requires count > 0
    ensures r.Some? ==> FirstWindowIn(bitmap[..], r.value, count, lo, hi)
    ensures r == None ==> NoWindowIn(bitmap[..], count, lo, hi)
  {
    hide IsSet;
    ghost var bm := bitmap[..];
    var runStart, runLen, i := lo, 0, lo;
    while i < hi
      invariant lo <= i && (i <= hi || i == lo)
      invariant 0 <= runLen < count && runLen <= i - lo
      invariant runLen > 0 ==> runStart == i - runLen
      invariant AllClear(bm, i - runLen, runLen)
      invariant i - runLen > lo ==> IsSet(bm, i - runLen - 1)
      invariant forall t: nat :: t + count <= i ==> !WindowIn(bm, t, count, lo, hi)
    {
      if !IsSet(bitmap[..], i) {
        if runLen == 0 {
          runStart := i;
        }
        runLen := runLen + 1;
        if runLen >= count {
          assert WindowIn(bm, runStart, count, lo, hi);
          return Some(runStart);
        }
      } else {
        runLen := 0;
      }
      i := i + 1;
      forall t: nat | t + count == i
        ensures !WindowIn(bm, t, count, lo, hi)
      {
        // Either the bit just read is set, or the run of clear bits that ends at it is too short.
        if lo <= t {
          assert IsSet(bm, if runLen == 0 then i - 1 else i - runLen - 1);
        }
      }
    }
    return None;
  }

  /**
   For `count > 0` the window may not cross `start`: the first one inside [start, total), or else inside [0, start).
   */
  ghost predicate FirstContiguous(bm: seq<byte>, start: nat, total: nat, count: nat, r: Option<u32>) {
    if count == 0 then r == Some(start)
    else match r
    case Some(s) =>
      if NoWindowIn(bm, count, start, total) then FirstWindowIn(bm, s, count, 0, start)
      else FirstWindowIn(bm, s, count, start, total)
    case None => NoWindowIn(bm, count, start, total) && NoWindowIn(bm, count, 0, start)
  }

  method FindContiguousFree(bitmap: array<byte>, start: u32, total: u32, count: u32) returns (r: Option<u32>)
    ensures FirstContiguous(bitmap[..], start, total, count, r)
  {
    hide WindowIn;
    if count == 0 {
      return Some(start);
    }
    r := ScanRun(bitmap, start, total, count);
    if r == None {
      r := ScanRun(bitmap, 0, start, count);
    } else {
      assert WindowIn(bitmap[..], r.value, count, start, total);
    }
  }

  lemma ChosenIsClear(bm: seq<byte>, start: nat, total: nat, count: nat, s: u32)
    requires FirstContiguous(bm, start, total, count, Some(s))
    ensures AllClear(bm, s, count) && (count > 0 ==> s + count <= if start <= total then total else start)
  {
    hide IsSet;
  }

  method CountFree(bitmap: array<byte>, total: u32) returns (count: u32)
    ensures count == CountClear(bitmap[..], total)
  {
    count := 0;
    for i := 0 to total
      invariant count == CountClear(bitmap[..], i)
    {
      if !IsSet(bitmap[..], i) {
        count := count + 1;
      }
    }
  }

  method AllocateOne(bitmap: array<byte>, start: u32, total: u32) returns (r: Option<u32>)
    modifies bitmap
    ensures FirstFree(old(bitmap[..]), start, total, r)
    ensures bitmap[..] == if r == None then old(bitmap[..]) else WithBit(old(bitmap[..]), r.value)
  {
    r := FindFirstFree(bitmap, start, total);
    if r.Some? {
      var _ := Set(bitmap, r.value);
    }
  }

  /**
   Sets the window found. It is lowered from the free count when the bitmap covers `total` and the search does not start
   past it; freeing it restores the bitmap in any case.
   */
  method AllocateContiguous(bitmap: array<byte>, start: u32, total: u32, count: u32) returns (r: Option<u32>)
    modifies bitmap
    ensures FirstContiguous(old(bitmap[..]), start, total, count, r)
    ensures r == None ==> bitmap[..] == old(bitmap[..])
    ensures r.Some? ==> bitmap[..] == WithRange(old(bitmap[..]), r.value, count)
    ensures r.Some? ==> WithoutRange(bitmap[..], r.value, count) == old(bitmap[..])
    ensures r.Some? && count > 0 ==> r.value + count <= if start <= total then total else start
    ensures r.Some? && r.value + count <= total <= 8 * bitmap.Length ==>
      CountClear(bitmap[..], total) == CountClear(old(bitmap[..]), total) - count
  {
    hide IsSet, CountClear, WithoutRange, FirstContiguous, AllClear;
    r := FindContiguousFree(bitmap, start, total, count);
    if r == None {
      return;
    }
    ghost var bm := bitmap[..];
    var runStart := r.value;
    ChosenIsClear(bm, start, total, count, runStart);
    for i := 0 to count
      invariant bitmap[..] == WithRange(bm, runStart, i)
    {
      var _ := Set(bitmap, runStart + i);
    }
    if runStart + count <= total <= 8 * bitmap.Length {
      CountAfterRange(bm, runStart, count, total);
    }
    FreeUndoesAllocate(bm, runStart, count);
  }

  /** Bit `j` is one of the `n` indices from `s` on, taken modulo 2^32 as a release build adds them. */
  predicate InWrapped(j: nat, s: u32, n: u32) {
    j < TWO32 && (s <= j < s + n || s <= j + TWO32 < s + n)
  }

  /** Clears exactly the indices of the range, also where they wrap; a range that does not wrap is a window. */
  method FreeRange(bitmap: array<byte>, startIndex: u32, count: u32)
    modifies bitmap
    ensures forall j: nat :: IsSet(bitmap[..], j) == (IsSet(old(bitmap[..]), j) && !InWrapped(j, startIndex, count))
    ensures startIndex + count <= TWO32 ==> bitmap[..] == WithoutRange(old(bitmap[..]), startIndex, count)
  {
    hide IsSet;
    ghost var bm := bitmap[..];
    for i := 0 to count
      invariant forall j: nat :: IsSet(bitmap[..], j) == (IsSet(bm, j) && !InWrapped(j, startIndex, i))
    {
      var _ := Clear(bitmap, (startIndex + i) % TWO32);
    }
    if startIndex + count <= TWO32 {
      SameBits(bitmap[..], WithoutRange(bm, startIndex, count));
    }
  }
}
