/** Bytes, 32-bit words and the two byte orders that the WAL structures mix. */
module Bytes {

  const TWO32 := 0x1_0000_0000

  type byte = x: int | 0 <= x < 256
  type u32 = x: int | 0 <= x < TWO32
  type Bytes = seq<byte>

  datatype Endian = Big | Little

  function Zeros(n: nat): (z: Bytes)
    ensures |z| == n && forall i :: 0 <= i < n ==> z[i] == 0
  {
    seq(n, i => 0)
  }

  function BigBytes(x: u32): (b: Bytes)
    ensures |b| == 4
  {
    var x1 := x / 256;
    var x2 := x1 / 256;
    [x2 / 256, x2 % 256, x1 % 256, x % 256]
  }

  function Enc32(e: Endian, x: u32): (b: Bytes)
    ensures |b| == 4
  {
    var b := BigBytes(x);
    if e.Big? then b else [b[3], b[2], b[1], b[0]]
  }

  function Join(b3: int, b2: int, b1: int, b0: int): int {
    ((b3 * 256 + b2) * 256 + b1) * 256 + b0
  }

  function Dec32(e: Endian, b: Bytes): (x: u32)
    requires |b| == 4
  {
    if e.Big? then Join(b[0], b[1], b[2], b[3]) else Join(b[3], b[2], b[1], b[0])
  }

  /** A 16-bit field in the given byte order; only values that fit are ever stored. */
  function Enc16(e: Endian, x: int): (b: Bytes)
    requires 0 <= x < 0x1_0000
    ensures |b| == 2
  {
    if e.Big? then [x / 256, x % 256] else [x % 256, x / 256]
  }

  /** What the two byte orders mean. */
  lemma ByteOrders(b: Bytes)
    requires |b| == 4
    ensures Dec32(Big, b) == 0x100_0000 * b[0] as int + 0x1_0000 * b[1] as int + 0x100 * b[2] as int + b[3] as int
    ensures Dec32(Little, b) == b[0] as int + 0x100 * b[1] as int + 0x1_0000 * b[2] as int + 0x100_0000 * b[3] as int
  {
  }

  lemma DecEnc32(e: Endian, x: u32)
    ensures Dec32(e, Enc32(e, x)) == x
  {
  }

  lemma SplitJoin(b3: byte, b2: byte, b1: byte, b0: byte)
    ensures BigBytes(Join(b3, b2, b1, b0)) == [b3, b2, b1, b0]
  {
    var x := Join(b3, b2, b1, b0);
    assert x / 256 == Join(0, b3, b2, b1);
    assert x / 256 / 256 == Join(0, 0, b3, b2);
  }

  lemma EncDec32(e: Endian, b: Bytes)
    requires |b| == 4
    ensures Enc32(e, Dec32(e, b)) == b
  {
    if e.Big? {
      SplitJoin(b[0], b[1], b[2], b[3]);
    } else {
      SplitJoin(b[3], b[2], b[1], b[0]);
    }
  }

  /** Reads a byte string as consecutive 32-bit words. */
  function Words(e: Endian, b: Bytes): (w: seq<u32>)
    requires |b| % 4 == 0
    ensures |w| == |b| / 4
    ensures forall i :: 0 <= i < |w| ==> w[i] == Dec32(e, b[4 * i..4 * i + 4])
  {
    seq(|b| / 4, i requires 0 <= i < |b| / 4 => Dec32(e, b[4 * i..4 * i + 4]))
  }

  lemma SliceOfSlice(b: Bytes, lo: nat, hi: nat, i: nat, j: nat)
    requires lo <= hi <= |b| && i <= j <= hi - lo
    ensures b[lo..hi][i..j] == b[lo + i..lo + j]
  {
    assert |b[lo..hi][i..j]| == |b[lo + i..lo + j]|;
    assert forall k :: 0 <= k < j - i ==> b[lo..hi][i..j][k] == b[lo + i..lo + j][k];
  }

  lemma PrefixSlice(a: Bytes, b: Bytes, lo: nat, hi: nat)
    requires a <= b && lo <= hi <= |a|
    ensures a[lo..hi] == b[lo..hi]
  {
    assert a == b[..|a|];
    SliceOfSlice(b, 0, |a|, lo, hi);
  }

  lemma MiddleSlice(pre: Bytes, mid: Bytes, post: Bytes)
    ensures (pre + mid + post)[|pre|..|pre| + |mid|] == mid
  {
  }

  /** Overwriting a range leaves the ranges before and after it alone. */
  lemma OverwriteSlice(b: Bytes, off: nat, data: Bytes, lo: nat, hi: nat)
    requires off + |data| <= |b| && lo <= hi <= |b|
    ensures var r := b[..off] + data + b[off + |data|..];
            && |r| == |b| && r[off..off + |data|] == data
            && (hi <= off || lo >= off + |data| ==> r[lo..hi] == b[lo..hi])
  {
    var r := b[..off] + data + b[off + |data|..];
    MiddleSlice(b[..off], data, b[off + |data|..]);
    if hi <= off || lo >= off + |data| {
      assert forall k :: lo <= k < hi ==> r[k] == b[k];
    }
  }

  lemma SplitAt(b: Bytes, i: nat)
    requires i <= |b|
    ensures b == b[..i] + b[i..]
  {
  }

  lemma DropPrefix(a: Bytes, b: Bytes)
    ensures (a + b)[|a|..] == b
  {
  }
}
