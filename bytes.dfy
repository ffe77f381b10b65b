/** Bytes, little-endian integers, NUL-terminated character arrays and Python slices. */
module Bytes {

  newtype byte = b: int | 0 <= b < 256

  /** A fixed-width sample whose bits are not interpreted (a float32 or float64). */
  type Chunk = seq<byte>

  /** 256 to the power n. */
  function Pow256(n: nat): (r: nat)
    ensures r > 0
  {
    if n == 0 then 1 else 256 * Pow256(n - 1)
  }

  /** The unsigned little-endian value of a byte string. */
  function LittleEndian(b: seq<byte>): (r: nat)
    ensures r < Pow256(|b|)
  {
    if b == [] then 0 else b[0] as nat + 256 * LittleEndian(b[1..])
  }

  /** The two's-complement little-endian value of a non-empty byte string. */
  function SignedLittleEndian(b: seq<byte>): (r: int)
    requires |b| > 0
    ensures r >= 0 <==> 2 * LittleEndian(b) < Pow256(|b|)
    ensures r == LittleEndian(b) || r == LittleEndian(b) - Pow256(|b|)
  {
    var u := LittleEndian(b);
    if 2 * u < Pow256(|b|) then u else u - Pow256(|b|)
  }

  /** A c_uint16 read at offset `at`. */
  function U16At(b: seq<byte>, at: nat): (r: nat)
    requires at + 2 <= |b|
    ensures r < 0x1_0000
  {
    assert Pow256(2) == 0x1_0000;
    LittleEndian(b[at..at + 2])
  }

  /** A slice of a slice is a slice of the whole. */
  lemma {:induction false} SliceOfSlice<T>(s: seq<T>, lo: nat, hi: nat, i: nat, j: nat)
    requires lo <= hi <= |s| && i <= j <= hi - lo
    ensures s[lo..hi][i..j] == s[lo + i..lo + j]
  {
    var inner, whole := s[lo..hi][i..j], s[lo + i..lo + j];
    forall k | 0 <= k < j - i
      ensures inner[k] == whole[k]
    {
    }
  }

  /** A c_uint16 read inside a sub-slice is the one at the shifted offset of the whole. */
  lemma {:induction false} U16InSlice(b: seq<byte>, lo: nat, hi: nat, at: nat)
    requires lo <= hi <= |b| && at + 2 <= hi - lo
    ensures U16At(b[lo..hi], at) == U16At(b, lo + at)
  {
    SliceOfSlice(b, lo, hi, at, at + 2);
  }

  /** A c_uint32 read at offset `at`. */
  function U32At(b: seq<byte>, at: nat): (r: nat)
    requires at + 4 <= |b|
    ensures r < 0x1_0000_0000
  {
    assert Pow256(4) == 0x1_0000_0000;
    LittleEndian(b[at..at + 4])
  }

  /** Likewise for a c_uint32. */
  lemma {:induction false} U32InSlice(b: seq<byte>, lo: nat, hi: nat, at: nat)
    requires lo <= hi <= |b| && at + 4 <= hi - lo
    ensures U32At(b[lo..hi], at) == U32At(b, lo + at)
  {
    SliceOfSlice(b, lo, hi, at, at + 4);
  }

  /** The value ctypes gives for a c_char array: the bytes before the first NUL. */
  function UntilNul(b: seq<byte>): (r: seq<byte>)
    ensures |r| <= |b| && r == b[..|r|]
    ensures 0 !in r
    ensures |r| < |b| ==> b[|r|] == 0
  {
    if b == [] || b[0] == 0 then [] else [b[0]] + UntilNul(b[1..])
  }

  /** Against a NUL-free value of the same length, the NUL-truncated bytes match exactly
      when the raw bytes do. */
  lemma {:induction false} UntilNulExact(b: seq<byte>, t: seq<byte>)
    requires |b| == |t| && 0 !in t
    ensures UntilNul(b) == t <==> b == t
  {
    if b != [] && b[0] != 0 {
      UntilNulExact(b[1..], t[1..]);
      assert b == [b[0]] + b[1..];
      assert t == [t[0]] + t[1..];
      assert UntilNul(b) == [b[0]] + UntilNul(b[1..]);
    }
    if b != [] && b[0] == 0 {
      assert t[0] != 0;
    }
  }

  /** Text decoded from a c_char array, restricted to ASCII: the bytes before the first NUL,
      with every byte from 0x80 up dropped. */
  function AsciiText(b: seq<byte>): (s: string)
    ensures |s| <= |b|
    ensures forall k :: 0 <= k < |s| ==> 0 < s[k] as int < 0x80
  {
    AsciiChars(UntilNul(b))
  }

  function AsciiChars(b: seq<byte>): (s: string)
    ensures |s| <= |b|
    ensures forall k :: 0 <= k < |s| ==> s[k] as int < 0x80 && (0 !in b ==> s[k] as int != 0)
  {
    if b == [] then []
    else (if b[0] < 0x80 then [b[0] as int as char] else []) + AsciiChars(b[1..])
  }

  /** Python's `s[lo:hi]` for non-negative bounds: clipped to the sequence, empty when lo >= hi. */
  function PySlice<T>(s: seq<T>, lo: nat, hi: nat): (r: seq<T>)
    ensures |r| == if lo < hi && lo < |s| then Min(hi, |s|) - lo else 0
    ensures forall k :: 0 <= k < |r| ==> r[k] == s[lo + k]
  {
    if lo < hi && lo < |s| then s[lo..Min(hi, |s|)] else []
  }

  function Min(a: int, b: int): int { if a <= b then a else b }

  /** `count` consecutive chunks of `width` bytes each, as numpy's fromfile cuts them. */
  function Chunks(b: seq<byte>, count: nat, width: nat): (r: seq<Chunk>)
    requires |b| == count * width
    ensures |r| == count
    ensures forall k :: 0 <= k < count ==> |r[k]| == width
  {
    if count == 0 then [] else [b[..width]] + Chunks(b[width..], count - 1, width)
  }

  /** Chunk k of `Chunks` is the k-th run of `width` bytes. */
  lemma {:induction false} ChunkAt(b: seq<byte>, count: nat, width: nat, k: nat)
    requires |b| == count * width
    requires k < count
    ensures (k + 1) * width <= |b|
    ensures Chunks(b, count, width)[k] == b[k * width..(k + 1) * width]
  {
    if k > 0 {
      ChunkAt(b[width..], count - 1, width, k - 1);
      assert b[width..][(k - 1) * width..k * width] == b[k * width..(k + 1) * width];
    }
  }

  /** Chunk k of the `count` chunks read at offset `at` of a larger buffer. */
  lemma {:induction false} ChunkInData(d: seq<byte>, at: nat, count: nat, width: nat, k: nat)
    requires at + count * width <= |d| && k < count
    ensures at + (k + 1) * width <= |d|
    ensures Chunks(d[at..at + count * width], count, width)[k] == d[at + k * width..at + (k + 1) * width]
  {
    ChunkAt(d[at..at + count * width], count, width, k);
    SliceOfSlice(d, at, at + count * width, k * width, (k + 1) * width);
  }
}
