/** Bytes and the little-endian integers every part of the wire format is made of. */
module Bytes {

  type Byte = b: int | 0 <= b < 256

  type Buffer = seq<Byte>

  /** 256 to the power k. */
  function Pow256(k: nat): (p: nat)
    ensures p > 0
  {
    if k == 0 then 1 else 256 * Pow256(k - 1)
  }

  /** The k low bytes of n, least significant first: the shift-and-truncate sequences of put_u32_le and friends. */
  function LeBytes(n: nat, k: nat): (b: Buffer)
    ensures |b| == k
  {
    if k == 0 then [] else [n % 256] + LeBytes(n / 256, k - 1)
  }

  /** The integer a little-endian byte string stands for. */
  function LeValue(b: Buffer): (n: nat)
  {
    if b == [] then 0 else b[0] + 256 * LeValue(b[1..])
  }

  /** A k-byte string never stands for an integer of more than k bytes. */
  lemma {:induction false} LeValueBound(b: Buffer)
    ensures LeValue(b) < Pow256(|b|)
  {
    if b != [] {
      LeValueBound(b[1..]);
    }
  }

  /** Reading back what was written gives the value modulo the width: the explicit truncation of static_cast<uint32_t>. */
  lemma {:induction false} LeRoundTrip(n: nat, k: nat)
    requires n < Pow256(k)
    ensures LeValue(LeBytes(n, k)) == n
  {
    if k > 0 {
      assert n / 256 < Pow256(k - 1);
      LeRoundTrip(n / 256, k - 1);
      assert LeBytes(n, k)[1..] == LeBytes(n / 256, k - 1);
    }
  }

  const U16_LIMIT: nat := 0x1_0000
  const U32_LIMIT: nat := 0x1_0000_0000
  const U64_LIMIT: nat := 0x1_0000_0000_0000_0000

  lemma PowersOf256()
    ensures Pow256(1) == 256
    ensures Pow256(2) == U16_LIMIT
    ensures Pow256(4) == U32_LIMIT
    ensures Pow256(8) == U64_LIMIT
  {
    assert Pow256(3) == 256 * Pow256(2);
    assert Pow256(5) == 256 * Pow256(4);
    assert Pow256(6) == 256 * Pow256(5);
    assert Pow256(7) == 256 * Pow256(6);
  }

  /** The two-byte and four-byte instances, ready to use. */
  lemma LeRoundTrip16(n: nat)
    requires n < U16_LIMIT
    ensures LeValue(LeBytes(n, 2)) == n
  {
    PowersOf256();
    LeRoundTrip(n, 2);
  }

  lemma LeRoundTrip32(n: nat)
    requires n < U32_LIMIT
    ensures LeValue(LeBytes(n, 4)) == n
  {
    PowersOf256();
    LeRoundTrip(n, 4);
  }

  /** n zero bytes. */
  function Zeros(n: nat): (z: Buffer)
    ensures |z| == n
    ensures forall i :: 0 <= i < n ==> z[i] == 0
  {
    seq(n, _ => 0)
  }

  /** A slice of a slice is a slice. */
  lemma SliceOfSlice(b: Buffer, lo: nat, hi: nat, i: nat, j: nat)
    requires lo <= hi <= |b| && i <= j <= hi - lo
    ensures b[lo..hi][i..j] == b[lo + i..lo + j]
  {
    forall k | 0 <= k < j - i
      ensures b[lo..hi][i..j][k] == b[lo + i..lo + j][k]
    {
    }
  }

  // ----- characters -----

  /** The chars of a C++ string, one for each byte. */
  function CharsOf(b: Buffer): (s: string)
    ensures |s| == |b|
  {
    seq(|b|, i requires 0 <= i < |b| => b[i] as char)
  }

  /** The bytes of a string of such chars; anything else becomes a question mark. */
  function BytesOf(s: string): (b: Buffer)
    ensures |b| == |s|
  {
    seq(|s|, i requires 0 <= i < |s| => if s[i] as int < 256 then s[i] as int else 0x3F)
  }

  lemma CharsRoundTrip(b: Buffer)
    ensures BytesOf(CharsOf(b)) == b
  {
  }
}
