/** Machine-level vocabulary shared by the CBOR codec and the APDU framing:
    unsigned bytes, the JVM's 32- and 64-bit integers and their narrowing
    casts, array-size limits, and big-endian integers of a fixed width. */
module Bytes {

  /** A byte as an unsigned value. Kotlin's `Byte` is signed, but every
      place the model touches reads it through `and 0xFF` or writes it with
      `toByte()`, so only the low eight bits matter. */
  type byte = x: int | 0 <= x < 256

  /** `Int.MAX_VALUE`; also the largest size of a JVM array or list. */
  const INT_MAX: int := 0x7FFF_FFFF

  const TWO_32: int := 0x1_0000_0000
  const TWO_63: int := 0x8000_0000_0000_0000
  const TWO_64: int := 0x1_0000_0000_0000_0000

  /** Kotlin `Int`. */
  type int32 = x: int | -0x8000_0000 <= x <= 0x7FFF_FFFF

  /** Kotlin `Long`. */
  type int64 = x: int | -0x8000_0000_0000_0000 <= x <= 0x7FFF_FFFF_FFFF_FFFF

  /** A sequence no longer than a JVM array or list can be. */
  type JvmList<T> = s: seq<T> | |s| <= 0x7FFF_FFFF witness []

  /** Kotlin `ByteArray`. */
  type ByteArray = JvmList<byte>

  /** `b.toByte()` on a non-negative or negative integer: the low eight bits. */
  function ToByte(x: int): (r: byte)
    ensures (x - r) % 256 == 0
  {
    x % 256
  }

  /** `Long.toInt()`: keep the low 32 bits, read as a signed value. */
  function ToInt32(x: int): (r: int32)
    ensures (x - r) % TWO_32 == 0
    ensures -0x8000_0000 <= x <= INT_MAX ==> r == x
  {
    var low := x % TWO_32;
    if low <= INT_MAX then low else low - TWO_32
  }

  /** Reading 64 unsigned bits into a Kotlin `Long`: values with the top bit
      set wrap to negative numbers. */
  function Signed64(u: nat): (r: int64)
    requires u < TWO_64
    ensures r % TWO_64 == u
    ensures u < TWO_63 <==> r == u
  {
    if u < TWO_63 then u else u - TWO_64
  }

  function Pow256(n: nat): (r: nat)
    ensures r >= 1
  {
    if n == 0 then 1 else 256 * Pow256(n - 1)
  }

  /** The unsigned value of a big-endian byte sequence, as the decoder
      assembles it with `shl 8k` and `or`. */
  function FromBigEndian(s: seq<byte>): nat
  {
    if |s| == 0 then 0 else FromBigEndian(s[..|s| - 1]) * 256 + s[|s| - 1]
  }

  /** `n` bytes hold values below 256^n. */
  lemma {:induction false} FromBigEndianBound(s: seq<byte>)
    ensures FromBigEndian(s) < Pow256(|s|)
  {
    if |s| > 0 {
      FromBigEndianBound(s[..|s| - 1]);
    }
  }

  /** The `width` bytes `(v shr 8(width-1)).toByte(), …, v.toByte()` that
      the header encoder writes. */
  function BigEndian(v: nat, width: nat): (r: seq<byte>)
    requires v < Pow256(width)
    ensures |r| == width
  {
    if width == 0 then [] else BigEndian(v / 256, width - 1) + [v % 256]
  }

  /** Reading back the bytes written for `v` gives `v`. */
  lemma {:induction false} BigEndianInverse(v: nat, width: nat)
    requires v < Pow256(width)
    ensures FromBigEndian(BigEndian(v, width)) == v
  {
    if width > 0 {
      var high := BigEndian(v / 256, width - 1);
      BigEndianInverse(v / 256, width - 1);
      assert (high + [v % 256])[..width - 1] == high;
    }
  }

  /** Concatenation of a list of byte chunks, in order, as `forEach { addAll(it) }`. */
  function Flatten(chunks: seq<seq<byte>>): (r: seq<byte>)
  {
    if |chunks| == 0 then [] else chunks[0] + Flatten(chunks[1..])
  }

  lemma {:induction false} FlattenAppend(chunks: seq<seq<byte>>, last: seq<byte>)
    ensures Flatten(chunks + [last]) == Flatten(chunks) + last
  {
    if |chunks| == 0 {
      assert chunks + [last] == [last];
    } else {
      assert (chunks + [last])[1..] == chunks[1..] + [last];
      FlattenAppend(chunks[1..], last);
    }
  }
}
