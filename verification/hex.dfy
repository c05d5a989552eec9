/** The hex helpers next to the CBOR codec: `ByteArray.toHex` and
    `String.hexToByteArray`. */
module Hex {
  import opened Results
  import opened Bytes

  /** `hexToByteArray` reads one character past the end of an odd-length
      string, which throws `StringIndexOutOfBoundsException`. */
  datatype HexError = IndexOutOfBounds(index: nat)

  /** The upper-case hex digit for `n`. */
  function HexChar(n: nat): (r: char)
    requires n < 16
  {
    if n < 10 then ('0' as int + n) as char else ('A' as int + n - 10) as char
  }

  /** `"%02X".format(b)`: the byte's unsigned value (the formatter adds 256
      to a negative `Byte`) as two upper-case hex digits. */
  function ByteHex(b: byte): (r: string)
    ensures |r| == 2
  {
    [HexChar(b / 16), HexChar(b % 16)]
  }

  /** `toHex`: the digit pairs of the bytes, joined with no separator. */
  function ToHex(data: seq<byte>): (r: string)
    ensures |r| == 2 * |data|
  {
    if |data| == 0 then "" else ByteHex(data[0]) + ToHex(data[1..])
  }

  /** A lower-case hex letter in upper case; other characters unchanged. */
  function Upper(c: char): char
  {
    if 'a' <= c <= 'f' then (c as int - 'a' as int + 'A' as int) as char else c
  }

  /** `Character.digit(c, 16)`: the value of a hex digit of either case,
      and -1 for any other character. */
  function Digit(c: char): (r: int)
    ensures -1 <= r < 16
    ensures r >= 0 ==> HexChar(r) == Upper(c)
  {
    if '0' <= c <= '9' then c as int - '0' as int
    else if 'a' <= c <= 'f' then c as int - 'a' as int + 10
    else if 'A' <= c <= 'F' then c as int - 'A' as int + 10
    else -1
  }

  /** The byte written for the digit pair starting at `i`:
      `((digit(hi) shl 4) + digit(lo)).toByte()`, which wraps when a digit
      is -1. */
  function PairByte(s: string, i: nat): byte
    requires i + 1 < |s|
  {
    ToByte(Digit(s[i]) * 16 + Digit(s[i + 1]))
  }

  /** What `hexToByteArray` computes, stated pair by pair. Lengths and
      indices count characters (Unicode scalar values); the JVM counts
      UTF-16 units, which differs only for characters above U+FFFF. */
  function HexToBytes(s: string): (r: Result<seq<byte>, HexError>)
    ensures r.Success? <==> |s| % 2 == 0
    ensures r.Success? ==> |r.value| == |s| / 2
    ensures r.Failure? ==> r.error == IndexOutOfBounds(|s|)
  {
    if |s| % 2 == 1 then Failure(IndexOutOfBounds(|s|))
    else Success(seq(|s| / 2, i requires 0 <= i < |s| / 2 => PairByte(s, 2 * i)))
  }

  /** `hexToByteArray`, as written: a zero-filled array of `len / 2` bytes,
      filled by stepping through the string two characters at a time. */
  method HexToByteArray(s: string) returns (r: Result<seq<byte>, HexError>)
    ensures r == HexToBytes(s)
  {
    var len := |s|;
    var out: seq<byte> := seq(len / 2, _ => 0);
    var i := 0;
    while i < len
      invariant 0 <= i <= len && i % 2 == 0
      invariant |out| == len / 2
      invariant forall j :: 0 <= j < i / 2 && j < len / 2 ==> out[j] == PairByte(s, 2 * j)
    {
      if i + 1 >= len {
        return Failure(IndexOutOfBounds(i + 1));
      }
      out := out[i / 2 := PairByte(s, i)];
      i := i + 2;
    }
    assert out == HexToBytes(s).value;
    return Success(out);
  }

  /** Each digit `toHex` writes reads back as its value and is already
      upper case. */
  lemma {:induction false} HexCharReads(n: nat)
    requires n < 16
    ensures Digit(HexChar(n)) == n && Upper(HexChar(n)) == HexChar(n)
  {
  }

  /** The pair written for a byte reads back as that byte. */
  lemma {:induction false} PairReads(s: string, i: nat, b: byte)
    requires i + 1 < |s| && s[i] == HexChar(b / 16) && s[i + 1] == HexChar(b % 16)
    ensures PairByte(s, i) == b
  {
    HexCharReads(b / 16);
    HexCharReads(b % 16);
  }

  /** A pair of digits of either case is written back in upper case. */
  lemma {:induction false} PairWrites(s: string, i: nat)
    requires i + 1 < |s| && Digit(s[i]) >= 0 && Digit(s[i + 1]) >= 0
    ensures HexChar(PairByte(s, i) / 16) == Upper(s[i]) && HexChar(PairByte(s, i) % 16) == Upper(s[i + 1])
  {
    var hi := Digit(s[i]);
    var lo := Digit(s[i + 1]);
    assert PairByte(s, i) == hi * 16 + lo;
  }

  /** Byte `i` of the input sits at characters `2i` and `2i + 1`. */
  lemma {:induction false} ToHexAt(data: seq<byte>)
    ensures forall i :: 0 <= i < |data| ==>
              ToHex(data)[2 * i] == HexChar(data[i] / 16) && ToHex(data)[2 * i + 1] == HexChar(data[i] % 16)
  {
    if |data| > 0 {
      ToHexAt(data[1..]);
      var rest := ToHex(data[1..]);
      forall i | 1 <= i < |data|
        ensures ToHex(data)[2 * i] == HexChar(data[i] / 16) && ToHex(data)[2 * i + 1] == HexChar(data[i] % 16)
      {
        assert data[1..][i - 1] == data[i];
        assert ToHex(data)[2 * i] == rest[2 * (i - 1)];
        assert ToHex(data)[2 * i + 1] == rest[2 * (i - 1) + 1];
      }
    }
  }

  /** `toHex` writes only hex digits, all in upper case. */
  lemma {:induction false} ToHexDigits(data: seq<byte>)
    ensures forall k :: 0 <= k < |ToHex(data)| ==> Digit(ToHex(data)[k]) >= 0 && Upper(ToHex(data)[k]) == ToHex(data)[k]
  {
    var t := ToHex(data);
    ToHexAt(data);
    forall k | 0 <= k < |t| ensures Digit(t[k]) >= 0 && Upper(t[k]) == t[k] {
      var i := k / 2;
      if k == 2 * i {
        HexCharReads(data[i] / 16);
      } else {
        HexCharReads(data[i] % 16);
      }
    }
  }

  /** Reading back the hex of any byte array gives the bytes. */
  lemma {:induction false} HexRoundTrip(data: seq<byte>)
    ensures HexToBytes(ToHex(data)) == Success(data)
  {
    var s := ToHex(data);
    ToHexAt(data);
    var r := HexToBytes(s).value;
    forall i | 0 <= i < |data| ensures r[i] == data[i] {
      PairReads(s, 2 * i, data[i]);
    }
    assert r == data;
  }

  predicate HexString(s: string)
  {
    |s| % 2 == 0 && forall k :: 0 <= k < |s| ==> Digit(s[k]) >= 0
  }

  /** The other direction: hex digits of either case read and written back
      come out as the same digits in upper case. */
  lemma {:induction false} HexCanonical(s: string)
    requires HexString(s)
    ensures HexToBytes(s).Success?
    ensures ToHex(HexToBytes(s).value) == seq(|s|, k requires 0 <= k < |s| => Upper(s[k]))
  {
    var data := HexToBytes(s).value;
    var t := ToHex(data);
    ToHexAt(data);
    forall k | 0 <= k < |s| ensures t[k] == Upper(s[k]) {
      var i := k / 2;
      PairWrites(s, 2 * i);
      assert data[i] == PairByte(s, 2 * i);
    }
  }
}
