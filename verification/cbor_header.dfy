/** The CBOR item header of section 3 of RFC 8949: an initial byte holding
    the major type (high three bits) and the additional information (low five
    bits), followed by 0, 1, 2, 4 or 8 big-endian argument bytes. Holds the
    two header writers of the encoder and the argument reader of the decoder. */
module CborHeader {
  import opened Results
  import opened Bytes

  /** Why decoding stops. `OutOfBounds` is the `IndexOutOfBoundsException`
      the Kotlin decoder raises when it reads past the end of its input;
      `WrappedLength` is a byte-string length that is negative once narrowed
      to an `Int` (see `CborDecoder.ReadByteString`). */
  datatype DecodeError = OutOfBounds | WrappedLength

  /** `(major shl 5) or info`: the two fields never overlap. */
  function InitialByte(major: nat, info: nat): (r: byte)
    requires major < 8 && info < 32
    ensures r / 32 == major && r % 32 == info
  {
    major * 32 + info
  }

  /** Number of argument bytes after the initial byte; additional information
      below 24 carries the argument itself, and 28-31 carry none here. */
  function Width(info: nat): nat
  {
    if info == 24 then 1
    else if info == 25 then 2
    else if info == 26 then 4
    else if info == 27 then 8
    else 0
  }

  /** `h` is a complete header of major type `major` whose argument is `value`. */
  predicate Denotes(h: seq<byte>, major: nat, value: nat)
  {
    && |h| >= 1
    && h[0] / 32 == major
    && var info := h[0] % 32;
       || (info < 24 && |h| == 1 && value == info)
       || (24 <= info <= 27 && |h| == 1 + Width(info) && FromBigEndian(h[1..]) == value)
  }

  /** The header uses the shortest form that can hold `value`: each longer
      form is used only when the next shorter one is too small. */
  predicate Shortest(h: seq<byte>, value: nat)
    requires |h| >= 1
  {
    var info := h[0] % 32;
    && (info >= 24 ==> value >= 24)
    && (25 <= info <= 27 ==> value >= Pow256(Width(info - 1)))
  }

  lemma {:induction false} Pow256Values()
    ensures Pow256(1) == 0x100 && Pow256(2) == 0x1_0000
    ensures Pow256(4) == 0x1_0000_0000 && Pow256(8) == TWO_64
  {
    assert Pow256(3) == 0x100_0000;
    assert Pow256(6) == 0x1_0000_0000_0000;
  }

  /** `encodeHeader(major, value: Int)`, for the non-negative arguments its
      callers pass (collection sizes and `-1 - n` of a negative `Int`). */
  function EncodeHeader(major: nat, value: nat): (r: seq<byte>)
    requires major < 8 && value <= INT_MAX
    ensures 1 <= |r| <= 5
  {
    Pow256Values();
    if value < 24 then [InitialByte(major, value)]
    else if value < 0x100 then [InitialByte(major, 24), value]
    else if value < 0x1_0000 then [InitialByte(major, 25)] + BigEndian(value, 2)
    else [InitialByte(major, 26)] + BigEndian(value, 4)
  }

  /** `encodeHeaderLong(major, value: Long)`, for non-negative arguments:
      the same forms plus the 9-byte one for arguments of 2^32 and above. */
  function EncodeHeaderLong(major: nat, value: nat): (r: seq<byte>)
    requires major < 8 && value < TWO_63
    ensures 1 <= |r| <= 9
  {
    Pow256Values();
    if value < 24 then [InitialByte(major, value)]
    else if value < 0x100 then [InitialByte(major, 24), value]
    else if value < 0x1_0000 then [InitialByte(major, 25)] + BigEndian(value, 2)
    else if value < 0x1_0000_0000 then [InitialByte(major, 26)] + BigEndian(value, 4)
    else [InitialByte(major, 27)] + BigEndian(value, 8)
  }

  /** A header with a multi-byte argument denotes that argument. */
  lemma {:induction false} ArgumentBytes(major: nat, info: nat, value: nat, width: nat)
    requires major < 8 && 25 <= info <= 27 && width == Width(info) && value < Pow256(width)
    ensures Denotes([InitialByte(major, info)] + BigEndian(value, width), major, value)
  {
    var h := [InitialByte(major, info)] + BigEndian(value, width);
    assert h[1..] == BigEndian(value, width);
    BigEndianInverse(value, width);
  }

  /** `encodeHeader` writes a header denoting its argument, in the shortest
      form, and never the 9-byte form. */
  lemma {:induction false} HeaderForm(major: nat, value: nat)
    requires major < 8 && value <= INT_MAX
    ensures Denotes(EncodeHeader(major, value), major, value)
    ensures Shortest(EncodeHeader(major, value), value)
    ensures EncodeHeader(major, value)[0] % 32 <= 26
  {
    Pow256Values();
    if 0x100 <= value < 0x1_0000 {
      ArgumentBytes(major, 25, value, 2);
    } else if 0x1_0000 <= value {
      ArgumentBytes(major, 26, value, 4);
    }
  }

  /** `encodeHeaderLong` writes a header denoting its argument, in the
      shortest form. */
  lemma {:induction false} LongHeaderForm(major: nat, value: nat)
    requires major < 8 && value < TWO_63
    ensures Denotes(EncodeHeaderLong(major, value), major, value)
    ensures Shortest(EncodeHeaderLong(major, value), value)
  {
    Pow256Values();
    if 0x100 <= value < 0x1_0000 {
      ArgumentBytes(major, 25, value, 2);
    } else if 0x1_0000 <= value < 0x1_0000_0000 {
      ArgumentBytes(major, 26, value, 4);
    } else if 0x1_0000_0000 <= value {
      ArgumentBytes(major, 27, value, 8);
    }
  }

  /** `readUnsigned(info)` with the cursor at `pos`, just past the initial
      byte: the argument as a Kotlin `Long` and the new cursor. */
  function ReadUnsigned(data: seq<byte>, pos: nat, info: nat): (r: Result<(int64, nat), DecodeError>)
    requires pos <= |data| && info < 32
    ensures r.Failure? <==> pos + Width(info) > |data|
    ensures r.Success? ==> r.value.1 == pos + Width(info)
    ensures r.Failure? ==> r.error == OutOfBounds
  {
    Pow256Values();
    if info < 24 then Success((info, pos))
    else if info <= 27 then
      var end := pos + Width(info);
      if end <= |data| then
        FromBigEndianBound(data[pos..end]);
        Success((Signed64(FromBigEndian(data[pos..end])), end))
      else Failure(OutOfBounds)
    else Success((0, pos))
  }

  /** Both header writers produce the same bytes for every `Int` argument:
      the `Long` variant only adds the 9-byte form. */
  lemma {:induction false} HeaderWritersAgree(major: nat, value: nat)
    requires major < 8 && value <= INT_MAX
    ensures EncodeHeader(major, value) == EncodeHeaderLong(major, value)
  {
  }

  /** The forms at the documented boundary arguments. */
  lemma {:induction false} HeaderBoundaries()
    ensures EncodeHeader(3, 23) == [0x77]
    ensures EncodeHeader(3, 24) == [0x78, 24]
    ensures EncodeHeader(2, 255) == [0x58, 0xFF]
    ensures EncodeHeader(2, 256) == [0x59, 0x01, 0x00]
    ensures EncodeHeader(4, 65535) == [0x99, 0xFF, 0xFF]
    ensures EncodeHeader(5, 65536) == [0xBA, 0x00, 0x01, 0x00, 0x00]
  {
  }

  /** The first argument that needs the 9-byte form of the `Long` writer. */
  lemma {:induction false} LongHeaderBoundary()
    ensures EncodeHeaderLong(0, 0x1_0000_0000) == [0x1B, 0, 0, 0, 1, 0, 0, 0, 0]
  {
    assert BigEndian(1, 4) == [0, 0, 0, 1];
    assert BigEndian(0x100, 5) == [0, 0, 0, 1, 0];
    assert BigEndian(0x1_0000, 6) == [0, 0, 0, 1, 0, 0];
    assert BigEndian(0x100_0000, 7) == [0, 0, 0, 1, 0, 0, 0];
  }

  /** Additional information 28-31 (reserved, or indefinite length) reads
      as 0 and consumes nothing. */
  lemma {:induction false} ReservedInfoReadsZero(data: seq<byte>, pos: nat, info: nat)
    requires pos <= |data| && 28 <= info < 32
    ensures ReadUnsigned(data, pos, info) == Success((0, pos))
  {
  }

  /** Reading back any header written for a `Long`-sized argument yields
      that argument and moves the cursor to the end of the header. */
  lemma {:induction false} ReadUnsignedInvertsHeader(data: seq<byte>, pos: nat, h: seq<byte>, major: nat, value: nat)
    requires Denotes(h, major, value) && value < TWO_63
    requires pos + |h| <= |data| && data[pos..pos + |h|] == h
    ensures data[pos] / 32 == major
    ensures ReadUnsigned(data, pos + 1, data[pos] % 32) == Success((value, pos + |h|))
  {
    assert data[pos] == h[0];
    var info := h[0] % 32;
    if 24 <= info <= 27 {
      assert data[pos + 1..pos + |h|] == h[1..];
    }
  }
}
