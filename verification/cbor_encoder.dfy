/** The encoder half of the codec: scalar encoders, `encodeValue`, and the
    builders behind the `cbor { map { … } }` DSL. Every builder keeps the
    already encoded entries in insertion order and writes them after a
    count header; keys are never sorted, so maps are not in the core
    deterministic order of section 4.2.1 of RFC 8949. */
module CborEncoder {
  import opened Results
  import opened Bytes
  import opened CborValue
  import opened CborHeader

  /** `IllegalArgumentException("Unsupported: …")`, naming the rejected value. */
  datatype EncodeError = Unsupported(value: Value)

  const FALSE_BYTE: byte := 0xF4
  const TRUE_BYTE: byte := 0xF5
  const NULL_BYTE: byte := 0xF6

  /** `r` is a header of major type `major` announcing `|payload|`, followed
      by `payload` verbatim. */
  predicate LengthPrefixed(r: seq<byte>, major: nat, payload: seq<byte>)
  {
    && |payload| < |r|
    && Denotes(r[..|r| - |payload|], major, |payload|)
    && r[|r| - |payload|..] == payload
  }

  /** `encodeInt`: major type 0 for non-negative values, major type 1 with
      argument `-1 - n` for negative ones, so the argument is never negative. */
  function EncodeInt(n: int32): (r: seq<byte>)
    ensures 1 <= |r| <= 5
  {
    if n >= 0 then EncodeHeader(0, n) else EncodeHeader(1, -1 - n)
  }

  /** `encodeLong`: as `EncodeInt`, with the 9-byte header available. */
  function EncodeLong(n: int64): (r: seq<byte>)
    ensures 1 <= |r| <= 9
  {
    if n >= 0 then EncodeHeaderLong(0, n) else EncodeHeaderLong(1, -1 - n)
  }

  /** An integer's major type and argument, as both integer encoders choose them. */
  predicate SignedHeader(r: seq<byte>, n: int)
  {
    if n >= 0 then Denotes(r, 0, n) && Shortest(r, n)
    else Denotes(r, 1, -1 - n) && Shortest(r, -1 - n)
  }

  lemma {:induction false} IntForm(n: int32)
    ensures SignedHeader(EncodeInt(n), n)
  {
    if n >= 0 { HeaderForm(0, n); } else { HeaderForm(1, -1 - n); }
  }

  lemma {:induction false} LongForm(n: int64)
    ensures SignedHeader(EncodeLong(n), n)
  {
    if n >= 0 { LongHeaderForm(0, n); } else { LongHeaderForm(1, -1 - n); }
  }

  /** A header announcing `|payload|` bytes, then the payload. */
  function LengthPrefix(major: nat, payload: ByteArray): (r: seq<byte>)
    requires major < 8
    ensures |r| > |payload|
  {
    EncodeHeader(major, |payload|) + payload
  }

  lemma {:induction false} LengthPrefixForm(major: nat, payload: ByteArray)
    requires major < 8
    ensures LengthPrefixed(LengthPrefix(major, payload), major, payload)
  {
    var h := EncodeHeader(major, |payload|);
    HeaderForm(major, |payload|);
    assert (h + payload)[..|h|] == h;
    assert (h + payload)[|h|..] == payload;
  }

  /** `encodeText`, given the string's UTF-8 bytes. */
  function EncodeText(utf8: ByteArray): (r: seq<byte>)
    ensures |r| > |utf8|
  {
    LengthPrefix(3, utf8)
  }

  /** `encodeBytes`. */
  function EncodeBytes(b: ByteArray): (r: seq<byte>)
    ensures |r| > |b|
  {
    LengthPrefix(2, b)
  }

  /** True iff `encodeValue` meets a map: maps are built only through the
      map builder, and `encodeValue` has no branch for a `Map` object. */
  predicate HoldsMap(v: Value)
  {
    match v
    case Map(_) => true
    case Array(items) => exists i :: 0 <= i < |items| && HoldsMap(items[i])
    case _ => false
  }

  /** `encodeValue`: fails exactly when it reaches the `else` branch that
      throws "Unsupported". */
  function EncodeValue(v: Value): (r: Result<seq<byte>, EncodeError>)
    ensures r.Success? <==> !HoldsMap(v)
    decreases v
  {
    match v
    case Null => Success([NULL_BYTE])
    case Bool(b) => Success([if b then TRUE_BYTE else FALSE_BYTE])
    case Int(i) => Success(EncodeInt(i))
    case Long(l) => Success(EncodeLong(l))
    case Text(s) => Success(EncodeText(s))
    case ByteString(b) => Success(EncodeBytes(b))
    case Raw(bytes) => Success(bytes)
    case Array(items) =>
      var encoded :- EncodeItems(items);
      Success(EncodeHeader(4, |items|) + Flatten(encoded))
    case Map(_) => Failure(Unsupported(v))
  }

  /** `items.map { encodeValue(it) }`: each item's encoding, in order; the
      first unsupported item aborts the whole list. */
  function EncodeItems(items: seq<Value>): (r: Result<seq<seq<byte>>, EncodeError>)
    ensures r.Success? <==> forall i :: 0 <= i < |items| ==> !HoldsMap(items[i])
    ensures r.Success? ==> |r.value| == |items|
    decreases items
  {
    if |items| == 0 then Success([])
    else
      var first :- EncodeValue(items[0]);
      var rest :- EncodeItems(items[1..]);
      assert forall i :: 1 <= i < |items| ==> items[i] == items[1..][i - 1];
      Success([first] + rest)
  }

  /** Item `i` of the encoded list is item `i`, encoded on its own. */
  lemma {:induction false} EncodeItemsAt(items: seq<Value>, i: nat)
    requires EncodeItems(items).Success? && i < |items|
    ensures EncodeValue(items[i]) == Success(EncodeItems(items).value[i])
    decreases i
  {
    if i > 0 {
      EncodeItemsAt(items[1..], i - 1);
    }
  }
}
