/** The decoder inverts the encoder. For every value `encodeValue` accepts
    whose raw splices are well formed (as those of the nested `map { … }`,
    `array { … }` and `bytes(…)` builders are), and for every map the
    builder produces from such values, decoding the bytes yields the value
    back, up to the one change the decoder makes on purpose: every integer
    comes back as a `Long`. Each statement is
    made at an arbitrary cursor inside arbitrary surrounding bytes, which is
    what the proof for nested arrays and maps needs. */
module CborRoundTrip {
  import opened Results
  import opened Bytes
  import opened CborValue
  import opened CborHeader
  import opened CborEncoder
  import opened CborBuilder
  import opened CborDecoder

  /** Values whose encoding reads back: no map (which `encodeValue`
      rejects), and a `CborRaw` only when its bytes hold one complete item
      that reads as the same value wherever it sits. */
  ghost predicate Plain(v: Value)
  {
    match v
    case Map(_) => false
    case Raw(bytes) => ReadsAs(bytes, AsDecoded(v))
    case Array(items) => forall i :: 0 <= i < |items| ==> Plain(items[i])
    case _ => true
  }

  /** `bytes`, placed anywhere in any input, read as `d` and nothing more. */
  ghost predicate ReadsAs(bytes: seq<byte>, d: Value)
  {
    forall data: seq<byte>, pos: nat {:trigger At(data, pos, bytes)} ::
      pos <= |data| && At(data, pos, bytes) ==> ReadValue(data, pos) == Success((d, pos + |bytes|))
  }

  /** The value the decoder yields for a plain value: integers widened to
      `Long`, at any depth, and a raw item replaced by what its bytes
      decode to. Other values are left as they are. */
  function AsDecoded(v: Value): (r: Value)
    decreases v
  {
    match v
    case Int(i) => Long(i)
    case Array(items) => Array(AsDecodedItems(items))
    case Raw(bytes) => (match Decode(bytes) case Success(d) => d case Failure(_) => v)
    case _ => v
  }

  function AsDecodedItems(items: seq<Value>): (r: seq<Value>)
    ensures |r| == |items|
    decreases items
  {
    if |items| == 0 then [] else [AsDecoded(items[0])] + AsDecodedItems(items[1..])
  }

  /** The value a builder key decodes to: integer keys come back as `Long`. */
  function DecodedKey(key: Key): Value
  {
    match key
    case IntKey(k) => Long(k)
    case TextKey(s) => Text(s)
  }

  /** `bytes` sits in `data` at `pos`, byte by byte. */
  predicate At(data: seq<byte>, pos: nat, bytes: seq<byte>)
    decreases |bytes|
  {
    if |bytes| == 0 then pos <= |data|
    else pos < |data| && data[pos] == bytes[0] && At(data, pos + 1, bytes[1..])
  }

  /** `At` is the slice of `data` from `pos` being `bytes`. */
  lemma {:induction false} AtSlice(data: seq<byte>, pos: nat, bytes: seq<byte>)
    ensures At(data, pos, bytes) <==> pos + |bytes| <= |data| && data[pos..pos + |bytes|] == bytes
    decreases |bytes|
  {
    if |bytes| > 0 {
      AtSlice(data, pos + 1, bytes[1..]);
      if pos + |bytes| <= |data| {
        assert data[pos..pos + |bytes|] == [data[pos]] + data[pos + 1..pos + |bytes|];
        assert bytes == [bytes[0]] + bytes[1..];
      }
    }
  }

  lemma {:induction false} AtSplit(data: seq<byte>, pos: nat, a: seq<byte>, b: seq<byte>)
    requires At(data, pos, a + b)
    ensures At(data, pos, a) && At(data, pos + |a|, b)
  {
    AtSlice(data, pos, a + b);
    AtSlice(data, pos, a);
    AtSlice(data, pos + |a|, b);
    assert data[pos..pos + |a|] == (a + b)[..|a|];
    assert data[pos + |a|..pos + |a| + |b|] == (a + b)[|a|..];
  }

  /** The whole of `data` sits at its start. */
  lemma {:induction false} AtWhole(data: seq<byte>)
    ensures At(data, 0, data)
  {
    AtSlice(data, 0, data);
    assert data[0..|data|] == data;
  }

  lemma {:induction false} PlainEncodes(v: Value)
    requires Plain(v)
    ensures EncodeValue(v).Success?
    decreases v
  {
    if v.Array? {
      forall i | 0 <= i < |v.items| ensures !HoldsMap(v.items[i]) {
        PlainEncodes(v.items[i]);
      }
    }
  }

  /** A header written by either header writer, read back by `readValue`'s
      dispatch: the major type and the argument come back. */
  lemma {:induction false} HeaderAt(data: seq<byte>, pos: nat, h: seq<byte>, major: nat, value: nat)
    requires Denotes(h, major, value) && value < TWO_63
    requires At(data, pos, h)
    ensures pos < |data| && data[pos] / 32 == major
    ensures ReadUnsigned(data, pos + 1, data[pos] % 32) == Success((value, pos + |h|))
    ensures pos + 1 + Width(data[pos] % 32) == pos + |h|
  {
    AtSlice(data, pos, h);
    ReadUnsignedInvertsHeader(data, pos, h, major, value);
  }

  /** `encodeLong(n)` decodes to `n` and the cursor moves past it. */
  lemma {:induction false} LongRoundTrip(data: seq<byte>, pos: nat, n: int64)
    requires At(data, pos, EncodeLong(n))
    ensures ReadValue(data, pos) == Success((Long(n), pos + |EncodeLong(n)|))
  {
    LongForm(n);
    if n >= 0 {
      HeaderAt(data, pos, EncodeLong(n), 0, n);
    } else {
      HeaderAt(data, pos, EncodeLong(n), 1, -1 - n);
    }
  }

  /** `encodeInt(n)` decodes to the same number, as a `Long`. */
  lemma {:induction false} IntRoundTrip(data: seq<byte>, pos: nat, n: int32)
    requires At(data, pos, EncodeInt(n))
    ensures ReadValue(data, pos) == Success((Long(n), pos + |EncodeInt(n)|))
  {
    if n >= 0 {
      HeaderWritersAgree(0, n);
    } else {
      HeaderWritersAgree(1, -1 - n);
    }
    LongRoundTrip(data, pos, n);
  }

  /** The header of a length-prefixed string, read back: the length, and
      the payload laid out right after it. */
  lemma {:induction false} StringHeaderAt(data: seq<byte>, pos: nat, major: nat, payload: ByteArray, r: seq<byte>)
    returns (p: nat)
    requires LengthPrefixed(r, major, payload) && At(data, pos, r)
    ensures pos < |data| && data[pos] / 32 == major && |payload| <= INT_MAX
    ensures ReadUnsigned(data, pos + 1, data[pos] % 32) == Success((|payload|, p))
    ensures p + |payload| == pos + |r| <= |data| && data[p..p + |payload|] == payload
  {
    var h := r[..|r| - |payload|];
    assert r == h + payload;
    AtSplit(data, pos, h, payload);
    AtSlice(data, pos + |h|, payload);
    HeaderAt(data, pos, h, major, |payload|);
    p := pos + |h|;
  }

  /** `readByteString` and `readTextString` behind a string header at `pos`
      announcing the `n` bytes of `payload`. */
  lemma {:induction false} StringRead(data: seq<byte>, pos: nat, major: nat, n: nat, p: nat, payload: ByteArray)
    requires major == 2 || major == 3
    requires pos < |data| && data[pos] / 32 == major
    requires ReadUnsigned(data, pos + 1, data[pos] % 32) == Success((n, p)) && n == |payload| <= INT_MAX
    requires p + n <= |data| && data[p..p + n] == payload
    ensures ReadValue(data, pos) == Success((if major == 2 then ByteString(payload) else Text(payload), p + n))
  {
    assert LengthOf(n) == n;
  }

  /** A length-prefixed string decodes to its bytes, whether read as a byte
      string (major type 2) or as text (major type 3). */
  lemma {:induction false} StringRoundTrip(data: seq<byte>, pos: nat, major: nat, payload: ByteArray, r: seq<byte>)
    requires major == 2 || major == 3
    requires LengthPrefixed(r, major, payload) && At(data, pos, r)
    ensures ReadValue(data, pos) ==
      Success((if major == 2 then ByteString(payload) else Text(payload), pos + |r|))
  {
    hide *;
    var p := StringHeaderAt(data, pos, major, payload, r);
    StringRead(data, pos, major, |payload|, p, payload);
  }

  /** How each kind of builder key is written and read back. */
  lemma {:induction false} KeyForms(key: Key)
    ensures key.IntKey? ==> EncodeKey(key) == EncodeInt(key.k) && DecodedKey(key) == Long(key.k)
    ensures key.TextKey? ==>
      && LengthPrefixed(EncodeKey(key), 3, key.utf8)
      && DecodedKey(key) == Text(key.utf8)
  {
    if key.TextKey? {
      LengthPrefixForm(3, key.utf8);
    }
  }

  /** A builder key decodes to `DecodedKey(key)`. */
  lemma {:induction false} KeyRoundTrip(data: seq<byte>, pos: nat, key: Key)
    requires At(data, pos, EncodeKey(key))
    ensures ReadValue(data, pos) == Success((DecodedKey(key), pos + |EncodeKey(key)|))
  {
    hide *;
    KeyForms(key);
    if key.IntKey? {
      IntRoundTrip(data, pos, key.k);
    } else {
      StringRoundTrip(data, pos, 3, key.utf8, EncodeKey(key));
    }
  }

  /** The one-byte encodings of `null`, `false` and `true` decode back. */
  lemma {:induction false} SimpleRoundTrip(data: seq<byte>, pos: nat, v: Value)
    requires v.Null? || v.Bool?
    requires At(data, pos, EncodeValue(v).value)
    ensures ReadValue(data, pos) == Success((v, pos + 1))
  {
    assert data[pos] == EncodeValue(v).value[0];
  }

  /** Every plain value comes back from the bytes `encodeValue` writes for
      it, and the cursor lands right after them. */
  lemma {:induction false} ValueRoundTrip(data: seq<byte>, pos: nat, v: Value)
    requires Plain(v) && EncodeValue(v).Success?
    requires At(data, pos, EncodeValue(v).value)
    ensures ReadValue(data, pos) == Success((AsDecoded(v), pos + |EncodeValue(v).value|))
    decreases v, 1
  {
    match v
    case Array(_) =>
      ArrayRoundTrip(data, pos, v);
    case Raw(_) =>
      RawRoundTrip(data, pos, v);
    case Text(_) =>
      TextValueRoundTrip(data, pos, v);
    case ByteString(_) =>
      ByteStringRoundTrip(data, pos, v);
    case Null | Bool(_) | Int(_) | Long(_) =>
      ScalarRoundTrip(data, pos, v);
  }

  /** The same, for simple values and integers. */
  lemma {:induction false} ScalarRoundTrip(data: seq<byte>, pos: nat, v: Value)
    requires v.Null? || v.Bool? || v.Int? || v.Long?
    requires At(data, pos, EncodeValue(v).value)
    ensures ReadValue(data, pos) == Success((AsDecoded(v), pos + |EncodeValue(v).value|))
  {
    match v
    case Null =>
      SimpleRoundTrip(data, pos, v);
    case Bool(_) =>
      SimpleRoundTrip(data, pos, v);
    case Int(i) =>
      IntRoundTrip(data, pos, i);
    case Long(l) =>
      LongRoundTrip(data, pos, l);
  }

  /** The same, for text. */
  lemma {:induction false} TextValueRoundTrip(data: seq<byte>, pos: nat, v: Value)
    requires v.Text?
    requires At(data, pos, EncodeValue(v).value)
    ensures ReadValue(data, pos) == Success((AsDecoded(v), pos + |EncodeValue(v).value|))
  {
    assert EncodeValue(v).value == LengthPrefix(3, v.utf8) && AsDecoded(v) == v;
    LengthPrefixForm(3, v.utf8);
    hide *;
    StringRoundTrip(data, pos, 3, v.utf8, EncodeValue(v).value);
  }

  /** The same, for byte strings. */
  lemma {:induction false} ByteStringRoundTrip(data: seq<byte>, pos: nat, v: Value)
    requires v.ByteString?
    requires At(data, pos, EncodeValue(v).value)
    ensures ReadValue(data, pos) == Success((AsDecoded(v), pos + |EncodeValue(v).value|))
  {
    assert EncodeValue(v).value == LengthPrefix(2, v.bytes) && AsDecoded(v) == v;
    LengthPrefixForm(2, v.bytes);
    hide *;
    StringRoundTrip(data, pos, 2, v.bytes, EncodeValue(v).value);
  }

  /** A well-formed raw splice reads back as what its bytes decode to:
      `encodeValue` copies the bytes of a `CborRaw` unchanged. */
  lemma {:induction false} RawRoundTrip(data: seq<byte>, pos: nat, v: Value)
    requires v.Raw? && Plain(v) && EncodeValue(v).Success?
    requires At(data, pos, EncodeValue(v).value)
    ensures ReadValue(data, pos) == Success((AsDecoded(v), pos + |EncodeValue(v).value|))
  {
    var Raw(bytes) := v;
    RawFacts(v, bytes);
    hide *;
    ReadsAsAt(bytes, AsDecoded(v), data, pos);
  }

  lemma {:induction false} RawFacts(v: Value, bytes: seq<byte>)
    requires v == Raw(bytes) && Plain(v)
    ensures EncodeValue(v) == Success(bytes)
    ensures ReadsAs(bytes, AsDecoded(v))
  {
  }

  lemma {:induction false} ReadsAsAt(bytes: seq<byte>, d: Value, data: seq<byte>, pos: nat)
    requires ReadsAs(bytes, d) && At(data, pos, bytes)
    ensures ReadValue(data, pos) == Success((d, pos + |bytes|))
  {
    AtSlice(data, pos, bytes);
  }

  /** The header of an encoded array, read back: the item count, and the
      encoded items laid out right after it. */
  lemma {:induction false} ArrayHeaderAt(data: seq<byte>, pos: nat, v: Value) returns (p: nat)
    requires v.Array? && Plain(v) && EncodeValue(v).Success?
    requires At(data, pos, EncodeValue(v).value)
    ensures pos < |data| && data[pos] / 32 == 4 && |v.items| <= INT_MAX
    ensures ReadUnsigned(data, pos + 1, data[pos] % 32) == Success((|v.items|, p))
    ensures EncodeItems(v.items).Success?
    ensures p <= |data| && At(data, p, Flatten(EncodeItems(v.items).value))
    ensures p + |Flatten(EncodeItems(v.items).value)| == pos + |EncodeValue(v).value|
    ensures AsDecoded(v) == Array(AsDecodedItems(v.items))
    ensures forall i :: 0 <= i < |v.items| ==> Plain(v.items[i])
  {
    var items := v.items;
    var h := EncodeHeader(4, |items|);
    assert EncodeValue(v).value == h + Flatten(EncodeItems(items).value);
    HeaderForm(4, |items|);
    AtSplit(data, pos, h, Flatten(EncodeItems(items).value));
    HeaderAt(data, pos, h, 4, |items|);
    p := pos + |h|;
  }

  /** `readArray` with an array header at `pos` announcing `n` items whose
      reads give `items` and end at `end`. */
  lemma {:induction false} ArrayRead(data: seq<byte>, pos: nat, n: nat, p: nat, items: seq<Value>, end: nat)
    requires pos < |data| && data[pos] / 32 == 4
    requires ReadUnsigned(data, pos + 1, data[pos] % 32) == Success((n, p)) && n <= INT_MAX
    requires p <= |data| && ReadItems(data, p, n) == Success((items, end))
    ensures |items| <= INT_MAX
    ensures ReadValue(data, pos) == Success((Array(items), end))
  {
    assert LengthOf(n) == n;
  }

  lemma {:induction false} ArrayRoundTrip(data: seq<byte>, pos: nat, v: Value)
    requires v.Array? && Plain(v) && EncodeValue(v).Success?
    requires At(data, pos, EncodeValue(v).value)
    ensures ReadValue(data, pos) == Success((AsDecoded(v), pos + |EncodeValue(v).value|))
    decreases v, 0
  {
    hide *;
    var items := v.items;
    var p := ArrayHeaderAt(data, pos, v);
    var encs := EncodeItems(items).value;
    ItemsRoundTrip(data, p, items, encs);
    ArrayRead(data, pos, |items|, p, AsDecodedItems(items), p + |Flatten(encs)|);
  }

  /** The items of an array, encoded one after another, come back in order. */
  lemma {:induction false} ItemsRoundTrip(data: seq<byte>, pos: nat, items: seq<Value>, encs: seq<seq<byte>>)
    requires forall i :: 0 <= i < |items| ==> Plain(items[i])
    requires EncodeItems(items) == Success(encs)
    requires At(data, pos, Flatten(encs))
    ensures ReadItems(data, pos, |items|) == Success((AsDecodedItems(items), pos + |Flatten(encs)|))
    decreases items, 3
  {
    if |items| == 0 {
      assert encs == [] && Flatten(encs) == [] && pos <= |data|;
    } else {
      ItemsCons(data, pos, items, encs);
    }
  }

  lemma {:induction false} ItemsCons(data: seq<byte>, pos: nat, items: seq<Value>, encs: seq<seq<byte>>)
    requires |items| > 0 && forall i :: 0 <= i < |items| ==> Plain(items[i])
    requires EncodeItems(items) == Success(encs)
    requires At(data, pos, Flatten(encs))
    ensures ReadItems(data, pos, |items|) == Success((AsDecodedItems(items), pos + |Flatten(encs)|))
    decreases items, 2
  {
    hide *;
    var tail := items[1..];
    ItemsTail(items);
    var p := FirstItemAt(data, pos, items, encs);
    var rest := encs[1..];
    ItemsRoundTrip(data, p, tail, rest);
    ItemsStep(data, pos, |tail|, AsDecoded(items[0]), p, AsDecodedItems(tail), p + |Flatten(rest)|);
  }

  lemma {:induction false} ItemsTail(items: seq<Value>)
    requires |items| > 0 && forall i :: 0 <= i < |items| ==> Plain(items[i])
    ensures AsDecodedItems(items) == [AsDecoded(items[0])] + AsDecodedItems(items[1..])
    ensures Plain(items[0]) && forall i :: 0 <= i < |items[1..]| ==> Plain(items[1..][i])
  {
  }

  lemma {:induction false} EncodedTail(items: seq<Value>, encs: seq<seq<byte>>)
    requires |items| > 0 && EncodeItems(items) == Success(encs)
    ensures |encs| == |items| && EncodeValue(items[0]) == Success(encs[0])
    ensures EncodeItems(items[1..]) == Success(encs[1..])
    ensures Flatten(encs) == encs[0] + Flatten(encs[1..])
  {
    EncodeItemsAt(items, 0);
  }

  /** The first item of an encoded list reads back, and the encodings of the
      other items follow it. */
  lemma {:induction false} FirstItemAt(data: seq<byte>, pos: nat, items: seq<Value>, encs: seq<seq<byte>>)
    returns (p: nat)
    requires |items| > 0 && forall i :: 0 <= i < |items| ==> Plain(items[i])
    requires EncodeItems(items) == Success(encs)
    requires At(data, pos, Flatten(encs))
    ensures pos <= p <= |data| && |encs| == |items|
    ensures ReadValue(data, pos) == Success((AsDecoded(items[0]), p))
    ensures EncodeItems(items[1..]) == Success(encs[1..])
    ensures At(data, p, Flatten(encs[1..])) && p + |Flatten(encs[1..])| == pos + |Flatten(encs)|
    decreases items, 1
  {
    hide *;
    EncodedTail(items, encs);
    AtSplit(data, pos, encs[0], Flatten(encs[1..]));
    ValueRoundTrip(data, pos, items[0]);
    p := pos + |encs[0]|;
  }

  /** One more item in front of the `n` items read after it. */
  lemma {:induction false} ItemsStep(data: seq<byte>, pos: nat, n: nat, first: Value, p: nat, rest: seq<Value>, end: nat)
    requires pos <= |data| && p <= |data|
    requires ReadValue(data, pos) == Success((first, p))
    requires ReadItems(data, p, n) == Success((rest, end))
    ensures ReadItems(data, pos, n + 1) == Success(([first] + rest, end))
  {
  }

  /** `Put` applied to each pair in turn: what `readMap` builds. */
  function PutAll(acc: seq<(Value, Value)>, pairs: seq<(Value, Value)>): (r: seq<(Value, Value)>)
    ensures |r| <= |acc| + |pairs|
    decreases |pairs|
  {
    if |pairs| == 0 then acc else PutAll(Put(acc, pairs[0].0, pairs[0].1), pairs[1..])
  }

  /** The decoded key and value of each pair given to the map builder. */
  function DecodedPairs(pairs: seq<(Key, Value)>): (r: seq<(Value, Value)>)
    ensures |r| == |pairs|
  {
    if |pairs| == 0 then []
    else [(DecodedKey(pairs[0].0), AsDecoded(pairs[0].1))] + DecodedPairs(pairs[1..])
  }

  /** `readMap` with a map header at `pos` announcing `n` pairs whose
      reads build `entries` and end at `end`. */
  lemma {:induction false} MapRead(data: seq<byte>, pos: nat, n: nat, p: nat, entries: seq<(Value, Value)>, end: nat)
    requires pos < |data| && data[pos] / 32 == 5
    requires ReadUnsigned(data, pos + 1, data[pos] % 32) == Success((n, p)) && n <= INT_MAX
    requires p <= |data| && ReadEntries(data, p, n, []) == Success((entries, end))
    ensures |entries| <= INT_MAX
    ensures ReadValue(data, pos) == Success((Map(entries), end))
  {
    assert LengthOf(n) == n;
  }

  /** One more pair put into the map before the `n` pairs read after it. */
  lemma {:induction false} EntriesStep(
    data: seq<byte>, pos: nat, n: nat, acc: seq<(Value, Value)>,
    key: Value, p: nat, value: Value, q: nat, entries: seq<(Value, Value)>, end: nat)
    requires pos <= |data| && p <= |data| && q <= |data|
    requires ReadValue(data, pos) == Success((key, p))
    requires ReadValue(data, p) == Success((value, q))
    requires ReadEntries(data, q, n, Put(acc, key, value)) == Success((entries, end))
    ensures ReadEntries(data, pos, n + 1, acc) == Success((entries, end))
  {
  }

  /** A map of no more pairs reads nothing and keeps the map built so far. */
  lemma {:induction false} ReadNoEntries(data: seq<byte>, pos: nat, acc: seq<(Value, Value)>)
    requires pos <= |data|
    ensures ReadEntries(data, pos, 0, acc) == Success((PutAll(acc, []), pos))
  {
  }

  /** `chunks` are the builder entries for `pairs`, one per pair, each
      holding a plain value. */
  ghost predicate EntriesFor(pairs: seq<(Key, Value)>, chunks: seq<seq<byte>>)
  {
    && |chunks| == |pairs|
    && forall i :: 0 <= i < |pairs| ==>
         Plain(pairs[i].1) && EncodeValue(pairs[i].1).Success?
         && chunks[i] == EncodeKey(pairs[i].0) + EncodeValue(pairs[i].1).value
  }

  /** Entry `i` is the encoded key of pair `i` followed by its encoded value. */
  lemma {:induction false} EntryParts(pairs: seq<(Key, Value)>, chunks: seq<seq<byte>>, i: nat)
    requires EntriesFor(pairs, chunks) && i < |pairs|
    ensures |chunks| == |pairs| && Plain(pairs[i].1) && EncodeValue(pairs[i].1).Success?
    ensures chunks[i] == EncodeKey(pairs[i].0) + EncodeValue(pairs[i].1).value
  {
  }

  lemma {:induction false} EntriesForTail(pairs: seq<(Key, Value)>, chunks: seq<seq<byte>>)
    requires EntriesFor(pairs, chunks) && |pairs| > 0
    ensures EntriesFor(pairs[1..], chunks[1..])
    ensures Flatten(chunks) == chunks[0] + Flatten(chunks[1..])
  {
    assert forall i :: 0 <= i < |pairs| - 1 ==> pairs[1..][i] == pairs[i + 1] && chunks[1..][i] == chunks[i + 1];
  }

  lemma {:induction false} BuiltEntries(pairs: seq<(Key, Value)>)
    requires |pairs| <= INT_MAX && BuildMap(pairs).Success?
    requires forall i :: 0 <= i < |pairs| ==> Plain(pairs[i].1)
    ensures EntriesFor(pairs, BuildMap(pairs).value.entries)
  {
    forall i | 0 <= i < |pairs|
      ensures EncodeValue(pairs[i].1).Success?
      ensures BuildMap(pairs).value.entries[i] == EncodeKey(pairs[i].0) + EncodeValue(pairs[i].1).value
    {
      BuildMapEntry(pairs, i);
    }
  }

  /** One builder entry, split into its key and value, reads back. */
  lemma {:induction false} PairRead(data: seq<byte>, pos: nat, key: Key, value: Value, ke: seq<byte>, ve: seq<byte>)
    requires Plain(value) && ke == EncodeKey(key) && EncodeValue(value) == Success(ve)
    requires At(data, pos, ke) && At(data, pos + |ke|, ve)
    ensures ReadValue(data, pos) == Success((DecodedKey(key), pos + |ke|))
    ensures ReadValue(data, pos + |ke|) == Success((AsDecoded(value), pos + |ke| + |ve|))
  {
    hide *;
    KeyRoundTrip(data, pos, key);
    ValueRoundTrip(data, pos + |ke|, value);
  }

  /** The first builder entry, laid out at `pos`, reads back as the first
      pair decoded, and the remaining entries follow it. */
  lemma {:induction false} FirstPairAt(data: seq<byte>, pos: nat, pairs: seq<(Key, Value)>, chunks: seq<seq<byte>>)
    returns (p: nat, q: nat)
    requires EntriesFor(pairs, chunks) && |pairs| > 0
    requires At(data, pos, Flatten(chunks))
    ensures pos <= p <= q <= |data| && |chunks| == |pairs|
    ensures ReadValue(data, pos) == Success((DecodedKey(pairs[0].0), p))
    ensures ReadValue(data, p) == Success((AsDecoded(pairs[0].1), q))
    ensures EntriesFor(pairs[1..], chunks[1..])
    ensures At(data, q, Flatten(chunks[1..])) && q + |Flatten(chunks[1..])| == pos + |Flatten(chunks)|
  {
    hide *;
    EntryParts(pairs, chunks, 0);
    EntriesForTail(pairs, chunks);
    var key, value := pairs[0].0, pairs[0].1;
    var ke, ve := EncodeKey(key), EncodeValue(value).value;
    AtSplit(data, pos, chunks[0], Flatten(chunks[1..]));
    AtSplit(data, pos, ke, ve);
    PairRead(data, pos, key, value, ke, ve);
    p, q := pos + |ke|, pos + |ke| + |ve|;
  }

  /** `PutAll` over the decoded pairs, one pair at a time. */
  lemma {:induction false} PutAllCons(acc: seq<(Value, Value)>, pairs: seq<(Key, Value)>)
    requires |pairs| > 0
    ensures PutAll(acc, DecodedPairs(pairs)) ==
      PutAll(Put(acc, DecodedKey(pairs[0].0), AsDecoded(pairs[0].1)), DecodedPairs(pairs[1..]))
  {
    var d := DecodedPairs(pairs);
    assert d[0] == (DecodedKey(pairs[0].0), AsDecoded(pairs[0].1));
    assert d[1..] == DecodedPairs(pairs[1..]);
  }

  /** The entries of a built map, laid out from `pos`, are read by
      `readMap`'s loop into the map built so far, pair by pair. */
  lemma {:induction false} EntriesRoundTrip(
    data: seq<byte>, pos: nat, pairs: seq<(Key, Value)>, chunks: seq<seq<byte>>, acc: seq<(Value, Value)>)
    requires EntriesFor(pairs, chunks)
    requires At(data, pos, Flatten(chunks))
    ensures ReadEntries(data, pos, |pairs|, acc) == Success((PutAll(acc, DecodedPairs(pairs)), pos + |Flatten(chunks)|))
    decreases |pairs|, 1
  {
    if |pairs| == 0 {
      assert |chunks| == 0;
      assert Flatten(chunks) == [] && DecodedPairs(pairs) == [];
      assert pos <= |data|;
      hide *;
      ReadNoEntries(data, pos, acc);
    } else {
      EntriesCons(data, pos, pairs, chunks, acc);
    }
  }

  lemma {:induction false} EntriesCons(
    data: seq<byte>, pos: nat, pairs: seq<(Key, Value)>, chunks: seq<seq<byte>>, acc: seq<(Value, Value)>)
    requires EntriesFor(pairs, chunks) && |pairs| > 0
    requires At(data, pos, Flatten(chunks))
    ensures ReadEntries(data, pos, |pairs|, acc) == Success((PutAll(acc, DecodedPairs(pairs)), pos + |Flatten(chunks)|))
    decreases |pairs|, 0
  {
    hide *;
    var p, q := FirstPairAt(data, pos, pairs, chunks);
    var key, value := DecodedKey(pairs[0].0), AsDecoded(pairs[0].1);
    var acc' := Put(acc, key, value);
    EntriesRoundTrip(data, q, pairs[1..], chunks[1..], acc');
    EntriesStep(data, pos, |pairs[1..]|, acc, key, p, value, q,
      PutAll(acc', DecodedPairs(pairs[1..])), q + |Flatten(chunks[1..])|);
    PutAllCons(acc, pairs);
  }

  /** There is one entry per pair, and every value they hold is plain. */
  lemma {:induction false} EntriesPlain(pairs: seq<(Key, Value)>, chunks: seq<seq<byte>>)
    requires EntriesFor(pairs, chunks)
    ensures |chunks| == |pairs|
    ensures forall i :: 0 <= i < |pairs| ==> Plain(pairs[i].1)
  {
  }

  /** The header of a finished map block, read back: the entry count, and
      the entries laid out right after it. */
  lemma {:induction false} MapHeaderAt(data: seq<byte>, pos: nat, b: MapBuilder) returns (p: nat)
    requires At(data, pos, MapBytes(b))
    ensures pos < |data| && data[pos] / 32 == 5
    ensures ReadUnsigned(data, pos + 1, data[pos] % 32) == Success((|b.entries|, p))
    ensures p <= |data| && |b.entries| <= INT_MAX
    ensures At(data, p, Flatten(b.entries)) && p + |Flatten(b.entries)| == pos + |MapBytes(b)|
  {
    var h := EncodeHeader(5, |b.entries|);
    assert MapBytes(b) == h + Flatten(b.entries);
    HeaderForm(5, |b.entries|);
    AtSplit(data, pos, h, Flatten(b.entries));
    HeaderAt(data, pos, h, 5, |b.entries|);
    p := pos + |h|;
  }

  /** A map whose builder entries are `b.entries` decodes to the map obtained
      by putting each decoded pair in turn: insertion order is kept and a
      later pair with an equal key replaces the earlier value in place. */
  lemma {:induction false} MapRoundTrip(data: seq<byte>, pos: nat, pairs: seq<(Key, Value)>, b: MapBuilder)
    requires EntriesFor(pairs, b.entries) && At(data, pos, MapBytes(b))
    ensures |PutAll([], DecodedPairs(pairs))| <= INT_MAX
    ensures ReadValue(data, pos) == Success((Map(PutAll([], DecodedPairs(pairs))), pos + |MapBytes(b)|))
  {
    hide *;
    EntriesPlain(pairs, b.entries);
    var p := MapHeaderAt(data, pos, b);
    EntriesRoundTrip(data, p, pairs, b.entries, []);
    MapRead(data, pos, |pairs|, p, PutAll([], DecodedPairs(pairs)), p + |Flatten(b.entries)|);
  }

  /** `CborDecoder.decode(encodeValue(v)) == v` for plain values, with
      integers widened to `Long`. */
  lemma {:induction false} DecodeEncodeValue(v: Value)
    requires Plain(v)
    ensures EncodeValue(v).Success?
    ensures Decode(EncodeValue(v).value) == Success(AsDecoded(v))
  {
    PlainEncodes(v);
    var e := EncodeValue(v).value;
    AtWhole(e);
    ValueRoundTrip(e, 0, v);
  }

  /** A request built with `cbor { map { … } }` decodes to its map. */
  lemma {:induction false} DecodeBuiltRequest(pairs: seq<(Key, Value)>)
    requires |pairs| <= INT_MAX
    requires forall i :: 0 <= i < |pairs| ==> Plain(pairs[i].1)
    ensures BuildMap(pairs).Success?
    ensures |PutAll([], DecodedPairs(pairs))| <= INT_MAX
    ensures Decode(Cbor([BuildMap(pairs).value])) == Success(Map(PutAll([], DecodedPairs(pairs))))
  {
    forall i | 0 <= i < |pairs| ensures !HoldsMap(pairs[i].1) {
      PlainEncodes(pairs[i].1);
    }
    var b := BuildMap(pairs).value;
    var bytes := MapBytes(b);
    CborOutput([b]);
    assert Flatten(MapChunks([b])) == bytes;
    AtWhole(bytes);
    BuiltEntries(pairs);
    MapRoundTrip(bytes, 0, pairs, b);
  }

  /** Bytes that read as `d` wherever they sit make a plain raw item that
      decodes to `d`. */
  lemma {:induction false} RawReads(bytes: seq<byte>, d: Value)
    requires ReadsAs(bytes, d)
    ensures Plain(Raw(bytes)) && AsDecoded(Raw(bytes)) == d
  {
    AtWhole(bytes);
    assert ReadValue(bytes, 0) == Success((d, |bytes|));
  }

  /** `bytes(data)` splices an item that decodes to the byte array. */
  lemma {:induction false} BytesValueReads(data: ByteArray)
    ensures Plain(BytesValue(data)) && AsDecoded(BytesValue(data)) == ByteString(data)
  {
    var e := EncodeBytes(data);
    LengthPrefixForm(2, data);
    forall d: seq<byte>, pos: nat | pos <= |d| && At(d, pos, e)
      ensures ReadValue(d, pos) == Success((ByteString(data), pos + |e|))
    {
      StringRoundTrip(d, pos, 2, data, e);
    }
    RawReads(e, ByteString(data));
  }

  /** A nested `array { add(…) … }` of plain values splices an item that
      decodes to the list of those values, decoded. */
  lemma {:induction false} NestedArrayReads(values: JvmList<Value>)
    requires forall i :: 0 <= i < |values| ==> Plain(values[i])
    ensures BuildArray(values).Success?
    ensures Plain(NestedArray(BuildArray(values).value))
    ensures AsDecoded(NestedArray(BuildArray(values).value)) == Array(AsDecodedItems(values))
  {
    var v := Array(values);
    PlainEncodes(v);
    ArrayBlockIsList(values);
    var e := EncodeValue(v).value;
    forall d: seq<byte>, pos: nat | pos <= |d| && At(d, pos, e)
      ensures ReadValue(d, pos) == Success((Array(AsDecodedItems(values)), pos + |e|))
    {
      ValueRoundTrip(d, pos, v);
    }
    RawReads(e, Array(AsDecodedItems(values)));
  }

  /** A nested `map { … }` of plain values splices an item that decodes to
      the map of its decoded pairs. */
  lemma {:induction false} NestedMapReads(pairs: seq<(Key, Value)>)
    requires |pairs| <= INT_MAX
    requires forall i :: 0 <= i < |pairs| ==> Plain(pairs[i].1)
    ensures BuildMap(pairs).Success?
    ensures |PutAll([], DecodedPairs(pairs))| <= INT_MAX
    ensures Plain(NestedMap(BuildMap(pairs).value))
    ensures AsDecoded(NestedMap(BuildMap(pairs).value)) == Map(PutAll([], DecodedPairs(pairs)))
  {
    forall i | 0 <= i < |pairs| ensures !HoldsMap(pairs[i].1) {
      PlainEncodes(pairs[i].1);
    }
    var b := BuildMap(pairs).value;
    var e := MapBytes(b);
    var m := Map(PutAll([], DecodedPairs(pairs)));
    BuiltEntries(pairs);
    forall d: seq<byte>, pos: nat | pos <= |d| && At(d, pos, e)
      ensures ReadValue(d, pos) == Success((m, pos + |e|))
    {
      MapRoundTrip(d, pos, pairs, b);
    }
    RawReads(e, m);
  }
}
