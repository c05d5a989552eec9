/** `CborDecoder`: a single forward pass over a byte array. Each reader
    takes the cursor and returns the value read with the advanced cursor;
    a read past the end of the input, which throws in Kotlin, is a
    `Failure`. Starting a value at or past the end is not a failure: it
    reads as `null` and consumes nothing. */
module CborDecoder {
  import opened Results
  import opened Bytes
  import opened CborValue
  import opened CborHeader

  /** A length or count argument after Kotlin's `.toInt()`, with the
      negative results of that narrowing kept. */
  function LengthOf(arg: int64): int32
  {
    ToInt32(arg)
  }

  /** `readValue()` with the cursor at `pos`. */
  function ReadValue(data: seq<byte>, pos: nat): (r: Result<(Value, nat), DecodeError>)
    requires pos <= |data|
    ensures r.Success? ==> pos <= r.value.1 <= |data|
    ensures r.Success? && pos < |data| ==> pos < r.value.1
    ensures pos == |data| ==> r == Success((Null, pos))
    decreases |data| - pos, 0, 0
  {
    if pos >= |data| then Success((Null, pos))
    else
      var initial := data[pos];
      var major := initial / 32;
      var info := initial % 32;
      var next := pos + 1;
      if major == 0 then
        var arg :- ReadUnsigned(data, next, info);
        Success((Long(arg.0), arg.1))
      else if major == 1 then
        var arg :- ReadUnsigned(data, next, info);
        Success((Long(-1 - arg.0), arg.1))
      else if major == 2 then ReadByteString(data, next, info)
      else if major == 3 then ReadTextString(data, next, info)
      else if major == 4 then ReadArray(data, next, info)
      else if major == 5 then ReadMap(data, next, info)
      else if major == 7 then
        if info == 20 then Success((Bool(false), next))
        else if info == 21 then Success((Bool(true), next))
        else Success((Null, next))
      else Success((Null, next))
  }

  /** The items that carry no data: major type 7 with additional
      information 20 and 21 is `false` and `true`; every other major type 7
      item, and every major type 6 (tag) item, reads as `null`. Each takes
      just its initial byte; the argument bytes after it are not skipped. */
  lemma {:induction false} SimpleItems(data: seq<byte>, pos: nat)
    requires pos < |data|
    ensures data[pos] == 0xF4 ==> ReadValue(data, pos) == Success((Bool(false), pos + 1))
    ensures data[pos] == 0xF5 ==> ReadValue(data, pos) == Success((Bool(true), pos + 1))
    ensures data[pos] / 32 == 6 ==> ReadValue(data, pos) == Success((Null, pos + 1))
    ensures data[pos] / 32 == 7 && data[pos] != 0xF4 && data[pos] != 0xF5 ==> ReadValue(data, pos) == Success((Null, pos + 1))
  {
  }

  /** An array announcing more items than the input holds is padded with
      `null`: `82 01` reads as `[1, null]`. */
  lemma {:induction false} TruncatedArrayPadded()
    ensures ReadValue([0x82, 0x01], 0) == Success((Array([Long(1), Null]), 2))
  {
    var data: seq<byte> := [0x82, 0x01];
    assert ReadValue(data, 1) == Success((Long(1), 2));
    assert ReadValue(data, 2) == Success((Null, 2));
    assert ReadItems(data, 2, 0) == Success(([], 2));
    assert [Null] + [] == [Null];
    assert ReadItems(data, 2, 1) == Success(([Null], 2));
    assert [Long(1)] + [Null] == [Long(1), Null];
    assert ReadItems(data, 1, 2) == Success(([Long(1), Null], 2));
  }

  /** `readByteString(info)`: exactly `len` bytes after the length argument.
      The Kotlin code slices `pos until pos + len`; for a length that is
      negative after `.toInt()` that range is empty and the cursor moves
      backwards, which this model reports as `WrappedLength` instead. */
  function ReadByteString(data: seq<byte>, pos: nat, info: nat): (r: Result<(Value, nat), DecodeError>)
    requires pos <= |data| && info < 32
    ensures r.Success? ==> pos <= r.value.1 <= |data|
    ensures r.Success? ==> r.value.0.ByteString?
  {
    var arg :- ReadUnsigned(data, pos, info);
    var len := LengthOf(arg.0);
    if len < 0 then Failure(WrappedLength)
    else if arg.1 + len > |data| then Failure(OutOfBounds)
    else Success((ByteString(data[arg.1..arg.1 + len]), arg.1 + len))
  }

  /** `readTextString(info)`: `String(data, pos, len, UTF_8)`, which throws
      for a negative length or one that runs past the end. */
  function ReadTextString(data: seq<byte>, pos: nat, info: nat): (r: Result<(Value, nat), DecodeError>)
    requires pos <= |data| && info < 32
    ensures r.Success? ==> pos <= r.value.1 <= |data|
    ensures r.Success? ==> r.value.0.Text?
  {
    var arg :- ReadUnsigned(data, pos, info);
    var len := LengthOf(arg.0);
    if len < 0 || arg.1 + len > |data| then Failure(OutOfBounds)
    else Success((Text(data[arg.1..arg.1 + len]), arg.1 + len))
  }

  /** A string read takes exactly the announced number of bytes following
      the length argument, verbatim, and leaves the cursor after them. */
  lemma {:induction false} StringLayout(data: seq<byte>, pos: nat, info: nat)
    requires pos <= |data| && info < 32
    ensures ReadByteString(data, pos, info).Success? ==>
      var (v, end) := ReadByteString(data, pos, info).value;
      && end == pos + Width(info) + |v.bytes|
      && v.bytes == data[pos + Width(info)..end]
      && |v.bytes| == LengthOf(ReadUnsigned(data, pos, info).value.0)
    ensures ReadTextString(data, pos, info).Success? ==>
      var (v, end) := ReadTextString(data, pos, info).value;
      && end == pos + Width(info) + |v.utf8|
      && v.utf8 == data[pos + Width(info)..end]
      && |v.utf8| == LengthOf(ReadUnsigned(data, pos, info).value.0)
  {
  }

  /** `readArray(info)`: `(0 until len).map { readValue() }`; a negative
      count reads no items. */
  function ReadArray(data: seq<byte>, pos: nat, info: nat): (r: Result<(Value, nat), DecodeError>)
    requires pos <= |data| && info < 32
    ensures r.Success? ==> pos <= r.value.1 <= |data|
    ensures r.Success? ==> r.value.0.Array?
    decreases |data| - pos, 2, 0
  {
    var arg :- ReadUnsigned(data, pos, info);
    var len := LengthOf(arg.0);
    var items :- ReadItems(data, arg.1, if len < 0 then 0 else len);
    Success((Array(items.0), items.1))
  }

  /** `count` consecutive values starting at `pos`, in order. */
  function ReadItems(data: seq<byte>, pos: nat, count: nat): (r: Result<(seq<Value>, nat), DecodeError>)
    requires pos <= |data|
    ensures r.Success? ==> pos <= r.value.1 <= |data|
    ensures r.Success? ==> |r.value.0| == count
    decreases |data| - pos, 1, count
  {
    if count == 0 then Success(([], pos))
    else
      var first :- ReadValue(data, pos);
      var rest :- ReadItems(data, first.1, count - 1);
      Success(([first.0] + rest.0, rest.1))
  }

  /** `readMap(info)`: `repeat(len) { result[readValue()] = readValue() }`
      into a fresh `LinkedHashMap`; a negative count reads no entries. */
  function ReadMap(data: seq<byte>, pos: nat, info: nat): (r: Result<(Value, nat), DecodeError>)
    requires pos <= |data| && info < 32
    ensures r.Success? ==> pos <= r.value.1 <= |data|
    ensures r.Success? ==> r.value.0.Map?
    decreases |data| - pos, 2, 0
  {
    var arg :- ReadUnsigned(data, pos, info);
    var len := LengthOf(arg.0);
    var entries :- ReadEntries(data, arg.1, if len < 0 then 0 else len, []);
    Success((Map(entries.0), entries.1))
  }

  /** The `repeat` loop of `readMap`: `count` more key/value pairs put into
      the map built so far. */
  function ReadEntries(data: seq<byte>, pos: nat, count: nat, acc: seq<(Value, Value)>)
    : (r: Result<(seq<(Value, Value)>, nat), DecodeError>)
    requires pos <= |data|
    ensures r.Success? ==> pos <= r.value.1 <= |data|
    ensures r.Success? ==> |acc| <= |r.value.0| <= |acc| + count
    decreases |data| - pos, 1, count
  {
    if count == 0 then Success((acc, pos))
    else
      var key :- ReadValue(data, pos);
      var value :- ReadValue(data, key.1);
      ReadEntries(data, value.1, count - 1, Put(acc, key.0, value.0))
  }

  /** `CborDecoder.decode(data)`: the first value of `data`; anything after
      it is ignored. */
  function Decode(data: seq<byte>): (r: Result<Value, DecodeError>)
    ensures |data| == 0 ==> r == Success(Null)
  {
    var read :- ReadValue(data, 0);
    Success(read.0)
  }
}
