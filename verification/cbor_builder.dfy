/** The builder DSL of the encoder: `cbor { map { 1 to x; "k" to y } }`.
    `CborMapEncoder` and `CborArrayEncoder` collect already encoded entries
    and items in the order they are added; the three places that close a
    map (`CborEncoder.map`, `CborMapEncoder.map`, `CborArrayEncoder.map`)
    all write the same bytes, defined once here as `MapBytes`. */
module CborBuilder {
  import opened Results
  import opened Bytes
  import opened CborValue
  import opened CborHeader
  import opened CborEncoder

  /** `CborMapEncoder`: one encoded key/value pair per entry. */
  datatype MapBuilder = MapBuilder(entries: JvmList<seq<byte>>)

  /** `CborArrayEncoder`: one encoded item per entry. */
  datatype ArrayBuilder = ArrayBuilder(items: JvmList<seq<byte>>)

  /** `CborEncoder`: the output written so far. */
  datatype Encoder = Encoder(out: seq<byte>)

  /** `r` is a header of major type `major` counting `|chunks|` elements,
      followed by the chunks concatenated in order. */
  predicate CountPrefixed(r: seq<byte>, major: nat, chunks: seq<seq<byte>>)
  {
    var body := Flatten(chunks);
    && |body| < |r|
    && Denotes(r[..|r| - |body|], major, |chunks|)
    && r[|r| - |body|..] == body
  }

  /** A count header followed by the chunks. */
  function CountHeader(major: nat, chunks: JvmList<seq<byte>>): (r: seq<byte>)
    requires major < 8
    ensures |r| > |Flatten(chunks)|
  {
    EncodeHeader(major, |chunks|) + Flatten(chunks)
  }

  lemma {:induction false} CountForm(major: nat, chunks: JvmList<seq<byte>>)
    requires major < 8
    ensures CountPrefixed(CountHeader(major, chunks), major, chunks)
  {
    var h := EncodeHeader(major, |chunks|);
    var body := Flatten(chunks);
    HeaderForm(major, |chunks|);
    assert (h + body)[..|h|] == h;
    assert (h + body)[|h|..] == body;
  }

  /** A key as `Int.to` and `String.to` encode it. */
  function EncodeKey(key: Key): seq<byte>
  {
    match key
    case IntKey(k) => EncodeInt(k)
    case TextKey(s) => EncodeText(s)
  }

  /** `key to value`: appends one entry; `encodeValue` runs at once, so an
      unsupported value aborts the block. */
  function PutEntry(b: MapBuilder, key: Key, value: Value): (r: Result<MapBuilder, EncodeError>)
    requires |b.entries| < INT_MAX
    ensures r.Success? <==> !HoldsMap(value)
    ensures r.Success? ==> r.value.entries == b.entries + [EncodeKey(key) + EncodeValue(value).value]
  {
    var encoded :- EncodeValue(value);
    Success(MapBuilder(b.entries + [EncodeKey(key) + encoded]))
  }

  /** The bytes of a finished map block: a major type 5 header counting the
      entries added, then the entries in insertion order. */
  function MapBytes(b: MapBuilder): seq<byte>
  {
    CountHeader(5, b.entries)
  }

  /** The bytes of a finished array block: a major type 4 header counting
      the items added, then the items in order. */
  function ArrayBytes(a: ArrayBuilder): seq<byte>
  {
    CountHeader(4, a.items)
  }

  /** `CborMapEncoder.map { … }`: a nested map, spliced as a `CborRaw`. */
  function NestedMap(b: MapBuilder): (r: Value)
    ensures r.Raw? && CountPrefixed(r.encoded, 5, b.entries)
  {
    CountForm(5, b.entries);
    Raw(MapBytes(b))
  }

  /** `CborMapEncoder.array { … }`: a nested array, spliced as a `CborRaw`. */
  function NestedArray(a: ArrayBuilder): (r: Value)
    ensures r.Raw? && CountPrefixed(r.encoded, 4, a.items)
  {
    CountForm(4, a.items);
    Raw(ArrayBytes(a))
  }

  /** `CborMapEncoder.bytes(data)`. */
  function BytesValue(data: ByteArray): (r: Value)
    ensures r.Raw? && LengthPrefixed(r.encoded, 2, data)
  {
    LengthPrefixForm(2, data);
    Raw(EncodeBytes(data))
  }

  /** `CborArrayEncoder.add(value)`. */
  function Add(a: ArrayBuilder, value: Value): (r: Result<ArrayBuilder, EncodeError>)
    requires |a.items| < INT_MAX
    ensures r.Success? <==> !HoldsMap(value)
    ensures r.Success? ==> r.value.items == a.items + [EncodeValue(value).value]
  {
    var encoded :- EncodeValue(value);
    Success(ArrayBuilder(a.items + [encoded]))
  }

  /** `CborArrayEncoder.map { … }`: appends a nested map as one item. */
  function AddMap(a: ArrayBuilder, b: MapBuilder): (r: ArrayBuilder)
    requires |a.items| < INT_MAX
    ensures |r.items| == |a.items| + 1 && r.items[..|a.items|] == a.items
    ensures CountPrefixed(r.items[|a.items|], 5, b.entries)
  {
    CountForm(5, b.entries);
    ArrayBuilder(a.items + [MapBytes(b)])
  }

  /** `CborEncoder.map { … }`: writes one finished map to the output. */
  function WriteMap(e: Encoder, b: MapBuilder): (r: Encoder)
    ensures |e.out| <= |r.out| && r.out[..|e.out|] == e.out
    ensures CountPrefixed(r.out[|e.out|..], 5, b.entries)
  {
    var bytes := MapBytes(b);
    CountForm(5, b.entries);
    assert (e.out + bytes)[|e.out|..] == bytes;
    Encoder(e.out + bytes)
  }

  /** Each map's finished bytes, in order. */
  function MapChunks(maps: seq<MapBuilder>): (r: seq<seq<byte>>)
    ensures |r| == |maps|
  {
    if |maps| == 0 then [] else [MapBytes(maps[0])] + MapChunks(maps[1..])
  }

  /** `cbor { map { … } … }`: the maps of the block, one after another, on a
      fresh encoder. */
  function Cbor(maps: seq<MapBuilder>): (r: seq<byte>)
    ensures |r| >= |maps|
  {
    WriteAll(Encoder([]), maps).out
  }

  function WriteAll(e: Encoder, maps: seq<MapBuilder>): (r: Encoder)
    ensures |r.out| >= |e.out| + |maps|
    decreases maps
  {
    if |maps| == 0 then e else WriteAll(WriteMap(e, maps[0]), maps[1..])
  }

  /** The block's output is each map's bytes, in the order written. */
  lemma {:induction false} WriteAllOutput(e: Encoder, maps: seq<MapBuilder>)
    ensures WriteAll(e, maps).out == e.out + Flatten(MapChunks(maps))
    decreases maps
  {
    if |maps| > 0 {
      var next := WriteMap(e, maps[0]);
      WriteAllOutput(next, maps[1..]);
      assert MapChunks(maps)[1..] == MapChunks(maps[1..]);
    }
  }

  /** A block with maps `maps` is those maps' bytes, concatenated in order. */
  lemma {:induction false} CborOutput(maps: seq<MapBuilder>)
    ensures Cbor(maps) == Flatten(MapChunks(maps))
    ensures forall i :: 0 <= i < |maps| ==> MapChunks(maps)[i] == MapBytes(maps[i])
  {
    WriteAllOutput(Encoder([]), maps);
    MapChunksAt(maps);
  }

  lemma {:induction false} MapChunksAt(maps: seq<MapBuilder>)
    ensures forall i :: 0 <= i < |maps| ==> MapChunks(maps)[i] == MapBytes(maps[i])
  {
    if |maps| > 0 {
      MapChunksAt(maps[1..]);
      assert forall i :: 1 <= i < |maps| ==> MapChunks(maps)[i] == MapChunks(maps[1..])[i - 1];
    }
  }

  /** The builder state after `key to value` for each pair, in order. */
  function BuildMap(pairs: seq<(Key, Value)>): (r: Result<MapBuilder, EncodeError>)
    requires |pairs| <= INT_MAX
    ensures r.Success? <==> forall i :: 0 <= i < |pairs| ==> !HoldsMap(pairs[i].1)
    ensures r.Success? ==> |r.value.entries| == |pairs|
  {
    if |pairs| == 0 then Success(MapBuilder([]))
    else
      var init := pairs[..|pairs| - 1];
      var last := pairs[|pairs| - 1];
      assert forall i :: 0 <= i < |init| ==> init[i] == pairs[i];
      assert (forall i :: 0 <= i < |pairs| ==> !HoldsMap(pairs[i].1)) <==>
        (forall i :: 0 <= i < |init| ==> !HoldsMap(init[i].1)) && !HoldsMap(last.1);
      var built :- BuildMap(init);
      PutEntry(built, last.0, last.1)
  }

  /** Entry `i` of a built map is the `i`-th pair, encoded. */
  lemma {:induction false} BuildMapEntry(pairs: seq<(Key, Value)>, i: nat)
    requires |pairs| <= INT_MAX && BuildMap(pairs).Success? && i < |pairs|
    ensures EncodeValue(pairs[i].1).Success?
    ensures BuildMap(pairs).value.entries[i] == EncodeKey(pairs[i].0) + EncodeValue(pairs[i].1).value
  {
    var init := pairs[..|pairs| - 1];
    BuildMapLast(pairs);
    if i < |pairs| - 1 {
      BuildMapEntry(init, i);
      assert init[i] == pairs[i];
    }
  }

  /** Building one more pair appends exactly that pair's entry. */
  lemma {:induction false} BuildMapLast(pairs: seq<(Key, Value)>)
    requires 0 < |pairs| <= INT_MAX && BuildMap(pairs).Success?
    ensures BuildMap(pairs[..|pairs| - 1]).Success?
    ensures EncodeValue(pairs[|pairs| - 1].1).Success?
    ensures BuildMap(pairs).value.entries ==
      BuildMap(pairs[..|pairs| - 1]).value.entries
        + [EncodeKey(pairs[|pairs| - 1].0) + EncodeValue(pairs[|pairs| - 1].1).value]
  {
  }

  /** The array builder state after `add(value)` for each value, in order. */
  function BuildArray(values: seq<Value>): (r: Result<ArrayBuilder, EncodeError>)
    requires |values| <= INT_MAX
    ensures r.Success? <==> forall i :: 0 <= i < |values| ==> !HoldsMap(values[i])
    ensures r.Success? ==> |r.value.items| == |values|
  {
    if |values| == 0 then Success(ArrayBuilder([]))
    else
      var init := values[..|values| - 1];
      assert forall i :: 0 <= i < |init| ==> init[i] == values[i];
      assert (forall i :: 0 <= i < |values| ==> !HoldsMap(values[i])) <==>
        (forall i :: 0 <= i < |init| ==> !HoldsMap(init[i])) && !HoldsMap(values[|values| - 1]);
      var built :- BuildArray(init);
      Add(built, values[|values| - 1])
  }

  /** Item `i` of a built array is the `i`-th value, encoded. */
  lemma {:induction false} BuildArrayItem(values: seq<Value>, i: nat)
    requires |values| <= INT_MAX && BuildArray(values).Success? && i < |values|
    ensures EncodeValue(values[i]).Success?
    ensures BuildArray(values).value.items[i] == EncodeValue(values[i]).value
  {
    var init := values[..|values| - 1];
    BuildArrayLast(values);
    if i < |values| - 1 {
      BuildArrayItem(init, i);
      assert init[i] == values[i];
    }
  }

  /** Adding one more value appends exactly that value's encoding. */
  lemma {:induction false} BuildArrayLast(values: seq<Value>)
    requires 0 < |values| <= INT_MAX && BuildArray(values).Success?
    ensures BuildArray(values[..|values| - 1]).Success?
    ensures EncodeValue(values[|values| - 1]).Success?
    ensures BuildArray(values).value.items ==
      BuildArray(values[..|values| - 1]).value.items + [EncodeValue(values[|values| - 1]).value]
  {
  }

  /** An array block built by `add` calls holds exactly what `encodeValue`
      writes for the list of those values. */
  lemma {:induction false} ArrayBlockIsList(values: seq<Value>)
    requires |values| <= INT_MAX && BuildArray(values).Success?
    ensures EncodeValue(Array(values)).Success?
    ensures ArrayBytes(BuildArray(values).value) == EncodeValue(Array(values)).value
  {
    var items := BuildArray(values).value.items;
    var encs := EncodeItems(values).value;
    forall i | 0 <= i < |values| ensures items[i] == encs[i] {
      BuildArrayItem(values, i);
      EncodeItemsAt(values, i);
    }
    assert items == encs;
  }

  /** An array's `map { … }` appends the same item as adding the nested
      map's raw bytes. */
  lemma {:induction false} AddMapIsRaw(a: ArrayBuilder, b: MapBuilder)
    requires |a.items| < INT_MAX
    ensures Add(a, NestedMap(b)) == Success(AddMap(a, b))
  {
  }
}
