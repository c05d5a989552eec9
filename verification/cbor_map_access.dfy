/** `CborMap`: the typed view the CTAP layer takes of a decoded response
    map. Keys are a Kotlin `Int` or `String`; values are read back with safe
    casts, so a missing key and a value of another type both give `null`. */
module CborMapAccess {
  import opened Results
  import opened Bytes
  import opened CborValue
  import opened CborHeader
  import opened CborBuilder
  import opened CborDecoder
  import opened CborRoundTrip

  /** A decoded map, wrapped. */
  datatype CborMap = CborMap(raw: JvmList<(Value, Value)>)

  /** `mapList` wraps each list element as a `CborMap`: an element that is
      not a map fails the cast to `Map`, and a `null` element fails the
      constructor's non-null parameter check. */
  datatype CastError = NotAMap(element: Value)

  /** `raw[key]`: the stored value, or `null` when there is none. */
  function Stored(entries: seq<(Value, Value)>, key: Value): (r: Value)
    ensures r != Null ==> ContainsKey(entries, key)
  {
    match Lookup(entries, key)
    case Some(v) => v
    case None => Null
  }

  /** `containsKey`: an `Int` key is looked for both as the `Long` the
      decoder produces and as an `Int`. */
  predicate Contains(m: CborMap, key: Key)
  {
    match key
    case IntKey(k) => ContainsKey(m.raw, Long(k)) || ContainsKey(m.raw, Int(k))
    case TextKey(s) => ContainsKey(m.raw, Text(s))
  }

  /** `get`: an `Int` key is tried as a `Long` first, and as an `Int` when
      that gives `null` (the Elvis operator cannot tell a missing key from a
      stored `null`). */
  function Get(m: CborMap, key: Key): (r: Value)
    ensures r != Null ==> Contains(m, key)
    ensures key.IntKey? && Stored(m.raw, Long(key.k)) != Null ==> r == Stored(m.raw, Long(key.k))
    ensures key.IntKey? && Stored(m.raw, Long(key.k)) == Null ==> r == Stored(m.raw, Int(key.k))
    ensures key.TextKey? ==> r == Stored(m.raw, Text(key.utf8))
  {
    match key
    case IntKey(k) =>
      var asLong := Stored(m.raw, Long(k));
      if asLong != Null then asLong else Stored(m.raw, Int(k))
    case TextKey(s) => Stored(m.raw, Text(s))
  }

  /** The mathematical value of a Kotlin `Number` the decoder can produce. */
  function NumberOf(v: Value): Option<int>
  {
    match v
    case Int(i) => Some(i)
    case Long(l) => Some(l)
    case _ => None
  }

  /** `int(key)`: `(get(key) as? Number)?.toInt()`, which keeps the low 32
      bits of a `Long`. */
  function GetInt(m: CborMap, key: Key): (r: Option<int32>)
    ensures r.Some? <==> NumberOf(Get(m, key)).Some?
    ensures r.Some? ==> (NumberOf(Get(m, key)).value - r.value) % TWO_32 == 0
    ensures r.Some? && -0x8000_0000 <= NumberOf(Get(m, key)).value <= INT_MAX ==> r.value == NumberOf(Get(m, key)).value
  {
    match Get(m, key)
    case Int(i) => Some(i)
    case Long(l) => Some(ToInt32(l))
    case _ => None
  }

  /** `long(key)`: `(get(key) as? Number)?.toLong()`, exact for both kinds. */
  function GetLong(m: CborMap, key: Key): (r: Option<int64>)
    ensures r.Some? <==> NumberOf(Get(m, key)).Some?
    ensures r.Some? ==> r.value == NumberOf(Get(m, key)).value
  {
    match Get(m, key)
    case Int(i) => Some(i)
    case Long(l) => Some(l)
    case _ => None
  }

  /** `bool(key)`: `get(key) as? Boolean`. */
  function GetBool(m: CborMap, key: Key): (r: Option<bool>)
    ensures forall b :: r == Some(b) <==> Get(m, key) == Bool(b)
  {
    match Get(m, key)
    case Bool(b) => Some(b)
    case _ => None
  }

  /** `string(key)`: `get(key) as? String`. */
  function GetString(m: CborMap, key: Key): (r: Option<ByteArray>)
    ensures r.None? <==> !Get(m, key).Text?
    ensures r.Some? ==> Get(m, key) == Text(r.value)
  {
    match Get(m, key)
    case Text(s) => Some(s)
    case _ => None
  }

  /** `bytes(key)`: `get(key) as? ByteArray`. An already encoded `CborRaw`
      is not a byte array. */
  function GetBytes(m: CborMap, key: Key): (r: Option<ByteArray>)
    ensures r.None? <==> !Get(m, key).ByteString?
    ensures r.Some? ==> Get(m, key) == ByteString(r.value)
  {
    match Get(m, key)
    case ByteString(b) => Some(b)
    case _ => None
  }

  /** `map(key)`: a nested map, wrapped again. */
  function GetMap(m: CborMap, key: Key): (r: Option<CborMap>)
    ensures r.None? <==> !Get(m, key).Map?
    ensures r.Some? ==> Get(m, key) == Map(r.value.raw)
  {
    match Get(m, key)
    case Map(entries) => Some(CborMap(entries))
    case _ => None
  }

  /** `list(key)`: `get(key) as? List<T>`. The element type is erased, so
      the elements are not checked here. */
  function GetList(m: CborMap, key: Key): (r: Option<JvmList<Value>>)
    ensures r.None? <==> !Get(m, key).Array?
    ensures r.Some? ==> Get(m, key) == Array(r.value)
  {
    match Get(m, key)
    case Array(items) => Some(items)
    case _ => None
  }

  /** Wraps each element of a list as a map, failing at the first that is
      not one. */
  function WrapMaps(items: JvmList<Value>): (r: Result<seq<CborMap>, CastError>)
    ensures r.Success? <==> forall i :: 0 <= i < |items| ==> items[i].Map?
    ensures r.Success? ==> |r.value| == |items|
    ensures r.Success? ==> forall i :: 0 <= i < |items| ==> items[i] == Map(r.value[i].raw)
  {
    if |items| == 0 then Success([])
    else if !items[0].Map? then Failure(NotAMap(items[0]))
    else
      var rest :- WrapMaps(items[1..]);
      assert forall i :: 1 <= i < |items| ==> items[i] == items[1..][i - 1];
      Success([CborMap(items[0].entries)] + rest)
  }

  /** `mapList(key)`: `list<Map>(key)?.map { CborMap(it) }`. A missing key or
      a non-list gives `null`; a list holding anything but maps throws. */
  function GetMapList(m: CborMap, key: Key): (r: Result<Option<seq<CborMap>>, CastError>)
    ensures GetList(m, key).None? ==> r == Success(None)
    ensures r.Failure? <==> GetList(m, key).Some? && exists i :: 0 <= i < |GetList(m, key).value| && !GetList(m, key).value[i].Map?
    ensures r.Success? && r.value.Some? ==>
              && GetList(m, key).Some?
              && |r.value.value| == |GetList(m, key).value|
              && forall i :: 0 <= i < |r.value.value| ==> GetList(m, key).value[i] == Map(r.value.value[i].raw)
  {
    match GetList(m, key)
    case None => Success(None)
    case Some(items) =>
      var maps :- WrapMaps(items);
      Success(Some(maps))
  }

  /** `CborMap.decode`: decode one item and keep it only if it is a map.
      Decoding errors propagate as exceptions. */
  function MapDecode(data: seq<byte>): (r: Result<Option<CborMap>, DecodeError>)
    ensures r.Success? <==> Decode(data).Success?
    ensures r.Success? && r.value.Some? <==> Decode(data).Success? && Decode(data).value.Map?
    ensures r.Success? && r.value.Some? ==> Decode(data).value == Map(r.value.value.raw)
  {
    var v :- Decode(data);
    if v.Map? then Success(Some(CborMap(v.entries))) else Success(None)
  }

  /** No key of the entries is a Kotlin `Int`: the decoder yields every
      integer as a `Long`. */
  predicate NoIntKeys(entries: seq<(Value, Value)>)
  {
    forall i :: 0 <= i < |entries| ==> !entries[i].0.Int?
  }

  /** In a map without `Int` keys, `get` and `containsKey` with an `Int` key
      are plain lookups of the corresponding `Long`. */
  lemma {:induction false} IntKeyIsLongKey(m: CborMap, k: int32)
    requires NoIntKeys(m.raw)
    ensures Get(m, IntKey(k)) == Stored(m.raw, Long(k))
    ensures Contains(m, IntKey(k)) <==> ContainsKey(m.raw, Long(k))
  {
    assert forall i :: 0 <= i < |m.raw| ==> !Same(m.raw[i].0, Int(k));
  }

  /** A missing key reads as `null` through every accessor. */
  lemma {:induction false} MissingKeyReadsNull(m: CborMap, key: Key)
    requires !Contains(m, key)
    ensures Get(m, key) == Null
    ensures GetInt(m, key).None? && GetLong(m, key).None? && GetBool(m, key).None?
    ensures GetString(m, key).None? && GetBytes(m, key).None?
    ensures GetMap(m, key).None? && GetList(m, key).None? && GetMapList(m, key) == Success(None)
  {
  }

  /** Putting a non-`Int` key keeps a map free of `Int` keys. */
  lemma {:induction false} PutNoIntKeys(entries: seq<(Value, Value)>, key: Value, value: Value)
    requires NoIntKeys(entries) && !key.Int?
    ensures NoIntKeys(Put(entries, key, value))
  {
    PutSize(entries, key, value);
    PutKeepsKeys(entries, key, value);
  }

  lemma {:induction false} PutAllNoIntKeys(acc: seq<(Value, Value)>, pairs: seq<(Value, Value)>)
    requires NoIntKeys(acc) && NoIntKeys(pairs)
    ensures NoIntKeys(PutAll(acc, pairs))
    decreases |pairs|
  {
    if |pairs| > 0 {
      PutNoIntKeys(acc, pairs[0].0, pairs[0].1);
      assert NoIntKeys(pairs[1..]) by {
        forall i | 0 <= i < |pairs[1..]| ensures !pairs[1..][i].0.Int? {
          assert pairs[1..][i] == pairs[i + 1];
        }
      }
      PutAllNoIntKeys(Put(acc, pairs[0].0, pairs[0].1), pairs[1..]);
    }
  }

  /** The pairs built from builder keys carry the keys' decoded forms. */
  lemma {:induction false} DecodedPairsAt(pairs: seq<(Key, Value)>)
    ensures forall i :: 0 <= i < |pairs| ==> DecodedPairs(pairs)[i] == (DecodedKey(pairs[i].0), AsDecoded(pairs[i].1))
  {
    if |pairs| > 0 {
      DecodedPairsAt(pairs[1..]);
      forall i | 1 <= i < |pairs|
        ensures DecodedPairs(pairs)[i] == (DecodedKey(pairs[i].0), AsDecoded(pairs[i].1))
      {
        assert DecodedPairs(pairs)[i] == DecodedPairs(pairs[1..])[i - 1];
        assert pairs[1..][i - 1] == pairs[i];
      }
    }
  }

  /** Putting a list of pairs one more pair is one more `put`. */
  lemma {:induction false} PutAllSnoc(acc: seq<(Value, Value)>, pairs: seq<(Value, Value)>, last: (Value, Value))
    ensures PutAll(acc, pairs + [last]) == Put(PutAll(acc, pairs), last.0, last.1)
    decreases |pairs|
  {
    if |pairs| == 0 {
      assert pairs + [last] == [last];
      assert [last][1..] == [];
    } else {
      assert (pairs + [last])[0] == pairs[0];
      assert (pairs + [last])[1..] == pairs[1..] + [last];
      PutAllSnoc(Put(acc, pairs[0].0, pairs[0].1), pairs[1..], last);
    }
  }

  /** The map `CborMap.decode` gives for a request built from `pairs`: the
      `LinkedHashMap` the decoder fills by putting each decoded pair. */
  lemma {:induction false} DecodeBuiltMap(pairs: seq<(Key, Value)>)
    requires |pairs| <= INT_MAX
    requires forall i :: 0 <= i < |pairs| ==> Plain(pairs[i].1)
    ensures BuildMap(pairs).Success?
    ensures MapDecode(Cbor([BuildMap(pairs).value])) == Success(Some(CborMap(PutAll([], DecodedPairs(pairs)))))
    ensures NoIntKeys(PutAll([], DecodedPairs(pairs)))
  {
    DecodeBuiltRequest(pairs);
    DecodedPairsAt(pairs);
    PutAllNoIntKeys([], DecodedPairs(pairs));
  }

  /** Puts under keys other than `key` leave its lookup as it was. */
  lemma {:induction false} PutAllLeavesOtherKeys(acc: seq<(Value, Value)>, pairs: seq<(Value, Value)>, key: Value)
    requires forall i :: 0 <= i < |pairs| ==> !Same(pairs[i].0, key)
    ensures Lookup(PutAll(acc, pairs), key) == Lookup(acc, key)
    decreases |pairs|
  {
    if |pairs| > 0 {
      PutLeavesOtherKeys(acc, pairs[0].0, pairs[0].1, key);
      assert forall i :: 0 <= i < |pairs| - 1 ==> pairs[1..][i] == pairs[i + 1];
      PutAllLeavesOtherKeys(Put(acc, pairs[0].0, pairs[0].1), pairs[1..], key);
    }
  }

  /** Putting two runs of pairs is putting the first, then the second. */
  lemma {:induction false} PutAllAppend(acc: seq<(Value, Value)>, a: seq<(Value, Value)>, b: seq<(Value, Value)>)
    ensures PutAll(acc, a + b) == PutAll(PutAll(acc, a), b)
    decreases |a|
  {
    if |a| == 0 {
      assert a + b == b;
    } else {
      assert (a + b)[0] == a[0] && (a + b)[1..] == a[1..] + b;
      PutAllAppend(Put(acc, a[0].0, a[0].1), a[1..], b);
    }
  }

  /** When a key is written several times, the decoded map holds the value
      of the last pair `j` written under it. */
  lemma {:induction false} LastPairWins(all: seq<(Key, Value)>, key: Key, j: nat)
    requires j < |all| && DecodedKey(all[j].0) == DecodedKey(key)
    requires forall i :: j < i < |all| ==> DecodedKey(all[i].0) != DecodedKey(key)
    ensures Lookup(PutAll([], DecodedPairs(all)), DecodedKey(key)) == Some(AsDecoded(all[j].1))
  {
    DecodedPairsAt(all);
    var decoded := DecodedPairs(all);
    var k := DecodedKey(key);
    var before, after := decoded[..j], decoded[j + 1..];
    assert decoded == (before + [decoded[j]]) + after;
    PutAllAppend([], before + [decoded[j]], after);
    PutAllSnoc([], before, decoded[j]);
    PutThenLookup(PutAll([], before), k, AsDecoded(all[j].1));
    assert forall i :: 0 <= i < |after| ==> after[i] == decoded[j + 1 + i];
    PutAllLeavesOtherKeys(PutAll([], before + [decoded[j]]), after, k);
  }

  /** A key no pair was written under is not in the decoded map. */
  lemma {:induction false} UnwrittenKeyMissing(all: seq<(Key, Value)>, key: Key)
    requires forall i :: 0 <= i < |all| ==> DecodedKey(all[i].0) != DecodedKey(key)
    ensures Lookup(PutAll([], DecodedPairs(all)), DecodedKey(key)) == None
  {
    DecodedPairsAt(all);
    PutAllLeavesOtherKeys([], DecodedPairs(all), DecodedKey(key));
  }

  /** The accessor reads back what the builder wrote: after building a
      request and decoding it, a key is present and `get` returns the value
      of the last pair written under it, as the decoder produces it. */
  lemma {:induction false} BuiltKeyReadsBack(pairs: seq<(Key, Value)>, key: Key, j: nat)
    requires |pairs| <= INT_MAX
    requires forall i :: 0 <= i < |pairs| ==> Plain(pairs[i].1)
    requires j < |pairs| && DecodedKey(pairs[j].0) == DecodedKey(key)
    requires forall i :: j < i < |pairs| ==> DecodedKey(pairs[i].0) != DecodedKey(key)
    ensures BuildMap(pairs).Success?
    ensures MapDecode(Cbor([BuildMap(pairs).value])).Success?
    ensures MapDecode(Cbor([BuildMap(pairs).value])).value.Some?
    ensures Contains(MapDecode(Cbor([BuildMap(pairs).value])).value.value, key)
    ensures Get(MapDecode(Cbor([BuildMap(pairs).value])).value.value, key) == AsDecoded(pairs[j].1)
  {
    DecodeBuiltMap(pairs);
    LastPairWins(pairs, key, j);
    var m := CborMap(PutAll([], DecodedPairs(pairs)));
    match key
    case IntKey(k) => IntKeyIsLongKey(m, k);
    case TextKey(s) =>
  }

  /** A key the request never wrote is absent from the decoded map, so
      every accessor gives `null` for it. */
  lemma {:induction false} UnwrittenKeyReadsNull(pairs: seq<(Key, Value)>, key: Key)
    requires |pairs| <= INT_MAX
    requires forall i :: 0 <= i < |pairs| ==> Plain(pairs[i].1)
    requires forall i :: 0 <= i < |pairs| ==> DecodedKey(pairs[i].0) != DecodedKey(key)
    ensures BuildMap(pairs).Success?
    ensures MapDecode(Cbor([BuildMap(pairs).value])).Success?
    ensures MapDecode(Cbor([BuildMap(pairs).value])).value.Some?
    ensures !Contains(MapDecode(Cbor([BuildMap(pairs).value])).value.value, key)
    ensures Get(MapDecode(Cbor([BuildMap(pairs).value])).value.value, key) == Null
  {
    DecodeBuiltMap(pairs);
    UnwrittenKeyMissing(pairs, key);
    var m := CborMap(PutAll([], DecodedPairs(pairs)));
    if key.IntKey? {
      IntKeyIsLongKey(m, key.k);
    }
    MissingKeyReadsNull(m, key);
  }
}
