/** The objects the CBOR codec exchanges with the rest of the app. The Kotlin
    code passes them around as `Any?`; here they form one closed type, so
    that both what the encoder accepts and what the decoder produces can be
    described precisely. Decoded maps are `LinkedHashMap`s, modelled as an
    insertion-ordered list of entries with the JVM's key equality. */
module CborValue {
  import opened Results
  import opened Bytes

  datatype Value =
    | Null                                   // Kotlin `null`
    | Bool(b: bool)                          // `Boolean`
    | Int(i: int32)                          // `Int`: the encoder accepts it, the decoder never yields it
    | Long(l: int64)                         // `Long`: every integer the decoder yields
    | ByteString(bytes: ByteArray)           // `ByteArray`
    | Text(utf8: ByteArray)                  // `String`, held as its UTF-8 bytes
    | Raw(encoded: seq<byte>)                // `CborRaw`: an already encoded item
    | Array(items: JvmList<Value>)           // `List<*>`
    | Map(entries: JvmList<(Value, Value)>)  // `Map<*, *>`, in insertion order

  /** The keys the typed accessors and the map builder accept: a Kotlin
      `Int` or a `String` (held as its UTF-8 bytes). */
  datatype Key = IntKey(k: int32) | TextKey(utf8: ByteArray)

  /** True iff a byte array occurs anywhere inside `v`. A JVM `ByteArray`
      compares by identity, so a value holding a freshly decoded one never
      equals another value, and neither does a list or map containing it. */
  predicate HasByteArray(v: Value)
  {
    match v
    case ByteString(_) => true
    case Array(items) =>
      exists i :: 0 <= i < |items| && HasByteArray(items[i])
    case Map(entries) =>
      exists i :: 0 <= i < |entries| && EntryHasByteArray(v, entries[i])
    case _ => false
  }

  predicate EntryHasByteArray(parent: Value, e: (Value, Value))
    requires parent.Map? && e in parent.entries
    decreases parent, 0
  {
    HasByteArray(e.0) || HasByteArray(e.1)
  }

  /** `a.equals(b)` for decoded values used as map keys. */
  predicate Same(a: Value, b: Value)
  {
    a == b && !HasByteArray(a)
  }

  predicate ContainsKey(entries: seq<(Value, Value)>, key: Value)
  {
    exists i :: 0 <= i < |entries| && Same(entries[i].0, key)
  }

  /** `map[key]`: the value stored under the first key equal to `key`. */
  function Lookup(entries: seq<(Value, Value)>, key: Value): (r: Option<Value>)
    ensures r.None? <==> !ContainsKey(entries, key)
    ensures r.Some? ==> exists i :: 0 <= i < |entries| && Same(entries[i].0, key) && entries[i].1 == r.value
  {
    if |entries| == 0 then None
    else if Same(entries[0].0, key) then Some(entries[0].1)
    else
      var r := Lookup(entries[1..], key);
      assert forall i :: 1 <= i < |entries| ==> entries[i] == entries[1..][i - 1];
      r
  }

  /** `map[key] = value` on a `LinkedHashMap`: an existing equal key keeps
      its position and gets the new value; a new key is appended. */
  function Put(entries: seq<(Value, Value)>, key: Value, value: Value): (r: seq<(Value, Value)>)
    ensures |entries| <= |r| <= |entries| + 1
  {
    if |entries| == 0 then [(key, value)]
    else if Same(entries[0].0, key) then [(entries[0].0, value)] + entries[1..]
    else [entries[0]] + Put(entries[1..], key, value)
  }

  /** `ContainsKey` on a list is decided by its head and then its tail. */
  lemma {:induction false} ContainsKeyTail(entries: seq<(Value, Value)>, key: Value)
    requires |entries| > 0 && !Same(entries[0].0, key)
    ensures ContainsKey(entries, key) <==> ContainsKey(entries[1..], key)
  {
    var rest := entries[1..];
    if ContainsKey(entries, key) {
      var i :| 0 <= i < |entries| && Same(entries[i].0, key);
      assert rest[i - 1] == entries[i];
    }
    if ContainsKey(rest, key) {
      var i :| 0 <= i < |rest| && Same(rest[i].0, key);
      assert entries[i + 1] == rest[i];
    }
  }

  /** The size grows only for a new key, and a new key goes last. */
  lemma {:induction false} PutSize(entries: seq<(Value, Value)>, key: Value, value: Value)
    ensures ContainsKey(entries, key) ==> |Put(entries, key, value)| == |entries|
    ensures !ContainsKey(entries, key) ==> Put(entries, key, value) == entries + [(key, value)]
  {
    if |entries| > 0 && !Same(entries[0].0, key) {
      ContainsKeyTail(entries, key);
      PutSize(entries[1..], key, value);
      assert entries == [entries[0]] + entries[1..];
    } else if |entries| > 0 {
      assert Same(entries[0].0, key);
    }
  }

  /** The keys already present stay where they are, and every entry under
      another key is left as it was. */
  lemma {:induction false} PutKeepsKeys(entries: seq<(Value, Value)>, key: Value, value: Value)
    ensures forall i :: 0 <= i < |entries| ==> Put(entries, key, value)[i].0 == entries[i].0
    ensures forall i :: 0 <= i < |entries| && !Same(entries[i].0, key) ==> Put(entries, key, value)[i] == entries[i]
  {
    if |entries| > 0 && !Same(entries[0].0, key) {
      var rest := Put(entries[1..], key, value);
      PutKeepsKeys(entries[1..], key, value);
      assert forall i :: 1 <= i < |entries| ==> ([entries[0]] + rest)[i] == rest[i - 1];
    } else if |entries| > 0 {
      assert forall i :: 1 <= i < |entries| ==> Put(entries, key, value)[i] == entries[i];
    }
  }

  /** A put under one key does not change what a lookup of another key finds. */
  lemma {:induction false} PutLeavesOtherKeys(entries: seq<(Value, Value)>, key: Value, value: Value, other: Value)
    requires !Same(key, other)
    ensures Lookup(Put(entries, key, value), other) == Lookup(entries, other)
    decreases |entries|
  {
    var r := Put(entries, key, value);
    if |entries| == 0 {
      LookupFirst([(key, value)], other);
    } else {
      LookupFirst(r, other);
      LookupFirst(entries, other);
      if Same(entries[0].0, key) {
        assert r[0].0 == entries[0].0 && r[1..] == entries[1..];
      } else {
        PutLeavesOtherKeys(entries[1..], key, value, other);
        assert r[0] == entries[0] && r[1..] == Put(entries[1..], key, value);
      }
    }
  }

  /** A lookup checks the first entry, then the rest. */
  lemma {:induction false} LookupFirst(entries: seq<(Value, Value)>, key: Value)
    requires |entries| > 0
    ensures Lookup(entries, key) == if Same(entries[0].0, key) then Some(entries[0].1) else Lookup(entries[1..], key)
  {
  }

  /** After `map[key] = value`, `map[key]` is `value`, unless the key holds a
      byte array, which no lookup can find. */
  lemma {:induction false} PutThenLookup(entries: seq<(Value, Value)>, key: Value, value: Value)
    ensures !HasByteArray(key) ==> Lookup(Put(entries, key, value), key) == Some(value)
  {
    if |entries| > 0 && !Same(entries[0].0, key) {
      var rest := Put(entries[1..], key, value);
      PutThenLookup(entries[1..], key, value);
      assert ([entries[0]] + rest)[1..] == rest;
    }
  }
}
