# Authnkey CBOR codec and NFC transport, modelled in Dafny

Authnkey is an Android app that acts as a FIDO2 client: it talks CTAP2 to
a security key over NFC. This project models two parts of it.

The first part is the small CBOR codec that CTAP2 messages are written and
read with (`Cbor.kt`). It covers:

- the header writers `encodeHeader` / `encodeHeaderLong`;
- the scalar encoders and `encodeValue`;
- the `cbor { map { … } }` builder DSL;
- the single-pass `CborDecoder` (`readValue`, `readUnsigned`, the string,
  array and map readers);
- the typed accessors of `CborMap`;
- the hex helpers `toHex` and `hexToByteArray`.

The second part is the ISO 7816-4 framing of `NfcTransport.kt`. It covers:

- `buildApdu`, which wraps a CTAP message in an NFCCTAP_MSG command;
- `isSuccess`;
- the fixed `SELECT_FIDO_APPLET` command;
- `selectFidoApplet`;
- the response loop of `sendCtapCommand`, which collects the data of
  every frame and answers each 61xx status with GET RESPONSE.

## How the model is built

- **Values and bytes.** Kotlin's `Any?` values become one closed datatype,
  `CborValue.Value`. Bytes are the unsigned `byte` subtype. Kotlin's
  `.toByte()`, `.toInt()` and the reading of 64 bits into a `Long` are
  spelled out as explicit wrap-arounds (`Bytes.ToByte`, `Bytes.ToInt32`,
  `Bytes.Signed64`).
- **Decoder and maps.** The decoder takes the cursor and returns the value
  read together with the new cursor. A read past the end, which throws in
  Kotlin, becomes a `Failure`. Decoded maps are `LinkedHashMap`s, so they
  are modelled as insertion-ordered entry lists. A `put` with an existing
  key replaces that key's value in place.
- **Key equality.** Keys compare with the JVM's `equals`. Decoded integers
  are always `Long`, and a `Long` never equals an `Int`. A `ByteArray`
  compares by identity, so no lookup ever finds a key that holds a
  decoded byte string.
- **The tag.** It is not modelled as a device. Each `transceive` call
  takes the next entry of a list of replies: a frame, a lost tag, a
  security exception or another I/O error. A call made after the list is
  used up behaves as a timeout. Every property of the exchange therefore
  holds whatever the authenticator answers.
- **Reference parser.** `Apdu.ParseCommand` reads a command APDU back by
  the four cases of section 5.1 of ISO/IEC 7816-4, short and extended
  forms. The APDU builders are checked against it.

### What the model proves

- **Round trips.**
  - Decoding what `encodeValue` wrote gives the value back, except that
    every integer comes back as a `Long`. This covers `CborRaw` splices
    whose bytes hold one complete item, which is what the nested
    `map { … }`, `array { … }` and `bytes(…)` builders produce, and each of
    those three is shown to produce such a splice.
  - Decoding a request built with the map DSL gives the map the decoder
    fills by putting each pair in turn. Reading back through `CborMap`
    then finds, for every key, the value of the last pair written under
    it, and `null` for a key never written.
  - The decoder's lenient paths are stated too: end of input reads as
    `null`, tags and unknown simple values read as `null`, and an array
    announcing more items than the input holds is padded with `null`.
  - `hexToByteArray(toHex(b)) == b`, and hex digits of either case come
    back in upper case.
- **The APDU builder.**
  - A message of 1 to 255 bytes is a well-formed short case 4 command.
  - A message of 256 to 65535 bytes is a well-formed extended case 4
    command.
  - Two edge cases follow directly from the code. An empty message yields
    `80 10 00 00 00 00`, which no case of the standard accepts
    (`Apdu.EmptyApduMalformed`). A message over 65535 bytes gets a
    length field holding only the low 16 bits of its size
    (`Apdu.OverlongApduWraps`). CTAP messages always hold at least a
    command byte and stay far below 64 KiB, so neither case is reported
    as a defect.
- **The response loop.**
  - It sends exactly one GET RESPONSE per 61xx frame, asking for the
    length that frame announced.
  - A successful response is the concatenation of the data of every frame
    received.
  - Any other status word ends the exchange with that status.
  - Only a lost tag closes the connection.

## Model

Paths are relative to the repository root. `Cbor.kt` and `NfcTransport.kt`
both live in `app/src/main/java/pl/lebihan/authnkey/`.

| member | source | states |
|---|---|---|
| Bytes.ToByte | app/src/main/java/pl/lebihan/authnkey/Cbor.kt:94-107 | `.toByte()` keeps the value modulo 256 |
| Bytes.ToInt32 | app/src/main/java/pl/lebihan/authnkey/Cbor.kt:219 | `Long.toInt()` keeps the value modulo 2^32 and is exact for values that fit an `Int` |
| Bytes.Signed64 | app/src/main/java/pl/lebihan/authnkey/Cbor.kt:203-213 | eight bytes read into a `Long` equal the unsigned value modulo 2^64, and equal it exactly iff the top bit is clear |
| Bytes.FromBigEndianBound | app/src/main/java/pl/lebihan/authnkey/Cbor.kt:187-216 | an argument assembled from n bytes is below 256^n |
| Bytes.BigEndianInverse | app/src/main/java/pl/lebihan/authnkey/Cbor.kt:96-107 | assembling the bytes the header writer emits (`shr 8k` then `toByte`) gives the argument back |
| Bytes.FlattenAppend | app/src/main/java/pl/lebihan/authnkey/Cbor.kt:16 | writing the entries one after another and then one more entry appends that entry's bytes |
| CborHeader.InitialByte | app/src/main/java/pl/lebihan/authnkey/Cbor.kt:94 | `(major shl 5) or info` keeps both fields: major type and additional information read back unchanged |
| CborHeader.HeaderForm | app/src/main/java/pl/lebihan/authnkey/Cbor.kt:93-108 | `encodeHeader` writes a header of the given major type that denotes its argument, in the shortest form (RFC 8949 preferred serialization), never the 8-byte-argument form |
| CborHeader.LongHeaderForm | app/src/main/java/pl/lebihan/authnkey/Cbor.kt:110-136 | `encodeHeaderLong` writes a header denoting its argument in the shortest form, using the 8-byte argument from 2^32 on |
| CborHeader.HeaderWritersAgree | app/src/main/java/pl/lebihan/authnkey/Cbor.kt:93-136 | for every `Int` argument the two header writers emit identical bytes |
| CborHeader.HeaderBoundaries | app/src/main/java/pl/lebihan/authnkey/Cbor.kt:93-108 | the bytes at each form boundary: 23, 24, 255, 256, 65535, 65536 |
| CborHeader.LongHeaderBoundary | app/src/main/java/pl/lebihan/authnkey/Cbor.kt:125-135 | 2^32 is the first argument written with the 9-byte header |
| CborHeader.ReadUnsigned | app/src/main/java/pl/lebihan/authnkey/Cbor.kt:187-216 | reading the argument fails (index out of bounds) exactly when its bytes run past the end; otherwise the cursor moves by the argument width |
| CborHeader.ReservedInfoReadsZero | app/src/main/java/pl/lebihan/authnkey/Cbor.kt:215 | additional information 28-31 reads as 0 and consumes nothing |
| CborHeader.ReadUnsignedInvertsHeader | app/src/main/java/pl/lebihan/authnkey/Cbor.kt:187-216 | reading any header written for a `Long`-sized argument yields the major type, the argument, and a cursor just past the header |
| CborEncoder.IntForm | app/src/main/java/pl/lebihan/authnkey/Cbor.kt:138-140 | `encodeInt` writes major type 0 with argument n for n ≥ 0 and major type 1 with argument −1−n otherwise, in the shortest form |
| CborEncoder.LongForm | app/src/main/java/pl/lebihan/authnkey/Cbor.kt:142-144 | the same for `encodeLong`, over the whole `Long` range |
| CborEncoder.LengthPrefixForm | app/src/main/java/pl/lebihan/authnkey/Cbor.kt:146-152 | `encodeText` and `encodeBytes` write a header announcing the payload length, followed by the payload verbatim |
| CborEncoder.EncodeValue | app/src/main/java/pl/lebihan/authnkey/Cbor.kt:78-91 | `encodeValue` succeeds exactly when no map occurs in the value, including inside lists |
| CborEncoder.EncodeItems | app/src/main/java/pl/lebihan/authnkey/Cbor.kt:86-88 | encoding a list's items succeeds iff every item can be encoded, and then gives one encoding per item |
| CborEncoder.EncodeItemsAt | app/src/main/java/pl/lebihan/authnkey/Cbor.kt:87 | item i of the encoded list is item i encoded on its own |
| CborBuilder.CountForm | app/src/main/java/pl/lebihan/authnkey/Cbor.kt:37-53 | a finished map or array block is a header counting its entries, followed by the entries in insertion order |
| CborBuilder.PutEntry | app/src/main/java/pl/lebihan/authnkey/Cbor.kt:29-35 | `key to value` succeeds iff the value can be encoded, and then appends exactly one entry: the key's encoding followed by the value's |
| CborBuilder.NestedMap | app/src/main/java/pl/lebihan/authnkey/Cbor.kt:37-44 | a nested map is a raw item: a major type 5 header counting the entries, then the entries |
| CborBuilder.NestedArray | app/src/main/java/pl/lebihan/authnkey/Cbor.kt:46-53 | a nested array is a raw item: a major type 4 header counting the items, then the items |
| CborBuilder.BytesValue | app/src/main/java/pl/lebihan/authnkey/Cbor.kt:55 | `bytes(data)` is a raw, length-prefixed major type 2 item |
| CborBuilder.Add | app/src/main/java/pl/lebihan/authnkey/Cbor.kt:61-63 | `add(value)` succeeds iff the value can be encoded, and then appends its encoding as one item |
| CborBuilder.AddMap | app/src/main/java/pl/lebihan/authnkey/Cbor.kt:65-72 | an array's `map { … }` keeps the earlier items and appends one complete map item |
| CborBuilder.WriteMap | app/src/main/java/pl/lebihan/authnkey/Cbor.kt:12-17 | the top-level `map { … }` keeps what was already written and appends one complete map |
| CborBuilder.WriteAllOutput | app/src/main/java/pl/lebihan/authnkey/Cbor.kt:12-17 | a series of top-level maps writes each map's bytes after the existing output, in order |
| CborBuilder.CborOutput | app/src/main/java/pl/lebihan/authnkey/Cbor.kt:3-7 | the bytes of a `cbor { … }` block are its maps' bytes, concatenated in the order written |
| CborBuilder.BuildMap | app/src/main/java/pl/lebihan/authnkey/Cbor.kt:29-35 | a run of `key to value` calls succeeds iff every value can be encoded, and then gives one entry per call |
| CborBuilder.BuildMapEntry | app/src/main/java/pl/lebihan/authnkey/Cbor.kt:29-35 | entry i of a built map is pair i's key and value, encoded |
| CborBuilder.BuildArray | app/src/main/java/pl/lebihan/authnkey/Cbor.kt:58-63 | a run of `add(value)` calls succeeds iff no value holds a map, and then gives one item per call |
| CborBuilder.BuildArrayItem | app/src/main/java/pl/lebihan/authnkey/Cbor.kt:61-63 | item i of a built array is value i, encoded |
| CborBuilder.ArrayBlockIsList | app/src/main/java/pl/lebihan/authnkey/Cbor.kt:46-53 | the block of a nested `array { add(…) … }` is byte for byte what `encodeValue` writes for the list of the same values |
| CborBuilder.AddMapIsRaw | app/src/main/java/pl/lebihan/authnkey/Cbor.kt:65-72 | an array's `map { … }` appends the same item as `add` of the nested map's bytes |
| CborValue.Lookup | app/src/main/java/pl/lebihan/authnkey/Cbor.kt:259-260 | `raw[key]` finds something exactly when an equal key is stored, and returns the value stored with such a key |
| CborValue.ContainsKeyTail | app/src/main/java/pl/lebihan/authnkey/Cbor.kt:298-299 | past a non-matching first entry, `containsKey` is decided by the rest of the entries |
| CborValue.PutSize | app/src/main/java/pl/lebihan/authnkey/Cbor.kt:243 | putting an existing key keeps the size; putting a new key appends the pair at the end |
| CborValue.PutKeepsKeys | app/src/main/java/pl/lebihan/authnkey/Cbor.kt:243 | a put leaves every existing key at its position, and every entry under another key unchanged |
| CborValue.PutLeavesOtherKeys | app/src/main/java/pl/lebihan/authnkey/Cbor.kt:243 | a put under one key does not change what a lookup of any other key finds |
| CborValue.PutThenLookup | app/src/main/java/pl/lebihan/authnkey/Cbor.kt:243 | after `result[key] = value`, looking up `key` finds `value`, unless the key holds a byte array |
| CborDecoder.ReadValue | app/src/main/java/pl/lebihan/authnkey/Cbor.kt:163-185 | a value read ends within the input and, unless it starts at the end, consumes at least one byte; at the end of the input it is `null` and consumes nothing |
| CborDecoder.SimpleItems | app/src/main/java/pl/lebihan/authnkey/Cbor.kt:170-183 | initial byte `F4` reads as `false`, `F5` as `true`, and every other major type 7 item and every tag (major type 6) as `null`, each consuming one byte |
| CborDecoder.TruncatedArrayPadded | app/src/main/java/pl/lebihan/authnkey/Cbor.kt:164 | an array announcing two items over input holding one (`82 01`) reads as `[1, null]`: missing items read as `null` |
| CborDecoder.ReadByteString | app/src/main/java/pl/lebihan/authnkey/Cbor.kt:218-223 | a byte-string read yields a byte string and ends within the input |
| CborDecoder.ReadTextString | app/src/main/java/pl/lebihan/authnkey/Cbor.kt:225-230 | a text read yields a string and ends within the input |
| CborDecoder.StringLayout | app/src/main/java/pl/lebihan/authnkey/Cbor.kt:218-230 | a string read takes exactly the announced number of bytes after the length argument, verbatim, and leaves the cursor after them |
| CborDecoder.ReadArray | app/src/main/java/pl/lebihan/authnkey/Cbor.kt:232-235 | an array read yields a list and ends within the input |
| CborDecoder.ReadItems | app/src/main/java/pl/lebihan/authnkey/Cbor.kt:234 | reading `len` items yields exactly `len` values |
| CborDecoder.ReadMap | app/src/main/java/pl/lebihan/authnkey/Cbor.kt:237-246 | a map read yields a map and ends within the input |
| CborDecoder.ReadEntries | app/src/main/java/pl/lebihan/authnkey/Cbor.kt:240-244 | `len` puts grow the map by at most `len` entries |
| CborDecoder.Decode | app/src/main/java/pl/lebihan/authnkey/Cbor.kt:160 | decoding empty input gives `null` |
| CborRoundTrip.PlainEncodes | app/src/main/java/pl/lebihan/authnkey/Cbor.kt:78-91 | every value built from null, booleans, integers, strings, byte arrays, well-formed raw splices and lists can be encoded |
| CborRoundTrip.IntRoundTrip | app/src/main/java/pl/lebihan/authnkey/Cbor.kt:166-172 | the decoder reads `encodeInt(n)` back as the `Long` n, consuming exactly its bytes |
| CborRoundTrip.LongRoundTrip | app/src/main/java/pl/lebihan/authnkey/Cbor.kt:166-172 | the decoder reads `encodeLong(n)` back as n, consuming exactly its bytes |
| CborRoundTrip.StringRoundTrip | app/src/main/java/pl/lebihan/authnkey/Cbor.kt:218-230 | a length-prefixed byte or text string reads back as the same payload, consuming exactly its bytes |
| CborRoundTrip.KeyRoundTrip | app/src/main/java/pl/lebihan/authnkey/Cbor.kt:29-35 | a map key written by the builder reads back as its decoded form: an `Int` key as a `Long`, a `String` key as itself |
| CborRoundTrip.SimpleRoundTrip | app/src/main/java/pl/lebihan/authnkey/Cbor.kt:177-182 | `null`, `false` and `true` read back as themselves from their one byte |
| CborRoundTrip.ValueRoundTrip | app/src/main/java/pl/lebihan/authnkey/Cbor.kt:163-185 | whatever `encodeValue` writes for a plain value (raw splices included), at any position in any input, reads back as that value with integers widened to `Long` and a raw splice replaced by what its bytes decode to, consuming exactly its bytes |
| CborRoundTrip.ScalarRoundTrip | app/src/main/java/pl/lebihan/authnkey/Cbor.kt:166-182 | the same for `null`, booleans, `Int` and `Long` |
| CborRoundTrip.TextValueRoundTrip | app/src/main/java/pl/lebihan/authnkey/Cbor.kt:225-230 | the same for a `String` |
| CborRoundTrip.ByteStringRoundTrip | app/src/main/java/pl/lebihan/authnkey/Cbor.kt:218-223 | the same for a `ByteArray` |
| CborRoundTrip.RawRoundTrip | app/src/main/java/pl/lebihan/authnkey/Cbor.kt:85 | `encodeValue` copies a `CborRaw`'s bytes, so a well-formed splice reads back as what its bytes decode to |
| CborRoundTrip.RawReads | app/src/main/java/pl/lebihan/authnkey/Cbor.kt:85 | bytes that read as one value wherever they sit form a plain splice decoding to that value |
| CborRoundTrip.BytesValueReads | app/src/main/java/pl/lebihan/authnkey/Cbor.kt:55 | `bytes(data)` splices an item that decodes to `data` |
| CborRoundTrip.NestedArrayReads | app/src/main/java/pl/lebihan/authnkey/Cbor.kt:46-53 | a nested `array { … }` of plain values can be built and splices an item decoding to the list of those values, decoded |
| CborRoundTrip.NestedMapReads | app/src/main/java/pl/lebihan/authnkey/Cbor.kt:37-44 | a nested `map { … }` of plain values can be built and splices an item decoding to the map obtained by putting each decoded pair in order |
| CborRoundTrip.ArrayRoundTrip | app/src/main/java/pl/lebihan/authnkey/Cbor.kt:232-235 | an encoded list reads back item by item |
| CborRoundTrip.ItemsRoundTrip | app/src/main/java/pl/lebihan/authnkey/Cbor.kt:234 | the concatenated item encodings read back as the items, in order |
| CborRoundTrip.EntriesRoundTrip | app/src/main/java/pl/lebihan/authnkey/Cbor.kt:240-244 | the entries the builder wrote read back as the puts of each decoded pair, in order |
| CborRoundTrip.MapRoundTrip | app/src/main/java/pl/lebihan/authnkey/Cbor.kt:237-246 | a map block read back gives the map the decoder fills by putting each decoded pair in turn |
| CborRoundTrip.DecodeEncodeValue | app/src/main/java/pl/lebihan/authnkey/Cbor.kt:160 | `decode(encodeValue(v))` is v with integers widened to `Long` |
| CborRoundTrip.DecodeBuiltRequest | app/src/main/java/pl/lebihan/authnkey/Cbor.kt:3-17 | decoding `cbor { map { pairs } }`, where values may be nested `map`/`array`/`bytes` splices, gives the map obtained by putting each decoded pair in order |
| CborMapAccess.Stored | app/src/main/java/pl/lebihan/authnkey/Cbor.kt:259 | a non-null `raw[key]` means the key is present |
| CborMapAccess.Get | app/src/main/java/pl/lebihan/authnkey/Cbor.kt:259-260 | an `Int` key is tried as a `Long` first, and the `Int` lookup is the answer exactly when the `Long` one gives null; a string key is looked up directly; a non-null result means `containsKey` holds |
| CborMapAccess.GetInt | app/src/main/java/pl/lebihan/authnkey/Cbor.kt:262-263 | `int(key)` is non-null iff the entry is a number; the result is that number modulo 2^32, and exact when it fits an `Int` |
| CborMapAccess.GetLong | app/src/main/java/pl/lebihan/authnkey/Cbor.kt:265-266 | `long(key)` is non-null iff the entry is a number, and is then exactly that number |
| CborMapAccess.GetBool | app/src/main/java/pl/lebihan/authnkey/Cbor.kt:268-269 | `bool(key)` is b iff the entry is the boolean b |
| CborMapAccess.GetString | app/src/main/java/pl/lebihan/authnkey/Cbor.kt:271-272 | `string(key)` is non-null iff the entry is a string, and is then that string |
| CborMapAccess.GetBytes | app/src/main/java/pl/lebihan/authnkey/Cbor.kt:274-275 | `bytes(key)` is non-null iff the entry is a byte array, and is then that array |
| CborMapAccess.GetMap | app/src/main/java/pl/lebihan/authnkey/Cbor.kt:277-284 | `map(key)` is non-null iff the entry is a map, and then wraps exactly its entries |
| CborMapAccess.GetList | app/src/main/java/pl/lebihan/authnkey/Cbor.kt:286-293 | `list(key)` is non-null iff the entry is a list, and is then that list |
| CborMapAccess.WrapMaps | app/src/main/java/pl/lebihan/authnkey/Cbor.kt:295-296 | wrapping the elements succeeds iff every element is a map, and then wraps each element in place |
| CborMapAccess.GetMapList | app/src/main/java/pl/lebihan/authnkey/Cbor.kt:295-296 | `mapList(key)` is null when there is no list, throws iff the list holds a non-map, and otherwise wraps every element in order |
| CborMapAccess.MapDecode | app/src/main/java/pl/lebihan/authnkey/Cbor.kt:251-256 | `CborMap.decode` fails iff decoding fails, and is non-null iff the decoded item is a map, which it then wraps |
| CborMapAccess.IntKeyIsLongKey | app/src/main/java/pl/lebihan/authnkey/Cbor.kt:298 | in a decoded map (no `Int` keys), `get` and `containsKey` with an `Int` key are lookups of the matching `Long` |
| CborMapAccess.MissingKeyReadsNull | app/src/main/java/pl/lebihan/authnkey/Cbor.kt:259-299 | a key that `containsKey` rejects reads as null through every accessor |
| CborMapAccess.PutNoIntKeys | app/src/main/java/pl/lebihan/authnkey/Cbor.kt:243 | putting a non-`Int` key keeps a map free of `Int` keys |
| CborMapAccess.PutAllNoIntKeys | app/src/main/java/pl/lebihan/authnkey/Cbor.kt:240-244 | the decoder's puts of non-`Int` keys never introduce an `Int` key |
| CborMapAccess.DecodedPairsAt | app/src/main/java/pl/lebihan/authnkey/Cbor.kt:29-35 | pair i of a built request decodes to the decoded key and value of the i-th `to` call |
| CborMapAccess.PutAllSnoc | app/src/main/java/pl/lebihan/authnkey/Cbor.kt:240-244 | reading one more pair is one more put on the map read so far |
| CborMapAccess.DecodeBuiltMap | app/src/main/java/pl/lebihan/authnkey/Cbor.kt:252-256 | `CborMap.decode` of a built request gives the map of its decoded pairs, which holds no `Int` key |
| CborMapAccess.PutAllLeavesOtherKeys | app/src/main/java/pl/lebihan/authnkey/Cbor.kt:240-244 | puts under other keys leave a key's lookup as it was |
| CborMapAccess.PutAllAppend | app/src/main/java/pl/lebihan/authnkey/Cbor.kt:240-244 | putting two runs of pairs is putting the first run, then the second |
| CborMapAccess.LastPairWins | app/src/main/java/pl/lebihan/authnkey/Cbor.kt:243 | for any key, the decoded map holds the value of the last pair j written under it, whatever came before j |
| CborMapAccess.UnwrittenKeyMissing | app/src/main/java/pl/lebihan/authnkey/Cbor.kt:240-244 | a key no pair was written under is absent from the decoded map |
| CborMapAccess.BuiltKeyReadsBack | app/src/main/java/pl/lebihan/authnkey/Cbor.kt:259-260 | after building a request and decoding it, for any key written at pair j and not after, `containsKey(key)` holds and `get(key)` is pair j's value as decoded |
| CborMapAccess.UnwrittenKeyReadsNull | app/src/main/java/pl/lebihan/authnkey/Cbor.kt:259-299 | after building a request and decoding it, a key never written is not contained and reads as `null` |
| Hex.ByteHex | app/src/main/java/pl/lebihan/authnkey/Cbor.kt:302 | `"%02X"` writes every byte as exactly two characters |
| Hex.ToHex | app/src/main/java/pl/lebihan/authnkey/Cbor.kt:302 | `toHex` writes two characters per byte |
| Hex.Digit | app/src/main/java/pl/lebihan/authnkey/Cbor.kt:308 | `Character.digit(c, 16)` is −1 or a digit value, and a valid digit is the upper-case form of c |
| Hex.HexToBytes | app/src/main/java/pl/lebihan/authnkey/Cbor.kt:304-311 | `hexToByteArray` succeeds iff the length (in characters) is even, giving half as many bytes; an odd length throws at index `len` |
| Hex.HexToByteArray | app/src/main/java/pl/lebihan/authnkey/Cbor.kt:304-311 | the loop over digit pairs computes exactly the pair-by-pair definition, including the throw on an odd length |
| Hex.HexCharReads | app/src/main/java/pl/lebihan/authnkey/Cbor.kt:308 | every digit `toHex` writes reads back as its value and is already upper case |
| Hex.PairReads | app/src/main/java/pl/lebihan/authnkey/Cbor.kt:308 | the two digits written for a byte read back as that byte |
| Hex.PairWrites | app/src/main/java/pl/lebihan/authnkey/Cbor.kt:308 | a pair of digits of either case is written back as the same digits in upper case |
| Hex.ToHexAt | app/src/main/java/pl/lebihan/authnkey/Cbor.kt:302 | byte i sits at characters 2i and 2i+1 of the hex string |
| Hex.ToHexDigits | app/src/main/java/pl/lebihan/authnkey/Cbor.kt:302 | `toHex` writes only upper-case hex digits |
| Hex.HexRoundTrip | app/src/main/java/pl/lebihan/authnkey/Cbor.kt:302-311 | `hexToByteArray(toHex(b)) == b` for every byte array |
| Hex.HexCanonical | app/src/main/java/pl/lebihan/authnkey/Cbor.kt:302-311 | an even-length string of hex digits of either case parses, and `toHex` of the result is the same string in upper case |
| Apdu.BuildApdu | app/src/main/java/pl/lebihan/authnkey/NfcTransport.kt:94-123 | the command starts with `80 10 00 00`, carries the message verbatim, and is 6 bytes longer (short form) or 9 bytes longer (extended form) |
| Apdu.ParseShortCase4 | app/src/main/java/pl/lebihan/authnkey/NfcTransport.kt:103-104 | a frame whose one-byte Lc matches its data length parses as short case 4 |
| Apdu.ParseExtendedCase4 | app/src/main/java/pl/lebihan/authnkey/NfcTransport.kt:105-109 | a frame with `00` and a two-byte Lc matching its data length parses as extended case 4 |
| Apdu.ShortApduParses | app/src/main/java/pl/lebihan/authnkey/NfcTransport.kt:103-116 | a message of 1-255 bytes becomes a short case 4 command carrying it and asking for 256 bytes |
| Apdu.LengthBytes | app/src/main/java/pl/lebihan/authnkey/NfcTransport.kt:107-108 | the two extended length bytes hold the message size modulo 65536 |
| Apdu.ExtendedApduParses | app/src/main/java/pl/lebihan/authnkey/NfcTransport.kt:105-119 | a message of 256-65535 bytes becomes an extended case 4 command carrying it and asking for 65536 bytes |
| Apdu.EmptyApduMalformed | app/src/main/java/pl/lebihan/authnkey/NfcTransport.kt:103-116 | an empty message gives `80 10 00 00 00 00`, which is no well-formed command |
| Apdu.OverlongApduWraps | app/src/main/java/pl/lebihan/authnkey/NfcTransport.kt:105-108 | above 65535 bytes the length field wraps, and the frame never parses to the message |
| Apdu.SuccessIsTrailer | app/src/main/java/pl/lebihan/authnkey/NfcTransport.kt:125-129 | `isSuccess` holds exactly when the response is some payload followed by `90 00` |
| Apdu.SelectFidoAppletParses | app/src/main/java/pl/lebihan/authnkey/NfcTransport.kt:133-138 | the fixed command is a 14-byte SELECT by name of the FIDO AID `A0 00 00 06 47 2F 00 01`, asking for 256 bytes |
| Apdu.GetResponse | app/src/main/java/pl/lebihan/authnkey/NfcTransport.kt:67 | GET RESPONSE is five bytes whose last is the announced length |
| Apdu.GetResponseParses | app/src/main/java/pl/lebihan/authnkey/NfcTransport.kt:67 | GET RESPONSE is a short case 2 command (`00 C0 00 00`) asking for the announced length, where `00` asks for 256 |
| NfcExchange.Payload | app/src/main/java/pl/lebihan/authnkey/NfcTransport.kt:56-58 | the data kept from a frame of at least two bytes is the frame without its status word |
| NfcExchange.Collect | app/src/main/java/pl/lebihan/authnkey/NfcTransport.kt:51-76 | the loop sends no more GET RESPONSE commands than it receives replies |
| NfcExchange.SendCtapCommand | app/src/main/java/pl/lebihan/authnkey/NfcTransport.kt:41-84 | the first command sent is the wrapped CTAP message, and every later command answers one reply |
| NfcExchange.SelectFidoApplet | app/src/main/java/pl/lebihan/authnkey/NfcTransport.kt:32-39 | selection succeeds iff the reply is a frame ending in `90 00`; only a lost tag or another I/O error escapes, and a security exception reads as "not selected" |
| NfcExchange.CollectStops | app/src/main/java/pl/lebihan/authnkey/NfcTransport.kt:51-73 | a reply that is not 61xx ends the loop at once, sending nothing |
| NfcExchange.CollectMore | app/src/main/java/pl/lebihan/authnkey/NfcTransport.kt:65-68 | a 61xx reply keeps its data, sends one GET RESPONSE for the announced length, and continues with the next reply |
| NfcExchange.AnswersMoreDataCons | app/src/main/java/pl/lebihan/authnkey/NfcTransport.kt:65-68 | a 61xx frame followed by answered 61xx frames gives one more answered frame |
| NfcExchange.CollectRequests | app/src/main/java/pl/lebihan/authnkey/NfcTransport.kt:65-68 | the loop sends one GET RESPONSE for each leading 61xx frame and stops at the first reply that is not one |
| NfcExchange.CollectVerdict | app/src/main/java/pl/lebihan/authnkey/NfcTransport.kt:51-76 | the reply after the last GET RESPONSE decides the outcome, with the data of every earlier frame collected in order |
| NfcExchange.VerdictAfterMore | app/src/main/java/pl/lebihan/authnkey/NfcTransport.kt:65-68 | the same, when the first reply is a 61xx frame |
| NfcExchange.CollectCloses | app/src/main/java/pl/lebihan/authnkey/NfcTransport.kt:77-79 | the loop closes the connection exactly when the tag is lost |
| NfcExchange.CollectResponse | app/src/main/java/pl/lebihan/authnkey/NfcTransport.kt:51-76 | a loop that ends with a response ends at a frame with status `90 00` or one too short for a status word, and the response is the earlier data followed by the data of every frame up to that one |
| NfcExchange.DecidingReply | app/src/main/java/pl/lebihan/authnkey/NfcTransport.kt:55-64 | the deciding reply gives a response only when it is a frame with `90 00` or too short for a status word, and then adds its own data last |
| NfcExchange.ResponseIsConcatenation | app/src/main/java/pl/lebihan/authnkey/NfcTransport.kt:41-76 | a successful `sendCtapCommand` returns the data of every frame received, in order, and its last frame is `90 00` or too short for a status word |
| NfcExchange.VerdictResponse | app/src/main/java/pl/lebihan/authnkey/NfcTransport.kt:55-64 | a single reply gives a response only when it is a frame with `90 00` or too short for a status word, adding its data after what was collected |
| NfcExchange.PayloadsPrefix | app/src/main/java/pl/lebihan/authnkey/NfcTransport.kt:57 | the data of the first k+1 frames is the data of the first k followed by that of frame k |
| NfcExchange.PayloadsSnoc | app/src/main/java/pl/lebihan/authnkey/NfcTransport.kt:57 | one more frame appends its data to the collected response |
| NfcExchange.OneGetResponsePerMoreData | app/src/main/java/pl/lebihan/authnkey/NfcTransport.kt:65-68 | every command after the first is a GET RESPONSE answering a 61xx frame and asking for the length that frame announced |
| NfcExchange.ErrorStatusStops | app/src/main/java/pl/lebihan/authnkey/NfcTransport.kt:69-72 | an APDU error carries the status word of the deciding frame, which is neither `90 00` nor 61xx, and does not close the connection |
| NfcExchange.ShortFrameEnds | app/src/main/java/pl/lebihan/authnkey/NfcTransport.kt:51 | a frame of fewer than two bytes ends the loop with the data collected so far |
| NfcExchange.ClosedOnlyOnTagLost | app/src/main/java/pl/lebihan/authnkey/NfcTransport.kt:77-83 | `sendCtapCommand` closes the transport exactly when it rethrows `TagLostException` |
| NfcExchange.TwoFrameResponse | app/src/main/java/pl/lebihan/authnkey/NfcTransport.kt:41-76 | a response split as `01 02 61 05` then `03 90 00` returns `01 02 03` after one GET RESPONSE for 5 bytes |

## Left out

- Android I/O is not modelled. That covers `IsoDep`, `connect`, the 5000 ms
  timeout, `isConnected`, `close()` beyond a flag, and the coroutine
  dispatchers. The tag is replaced by a list of replies, so a timeout is
  only a reply, and so is running out of replies.
- NfcExchange.SendCtapCommand: a thrown exception is a tag in `Outcome`.
  The message text (`"APDU error: …"`) and the exception objects are not
  modelled.
- CborEncoder.EncodeText: strings are held as their UTF-8 bytes.
  `toByteArray(Charsets.UTF_8)` and `String(data, pos, len, UTF_8)`, with
  its replacement of malformed input, are not modelled.
- CborDecoder.ReadByteString: a length that is negative after `.toInt()`
  fails with `WrappedLength`. The JVM instead returns an empty array and
  moves the cursor backwards. A later read then starts before the
  string, and the model does not follow that path.
- CborDecoder.ReadByteString: `pos + len` overflowing an `Int` is read as a
  plain out-of-bounds failure. Lengths are unbounded integers here.
- CborValue.Same: map keys that are themselves maps compare in entry
  order. The JVM's map equality ignores order, and CTAP keys are never
  maps.
- Hex.Digit: `Character.digit` also accepts non-ASCII Unicode digits. The
  model reads every non-ASCII character as −1.
- Hex.HexToBytes: a string is a sequence of Unicode scalar values, not
  of UTF-16 code units. Kotlin's `length` and `this[i]` count a character
  above U+FFFF as two surrogates, and the model counts it as one. On such
  input the parity check, the pairing of characters and the index of the
  throw all differ from the JVM: the one-character string U+1F600 gives
  `[0xEF]` there and an out-of-bounds failure here. Valid hex digits are
  ASCII, so the round trip and `Hex.HexCanonical` are unaffected.
- Hex.HexToBytes: for BMP characters that are not hex digits, no property
  is claimed beyond the computation itself (digit −1, then `.toByte()`).
- CborDecoder.ReadItems: running out of memory is not modelled. An array
  or map header may announce up to 2^31−1 items (`9A 7F FF FF FF`), and
  the model reads that many `null`s past the end of the input. The JVM's
  `(0 until len).map { … }` and `repeat(len)` run out of heap long before
  that.
- CborEncoder.EncodeValue: only the Kotlin types the codec handles are
  representable. Other types such as `Short` or `Double` cannot be
  written down, so the "Unsupported" branch is modelled for maps, the one
  reachable case among representable values.
- Bytes.JvmList: lists, arrays and maps hold at most 2^31−1 elements, the
  JVM bound. Larger collections cannot exist.
- The DSL's receiver lambdas are modelled as the sequence of calls they
  make: a list of key/value pairs, or of nested builders.
- `FidoTransport` (the interface) and `AuthnkeyAutofillService` are not
  part of this model.
