# Avro converters for network-SLA telemetry records

This project models `convert.hh`, the record converter used between the
network-SLA collector and its consumer. The converter turns two native
records into Apache Avro binary and back:

- `latencyresult`: one latency measurement, 11 fields.
- `clientparams`: one client session descriptor, 8 fields.

The model proves that every record survives the round trip through the
wire format. It also proves what happens to bad input: truncated bytes, an
enum index that has no native variant, and an index outside the schema.

The converter hands all byte-level work to the Avro C++ library
(`avro::encode`, `avro::decode`). The model replaces those calls with the
encoding that section "Binary Encoding" of the Apache Avro 1.11
specification defines for the types the two schemas use:

- `int` and `long` are zig-zag varints.
- A `string` is a `long` length followed by its bytes.
- A `double` is eight little-endian bytes.
- An enum is the varint of its zero-based symbol index.
- A record is its fields' encodings concatenated in declared order.

Modules, one per file:

- `errors.dfy` (`Errors`): the error kinds, and `Result` and `Option`.
- `wire.dfy` (`AvroBinary`): the primitive encodings, their readers, and
  lemmas for round trips and truncation.
- `schema.dfy` (`Schemas`): the two schemas transcribed as constants, and
  lookup of an enum symbol by name.
- `enums.dfy` (`NativeEnums`): `IpType`, `ProtType` and `SessionState`,
  their ordinals, and their `to_string` overloads.
- `generic.dfy` (`GenericCodec`): a generic record is an array of datum
  slots. It is encoded slot by slot and decoded field by field from the
  schema.
- `convert.dfy` (`Convert`): the two serializers, the two deserializers
  and the driver `NwSlaSerializeToAvro`.
- `samples.dfy` (`Samples`): the sample records `cp` and `lr`, the demo
  record of `convert_two.cpp`, and the Avro varint examples.

Modelling choices:

- **Serializers.** Each serializer is two methods.
  - `EncodeLatencyResult` and `EncodeClientParams` fill an array of datum
    slots with `SetFieldAt`, one call per `setFieldAt` in the source. Then
    `EncodeRecord` appends each slot's encoding in a loop. The result is
    what a flushed encoder would leave in the stream: exactly one record.
  - `NwSlaResultSerializeToAvro` and `NwSlaClientSerializeToAvro` return
    that record followed by the rest of the memory stream's last chunk.
    The source reads the stream back without flushing the encoder. Until
    a flush, the stream counts every 4096-byte chunk the encoder has
    taken. Those unwritten bytes come from an uninitialized allocation,
    so the model picks them arbitrarily (`UnwrittenChunkRest`). The
    deserializers ignore them.
- **Deserializers.** Each deserializer is a function that returns the
  decoded record or the error that stopped it. The source prints each
  field and catches every exception. So the deserializer never throws to
  its caller, and `Err` stands for what the source reports on `std::cerr`.
- **Enum ordinals.** The native enums are declared in a collector header
  that is not part of this model. The model ASSUMES that each enum's
  ordinals are 0, 1, 2, in the order its `to_string` lists the variants.
- **Integer fields.** The native integer fields are unbounded `int`s,
  because their declared widths are in that same header. The
  serializer's `static_cast<int>` is written out as a wrap to 32 bits
  (`CastInt`). The round trip returns each record after that cast
  (`NarrowResult`, `NarrowClient`). This equals the original exactly when
  every integer field fits in 32 bits.
- **Strings.** A `std::string` is a byte sequence (`Payload`).
- **Doubles.** A `double` is its 64-bit pattern (`Bits64`). The pattern
  is never interpreted.
- **Enum slots.** The serializers put a plain `int` into each enum slot.
  Avro writes an `int` and an enum index as the same zig-zag varint. The
  reader returns that slot as an enum index (`AsRead`).
- **The FILLER symbol.** Each schema enum has a fourth symbol, `FILLER`.
  Index 3 passes the Avro decoder. The `static_cast` then gives a value
  with no declared variant, so `to_string` throws "Unknown ...". The model
  returns `UnknownEnum` in that case. An index of 4 or more, or a
  negative index, is refused by the Avro decoder itself
  (`EnumIndexOutOfRange`).

Three things the converter does not do, although a reader might expect
them:

- **Name-based enum lookup.** The serializers do not look up each enum
  symbol by name. They write the native ordinal. The lemmas
  `*SymbolLookup` show that the two give the same index under the ordinal
  assumption above.
- **Refusing the wrong schema.** Decoding with the other record's schema
  is not guaranteed to fail, because Avro binary carries no type
  information. Bytes written with one schema can decode under the other,
  so no such property is stated.
- **Typed errors for the caller.** The deserializers do not return their
  errors. Each one catches every error and only prints it. The model's
  `Err` value stands for that printed outcome.

## Model

| member | source | states |
|---|---|---|
| AvroBinary.ZigZag | convert.hh:194 | zig-zag is inverted by `UnZigZag`, and maps 32-bit and 64-bit signed values below 2^32 and 2^64 |
| AvroBinary.UnZigZag | convert.hh:220 | a decoded value below 2^64 is a signed 64-bit number |
| AvroBinary.UnZigZagInverse | convert.hh:220 | zig-zag is a bijection between integers and naturals |
| AvroBinary.Varint | convert.hh:194 | a varint is at least one byte; every byte but the last has the continuation bit set |
| AvroBinary.ReadVarint | convert.hh:220 | a successful read consumes at least one byte and leaves a suffix of its input |
| AvroBinary.VarintLength | convert.hh:194 | a value below 128^k needs at most k varint bytes |
| AvroBinary.VarintRoundTrip | convert.hh:194-220 | a varint reads back as its value and leaves whatever follows untouched (prefix-free) |
| AvroBinary.VarintTruncated | convert.hh:220 | every proper prefix of a varint fails to read |
| AvroBinary.WriteLong | convert.hh:194 | a `long` is self-delimiting: it is at least one byte, and every byte but the last carries the continuation bit |
| AvroBinary.ReadLong | convert.hh:220 | a successful long read consumes input |
| AvroBinary.LongLength | convert.hh:194 | a `long` or `int` takes between one and ten bytes |
| AvroBinary.LongRoundTrip | convert.hh:194-220 | every 64-bit value reads back from its encoding, with whatever follows left over |
| AvroBinary.LongTruncated | convert.hh:220 | every proper prefix of a long fails to read |
| AvroBinary.WriteInt | convert.hh:180-194 | an `int` is written as the `long` of equal value and takes one to five bytes |
| AvroBinary.ReadInt | convert.hh:220 | an `int` read succeeds exactly when the `long` read does and its value fits 32 bits, and then gives that value and leftover; a `long` that does not fit gives `IntOutOfRange`; every failure is a decoder error |
| AvroBinary.IntRoundTrip | convert.hh:180-237 | every 32-bit value the serializer writes reads back as the same `int` |
| AvroBinary.WriteString | convert.hh:178-194 | a string's bytes follow its length prefix verbatim, and the prefix takes one to ten bytes |
| AvroBinary.ReadString | convert.hh:220-225 | a string read returns exactly the input bytes between the length prefix and the leftover, consumes more bytes than it returns, and fails only with a decoder error |
| AvroBinary.StringRoundTrip | convert.hh:178-225 | a length-prefixed string reads back byte for byte, with whatever follows left over |
| AvroBinary.StringTruncated | convert.hh:225 | every proper prefix of an encoded string fails to read |
| AvroBinary.LittleEndian | convert.hh:184 | the 8-byte form of a double has exactly the requested length |
| AvroBinary.FromLittleEndian | convert.hh:241 | bytes read as a little-endian number stay below 256^n |
| AvroBinary.LittleEndianRoundTrip | convert.hh:184-241 | a double's bit pattern survives the 8-byte little-endian form |
| AvroBinary.FromLittleEndianRoundTrip | convert.hh:241 | every 8 bytes are the form of exactly one bit pattern |
| AvroBinary.WriteDouble | convert.hh:184-194 | a double takes exactly eight bytes |
| AvroBinary.ReadDouble | convert.hh:220-241 | a double read succeeds exactly when eight bytes are left, leaves what follows them, and returns the pattern whose eight-byte form they are; otherwise `Truncated` |
| AvroBinary.DoubleRoundTrip | convert.hh:184-241 | `total_burst_time` comes back bit for bit, with whatever follows left over |
| Schemas.SymbolIndex | convert.hh:80-84 | finds the first position of a symbol name, and finds none exactly when the name is absent |
| NativeEnums.IpTypeOrdinal | convert.hh:268 | the ordinal written for an `IpType` is one of the three declared indices |
| NativeEnums.IpTypeToString | convert.hh:118-125 | `to_string` of each declared variant is the schema's symbol at that variant's ordinal, never `FILLER` |
| NativeEnums.IpTypeFromIndex | convert.hh:318-321 | the cast and `to_string` succeed exactly for indices 0..2, giving the variant with that ordinal and the schema's name; every other index, `FILLER`'s included, gives "Unknown IpType" |
| NativeEnums.IpTypeFromIndexRoundTrip | convert.hh:268-320 | casting a variant's ordinal back gives the same variant |
| NativeEnums.IpTypeSymbolLookup | convert.hh:83 | looking the variant's name up in the schema finds its ordinal, so the index cast agrees with name lookup |
| NativeEnums.ProtTypeOrdinal | convert.hh:269 | the ordinal written for a `ProtType` is one of the three declared indices |
| NativeEnums.ProtTypeToString | convert.hh:127-134 | `to_string` of each declared variant is the schema's symbol at its ordinal, never `FILLER` |
| NativeEnums.ProtTypeFromIndex | convert.hh:324-327 | succeeds exactly for indices 0..2 with the schema's name; otherwise "Unknown ProtType" |
| NativeEnums.ProtTypeFromIndexRoundTrip | convert.hh:269-326 | casting a variant's ordinal back gives the same variant |
| NativeEnums.ProtTypeSymbolLookup | convert.hh:91 | name lookup in the schema finds the variant's ordinal |
| NativeEnums.SessionStateOrdinal | convert.hh:179 | the ordinal written for a `SessionState` is one of the three declared indices |
| NativeEnums.SessionStateToString | convert.hh:136-143 | `to_string` of each declared variant is the schema's symbol at its ordinal, never `FILLER` |
| NativeEnums.SessionStateFromIndex | convert.hh:227-230 | succeeds exactly for indices 0..2 with the schema's name; otherwise "Unknown SessionState" |
| NativeEnums.SessionStateFromIndexRoundTrip | convert.hh:179-229 | casting a state's ordinal back gives the same state |
| NativeEnums.SessionStateSymbolLookup | convert.hh:24 | name lookup in the schema finds the state's ordinal |
| NativeEnums.SymbolIndexOfDistinct | convert.hh:107 | in a symbol list without repeats, the name at k is found at k |
| GenericCodec.DefaultDatum | convert.hh:175 | a fresh generic record holds, in each slot, a datum of the slot's declared kind |
| GenericCodec.AsRead | convert.hh:227-228 | what the reader returns for a slot still matches its field type, and an enum field always comes back as an enum |
| GenericCodec.AsReadAll | convert.hh:220 | the reader returns one datum per slot, each the read form of that slot |
| GenericCodec.ConformsUpdate | convert.hh:178 | replacing one slot with a matching datum keeps the record conforming and changes only that slot of what is read back |
| GenericCodec.SetFieldAt | convert.hh:178 | `setFieldAt` replaces exactly one slot |
| GenericCodec.EncodeDatum | convert.hh:194 | every slot, written by its own kind, takes at least one byte, and a double exactly eight |
| GenericCodec.EncodeFieldsAppend | convert.hh:194 | encoding one more slot appends its encoding |
| GenericCodec.DatumLength | convert.hh:194 | a slot takes at most ten bytes besides the bytes of a string it holds |
| GenericCodec.FieldsLength | convert.hh:194 | a record whose strings are at most `limit` bytes encodes in at most `10 + limit` bytes per slot |
| GenericCodec.EncodeRecord | convert.hh:194 | `avro::encode` of a record is the concatenation of its slots' encodings in field order |
| GenericCodec.DecodeDatum | convert.hh:220 | a field that decodes holds a datum of its declared kind, an enum field always a `GenericEnum` with an index inside the symbol list; every failure is a decoder error |
| GenericCodec.DecodeFields | convert.hh:220 | a decoded record has one datum per schema field, each of the field's declared kind |
| GenericCodec.DecodeRecord | convert.hh:220 | decoding with a schema yields a record that conforms to it |
| GenericCodec.FieldsDecoded | convert.hh:220 | a decoded record holds a `GenericEnum` in every enum slot, never a plain `int`, and a record that fails to decode fails with a decoder error |
| GenericCodec.RecordDecoded | convert.hh:220 | the same, for a whole record under its schema |
| GenericCodec.DecodeFieldsHeadErr | convert.hh:220 | decoding a record stops with the error of a first field that fails |
| GenericCodec.DecodeFieldsTailErr | convert.hh:220 | decoding a record stops with the error of a later field that fails |
| GenericCodec.StringValue | convert.hh:225 | `value<std::string>()` succeeds exactly on a string slot and returns its bytes |
| GenericCodec.IntValue | convert.hh:237 | `value<int>()` succeeds exactly on an int slot and returns its value |
| GenericCodec.DoubleValue | convert.hh:241 | `value<double>()` succeeds exactly on a double slot and returns its pattern |
| GenericCodec.EnumValue | convert.hh:227-228 | `value<GenericEnum>().value()` succeeds exactly on an enum slot and returns its index |
| GenericCodec.DatumRoundTrip | convert.hh:194-220 | a matching slot decodes back, under its field type, to its read form, with whatever follows left over |
| GenericCodec.FieldsRoundTrip | convert.hh:194-220 | a conforming record decodes back slot for slot and leaves trailing bytes unread |
| GenericCodec.RecordRoundTrip | convert.hh:194-220 | decoding an encoded conforming record with the same schema gives its read form |
| GenericCodec.FieldsEnumOutOfRange | convert.hh:220 | an enum field holding an index outside its symbols stops decoding with `EnumIndexOutOfRange` |
| GenericCodec.EnumIndexRejected | convert.hh:220 | an `int` outside an enum's symbols, read back as that enum's index, is refused with `EnumIndexOutOfRange` |
| GenericCodec.DatumTruncated | convert.hh:220 | every proper prefix of a slot's encoding fails to decode |
| GenericCodec.FieldsTruncated | convert.hh:220 | every proper prefix of an encoded record fails to decode, never giving a record with defaulted fields |
| GenericCodec.RecordTruncated | convert.hh:220 | the same, for a whole record under its schema |
| Convert.CastInt | convert.hh:180 | `static_cast<int>` is congruent to its argument modulo 2^32 and equal to it when it fits |
| Convert.UnflushedLength | convert.hh:197 | an unflushed memory stream counts whole chunks: the smallest multiple of 4096 not below what was written |
| Convert.UnwrittenChunkRest | convert.hh:197-203 | the arbitrary bytes after the record fill the counted chunks exactly: what was written plus them is the stream's byte count |
| Convert.WithinOneChunk | convert.hh:197 | a non-empty write shorter than a chunk leaves the stream at exactly one chunk |
| Convert.NarrowResult | convert.hh:180-188 | a result after the casts has all integers within 32 bits, is unchanged exactly when they already were, and keeps string, state and double |
| Convert.ResultSlots | convert.hh:178-188 | the result serializer fills exactly the 11 schema slots, each with the kind its declared type takes (string, enum index as int, ints, double) |
| Convert.EncodeLatencyResult | convert.hh:175-194 | the flushed encoding is the slots' encodings in schema order, holds exactly one record (decoding consumes every byte), and deserializes to the result after its 32-bit casts |
| Convert.NwSlaResultSerializeToAvro | convert.hh:170-206 | the vector starts with the record, is as long as the chunks the stream counts, and deserializes to the result after its 32-bit casts despite the unwritten bytes after the record |
| Convert.ResultEncodingExact | convert.hh:194-220 | decoding a flushed result encoding consumes every byte and yields the reader's view of the narrowed result |
| Convert.ResultChunkRestNonEmpty | convert.hh:194-197 | for every result whose `agent_ip` is at most 300 bytes, the record is shorter than the 4096 bytes returned |
| Convert.ResultFromRecord | convert.hh:225-245 | positional reads that succeed give a result whose integers fit 32 bits |
| Convert.NwSlaResultDeserializeFromAvro | convert.hh:209-256 | a decoded result always has 32-bit integers; every failure is an `Err` value, never an escaping error, and `ResultDeserializeErrors` says which |
| Convert.ResultRead | convert.hh:225-245 | the reader's view of a result has one slot per schema field |
| Convert.ResultSlotsRead | convert.hh:178-229 | what the reader returns for the serializer's slots is the narrowed result's fields, with the state as an enum index |
| Convert.ResultReadBack | convert.hh:225-245 | reading those slots by position gives the narrowed result back |
| Convert.ResultRoundTrip | convert.hh:353-354 | deserializing the serializer's bytes, with anything appended, gives back every field of the result in order |
| Convert.ResultRoundTripExactBytes | convert.hh:353-354 | the round trip on the exact bytes, without anything appended |
| Convert.ResultRoundTripExact | convert.hh:353-354 | a result whose integers fit 32 bits comes back unchanged |
| Convert.ResultTruncationRejected | convert.hh:220 | every proper prefix of a serialized result fails to deserialize |
| Convert.ResultFillerStateRejected | convert.hh:24 | a state index of 3 (`FILLER`) decodes but ends in "Unknown SessionState" |
| Convert.ResultFillerRead | convert.hh:227-230 | reading slots whose state index is 3 fails with "Unknown SessionState" |
| Convert.ResultStateOutOfRangeRejected | convert.hh:220 | a state index outside the four symbols is refused by the decoder |
| Convert.ResultDecodedRead | convert.hh:225-245 | reading a decoded record by position fails only with "Unknown SessionState": every other slot holds the kind its `value<T>()` asks for |
| Convert.ResultDeserializeErrors | convert.hh:209-256 | the result deserializer fails only with a decoder error or "Unknown SessionState", never with a slot read as the wrong kind |
| Convert.NarrowClient | convert.hh:270-273 | client parameters after the casts have 32-bit integers, are unchanged exactly when they already did, and keep strings and enums |
| Convert.ClientSlots | convert.hh:266-273 | the client serializer fills exactly the 8 schema slots: strings at 0-1, enum indices at 2, 3 and 6, ints at 4, 5 and 7 |
| Convert.EncodeClientParams | convert.hh:263-279 | the flushed encoding is the slots' encodings in schema order, holds exactly one record, and deserializes to the parameters after their 32-bit casts |
| Convert.NwSlaClientSerializeToAvro | convert.hh:258-291 | the vector starts with the record, is as long as the chunks the stream counts, and deserializes to the parameters after their 32-bit casts |
| Convert.ClientEncodingExact | convert.hh:279-307 | decoding a flushed client encoding consumes every byte and yields the reader's view of the narrowed parameters |
| Convert.ClientChunkRestNonEmpty | convert.hh:279-282 | for all parameters whose two addresses are at most 300 bytes each, the record is shorter than the 4096 bytes returned |
| Convert.ClientFromRecord | convert.hh:314-338 | positional reads that succeed give parameters whose integers fit 32 bits |
| Convert.NwSlaClientDeserializeFromAvro | convert.hh:293-347 | decoded parameters always have 32-bit integers; every failure is an `Err` value, and `ClientDeserializeErrors` says which |
| Convert.ClientRead | convert.hh:314-338 | the reader's view of client parameters has one slot per schema field |
| Convert.ClientSlotsRead | convert.hh:266-336 | what the reader returns for the serializer's slots is the narrowed parameters, with enums as indices |
| Convert.ClientReadBack | convert.hh:314-338 | reading those slots by position gives the narrowed parameters back |
| Convert.ClientRoundTrip | convert.hh:350-351 | deserializing the serializer's bytes, with anything appended, gives back every field in order |
| Convert.ClientRoundTripExactBytes | convert.hh:350-351 | the round trip on the exact bytes, without anything appended |
| Convert.ClientRoundTripExact | convert.hh:350-351 | parameters whose integers fit 32 bits come back unchanged |
| Convert.ClientTruncationRejected | convert.hh:301-307 | every proper prefix of serialized parameters fails to deserialize |
| Convert.ClientFillerRejected | convert.hh:83 | index 3 (`FILLER`) in any of the three enum slots ends in that enum's "Unknown ..." error |
| Convert.ClientFillerRead | convert.hh:318-336 | reading slots with index 3 in an enum slot fails with that enum's "Unknown ..." error |
| Convert.ClientEnumOutOfRangeRejected | convert.hh:307 | an enum index outside the four symbols in any enum slot is refused by the decoder |
| Convert.ClientDecodedRead | convert.hh:314-338 | reading a decoded record by position fails only with the "Unknown ..." error of one of the three enums |
| Convert.ClientDeserializeErrors | convert.hh:293-347 | the client deserializer fails only with a decoder error or the "Unknown ..." error of one of its enums, never with a slot read as the wrong kind |
| Convert.NwSlaSerializeToAvro | convert.hh:349-355 | each record, serialized and deserialized with its own schema, comes back after its 32-bit casts |
| Samples.SampleDriver | convert.hh:145-168 | the driver reads the sample `cp` and `lr` back unchanged, including `total_burst_time` 2.25 |
| Samples.DemoRoundTrip | convert_two.cpp:11-29 | the demo parameters come back unchanged, id included |
| Samples.ZigZagVarintExamples | convert.hh:194 | the varints of 0, -1, 1, -2, 2, -64 and 64 match the table in the Avro specification |
| Samples.DemoPortBytes | convert_two.cpp:19 | port 4000 is written as the two bytes 0xc0 0x3e and reads back |

## Left out

- JSON schema compilation (`avro::compileJsonSchema`): the schemas are constants transcribed from the JSON text.
- The `structSchema` parameter of the four converters: each converter is fixed to its own record's schema, which is how the driver calls them. Given the other record's schema, a deserializer would call `value<T>()` on a slot of another kind, which the library leaves undefined; the model does not capture that call.
- GenericCodec.EncodeFields: it carries no contract of its own. `EncodeFieldsAppend`, `EncodeRecord`, `FieldsRoundTrip` and `FieldsTruncated` pin it.
- Stream plumbing: the memory streams and the loop that copies their chunks into the result vector. The model gives the vector's contents directly: the record, then the unwritten rest of the last chunk.
- NwSlaResultSerializeToAvro and NwSlaClientSerializeToAvro: the unwritten bytes after the record are arbitrary in the model, because the source returns uninitialized memory there. Their length assumes the library's default chunk size of 4096 bytes. The memory stream code itself is not part of this model.
- Console output: every `std::cout` and `std::cerr` line. A deserializer returns the record or the error that ended it.
- Floating point: `total_burst_time` is an opaque 64-bit pattern. Only its bit-exact transfer is proved.
- The commented-out code in the result deserializer.
- `convert_two.cpp` drives a generated codec from `cpx.hh`, which is not part of this model. Only its sample record is used, in `Samples`.
- The collector header that declares the records and enums is not part of this model. The enum ordinals 0, 1, 2 are an assumption, and the integer field widths are left unbounded.
- Avro library internals beyond the binary-encoding rules and the chunked memory stream: the text of its exception messages.
- ReadLong: the library keeps only the low 64 bits of a ten-byte varint. The model refuses any varint whose value does not fit 64 bits (`InvalidVarint`). Both fail on varints longer than ten bytes.
- ReadString: the length prefix is read as a `long`, as the Avro specification defines it. The library reads it as an `int`. The two differ for strings of 2^31 bytes or more. They also differ for a malformed prefix outside 32 bits: the library fails with its int range error, while the model fails with `Truncated` (a length beyond the input) or `NegativeLength`. Both reject the input, with different error kinds.
- NwSlaResultDeserializeFromAvro and NwSlaClientDeserializeFromAvro: the source prints each field before reading the next. The model does not record which fields were printed before a failure.

## Findings

| source | as written | input that shows it | evidently intended | confidence | as-written member | corrected member |
|---|---|---|---|---|---|---|
| convert.hh:194-205 | the stream is read back without `encoder->flush()`, so the memory stream still counts the whole chunk the encoder took: the vector holds the record followed by the rest of an uninitialized 4096-byte chunk | any result whose `agent_ip` is at most 300 bytes, such as the sample `lr` | flush the encoder before reading the stream back, so that the vector is exactly the encoded record | not executed; depends on the Avro C++ memory stream, which is not part of this model | Convert.NwSlaResultSerializeToAvro, Convert.ResultChunkRestNonEmpty | Convert.EncodeLatencyResult |
| convert.hh:279-290 | the same in the client serializer | any parameters whose addresses are at most 300 bytes each, such as the sample `cp` | the vector is exactly the encoded record | not executed; depends on the Avro C++ memory stream, which is not part of this model | Convert.NwSlaClientSerializeToAvro, Convert.ClientChunkRestNonEmpty | Convert.EncodeClientParams |
