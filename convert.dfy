/**
 The record converters of convert.hh: `latencyresult` and `clientparams`
 to and from Avro bytes.

 A serializer fills a fresh generic record slot by slot in schema order,
 casting every integer (enums included) to a 32-bit `int`, and returns what
 `avro::encode` writes followed by the unwritten rest of the stream's last
 chunk, because the stream is read back without a flush. A deserializer
 decodes the bytes with the same schema, reads the slots back by position
 and casts each enum index to the native enum; the source prints the fields
 and catches every exception, and the model returns the record or the error
 that ended the read instead.

 The width of the native integer fields is declared in a header that is not
 part of this model, so they are unbounded here and the serializer's
 `static_cast<int>` is written out as a wrap to 32 bits.
 */
module Convert {
  import opened Errors
  import opened AvroBinary
  import opened Schemas
  import opened NativeEnums
  import opened GenericCodec

  predicate IsInt32(x: int) {
    -0x8000_0000 <= x < 0x8000_0000
  }

  /** `static_cast<int>` of a native integer: congruent to it modulo 2^32,
      and equal to it when it already fits. */
  function CastInt(x: int): (r: Int32)
    ensures (x - r) % 0x1_0000_0000 == 0
    ensures IsInt32(x) ==> r == x
  {
    var m := x % 0x1_0000_0000;
    if m < 0x8000_0000 then m else m - 0x1_0000_0000
  }

  // ================================================================ output stream

  /** The chunk size of `avro::memoryOutputStream()`, the library default. */
  const ChunkSize := 4096

  /** The byte count of a memory output stream after `written` bytes were
      encoded into it without a flush: the encoder takes whole chunks from the
      stream, and the count covers every chunk taken until a flush hands the
      unwritten part back. */
  function UnflushedLength(written: nat): (m: nat)
    ensures m % ChunkSize == 0
    ensures written <= m < written + ChunkSize
  {
    if written % ChunkSize == 0 then written else written - written % ChunkSize + ChunkSize
  }

  /** The part of the last chunk the encoder took but did not write. The
      chunk is allocated uninitialized, so its bytes are arbitrary. */
  method UnwrittenChunkRest(written: nat) returns (rest: seq<Byte>)
    ensures written + |rest| == UnflushedLength(written)
  {
    var zeros: seq<Byte> := seq(UnflushedLength(written) - written, _ => 0);
    rest :| |rest| == |zeros|;
  }

  /** A non-empty write shorter than a chunk leaves the stream at one chunk. */
  lemma WithinOneChunk(written: nat)
    requires 0 < written < ChunkSize
    ensures written < UnflushedLength(written) == ChunkSize
  {
  }

  // ================================================================ latencyresult

  datatype LatencyResult = LatencyResult(
    agentIp: Payload,
    state: SessionState,
    timestamp: int,
    packetsSent: int,
    packetsReceived: int,
    packetLoss: int,
    totalBurstTime: Bits64,
    rttMin: int,
    rttAvg: int,
    rttMax: int,
    rttMdev: int)

  predicate ResultFitsInt32(r: LatencyResult) {
    && IsInt32(r.timestamp) && IsInt32(r.packetsSent) && IsInt32(r.packetsReceived)
    && IsInt32(r.packetLoss) && IsInt32(r.rttMin) && IsInt32(r.rttAvg)
    && IsInt32(r.rttMax) && IsInt32(r.rttMdev)
  }

  /** The result as it comes out of the 32-bit casts: unchanged exactly when
      every integer field already fits. */
  function NarrowResult(r: LatencyResult): (n: LatencyResult)
    ensures ResultFitsInt32(n)
    ensures n == r <==> ResultFitsInt32(r)
    ensures n.agentIp == r.agentIp && n.state == r.state && n.totalBurstTime == r.totalBurstTime
  {
    r.(timestamp := CastInt(r.timestamp), packetsSent := CastInt(r.packetsSent),
       packetsReceived := CastInt(r.packetsReceived), packetLoss := CastInt(r.packetLoss),
       rttMin := CastInt(r.rttMin), rttAvg := CastInt(r.rttAvg),
       rttMax := CastInt(r.rttMax), rttMdev := CastInt(r.rttMdev))
  }

  /** The slots `NwSlaResultSerializeToAvro` sets: every field of the schema,
      each with a datum of the kind its declared type takes (the enum as its
      ordinal, an `int`). */
  function ResultSlots(r: LatencyResult): (slots: seq<Datum>)
    ensures Conforms(slots, LatencyResultSchema.fields)
  {
    [ StringDatum(r.agentIp),
      IntDatum(SessionStateOrdinal(r.state)),
      IntDatum(CastInt(r.timestamp)),
      IntDatum(CastInt(r.packetsSent)),
      IntDatum(CastInt(r.packetsReceived)),
      IntDatum(CastInt(r.packetLoss)),
      DoubleDatum(r.totalBurstTime),
      IntDatum(CastInt(r.rttMin)),
      IntDatum(CastInt(r.rttAvg)),
      IntDatum(CastInt(r.rttMax)),
      IntDatum(CastInt(r.rttMdev)) ]
  }

  /** The `setFieldAt` calls and `avro::encode` of the result serializer: the
      bytes a flushed encoder leaves in the stream, which hold exactly one
      record and decode back to the result after its casts. */
  method EncodeLatencyResult(result: LatencyResult) returns (encoding: seq<Byte>)
    ensures encoding == EncodeFields(ResultSlots(result))
    ensures DecodeFields(LatencyResultSchema.fields, encoding) == Ok((ResultRead(NarrowResult(result)), []))
    ensures NwSlaResultDeserializeFromAvro(encoding) == Ok(NarrowResult(result))
  {
    var fields := LatencyResultSchema.fields;
    var record := new Datum[|fields|](i requires 0 <= i < |fields| => DefaultDatum(fields[i].ftype));
    SetFieldAt(record, 0, StringDatum(result.agentIp));
    SetFieldAt(record, 1, IntDatum(SessionStateOrdinal(result.state)));
    SetFieldAt(record, 2, IntDatum(CastInt(result.timestamp)));
    SetFieldAt(record, 3, IntDatum(CastInt(result.packetsSent)));
    SetFieldAt(record, 4, IntDatum(CastInt(result.packetsReceived)));
    SetFieldAt(record, 5, IntDatum(CastInt(result.packetLoss)));
    SetFieldAt(record, 6, DoubleDatum(result.totalBurstTime));
    SetFieldAt(record, 7, IntDatum(CastInt(result.rttMin)));
    SetFieldAt(record, 8, IntDatum(CastInt(result.rttAvg)));
    SetFieldAt(record, 9, IntDatum(CastInt(result.rttMax)));
    SetFieldAt(record, 10, IntDatum(CastInt(result.rttMdev)));
    assert record[..] == ResultSlots(result);
    encoding := EncodeRecord(record);
    ResultEncodingExact(result);
    ResultRoundTripExactBytes(result);
  }

  /** The serializer as written: the stream is read back without a flush, so
      the vector holds the record followed by the unwritten rest of the last
      chunk. The deserializer ignores those bytes. */
  method NwSlaResultSerializeToAvro(result: LatencyResult) returns (serialized: seq<Byte>)
    ensures EncodeFields(ResultSlots(result)) <= serialized
    ensures |serialized| == UnflushedLength(|EncodeFields(ResultSlots(result))|)
    ensures NwSlaResultDeserializeFromAvro(serialized) == Ok(NarrowResult(result))
  {
    var encoding := EncodeLatencyResult(result);
    var chunkRest := UnwrittenChunkRest(|encoding|);
    serialized := encoding + chunkRest;
    ResultRoundTrip(result, chunkRest);
  }

  /** For every result whose `agent_ip` is at most 300 bytes (any IPv4 or
      IPv6 text is), the record is shorter than one chunk, so the serializer
      returns a whole chunk and some of its bytes were never written. */
  lemma ResultChunkRestNonEmpty(r: LatencyResult)
    requires |r.agentIp| <= 300
    ensures |EncodeFields(ResultSlots(r))| < UnflushedLength(|EncodeFields(ResultSlots(r))|) == ChunkSize
  {
    var slots := ResultSlots(r);
    assert StringsWithin(slots, 300) by {
      forall i | 0 <= i < |slots|
        ensures slots[i].StringDatum? ==> |slots[i].bytes| <= 300
      {
        if i != 0 { assert !slots[i].StringDatum?; }
      }
    }
    FieldsLength(slots, 300);
    assert SlotBudget(|slots|, MaxVarintBytes + 300) == SlotBudget(11, 310) == 3410;
    LongLength(|r.agentIp|);
    assert |EncodeFields(slots)| >= |EncodeDatum(slots[0])| >= 1;
    WithinOneChunk(|EncodeFields(slots)|);
  }

  /** Reads the decoded slots by position, as the deserializer's `fieldAt`
      calls do, stopping at the first that fails. */
  function ResultFromRecord(slots: seq<Datum>): (r: Result<LatencyResult>)
    requires |slots| == |LatencyResultSchema.fields|
    ensures r.Ok? ==> ResultFitsInt32(r.value)
  {
    var agentIp :- StringValue(slots[0]);
    var stateIndex :- EnumValue(slots[1]);
    var state :- SessionStateFromIndex(stateIndex);
    var timestamp :- IntValue(slots[2]);
    var packetsSent :- IntValue(slots[3]);
    var packetsReceived :- IntValue(slots[4]);
    var packetLoss :- IntValue(slots[5]);
    var totalBurstTime :- DoubleValue(slots[6]);
    var rttMin :- IntValue(slots[7]);
    var rttAvg :- IntValue(slots[8]);
    var rttMax :- IntValue(slots[9]);
    var rttMdev :- IntValue(slots[10]);
    Ok(LatencyResult(agentIp, state, timestamp, packetsSent, packetsReceived, packetLoss,
                     totalBurstTime, rttMin, rttAvg, rttMax, rttMdev))
  }

  /** Every exception the source catches becomes the `Err` outcome. */
  function NwSlaResultDeserializeFromAvro(serialized: seq<Byte>): (r: Result<LatencyResult>)
    ensures r.Ok? ==> ResultFitsInt32(r.value)
  {
    var record :- DecodeRecord(LatencyResultSchema, serialized);
    ResultFromRecord(record)
  }

  /** Decoding what the serializer wrote, with anything after it, gives back
      every field: strings byte for byte, the enum variant, the double's bit
      pattern, and each integer as its 32-bit cast. */
  lemma ResultRoundTrip(r: LatencyResult, trailing: seq<Byte>)
    ensures NwSlaResultDeserializeFromAvro(EncodeFields(ResultSlots(r)) + trailing) == Ok(NarrowResult(r))
  {
    var slots := ResultSlots(r);
    RecordRoundTrip(slots, LatencyResultSchema, trailing);
    ResultSlotsRead(r);
    ResultReadBack(NarrowResult(r));
  }

  /** The slots as the reader returns them: the enum slot comes back as an
      enum index, every other slot as written. */
  function ResultRead(n: LatencyResult): (read: seq<Datum>)
    requires ResultFitsInt32(n)
    ensures |read| == |LatencyResultSchema.fields|
  {
    [ StringDatum(n.agentIp), EnumDatum(SessionStateOrdinal(n.state)),
      IntDatum(n.timestamp), IntDatum(n.packetsSent), IntDatum(n.packetsReceived),
      IntDatum(n.packetLoss), DoubleDatum(n.totalBurstTime), IntDatum(n.rttMin),
      IntDatum(n.rttAvg), IntDatum(n.rttMax), IntDatum(n.rttMdev) ]
  }

  lemma ResultSlotsRead(r: LatencyResult)
    ensures AsReadAll(ResultSlots(r), LatencyResultSchema.fields) == ResultRead(NarrowResult(r))
  {
  }

  /** The slots as the reader returns them convert back to the narrowed result. */
  lemma ResultReadBack(n: LatencyResult)
    requires ResultFitsInt32(n)
    ensures ResultFromRecord(ResultRead(n)) == Ok(n)
  {
    SessionStateFromIndexRoundTrip(n.state);
  }

  lemma ResultRoundTripExactBytes(r: LatencyResult)
    ensures NwSlaResultDeserializeFromAvro(EncodeFields(ResultSlots(r))) == Ok(NarrowResult(r))
  {
    ResultRoundTrip(r, []);
    assert EncodeFields(ResultSlots(r)) + [] == EncodeFields(ResultSlots(r));
  }

  /** The flushed encoding of a result is one record and nothing more:
      decoding it consumes every byte. */
  lemma ResultEncodingExact(r: LatencyResult)
    ensures DecodeFields(LatencyResultSchema.fields, EncodeFields(ResultSlots(r)))
         == Ok((ResultRead(NarrowResult(r)), []))
  {
    FieldsRoundTrip(ResultSlots(r), LatencyResultSchema.fields, []);
    assert EncodeFields(ResultSlots(r)) + [] == EncodeFields(ResultSlots(r));
    ResultSlotsRead(r);
  }

  lemma ResultRoundTripExact(r: LatencyResult)
    requires ResultFitsInt32(r)
    ensures NwSlaResultDeserializeFromAvro(EncodeFields(ResultSlots(r))) == Ok(r)
  {
    ResultRoundTrip(r, []);
    assert EncodeFields(ResultSlots(r)) + [] == EncodeFields(ResultSlots(r));
  }

  /** Bytes cut short anywhere inside a serialized result never decode. */
  lemma ResultTruncationRejected(r: LatencyResult, p: seq<Byte>)
    requires StrictPrefix(p, EncodeFields(ResultSlots(r)))
    ensures NwSlaResultDeserializeFromAvro(p).Err?
  {
    RecordTruncated(ResultSlots(r), LatencyResultSchema, p);
  }

  /** A state slot holding FILLER's index passes the Avro decoder but has no
      native variant: the deserializer ends in "Unknown SessionState". */
  lemma ResultFillerStateRejected(r: LatencyResult, trailing: seq<Byte>)
    ensures NwSlaResultDeserializeFromAvro(EncodeFields(ResultSlots(r)[1 := IntDatum(3)]) + trailing)
         == Err(UnknownEnum("SessionState"))
  {
    ConformsUpdate(ResultSlots(r), LatencyResultSchema.fields, 1, IntDatum(3));
    RecordRoundTrip(ResultSlots(r)[1 := IntDatum(3)], LatencyResultSchema, trailing);
    ResultSlotsRead(r);
    ResultFillerRead(NarrowResult(r));
  }

  lemma ResultFillerRead(n: LatencyResult)
    requires ResultFitsInt32(n)
    ensures ResultFromRecord(ResultRead(n)[1 := EnumDatum(3)]) == Err(UnknownEnum("SessionState"))
  {
  }

  /** A state index past the last symbol is refused by the Avro decoder itself. */
  lemma ResultStateOutOfRangeRejected(r: LatencyResult, k: Int32, trailing: seq<Byte>)
    requires k < 0 || k >= |SessionStateSymbols|
    ensures NwSlaResultDeserializeFromAvro(EncodeFields(ResultSlots(r)[1 := IntDatum(k)]) + trailing)
         == Err(EnumIndexOutOfRange)
  {
    FieldsEnumOutOfRange(ResultSlots(r)[1 := IntDatum(k)], LatencyResultSchema.fields, 1, trailing);
  }

  /** Reading a decoded record by position fails only at the state's cast:
      every other slot holds the kind its `value<T>()` call asks for. */
  lemma ResultDecodedRead(slots: seq<Datum>)
    requires Decoded(slots, LatencyResultSchema.fields)
    ensures var r := ResultFromRecord(slots);
      r.Err? ==> r.error == UnknownEnum("SessionState")
  {
    var fields := LatencyResultSchema.fields;
    assert slots[0].StringDatum? by { assert Matches(slots[0], fields[0].ftype); }
    assert slots[1].EnumDatum?;
    assert slots[6].DoubleDatum? by { assert Matches(slots[6], fields[6].ftype); }
    forall i | i in {2, 3, 4, 5, 7, 8, 9, 10}
      ensures slots[i].IntDatum?
    {
      assert Matches(slots[i], fields[i].ftype);
    }
  }

  /** The result deserializer fails only with an error of the Avro decoder
      or with "Unknown SessionState"; never with a slot read as the wrong kind. */
  lemma ResultDeserializeErrors(serialized: seq<Byte>)
    ensures var r := NwSlaResultDeserializeFromAvro(serialized);
      r.Err? ==> r.error.IsWireError() || r.error == UnknownEnum("SessionState")
  {
    RecordDecoded(LatencyResultSchema, serialized);
    var record := DecodeRecord(LatencyResultSchema, serialized);
    if record.Ok? {
      ResultDecodedRead(record.value);
    }
  }

  // ================================================================ clientparams

  datatype ClientParams = ClientParams(
    agentIp: Payload,
    destIp: Payload,
    ipType: IpType,
    protType: ProtType,
    interval: int,
    id: int,
    state: SessionState,
    port: int)

  predicate ClientFitsInt32(c: ClientParams) {
    IsInt32(c.interval) && IsInt32(c.id) && IsInt32(c.port)
  }

  /** The parameters as they come out of the 32-bit casts: unchanged exactly
      when every integer field already fits. */
  function NarrowClient(c: ClientParams): (n: ClientParams)
    ensures ClientFitsInt32(n)
    ensures n == c <==> ClientFitsInt32(c)
    ensures n.agentIp == c.agentIp && n.destIp == c.destIp
    ensures n.ipType == c.ipType && n.protType == c.protType && n.state == c.state
  {
    c.(interval := CastInt(c.interval), id := CastInt(c.id), port := CastInt(c.port))
  }

  /** The slots `NwSlaClientSerializeToAvro` sets: every field of the schema,
      each with a datum of the kind its declared type takes. */
  function ClientSlots(c: ClientParams): (slots: seq<Datum>)
    ensures Conforms(slots, ClientParamsSchema.fields)
  {
    [ StringDatum(c.agentIp),
      StringDatum(c.destIp),
      IntDatum(IpTypeOrdinal(c.ipType)),
      IntDatum(ProtTypeOrdinal(c.protType)),
      IntDatum(CastInt(c.interval)),
      IntDatum(CastInt(c.id)),
      IntDatum(SessionStateOrdinal(c.state)),
      IntDatum(CastInt(c.port)) ]
  }

  /** The `setFieldAt` calls and `avro::encode` of the client serializer: the
      bytes a flushed encoder leaves in the stream, which hold exactly one
      record and decode back to the parameters after their casts. */
  method EncodeClientParams(c: ClientParams) returns (encoding: seq<Byte>)
    ensures encoding == EncodeFields(ClientSlots(c))
    ensures DecodeFields(ClientParamsSchema.fields, encoding) == Ok((ClientRead(NarrowClient(c)), []))
    ensures NwSlaClientDeserializeFromAvro(encoding) == Ok(NarrowClient(c))
  {
    var fields := ClientParamsSchema.fields;
    var record := new Datum[|fields|](i requires 0 <= i < |fields| => DefaultDatum(fields[i].ftype));
    SetFieldAt(record, 0, StringDatum(c.agentIp));
    SetFieldAt(record, 1, StringDatum(c.destIp));
    SetFieldAt(record, 2, IntDatum(IpTypeOrdinal(c.ipType)));
    SetFieldAt(record, 3, IntDatum(ProtTypeOrdinal(c.protType)));
    SetFieldAt(record, 4, IntDatum(CastInt(c.interval)));
    SetFieldAt(record, 5, IntDatum(CastInt(c.id)));
    SetFieldAt(record, 6, IntDatum(SessionStateOrdinal(c.state)));
    SetFieldAt(record, 7, IntDatum(CastInt(c.port)));
    assert record[..] == ClientSlots(c);
    encoding := EncodeRecord(record);
    ClientEncodingExact(c);
    ClientRoundTripExactBytes(c);
  }

  /** The serializer as written: the record followed by the unwritten rest of
      the last chunk, which the deserializer ignores. */
  method NwSlaClientSerializeToAvro(c: ClientParams) returns (serialized: seq<Byte>)
    ensures EncodeFields(ClientSlots(c)) <= serialized
    ensures |serialized| == UnflushedLength(|EncodeFields(ClientSlots(c))|)
    ensures NwSlaClientDeserializeFromAvro(serialized) == Ok(NarrowClient(c))
  {
    var encoding := EncodeClientParams(c);
    var chunkRest := UnwrittenChunkRest(|encoding|);
    serialized := encoding + chunkRest;
    ClientRoundTrip(c, chunkRest);
  }

  /** For all parameters whose two addresses are at most 300 bytes each, the
      serializer returns a whole chunk, part of it never written. */
  lemma ClientChunkRestNonEmpty(c: ClientParams)
    requires |c.agentIp| <= 300 && |c.destIp| <= 300
    ensures |EncodeFields(ClientSlots(c))| < UnflushedLength(|EncodeFields(ClientSlots(c))|) == ChunkSize
  {
    var slots := ClientSlots(c);
    assert StringsWithin(slots, 300) by {
      forall i | 0 <= i < |slots|
        ensures slots[i].StringDatum? ==> |slots[i].bytes| <= 300
      {
        if i >= 2 { assert !slots[i].StringDatum?; }
      }
    }
    FieldsLength(slots, 300);
    assert SlotBudget(|slots|, MaxVarintBytes + 300) == SlotBudget(8, 310) == 2480;
    LongLength(|c.agentIp|);
    assert |EncodeFields(slots)| >= |EncodeDatum(slots[0])| >= 1;
    WithinOneChunk(|EncodeFields(slots)|);
  }

  function ClientFromRecord(slots: seq<Datum>): (r: Result<ClientParams>)
    requires |slots| == |ClientParamsSchema.fields|
    ensures r.Ok? ==> ClientFitsInt32(r.value)
  {
    var agentIp :- StringValue(slots[0]);
    var destIp :- StringValue(slots[1]);
    var ipTypeIndex :- EnumValue(slots[2]);
    var ipType :- IpTypeFromIndex(ipTypeIndex);
    var protTypeIndex :- EnumValue(slots[3]);
    var protType :- ProtTypeFromIndex(protTypeIndex);
    var interval :- IntValue(slots[4]);
    var id :- IntValue(slots[5]);
    var stateIndex :- EnumValue(slots[6]);
    var state :- SessionStateFromIndex(stateIndex);
    var port :- IntValue(slots[7]);
    Ok(ClientParams(agentIp, destIp, ipType, protType, interval, id, state, port))
  }

  function NwSlaClientDeserializeFromAvro(serialized: seq<Byte>): (r: Result<ClientParams>)
    ensures r.Ok? ==> ClientFitsInt32(r.value)
  {
    var record :- DecodeRecord(ClientParamsSchema, serialized);
    ClientFromRecord(record)
  }

  lemma ClientRoundTrip(c: ClientParams, trailing: seq<Byte>)
    ensures NwSlaClientDeserializeFromAvro(EncodeFields(ClientSlots(c)) + trailing) == Ok(NarrowClient(c))
  {
    RecordRoundTrip(ClientSlots(c), ClientParamsSchema, trailing);
    ClientSlotsRead(c);
    ClientReadBack(NarrowClient(c));
  }

  /** The slots as the reader returns them: each enum slot comes back as an
      enum index, every other slot as written. */
  function ClientRead(n: ClientParams): (read: seq<Datum>)
    requires ClientFitsInt32(n)
    ensures |read| == |ClientParamsSchema.fields|
  {
    [ StringDatum(n.agentIp), StringDatum(n.destIp),
      EnumDatum(IpTypeOrdinal(n.ipType)), EnumDatum(ProtTypeOrdinal(n.protType)),
      IntDatum(n.interval), IntDatum(n.id),
      EnumDatum(SessionStateOrdinal(n.state)), IntDatum(n.port) ]
  }

  lemma ClientSlotsRead(c: ClientParams)
    ensures AsReadAll(ClientSlots(c), ClientParamsSchema.fields) == ClientRead(NarrowClient(c))
  {
  }

  lemma ClientReadBack(n: ClientParams)
    requires ClientFitsInt32(n)
    ensures ClientFromRecord(ClientRead(n)) == Ok(n)
  {
    IpTypeFromIndexRoundTrip(n.ipType);
    ProtTypeFromIndexRoundTrip(n.protType);
    SessionStateFromIndexRoundTrip(n.state);
  }

  lemma ClientRoundTripExactBytes(c: ClientParams)
    ensures NwSlaClientDeserializeFromAvro(EncodeFields(ClientSlots(c))) == Ok(NarrowClient(c))
  {
    ClientRoundTrip(c, []);
    assert EncodeFields(ClientSlots(c)) + [] == EncodeFields(ClientSlots(c));
  }

  /** The flushed encoding of client parameters is one record and nothing
      more: decoding it consumes every byte. */
  lemma ClientEncodingExact(c: ClientParams)
    ensures DecodeFields(ClientParamsSchema.fields, EncodeFields(ClientSlots(c)))
         == Ok((ClientRead(NarrowClient(c)), []))
  {
    FieldsRoundTrip(ClientSlots(c), ClientParamsSchema.fields, []);
    assert EncodeFields(ClientSlots(c)) + [] == EncodeFields(ClientSlots(c));
    ClientSlotsRead(c);
  }

  lemma ClientRoundTripExact(c: ClientParams)
    requires ClientFitsInt32(c)
    ensures NwSlaClientDeserializeFromAvro(EncodeFields(ClientSlots(c))) == Ok(c)
  {
    ClientRoundTrip(c, []);
    assert EncodeFields(ClientSlots(c)) + [] == EncodeFields(ClientSlots(c));
  }

  lemma ClientTruncationRejected(c: ClientParams, p: seq<Byte>)
    requires StrictPrefix(p, EncodeFields(ClientSlots(c)))
    ensures NwSlaClientDeserializeFromAvro(p).Err?
  {
    RecordTruncated(ClientSlots(c), ClientParamsSchema, p);
  }

  /** FILLER's index in any of the three enum slots ends in the "Unknown …"
      error of that slot's enum. */
  lemma ClientFillerRejected(c: ClientParams, slot: nat, trailing: seq<Byte>)
    requires slot == 2 || slot == 3 || slot == 6
    ensures NwSlaClientDeserializeFromAvro(EncodeFields(ClientSlots(c)[slot := IntDatum(3)]) + trailing)
         == Err(UnknownEnum(ClientParamsSchema.fields[slot].ftype.enumName))
  {
    var fields, slots := ClientParamsSchema.fields, ClientSlots(c);
    assert fields[slot].ftype.EnumType? && |fields[slot].ftype.symbols| == 4;
    ConformsUpdate(slots, fields, slot, IntDatum(3));
    RecordRoundTrip(slots[slot := IntDatum(3)], ClientParamsSchema, trailing);
    ClientSlotsRead(c);
    ClientFillerRead(NarrowClient(c), slot);
  }

  lemma ClientFillerRead(n: ClientParams, slot: nat)
    requires ClientFitsInt32(n)
    requires slot == 2 || slot == 3 || slot == 6
    ensures ClientFromRecord(ClientRead(n)[slot := EnumDatum(3)])
         == Err(UnknownEnum(ClientParamsSchema.fields[slot].ftype.enumName))
  {
    IpTypeFromIndexRoundTrip(n.ipType);
    ProtTypeFromIndexRoundTrip(n.protType);
  }

  lemma ClientEnumOutOfRangeRejected(c: ClientParams, slot: nat, k: Int32, trailing: seq<Byte>)
    requires slot == 2 || slot == 3 || slot == 6
    requires k < 0 || k >= 4
    ensures NwSlaClientDeserializeFromAvro(EncodeFields(ClientSlots(c)[slot := IntDatum(k)]) + trailing)
         == Err(EnumIndexOutOfRange)
  {
    FieldsEnumOutOfRange(ClientSlots(c)[slot := IntDatum(k)], ClientParamsSchema.fields, slot, trailing);
  }

  /** Reading a decoded record by position fails only at an enum's cast. */
  lemma ClientDecodedRead(slots: seq<Datum>)
    requires Decoded(slots, ClientParamsSchema.fields)
    ensures var r := ClientFromRecord(slots);
      r.Err? ==> r.error in {UnknownEnum("IpType"), UnknownEnum("ProtType"), UnknownEnum("SessionState")}
  {
    var fields := ClientParamsSchema.fields;
    forall i | i in {0, 1}
      ensures slots[i].StringDatum?
    {
      assert Matches(slots[i], fields[i].ftype);
    }
    assert slots[2].EnumDatum? && slots[3].EnumDatum? && slots[6].EnumDatum?;
    forall i | i in {4, 5, 7}
      ensures slots[i].IntDatum?
    {
      assert Matches(slots[i], fields[i].ftype);
    }
  }

  /** The client deserializer fails only with an error of the Avro decoder
      or with the "Unknown …" error of one of its three enums. */
  lemma ClientDeserializeErrors(serialized: seq<Byte>)
    ensures var r := NwSlaClientDeserializeFromAvro(serialized);
      r.Err? ==>
        r.error.IsWireError()
        || r.error in {UnknownEnum("IpType"), UnknownEnum("ProtType"), UnknownEnum("SessionState")}
  {
    RecordDecoded(ClientParamsSchema, serialized);
    var record := DecodeRecord(ClientParamsSchema, serialized);
    if record.Ok? {
      ClientDecodedRead(record.value);
    }
  }

  // ================================================================ driver

  /** Each record is serialized and then deserialized with its own schema;
      both reads succeed and give back the records after the 32-bit casts. */
  method NwSlaSerializeToAvro(params: ClientParams, result: LatencyResult)
    returns (clientRead: Result<ClientParams>, resultRead: Result<LatencyResult>)
    ensures clientRead == Ok(NarrowClient(params))
    ensures resultRead == Ok(NarrowResult(result))
  {
    var serializedClient := NwSlaClientSerializeToAvro(params);
    clientRead := NwSlaClientDeserializeFromAvro(serializedClient);
    var serializedResult := NwSlaResultSerializeToAvro(result);
    resultRead := NwSlaResultDeserializeFromAvro(serializedResult);
  }
}
