/**
 A generic Avro record: one datum per schema field, in field order. The
 serializers fill these slots with `setFieldAt` and hand the record to
 `avro::encode`; the deserializers get them back from `avro::decode` and
 read them with `fieldAt(i).value<T>()`.

 Writing a slot encodes the datum by its own kind; reading a field decodes
 the kind the schema declares. An enum slot the serializer filled with a
 plain `int` is therefore written as that int, which is the same varint the
 Avro specification prescribes for an enum index, and read back as an enum.
 */
module GenericCodec {
  import opened Errors
  import opened AvroBinary
  import opened Schemas

  datatype Datum =
    | StringDatum(bytes: Payload)
    | IntDatum(i: Int32)
    | DoubleDatum(bits: Bits64)
    | EnumDatum(index: Int64)

  /** The datum a fresh `GenericDatum(schema)` holds in a slot of type `t`. */
  function DefaultDatum(t: FieldType): (d: Datum)
    ensures t.EnumType? ==> d == EnumDatum(0)
    ensures !t.EnumType? ==> Matches(d, t)
  {
    match t
    case StringType => StringDatum([])
    case IntType => IntDatum(0)
    case DoubleType => DoubleDatum(0)
    case EnumType(_, symbols) => EnumDatum(0)
  }

  /** A slot holds something the writer can put under field type `t` and the
      reader can take back. */
  predicate Matches(d: Datum, t: FieldType) {
    match t
    case StringType => d.StringDatum?
    case IntType => d.IntDatum?
    case DoubleType => d.DoubleDatum?
    case EnumType(_, symbols) =>
      (d.IntDatum? && 0 <= d.i < |symbols|) || (d.EnumDatum? && 0 <= d.index < |symbols|)
  }

  predicate Conforms(slots: seq<Datum>, fields: seq<Field>) {
    |slots| == |fields| && forall i :: 0 <= i < |slots| ==> Matches(slots[i], fields[i].ftype)
  }

  /** What a decoded record looks like: it conforms, and every enum slot
      holds a `GenericEnum`, never a plain `int`. */
  predicate Decoded(slots: seq<Datum>, fields: seq<Field>) {
    Conforms(slots, fields)
    && forall i :: 0 <= i < |slots| ==> (fields[i].ftype.EnumType? ==> slots[i].EnumDatum?)
  }

  /** What the reader gives back for a matching slot: an `int` in an enum
      field comes back as that enum index. */
  function AsRead(d: Datum, t: FieldType): (e: Datum)
    requires Matches(d, t)
    ensures Matches(e, t)
    ensures t.EnumType? ==> e.EnumDatum?
  {
    if t.EnumType? && d.IntDatum? then EnumDatum(d.i) else d
  }

  function AsReadAll(slots: seq<Datum>, fields: seq<Field>): (read: seq<Datum>)
    requires Conforms(slots, fields)
    ensures |read| == |slots|
    ensures forall i :: 0 <= i < |read| ==> read[i] == AsRead(slots[i], fields[i].ftype)
  {
    if slots == [] then []
    else [AsRead(slots[0], fields[0].ftype)] + AsReadAll(slots[1..], fields[1..])
  }

  lemma ConformsTail(slots: seq<Datum>, fields: seq<Field>)
    requires Conforms(slots, fields) && slots != []
    ensures Matches(slots[0], fields[0].ftype) && Conforms(slots[1..], fields[1..])
  {
    forall i | 0 <= i < |slots| - 1
      ensures Matches(slots[1..][i], fields[1..][i].ftype)
    {
      assert Matches(slots[i + 1], fields[i + 1].ftype);
    }
  }

  /** Replacing one slot by another matching datum keeps the record
      conforming and changes only that slot of what is read back. */
  lemma ConformsUpdate(slots: seq<Datum>, fields: seq<Field>, j: nat, d: Datum)
    requires Conforms(slots, fields) && j < |slots| && Matches(d, fields[j].ftype)
    ensures Conforms(slots[j := d], fields)
    ensures AsReadAll(slots[j := d], fields) == AsReadAll(slots, fields)[j := AsRead(d, fields[j].ftype)]
  {
    assert Conforms(slots[j := d], fields) by {
      forall i | 0 <= i < |slots|
        ensures Matches(slots[j := d][i], fields[i].ftype)
      {
        if i != j {
          assert Matches(slots[i], fields[i].ftype);
        }
      }
    }
  }

  // ---------------------------------------------------------------- writing

  /** Each slot is written by its own kind, so an `int` in an enum slot is
      written as an `int`. Every slot takes at least one byte. */
  function EncodeDatum(d: Datum): (bytes: seq<Byte>)
    ensures |bytes| >= 1
    ensures d.DoubleDatum? ==> |bytes| == 8
  {
    match d
    case StringDatum(b) => WriteString(b)
    case IntDatum(i) => WriteInt(i)
    case DoubleDatum(bits) => WriteDouble(bits)
    case EnumDatum(k) => WriteLong(k)
  }

  /** A record is the concatenation of its fields' encodings, in field order. */
  function EncodeFields(slots: seq<Datum>): (bytes: seq<Byte>)
  {
    if slots == [] then [] else EncodeDatum(slots[0]) + EncodeFields(slots[1..])
  }

  lemma {:induction false} EncodeFieldsAppend(slots: seq<Datum>, d: Datum)
    ensures EncodeFields(slots + [d]) == EncodeFields(slots) + EncodeDatum(d)
  {
    if slots == [] {
      assert [d][1..] == [];
    } else {
      var whole := slots + [d];
      assert whole[0] == slots[0] && whole[1..] == slots[1..] + [d];
      var head, tail, last := EncodeDatum(slots[0]), EncodeFields(slots[1..]), EncodeDatum(d);
      EncodeFieldsAppend(slots[1..], d);
      assert EncodeFields(whole) == head + (tail + last);
      assert head + (tail + last) == (head + tail) + last;
    }
  }

  /** A slot takes at most ten bytes besides the bytes of a string it holds. */
  lemma DatumLength(d: Datum, limit: nat)
    requires d.StringDatum? ==> |d.bytes| <= limit
    ensures |EncodeDatum(d)| <= MaxVarintBytes + limit
  {
    match d
    case StringDatum(b) => LongLength(|b|);
    case IntDatum(i) => LongLength(i);
    case DoubleDatum(bits) =>
    case EnumDatum(k) => LongLength(k);
  }

  /** Every string slot holds at most `limit` bytes. */
  predicate StringsWithin(slots: seq<Datum>, limit: nat) {
    forall i :: 0 <= i < |slots| ==> (slots[i].StringDatum? ==> |slots[i].bytes| <= limit)
  }

  lemma StringsWithinTail(slots: seq<Datum>, limit: nat)
    requires StringsWithin(slots, limit) && slots != []
    ensures StringsWithin(slots[1..], limit)
  {
    forall i | 0 <= i < |slots| - 1
      ensures slots[1..][i].StringDatum? ==> |slots[1..][i].bytes| <= limit
    {
      assert slots[1..][i] == slots[i + 1];
    }
  }

  /** The room `n` slots of at most `per` bytes each take: `n * per`,
      written as a sum so that the bounds below stay linear. */
  function SlotBudget(n: nat, per: nat): (room: nat)
    ensures n >= 1 ==> room >= per
  {
    if n == 0 then 0 else per + SlotBudget(n - 1, per)
  }

  /** A record whose strings are at most `limit` bytes each encodes in at
      most `MaxVarintBytes + limit` bytes per slot. */
  lemma {:induction false} FieldsLength(slots: seq<Datum>, limit: nat)
    requires StringsWithin(slots, limit)
    ensures |EncodeFields(slots)| <= SlotBudget(|slots|, MaxVarintBytes + limit)
  {
    if slots != [] {
      var tail := slots[1..];
      StringsWithinTail(slots, limit);
      DatumLength(slots[0], limit);
      FieldsLength(tail, limit);
      assert |EncodeFields(slots)| == |EncodeDatum(slots[0])| + |EncodeFields(tail)|;
    }
  }

  /** `GenericRecord::setFieldAt`: replaces the datum in one slot. */
  method SetFieldAt(record: array<Datum>, pos: nat, d: Datum)
    requires pos < record.Length
    modifies record
    ensures record[..] == old(record[..])[pos := d]
  {
    record[pos] := d;
  }

  /** `avro::encode` of a generic record: each slot in turn is appended to the output. */
  method EncodeRecord(record: array<Datum>) returns (bytes: seq<Byte>)
    ensures bytes == EncodeFields(record[..])
  {
    bytes := [];
    var i := 0;
    while i < record.Length
      invariant 0 <= i <= record.Length
      invariant bytes == EncodeFields(record[..i])
    {
      EncodeFieldsAppend(record[..i], record[i]);
      assert record[..i + 1] == record[..i] + [record[i]];
      bytes := bytes + EncodeDatum(record[i]);
      i := i + 1;
    }
    assert record[..i] == record[..];
  }

  // ---------------------------------------------------------------- reading

  /** Reads one field of declared type `t`. An enum index outside the symbol
      list is rejected, as Avro's generic enum refuses it. */
  function DecodeDatum(t: FieldType, s: seq<Byte>): (r: Result<(Datum, seq<Byte>)>)
    ensures r.Ok? ==> Matches(r.value.0, t)
    ensures r.Ok? && t.EnumType? ==> r.value.0.EnumDatum?
    ensures r.Err? ==> r.error.IsWireError()
  {
    match t
    case StringType =>
      (match ReadString(s)
       case Err(e) => Err(e)
       case Ok((b, rest)) => Ok((StringDatum(b), rest)))
    case IntType =>
      (match ReadInt(s)
       case Err(e) => Err(e)
       case Ok((i, rest)) => Ok((IntDatum(i), rest)))
    case DoubleType =>
      (match ReadDouble(s)
       case Err(e) => Err(e)
       case Ok((bits, rest)) => Ok((DoubleDatum(bits), rest)))
    case EnumType(_, symbols) =>
      (match ReadLong(s)
       case Err(e) => Err(e)
       case Ok((k, rest)) =>
         if 0 <= k < |symbols| then Ok((EnumDatum(k), rest)) else Err(EnumIndexOutOfRange))
  }

  /** `avro::decode` into a generic record: the fields in declared order,
      each read from what the previous one left. Bytes after the last field
      are left unread. */
  function DecodeFields(fields: seq<Field>, s: seq<Byte>): (r: Result<(seq<Datum>, seq<Byte>)>)
    ensures r.Ok? ==> Conforms(r.value.0, fields)
  {
    if fields == [] then Ok(([], s))
    else
      match DecodeDatum(fields[0].ftype, s)
      case Err(e) => Err(e)
      case Ok((d, rest)) =>
        match DecodeFields(fields[1..], rest)
        case Err(e) => Err(e)
        case Ok((ds, rest')) => Ok(([d] + ds, rest'))
  }

  function DecodeRecord(schema: Schema, s: seq<Byte>): (r: Result<seq<Datum>>)
    ensures r.Ok? ==> Conforms(r.value, schema.fields)
  {
    match DecodeFields(schema.fields, s)
    case Err(e) => Err(e)
    case Ok((slots, _)) => Ok(slots)
  }

  /** A decoded record holds a `GenericEnum` in every enum slot, and a
      record that fails to decode fails with an error of the decoder. */
  lemma {:induction false} FieldsDecoded(fields: seq<Field>, s: seq<Byte>)
    ensures var r := DecodeFields(fields, s);
      (r.Ok? ==> Decoded(r.value.0, fields)) && (r.Err? ==> r.error.IsWireError())
  {
    if fields != [] {
      match DecodeDatum(fields[0].ftype, s)
      case Err(e) =>
      case Ok((d, rest)) =>
        FieldsDecoded(fields[1..], rest);
        var tail := DecodeFields(fields[1..], rest);
        if tail.Ok? {
          var ds := tail.value.0;
          assert DecodeFields(fields, s).value.0 == [d] + ds;
          forall i | 0 <= i < |fields| && fields[i].ftype.EnumType?
            ensures ([d] + ds)[i].EnumDatum?
          {
            if i > 0 {
              assert ([d] + ds)[i] == ds[i - 1] && fields[i] == fields[1..][i - 1];
            }
          }
        }
    }
  }

  lemma RecordDecoded(schema: Schema, s: seq<Byte>)
    ensures var r := DecodeRecord(schema, s);
      (r.Ok? ==> Decoded(r.value, schema.fields)) && (r.Err? ==> r.error.IsWireError())
  {
    FieldsDecoded(schema.fields, s);
  }

  // ---------------------------------------------------------------- slot access

  /** `fieldAt(i).value<std::string>()`: fails unless the slot holds a string. */
  function StringValue(d: Datum): (r: Result<Payload>)
    ensures r.Ok? <==> d.StringDatum?
    ensures r.Ok? ==> d == StringDatum(r.value)
  {
    if d.StringDatum? then Ok(d.bytes) else Err(TypeMismatch)
  }

  /** `fieldAt(i).value<int>()`. */
  function IntValue(d: Datum): (r: Result<Int32>)
    ensures r.Ok? <==> d.IntDatum?
    ensures r.Ok? ==> d == IntDatum(r.value)
  {
    if d.IntDatum? then Ok(d.i) else Err(TypeMismatch)
  }

  /** `fieldAt(i).value<double>()`. */
  function DoubleValue(d: Datum): (r: Result<Bits64>)
    ensures r.Ok? <==> d.DoubleDatum?
    ensures r.Ok? ==> d == DoubleDatum(r.value)
  {
    if d.DoubleDatum? then Ok(d.bits) else Err(TypeMismatch)
  }

  /** `fieldAt(i).value<GenericEnum>().value()`: the enum's index. */
  function EnumValue(d: Datum): (r: Result<Int64>)
    ensures r.Ok? <==> d.EnumDatum?
    ensures r.Ok? ==> d == EnumDatum(r.value)
  {
    if d.EnumDatum? then Ok(d.index) else Err(TypeMismatch)
  }

  // ---------------------------------------------------------------- round trip

  lemma DatumRoundTrip(d: Datum, t: FieldType, rest: seq<Byte>)
    requires Matches(d, t)
    ensures DecodeDatum(t, EncodeDatum(d) + rest) == Ok((AsRead(d, t), rest))
  {
    match d
    case StringDatum(b) => StringRoundTrip(b, rest);
    case IntDatum(i) => IntRoundTrip(i, rest); LongRoundTrip(i, rest);
    case DoubleDatum(bits) => DoubleRoundTrip(bits, rest);
    case EnumDatum(k) => LongRoundTrip(k, rest);
  }

  lemma {:induction false} FieldsRoundTrip(slots: seq<Datum>, fields: seq<Field>, rest: seq<Byte>)
    requires Conforms(slots, fields)
    ensures DecodeFields(fields, EncodeFields(slots) + rest) == Ok((AsReadAll(slots, fields), rest))
  {
    if slots != [] {
      var tail := EncodeFields(slots[1..]) + rest;
      assert EncodeFields(slots) + rest == EncodeDatum(slots[0]) + tail;
      DatumRoundTrip(slots[0], fields[0].ftype, tail);
      ConformsTail(slots, fields);
      FieldsRoundTrip(slots[1..], fields[1..], rest);
      assert DecodeFields(fields, EncodeFields(slots) + rest)
          == Ok(([AsRead(slots[0], fields[0].ftype)] + AsReadAll(slots[1..], fields[1..]), rest));
    } else {
      assert EncodeFields(slots) + rest == rest;
    }
  }

  lemma RecordRoundTrip(slots: seq<Datum>, schema: Schema, rest: seq<Byte>)
    requires Conforms(slots, schema.fields)
    ensures DecodeRecord(schema, EncodeFields(slots) + rest) == Ok(AsReadAll(slots, schema.fields))
  {
    FieldsRoundTrip(slots, schema.fields, rest);
  }

  /** A record whose slots all match except one enum field holding an `int`
      outside its symbol list: decoding stops there with the Avro error. */
  lemma {:induction false} FieldsEnumOutOfRange(slots: seq<Datum>, fields: seq<Field>, j: nat, rest: seq<Byte>)
    requires |slots| == |fields| && j < |slots|
    requires MatchesExcept(slots, fields, j)
    requires fields[j].ftype.EnumType? && slots[j].IntDatum?
    requires slots[j].i < 0 || slots[j].i >= |fields[j].ftype.symbols|
    ensures DecodeFields(fields, EncodeFields(slots) + rest) == Err(EnumIndexOutOfRange)
  {
    var tail := EncodeFields(slots[1..]) + rest;
    var s := EncodeFields(slots) + rest;
    EncodeFieldsCons(slots, rest);
    if j == 0 {
      EnumIndexRejected(slots[0].i, fields[0].ftype, tail);
      DecodeFieldsHeadErr(fields, s, EnumIndexOutOfRange);
    } else {
      var head := AsRead(slots[0], fields[0].ftype);
      assert DecodeDatum(fields[0].ftype, s) == Ok((head, tail)) by {
        assert Matches(slots[0], fields[0].ftype);
        DatumRoundTrip(slots[0], fields[0].ftype, tail);
      }
      assert DecodeFields(fields[1..], tail) == Err(EnumIndexOutOfRange) by {
        MatchesExceptTail(slots, fields, j);
        FieldsEnumOutOfRange(slots[1..], fields[1..], j - 1, rest);
      }
      DecodeFieldsTailErr(fields, s, head, tail, EnumIndexOutOfRange);
    }
  }

  /** Every slot but the `j`-th matches its field. */
  predicate MatchesExcept(slots: seq<Datum>, fields: seq<Field>, j: nat)
    requires |slots| == |fields|
  {
    forall i :: 0 <= i < |slots| && i != j ==> Matches(slots[i], fields[i].ftype)
  }

  lemma MatchesExceptTail(slots: seq<Datum>, fields: seq<Field>, j: nat)
    requires |slots| == |fields| && 0 < j < |slots| && MatchesExcept(slots, fields, j)
    ensures MatchesExcept(slots[1..], fields[1..], j - 1)
  {
    forall i | 0 <= i < |slots| - 1 && i != j - 1
      ensures Matches(slots[1..][i], fields[1..][i].ftype)
    {
      assert Matches(slots[i + 1], fields[i + 1].ftype);
    }
  }

  lemma EncodeFieldsCons(slots: seq<Datum>, rest: seq<Byte>)
    requires slots != []
    ensures EncodeFields(slots) + rest == EncodeDatum(slots[0]) + (EncodeFields(slots[1..]) + rest)
  {
  }

  /** An `int` outside the symbols, read as an enum index, is refused. */
  lemma EnumIndexRejected(i: Int32, t: FieldType, rest: seq<Byte>)
    requires t.EnumType? && (i < 0 || i >= |t.symbols|)
    ensures DecodeDatum(t, EncodeDatum(IntDatum(i)) + rest) == Err(EnumIndexOutOfRange)
  {
    LongRoundTrip(i, rest);
  }

  /** Decoding a record stops at a first field that fails. */
  lemma DecodeFieldsHeadErr(fields: seq<Field>, s: seq<Byte>, e: Error)
    requires fields != [] && DecodeDatum(fields[0].ftype, s) == Err(e)
    ensures DecodeFields(fields, s) == Err(e)
  {
  }

  /** Decoding a record stops at a later field that fails. */
  lemma DecodeFieldsTailErr(fields: seq<Field>, s: seq<Byte>, d: Datum, rest: seq<Byte>, e: Error)
    requires fields != [] && DecodeDatum(fields[0].ftype, s) == Ok((d, rest))
    requires DecodeFields(fields[1..], rest) == Err(e)
    ensures DecodeFields(fields, s) == Err(e)
  {
  }

  // ---------------------------------------------------------------- truncation

  lemma DatumTruncated(d: Datum, t: FieldType, p: seq<Byte>)
    requires Matches(d, t)
    requires StrictPrefix(p, EncodeDatum(d))
    ensures DecodeDatum(t, p).Err?
  {
    match d
    case StringDatum(b) => StringTruncated(b, p);
    case IntDatum(i) => LongTruncated(i, p);
    case DoubleDatum(bits) =>
    case EnumDatum(k) => LongTruncated(k, p);
  }

  /** No proper prefix of an encoded record decodes: a cut-off record is
      always an error, never a record with defaulted fields. */
  lemma {:induction false} FieldsTruncated(slots: seq<Datum>, fields: seq<Field>, p: seq<Byte>)
    requires Conforms(slots, fields)
    requires StrictPrefix(p, EncodeFields(slots))
    ensures DecodeFields(fields, p).Err?
  {
    var head, tail := EncodeDatum(slots[0]), EncodeFields(slots[1..]);
    assert EncodeFields(slots) == head + tail;
    ConformsTail(slots, fields);
    if |p| < |head| {
      assert StrictPrefix(p, head);
      DatumTruncated(slots[0], fields[0].ftype, p);
    } else {
      var p' := p[|head|..];
      PrefixSplit(head, tail, p);
      DatumRoundTrip(slots[0], fields[0].ftype, p');
      FieldsTruncated(slots[1..], fields[1..], p');
    }
  }

  lemma PrefixSplit(head: seq<Byte>, tail: seq<Byte>, p: seq<Byte>)
    requires StrictPrefix(p, head + tail) && |head| <= |p|
    ensures p == head + p[|head|..] && StrictPrefix(p[|head|..], tail)
  {
    assert p[..|head|] == (head + tail)[..|head|] == head;
    assert p[|head|..] == (head + tail)[|head|..|p|];
  }

  lemma RecordTruncated(slots: seq<Datum>, schema: Schema, p: seq<Byte>)
    requires Conforms(slots, schema.fields)
    requires StrictPrefix(p, EncodeFields(slots))
    ensures DecodeRecord(schema, p).Err?
  {
    FieldsTruncated(slots, schema.fields, p);
  }
}
