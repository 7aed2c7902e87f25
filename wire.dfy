/**
 The primitive encodings that `avro::encode` and `avro::decode` use, as the
 Apache Avro 1.11 specification fixes them in its section "Binary Encoding":
 an `int` or `long` is a zig-zag number written as a little-endian base-128
 varint, a `string` is its length as a `long` followed by its bytes, and a
 `double` is its 64-bit pattern in eight little-endian bytes.

 Every reader takes the input and returns the value with the bytes left
 over, so that readers compose by feeding one's leftover to the next.
 */
module AvroBinary {
  import opened Errors

  type Byte = b: int | 0 <= b < 0x100

  type Int32 = x: int | -0x8000_0000 <= x < 0x8000_0000
  type Int64 = x: int | -0x8000_0000_0000_0000 <= x < 0x8000_0000_0000_0000

  /** The bit pattern of an IEEE 754 double, which the model never interprets. */
  type Bits64 = x: int | 0 <= x < 0x1_0000_0000_0000_0000

  /** The bytes of a `std::string`; its length must be writable as a `long`. */
  type Payload = s: seq<Byte> | |s| < 0x8000_0000_0000_0000

  /** The most bytes a varint may take before the decoder gives up. */
  const MaxVarintBytes: nat := 10

  predicate StrictPrefix(p: seq<Byte>, s: seq<Byte>) {
    |p| < |s| && p == s[..|p|]
  }

  function Pow128(k: nat): (r: nat)
    ensures r >= 1
  {
    if k == 0 then 1 else 0x80 * Pow128(k - 1)
  }

  function Pow256(k: nat): (r: nat)
    ensures r >= 1
  {
    if k == 0 then 1 else 0x100 * Pow256(k - 1)
  }

  // ---------------------------------------------------------------- zig-zag

  /** Zig-zag maps signed to unsigned so that small magnitudes stay small:
      0, -1, 1, -2, 2, ... become 0, 1, 2, 3, 4, ... */
  function ZigZag(n: int): (u: nat)
    ensures UnZigZag(u) == n
    ensures -0x8000_0000_0000_0000 <= n < 0x8000_0000_0000_0000 ==> u < 0x1_0000_0000_0000_0000
    ensures -0x8000_0000 <= n < 0x8000_0000 ==> u < 0x1_0000_0000
  {
    if n >= 0 then 2 * n else -2 * n - 1
  }

  function UnZigZag(u: nat): (n: int)
    ensures u < 0x1_0000_0000_0000_0000 ==> -0x8000_0000_0000_0000 <= n < 0x8000_0000_0000_0000
  {
    if u % 2 == 0 then u / 2 else -((u + 1) / 2)
  }

  lemma UnZigZagInverse(u: nat)
    ensures ZigZag(UnZigZag(u)) == u
  {
  }

  // ---------------------------------------------------------------- varint

  /** Seven bits per byte, least significant group first; the high bit of a
      byte says that another byte follows. */
  function Varint(u: nat): (bytes: seq<Byte>)
    ensures |bytes| >= 1
    ensures bytes[|bytes| - 1] < 0x80
    ensures forall i :: 0 <= i < |bytes| - 1 ==> bytes[i] >= 0x80
    decreases u
  {
    if u < 0x80 then [u] else [u % 0x80 + 0x80] + Varint(u / 0x80)
  }

  /** Reads one varint of at most `budget` bytes. */
  function ReadVarint(s: seq<Byte>, budget: nat): (r: Result<(nat, seq<Byte>)>)
    ensures r.Ok? ==> |r.value.1| < |s| && s[|s| - |r.value.1|..] == r.value.1
    ensures r.Err? ==> r.error == Truncated || r.error == InvalidVarint
  {
    if budget == 0 then Err(InvalidVarint)
    else if |s| == 0 then Err(Truncated)
    else if s[0] < 0x80 then Ok((s[0], s[1..]))
    else
      match ReadVarint(s[1..], budget - 1)
      case Err(e) => Err(e)
      case Ok((v, rest)) => Ok((s[0] - 0x80 + 0x80 * v, rest))
  }

  lemma {:induction false} VarintLength(u: nat, k: nat)
    requires 1 <= k && u < Pow128(k)
    ensures |Varint(u)| <= k
    decreases u
  {
    if u >= 0x80 {
      assert k >= 2;
      assert u / 0x80 < Pow128(k - 1);
      VarintLength(u / 0x80, k - 1);
    }
  }

  /** A number is its low seven bits plus 128 times the rest. */
  lemma Split128(u: nat)
    ensures 0 <= u % 0x80 < 0x80 && u == u % 0x80 + 0x80 * (u / 0x80)
  {
  }

  /** One step of the reader on a byte with the continuation bit set. */
  lemma ReadVarintCons(first: Byte, more: seq<Byte>, budget: nat, v: nat, rest: seq<Byte>)
    requires budget > 0 && first >= 0x80
    requires ReadVarint(more, budget - 1) == Ok((v, rest))
    ensures ReadVarint([first] + more, budget) == Ok((first - 0x80 + 0x80 * v, rest))
  {
    assert ([first] + more)[1..] == more;
  }

  lemma {:induction false} VarintRoundTrip(u: nat, rest: seq<Byte>, budget: nat)
    requires |Varint(u)| <= budget
    ensures ReadVarint(Varint(u) + rest, budget) == Ok((u, rest))
    decreases u
  {
    if u < 0x80 {
      assert ([u] + rest)[1..] == rest;
    } else {
      var high := u / 0x80;
      var low := u % 0x80 + 0x80;
      var tail := Varint(high);
      Split128(u);
      assert Varint(u) == [low] + tail;
      assert Varint(u) + rest == [low] + (tail + rest);
      VarintRoundTrip(high, rest, budget - 1);
      ReadVarintCons(low, tail + rest, budget, high, rest);
    }
  }

  lemma {:induction false} VarintTruncated(u: nat, p: seq<Byte>, budget: nat)
    requires StrictPrefix(p, Varint(u))
    ensures ReadVarint(p, budget).Err?
    decreases u
  {
    if budget > 0 && |p| > 0 {
      assert u >= 0x80;
      assert StrictPrefix(p[1..], Varint(u / 0x80));
      VarintTruncated(u / 0x80, p[1..], budget - 1);
    }
  }

  // ---------------------------------------------------------------- long and int

  /** A `long` is self-delimiting: it ends at its first byte without the
      continuation bit. */
  function WriteLong(n: Int64): (bytes: seq<Byte>)
    ensures |bytes| >= 1 && bytes[|bytes| - 1] < 0x80
    ensures forall i :: 0 <= i < |bytes| - 1 ==> bytes[i] >= 0x80
  {
    Varint(ZigZag(n))
  }

  /** A `long` never takes more than ten bytes. */
  lemma LongLength(n: Int64)
    ensures 1 <= |WriteLong(n)| <= MaxVarintBytes
  {
    assert Pow128(10) == 0x40_0000_0000_0000_0000;
    VarintLength(ZigZag(n), 10);
  }

  /** A `long`: a varint of at most ten bytes holding a 64-bit zig-zag value. */
  function ReadLong(s: seq<Byte>): (r: Result<(Int64, seq<Byte>)>)
    ensures r.Ok? ==> |r.value.1| < |s| && s[|s| - |r.value.1|..] == r.value.1
    ensures r.Err? ==> r.error == Truncated || r.error == InvalidVarint
  {
    match ReadVarint(s, MaxVarintBytes)
    case Err(e) => Err(e)
    case Ok((u, rest)) =>
      if u < 0x1_0000_0000_0000_0000 then Ok((UnZigZag(u), rest)) else Err(InvalidVarint)
  }

  lemma LongRoundTrip(n: Int64, rest: seq<Byte>)
    ensures ReadLong(WriteLong(n) + rest) == Ok((n, rest))
  {
    assert Pow128(MaxVarintBytes) == 0x40_0000_0000_0000_0000;
    VarintLength(ZigZag(n), MaxVarintBytes);
    VarintRoundTrip(ZigZag(n), rest, MaxVarintBytes);
  }

  lemma LongTruncated(n: Int64, p: seq<Byte>)
    requires StrictPrefix(p, WriteLong(n))
    ensures ReadLong(p).Err?
  {
    VarintTruncated(ZigZag(n), p, MaxVarintBytes);
  }

  /** An `int` has the same zig-zag varint form as a `long` of equal value,
      and so never takes more than five bytes. */
  function WriteInt(n: Int32): (bytes: seq<Byte>)
    ensures 1 <= |bytes| <= 5
  {
    assert Pow128(5) == 0x8_0000_0000;
    VarintLength(ZigZag(n), 5);
    WriteLong(n)
  }

  /** An `int` is read as a `long` and refused unless it fits 32 bits. */
  function ReadInt(s: seq<Byte>): (r: Result<(Int32, seq<Byte>)>)
    ensures r.Ok? <==> ReadLong(s).Ok? && -0x8000_0000 <= ReadLong(s).value.0 < 0x8000_0000
    ensures r.Ok? ==> r.value == ReadLong(s).value
    ensures ReadLong(s).Ok? && r.Err? ==> r.error == IntOutOfRange
    ensures r.Err? ==> r.error.IsWireError()
  {
    match ReadLong(s)
    case Err(e) => Err(e)
    case Ok((v, rest)) =>
      if -0x8000_0000 <= v < 0x8000_0000 then Ok((v, rest)) else Err(IntOutOfRange)
  }

  lemma IntRoundTrip(n: Int32, rest: seq<Byte>)
    ensures ReadInt(WriteInt(n) + rest) == Ok((n, rest))
  {
    LongRoundTrip(n, rest);
  }

  // ---------------------------------------------------------------- string

  /** The string's bytes follow its length prefix verbatim. */
  function WriteString(b: Payload): (bytes: seq<Byte>)
    ensures |b| < |bytes| <= |b| + MaxVarintBytes
    ensures bytes[|bytes| - |b|..] == b
  {
    LongLength(|b|);
    WriteLong(|b|) + b
  }

  /** A string is the bytes that follow a non-negative length prefix: they
      sit in the input between the prefix and what is left over. */
  function ReadString(s: seq<Byte>): (r: Result<(Payload, seq<Byte>)>)
    ensures r.Ok? ==> |r.value.0| + |r.value.1| < |s|
    ensures r.Ok? ==> s[|s| - |r.value.1|..] == r.value.1
    ensures r.Ok? ==> s[|s| - |r.value.1| - |r.value.0|..|s| - |r.value.1|] == r.value.0
    ensures r.Err? ==> r.error.IsWireError()
  {
    match ReadLong(s)
    case Err(e) => Err(e)
    case Ok((len, rest)) =>
      if len < 0 then Err(NegativeLength)
      else if len > |rest| then Err(Truncated)
      else
        SuffixSplit(s, rest, len);
        Ok((rest[..len], rest[len..]))
  }

  /** Cutting a suffix of `s` in two cuts `s` at the matching offsets. */
  lemma SuffixSplit(s: seq<Byte>, rest: seq<Byte>, len: nat)
    requires |rest| <= |s| && s[|s| - |rest|..] == rest && len <= |rest|
    ensures s[|s| - |rest|..|s| - |rest| + len] == rest[..len]
    ensures s[|s| - |rest| + len..] == rest[len..]
  {
  }

  lemma StringRoundTrip(b: Payload, rest: seq<Byte>)
    ensures ReadString(WriteString(b) + rest) == Ok((b, rest))
  {
    assert WriteString(b) + rest == WriteLong(|b|) + (b + rest);
    LongRoundTrip(|b|, b + rest);
    assert (b + rest)[..|b|] == b;
    assert (b + rest)[|b|..] == rest;
  }

  lemma StringTruncated(b: Payload, p: seq<Byte>)
    requires StrictPrefix(p, WriteString(b))
    ensures ReadString(p).Err?
  {
    var head := WriteLong(|b|);
    if |p| < |head| {
      assert StrictPrefix(p, head);
      LongTruncated(|b|, p);
    } else {
      assert p == head + p[|head|..];
      LongRoundTrip(|b|, p[|head|..]);
    }
  }

  // ---------------------------------------------------------------- double

  function LittleEndian(v: nat, n: nat): (bytes: seq<Byte>)
    ensures |bytes| == n
  {
    if n == 0 then [] else [v % 0x100] + LittleEndian(v / 0x100, n - 1)
  }

  function FromLittleEndian(s: seq<Byte>): (v: nat)
    ensures v < Pow256(|s|)
  {
    if s == [] then 0 else s[0] + 0x100 * FromLittleEndian(s[1..])
  }

  lemma {:induction false} LittleEndianRoundTrip(v: nat, n: nat)
    requires v < Pow256(n)
    ensures FromLittleEndian(LittleEndian(v, n)) == v
  {
    if n > 0 {
      LittleEndianRoundTrip(v / 0x100, n - 1);
      assert LittleEndian(v, n)[1..] == LittleEndian(v / 0x100, n - 1);
    }
  }

  lemma DivModByte(low: Byte, high: nat)
    ensures (low + 0x100 * high) % 0x100 == low
    ensures (low + 0x100 * high) / 0x100 == high
  {
  }

  /** Every eight bytes are the pattern of some double: the reader loses nothing. */
  lemma {:induction false} FromLittleEndianRoundTrip(s: seq<Byte>)
    ensures LittleEndian(FromLittleEndian(s), |s|) == s
  {
    if s != [] {
      var high := FromLittleEndian(s[1..]);
      var v := s[0] + 0x100 * high;
      assert v % 0x100 == s[0] && v / 0x100 == high by {
        DivModByte(s[0], high);
      }
      FromLittleEndianRoundTrip(s[1..]);
      assert LittleEndian(v, |s|) == [s[0]] + LittleEndian(high, |s| - 1);
      assert s == [s[0]] + s[1..];
    }
  }

  function WriteDouble(bits: Bits64): (bytes: seq<Byte>)
    ensures |bytes| == 8
  {
    LittleEndian(bits, 8)
  }

  /** A double takes exactly eight bytes, and the pattern read from them
      writes back as those same eight bytes. */
  function ReadDouble(s: seq<Byte>): (r: Result<(Bits64, seq<Byte>)>)
    ensures r.Ok? <==> |s| >= 8
    ensures r.Ok? ==> WriteDouble(r.value.0) == s[..8] && r.value.1 == s[8..]
    ensures r.Err? ==> r.error == Truncated
  {
    if |s| < 8 then Err(Truncated)
    else
      assert Pow256(|s[..8]|) == 0x1_0000_0000_0000_0000;
      FromLittleEndianRoundTrip(s[..8]);
      Ok((FromLittleEndian(s[..8]), s[8..]))
  }

  lemma DoubleRoundTrip(bits: Bits64, rest: seq<Byte>)
    ensures ReadDouble(WriteDouble(bits) + rest) == Ok((bits, rest))
  {
    var s := WriteDouble(bits) + rest;
    assert s[..8] == WriteDouble(bits);
    assert s[8..] == rest;
    assert Pow256(8) == 0x1_0000_0000_0000_0000;
    LittleEndianRoundTrip(bits, 8);
  }
}
