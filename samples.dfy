/**
 Concrete values: the sample records the converter's header defines
 (`cp` and `lr`, convert.hh:145-168), the client parameters of the
 generated-codec demo (convert_two.cpp:11-19), and the zig-zag varint
 examples tabulated in the Avro specification.
 */
module Samples {
  import opened Errors
  import opened AvroBinary
  import opened NativeEnums
  import opened GenericCodec
  import opened Convert

  /** The bytes of an ASCII string literal. */
  function Ascii(s: string): (b: Payload)
    requires |s| < 0x8000_0000_0000_0000
    requires forall i :: 0 <= i < |s| ==> s[i] as int < 0x80
    ensures |b| == |s|
    ensures forall i :: 0 <= i < |s| ==> b[i] == s[i] as int
  {
    seq(|s|, i requires 0 <= i < |s| => s[i] as int)
  }

  /** The pattern of the double 2.25. */
  const TwoPointTwoFive: Bits64 := 0x4002_0000_0000_0000

  const SampleClientParams: ClientParams :=
    ClientParams(Ascii("100.000.000"), Ascii("999.999.999"), IpV4, Tcp, 7991, 7, Stopped, 8900)

  const SampleLatencyResult: LatencyResult :=
    LatencyResult(Ascii("100.000.000"), Stopping, 99999999, 69, 69, 0, TwoPointTwoFive, 1, 5, 10, 7)

  const DemoClientParams: ClientParams :=
    ClientParams(Ascii("1.10.23.111"), Ascii("1.67.21.345"), IpV4, Icmp, 2, 1, Running, 4000)

  /** The driver, run on the sample records, reads both back unchanged. */
  method SampleDriver() returns (clientRead: Result<ClientParams>, resultRead: Result<LatencyResult>)
    ensures clientRead == Ok(SampleClientParams)
    ensures resultRead == Ok(SampleLatencyResult)
    ensures resultRead.value.totalBurstTime == TwoPointTwoFive
  {
    clientRead, resultRead := NwSlaSerializeToAvro(SampleClientParams, SampleLatencyResult);
    assert NarrowClient(SampleClientParams) == SampleClientParams;
    assert NarrowResult(SampleLatencyResult) == SampleLatencyResult;
  }

  /** The demo's check: agent_ip, dest_ip and id come back as set. */
  lemma DemoRoundTrip()
    ensures NwSlaClientDeserializeFromAvro(EncodeFields(ClientSlots(DemoClientParams))) == Ok(DemoClientParams)
    ensures NwSlaClientDeserializeFromAvro(EncodeFields(ClientSlots(DemoClientParams))).value.id == 1
  {
    assert ClientFitsInt32(DemoClientParams);
    ClientRoundTripExact(DemoClientParams);
  }

  /** The table of zig-zag varints in the Avro specification. */
  lemma ZigZagVarintExamples()
    ensures WriteLong(0) == [0x00]
    ensures WriteLong(-1) == [0x01]
    ensures WriteLong(1) == [0x02]
    ensures WriteLong(-2) == [0x03]
    ensures WriteLong(2) == [0x04]
    ensures WriteLong(-64) == [0x7f]
    ensures WriteLong(64) == [0x80, 0x01]
  {
  }

  /** The last field of the demo record, port 4000, on the wire. */
  lemma DemoPortBytes()
    ensures WriteInt(4000) == [0xc0, 0x3e]
    ensures ReadInt([0xc0, 0x3e]) == Ok((4000, []))
  {
    IntRoundTrip(4000, []);
  }
}
