/**
 The two Avro record schemas of the converter, transcribed field by field
 from their JSON text: `latencyresult` (convert.hh:11-64) and `clientparams`
 (convert.hh:66-115). Each enum type declares three real symbols and a
 trailing `FILLER`.
 */
module Schemas {
  import opened Errors

  datatype FieldType =
    | StringType
    | IntType
    | DoubleType
    | EnumType(enumName: string, symbols: seq<string>)

  datatype Field = Field(name: string, ftype: FieldType)

  datatype Schema = Record(name: string, fields: seq<Field>)

  const SessionStateSymbols: seq<string> :=
    ["SESSION_STATE_RUNNING", "SESSION_STATE_STOPPING", "SESSION_STATE_STOPPED", "FILLER"]

  const IpTypeSymbols: seq<string> :=
    ["IPTYPE_IPV4", "IPTYPE_IPV6", "IPTYPE_INVALID", "FILLER"]

  const ProtTypeSymbols: seq<string> :=
    ["PROTTYPE_ICMP", "PROTTYPE_TCP", "PROTTYPE_UNSUPPORTED", "FILLER"]

  const LatencyResultSchema: Schema := Record("latencyresult", [
    Field("agent_ip", StringType),
    Field("state", EnumType("SessionState", SessionStateSymbols)),
    Field("timestamp", IntType),
    Field("packets_sent", IntType),
    Field("packets_received", IntType),
    Field("packet_loss", IntType),
    Field("total_burst_time", DoubleType),
    Field("rtt_min", IntType),
    Field("rtt_avg", IntType),
    Field("rtt_max", IntType),
    Field("rtt_mdev", IntType)
  ])

  const ClientParamsSchema: Schema := Record("clientparams", [
    Field("agent_ip", StringType),
    Field("dest_ip", StringType),
    Field("ipType", EnumType("IpType", IpTypeSymbols)),
    Field("protType", EnumType("ProtType", ProtTypeSymbols)),
    Field("interval", IntType),
    Field("id", IntType),
    Field("state", EnumType("SessionState", SessionStateSymbols)),
    Field("port", IntType)
  ])

  /** The position of `name` in a symbol list, found by name: the lookup that
      an index cast silently stands in for. */
  function SymbolIndex(symbols: seq<string>, name: string): (r: Option<nat>)
    ensures r.Some? ==> r.value < |symbols| && symbols[r.value] == name
    ensures r.Some? ==> forall j :: 0 <= j < r.value ==> symbols[j] != name
    ensures r.None? <==> name !in symbols
  {
    if symbols == [] then None
    else if symbols[0] == name then Some(0)
    else match SymbolIndex(symbols[1..], name)
      case None => None
      case Some(k) => Some(k + 1)
  }
}
