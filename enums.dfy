/**
 The three native enums of the converter and the two conversions the source
 applies to them: `static_cast` between an enum and its integer ordinal, and
 the `to_string` overloads (convert.hh:118-143).

 The enums are declared in a collector header that is not part of this
 model. The model ASSUMES that each enum's ordinals are 0, 1, 2 in the order
 in which its `to_string` lists the variants; under that assumption the
 ordinal of a variant is also the position of its name among the schema's
 symbols, which the lemmas below prove.

 The deserializers cast a decoded index to the enum and pass the result to
 `to_string`. A `static_cast` from an integer that is not a declared ordinal
 yields an enum value with no declared variant, and `to_string` of it throws
 from its `default` branch; the model folds the two steps into one function
 per enum that returns the variant or the `UnknownEnum` error.
 */
module NativeEnums {
  import opened Errors
  import opened Schemas

  // ---------------------------------------------------------------- IpType

  datatype IpType = IpV4 | IpV6 | IpInvalid

  function IpTypeOrdinal(t: IpType): (k: nat)
    ensures k < 3
  {
    match t
    case IpV4 => 0
    case IpV6 => 1
    case IpInvalid => 2
  }

  /** `to_string(IpType)` on a declared variant: the schema's symbol at its ordinal. */
  function IpTypeToString(t: IpType): (name: string)
    ensures name == IpTypeSymbols[IpTypeOrdinal(t)]
    ensures name != "FILLER"
  {
    match t
    case IpV4 => "IPTYPE_IPV4"
    case IpV6 => "IPTYPE_IPV6"
    case IpInvalid => "IPTYPE_INVALID"
  }

  /** `static_cast<IpType>(k)` followed by `to_string`: the declared variant at
      ordinal `k`, or the "Unknown IpType" error for every other index, FILLER's
      included. */
  function IpTypeFromIndex(k: int): (r: Result<IpType>)
    ensures r.Ok? <==> 0 <= k < 3
    ensures r.Ok? ==> IpTypeOrdinal(r.value) == k && IpTypeToString(r.value) == IpTypeSymbols[k]
    ensures r.Err? ==> r.error == UnknownEnum("IpType")
  {
    if k == 0 then Ok(IpV4)
    else if k == 1 then Ok(IpV6)
    else if k == 2 then Ok(IpInvalid)
    else Err(UnknownEnum("IpType"))
  }

  lemma IpTypeFromIndexRoundTrip(t: IpType)
    ensures IpTypeFromIndex(IpTypeOrdinal(t)) == Ok(t)
  {
  }

  /** Casting the ordinal agrees with looking the name up in the schema. */
  lemma IpTypeSymbolLookup(t: IpType)
    ensures SymbolIndex(IpTypeSymbols, IpTypeToString(t)) == Some(IpTypeOrdinal(t))
  {
    SymbolIndexOfDistinct(IpTypeSymbols, IpTypeOrdinal(t));
  }

  // ---------------------------------------------------------------- ProtType

  datatype ProtType = Icmp | Tcp | Unsupported

  function ProtTypeOrdinal(t: ProtType): (k: nat)
    ensures k < 3
  {
    match t
    case Icmp => 0
    case Tcp => 1
    case Unsupported => 2
  }

  /** `to_string(ProtType)` on a declared variant: the schema's symbol at its ordinal. */
  function ProtTypeToString(t: ProtType): (name: string)
    ensures name == ProtTypeSymbols[ProtTypeOrdinal(t)]
    ensures name != "FILLER"
  {
    match t
    case Icmp => "PROTTYPE_ICMP"
    case Tcp => "PROTTYPE_TCP"
    case Unsupported => "PROTTYPE_UNSUPPORTED"
  }

  /** `static_cast<ProtType>(k)` followed by `to_string`: the declared variant at
      ordinal `k`, or the "Unknown ProtType" error for every other index, FILLER's
      included. */
  function ProtTypeFromIndex(k: int): (r: Result<ProtType>)
    ensures r.Ok? <==> 0 <= k < 3
    ensures r.Ok? ==> ProtTypeOrdinal(r.value) == k && ProtTypeToString(r.value) == ProtTypeSymbols[k]
    ensures r.Err? ==> r.error == UnknownEnum("ProtType")
  {
    if k == 0 then Ok(Icmp)
    else if k == 1 then Ok(Tcp)
    else if k == 2 then Ok(Unsupported)
    else Err(UnknownEnum("ProtType"))
  }

  lemma ProtTypeFromIndexRoundTrip(t: ProtType)
    ensures ProtTypeFromIndex(ProtTypeOrdinal(t)) == Ok(t)
  {
  }

  lemma ProtTypeSymbolLookup(t: ProtType)
    ensures SymbolIndex(ProtTypeSymbols, ProtTypeToString(t)) == Some(ProtTypeOrdinal(t))
  {
    SymbolIndexOfDistinct(ProtTypeSymbols, ProtTypeOrdinal(t));
  }

  // ---------------------------------------------------------------- SessionState

  datatype SessionState = Running | Stopping | Stopped

  function SessionStateOrdinal(s: SessionState): (k: nat)
    ensures k < 3
  {
    match s
    case Running => 0
    case Stopping => 1
    case Stopped => 2
  }

  /** `to_string(SessionState)` on a declared variant: the schema's symbol at its ordinal. */
  function SessionStateToString(s: SessionState): (name: string)
    ensures name == SessionStateSymbols[SessionStateOrdinal(s)]
    ensures name != "FILLER"
  {
    match s
    case Running => "SESSION_STATE_RUNNING"
    case Stopping => "SESSION_STATE_STOPPING"
    case Stopped => "SESSION_STATE_STOPPED"
  }

  /** `static_cast<SessionState>(k)` followed by `to_string`: the declared variant at
      ordinal `k`, or the "Unknown SessionState" error for every other index, FILLER's
      included. */
  function SessionStateFromIndex(k: int): (r: Result<SessionState>)
    ensures r.Ok? <==> 0 <= k < 3
    ensures r.Ok? ==> SessionStateOrdinal(r.value) == k && SessionStateToString(r.value) == SessionStateSymbols[k]
    ensures r.Err? ==> r.error == UnknownEnum("SessionState")
  {
    if k == 0 then Ok(Running)
    else if k == 1 then Ok(Stopping)
    else if k == 2 then Ok(Stopped)
    else Err(UnknownEnum("SessionState"))
  }

  lemma SessionStateFromIndexRoundTrip(s: SessionState)
    ensures SessionStateFromIndex(SessionStateOrdinal(s)) == Ok(s)
  {
  }

  lemma SessionStateSymbolLookup(s: SessionState)
    ensures SymbolIndex(SessionStateSymbols, SessionStateToString(s)) == Some(SessionStateOrdinal(s))
  {
    SymbolIndexOfDistinct(SessionStateSymbols, SessionStateOrdinal(s));
  }

  // ---------------------------------------------------------------- shared

  /** In a list without repeated names, looking up the name at `k` finds `k`. */
  lemma {:induction false} SymbolIndexOfDistinct(symbols: seq<string>, k: nat)
    requires k < |symbols|
    requires forall i, j :: 0 <= i < j < |symbols| ==> symbols[i] != symbols[j]
    ensures SymbolIndex(symbols, symbols[k]) == Some(k)
  {
    if k > 0 {
      assert symbols[1..][k - 1] == symbols[k];
      SymbolIndexOfDistinct(symbols[1..], k - 1);
    }
  }
}
