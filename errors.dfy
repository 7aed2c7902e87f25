/**
 Errors that the record converters can end in, and the failure-compatible
 wrappers used to thread them through the decoders.
 */
module Errors {

  /** Every way a conversion can fail. The first five are raised by the Avro
      binary decoder and UnknownEnum by a `to_string` overload reaching its
      `default` branch. TypeMismatch stands for reading a slot as a kind it
      does not hold, which the library leaves undefined (`value<T>()` casts
      without a check); no decoded record leads there. */
  datatype Error =
    | Truncated              // the input ended inside a value
    | InvalidVarint          // a varint longer than ten bytes, or wider than 64 bits
    | IntOutOfRange          // an `int` field whose value does not fit 32 bits
    | NegativeLength         // a string whose length prefix is negative
    | EnumIndexOutOfRange    // an enum index outside the schema's symbol list
    | TypeMismatch           // a slot read as a kind it does not hold
    | UnknownEnum(enumName: string)  // "Unknown IpType", "Unknown ProtType", "Unknown SessionState"
  {
    /** Raised by the Avro binary decoder itself. */
    predicate IsWireError() {
      Truncated? || InvalidVarint? || IntOutOfRange? || NegativeLength? || EnumIndexOutOfRange?
    }
  }

  datatype Option<+T> = None | Some(value: T)

  datatype Result<+T> = Ok(value: T) | Err(error: Error) {
    predicate IsFailure() {
      Err?
    }

    function PropagateFailure<U>(): Result<U>
      requires Err?
    {
      Err(error)
    }

    function Extract(): T
      requires Ok?
    {
      value
    }
  }
}
