/** Option and Result, used for values that may be missing and for the errors the broker raises. */
module Wrappers {
  datatype Option<+T> = None | Some(value: T) {
    function GetOr(default: T): T {
      if Some? then value else default
    }
  }

  /** The exceptions the modelled code can raise. */
  datatype Error =
    | InvalidEverythingCard   // "#" before the end of a topic, or in a tree message
    | NotATree                // a string or null where the topic asks for a JSON object
    | NotAString              // an object or null where the topic asks for a payload
    | DynamicMessage          // a wildcard where a static topic is needed
    | EmptyTopic              // the first character of an empty topic string
    | ConnectionClosed        // the peer's byte stream ended or was closed
    | InvalidLength           // more than four remaining-length bytes
    | UnknownPacket           // a type code without a packet class here
    | TooManyPacketIds        // every packet id is in use
    | AlreadyWaiting          // the very same condition is waiting already
    | NotWritable             // a field without a printer

  datatype Result<+T> = Ok(value: T) | Err(error: Error) {
    predicate IsFailure() { Err? }
    function PropagateFailure<U>(): Result<U>
      requires Err?
    {
      Err(error)
    }
    function Extract(): T
      requires Ok?
    {
      value
    }
  }
}
