/** Optional values and results shared by every module of the model. */
module Wrappers {

  /** A present value or its absence; stands for a Java reference that may be `null`. */
  datatype Option<+T> = None | Some(value: T) {
    function GetOr(default: T): T {
      match this
      case Some(v) => v
      case None => default
    }
  }

  /** The runtime exceptions the modelled Java code can raise. */
  datatype Failure =
    | NotImplemented      // DictValue.merge on an operand that is neither a dict nor an array
    | NegativeArraySize   // an array allocated with a negative length
    | IllegalCodePoint    // Character.toChars on a value outside 0..0x10FFFF
    | NullPointer         // a method called on a `null` map lookup

  /** The outcome of an operation that can throw. */
  datatype Result<+T> = Ok(value: T) | Err(error: Failure)
}
