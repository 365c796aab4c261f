/** Option and Result, the two failure-carrying shapes every stage uses. */
module Wrappers {

  /** A value that may be absent: a missing state key or an unmatched lookup. */
  datatype Option<+T> = None | Some(value: T) {
    /** The value, or `default` when absent (Python's `d.get(key, default)`). */
    function GetOr(default: T): T
    {
      match this
      case Some(v) => v
      case None => default
    }
  }

  /** The exceptions a stage can raise, by kind. */
  datatype Error =
    | ValueError(message: string)   // raised explicitly by a stage
    | OutputParserError             // the critic's JSON output could not be parsed
    | DimensionMismatch             // vectors of unequal length given to the flat index
    | IndexError                    // a Python list index outside [-len, len)

  /** Either the stage's result or the exception it raised. */
  datatype Result<+T> = Ok(value: T) | Err(error: Error)
}
