/** The failures the tools report, the result of an operation that may fail, and a value that may be missing. */
module Outcomes {
  datatype Error =
    | InvalidChar(ch: char)
    | Overflow
    | ZInsideGroup
    | InvalidRequest
    | LengthMismatch
    | Refused

  datatype Option<+T> = None | Some(value: T)
  datatype Result<+T> = Ok(value: T) | Err(error: Error)
}
