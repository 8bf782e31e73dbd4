/** Byte strings and the two small result types shared by every other module. */
module Basics {

  datatype Option<+T> = None | Some(value: T)

  /** One byte; `char` literals below 256 denote bytes. */
  type byte = c: char | c as int < 256

  type bytes = seq<byte>

  /** An error value. Only its identity matters: which failure is being reported. */
  datatype Error = Error(code: nat)

  /** Go's `error`: None is nil. */
  type Status = Option<Error>

  /** The errors that failed calls have returned, after one more call. */
  function Noted(errors: seq<Error>, err: Status): seq<Error> {
    match err
    case None => errors
    case Some(e) => errors + [e]
  }

  /** Nil exactly when no call has failed in between, else the error of the first that has. */
  predicate Reports(before: seq<Error>, after: seq<Error>, err: Status) {
    match err
    case None => after == before
    case Some(e) => before + [e] <= after
  }
}
