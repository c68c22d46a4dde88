/** Null references and thrown exceptions of the logger, as values. */
module Wrappers {

  /** A reference that may be null: `None` is C#'s `null`. */
  datatype Option<+T> = None | Some(value: T)

  /** The exceptions the modelled code can raise. */
  datatype Error =
    | NullReference        // a member access on a null reference
    | ArgumentOutOfRange   // an enum value no `switch` case handles

  /** The outcome of an operation that either returns a value or throws. */
  datatype Result<+T> = Ok(value: T) | Fail(error: Error)
}
