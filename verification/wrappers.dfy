/** Option and Result: the presence/absence and success/exception shapes that the
    TypeScript sources express with `| null`, optional fields and `throw`. */
module Wrappers {

  datatype Option<+T> = None | Some(value: T)

  /** A computation that either produced a value or threw an exception. */
  datatype Result<+T> = Success(value: T) | Failure(error: string)
}
