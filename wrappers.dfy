/** Optional values and fallible results, standing for JavaScript's
    `null`/`undefined` and for thrown errors. */
module Wrappers {

  datatype Option<+T> = None | Some(value: T)

  /** A computation that either produced a value or threw an error whose
      `message` is `error`. */
  datatype Result<+T, +E> = Success(value: T) | Failure(error: E)
}
