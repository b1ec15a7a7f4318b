/** Optional values, results and the outcome of Go code that may panic. */
module Wrappers {

  /** A Go pointer that may be nil, or an optional input field. */
  datatype Option<+T> = None | Some(value: T)

  /** The value an optional update field gives, or the current one when the field is absent. */
  function Given<T>(field: Option<T>, current: T): T
  {
    if field.Some? then field.value else current
  }

  /** A value or an error, for Go's `(value, error)` returns. */
  datatype Result<+T, +E> = Success(value: T) | Failure(error: E)

  /** Go code either returns a value or panics (nil dereference, negative `make`, explicit `panic`). */
  datatype Run<+T> = Returns(value: T) | Panics
}
