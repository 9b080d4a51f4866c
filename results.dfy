/** Failure-carrying values used in place of Go's `(value, error)` pairs. */
module Results {

  /** A value that may be absent (a nil pointer, a failed external call). */
  datatype Option<T> = None | Some(value: T)

  /** A value or the error that prevented it: Go's `(*T, error)` return pair. */
  datatype Result<T, E> = Ok(value: T) | Err(error: E)

  /** An error or nothing: Go's bare `error` return, where `nil` is `Pass`. */
  datatype Outcome<E> = Pass | Fail(error: E)
}
