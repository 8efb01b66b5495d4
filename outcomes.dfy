/** Optional values and the error results of the record-store operations. */
module Outcomes {

  /** A value that may be absent (`undefined` or `null` in the store rows). */
  datatype Option<+T> = None | Some(value: T)

  /** The errors the utilities raise: no authenticated user, a delete target
      that does not exist, and an opaque failure reported by the store. */
  datatype Error = NotAuthenticated | NotFound | StoreError

  /** The outcome of an operation that returns a value or raises. */
  datatype Result<+T> = Ok(value: T) | Err(error: Error)

  /** The outcome of an operation that returns nothing or raises. */
  datatype Outcome = Pass | Fail(error: Error)
}
