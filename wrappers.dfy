/** Failure-carrying result types shared by the schema and route models. */
module Wrappers {

  datatype Option<+T> = None | Some(value: T)

  datatype Result<+R, +E> = Success(value: R) | Failure(error: E)

  /** An operation that either passes or fails with an error and carries no value. */
  datatype Outcome<+E> = Pass | Fail(error: E)

  /** Why the document store refuses a write: a schema validator rejected the
      document, or a unique index already holds the key. */
  datatype StoreError = ValidationFailed | DuplicateKey
}
