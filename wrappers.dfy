/** Stand-ins for Java's null returns and thrown exceptions. */
module Wrappers {

  /** A Java reference that may be null: None is null. */
  datatype Option<T> = None | Some(value: T)

  /** A computation that either yields a value or stops with an error. */
  datatype Result<T, E> = Success(value: T) | Failure(error: E)
}
