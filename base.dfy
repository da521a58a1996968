/** Optional values and results with an error, for the places where the Java code returns null or throws. */
module Base {

  /** A value that may be absent (Java's null). */
  datatype Option<+T> = None | Some(value: T)

  /** A computed value, or the error the Java code would have thrown instead. */
  datatype Result<+T, +E> = Success(value: T) | Failure(error: E)

  /** The outcome of a void Java method: it returned, or it threw the given error. */
  datatype Outcome<+E> = Pass | Fail(error: E)
}
