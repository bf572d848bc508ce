/** Optional values (Java's nullable references and Optional) and fallible
    results (a value or the exception a Java call would throw). */
module Wrappers {

  /** A possibly-absent value: None stands for Java's null or an empty Optional. */
  datatype Option<+T> = None | Some(value: T)

  /** Either the value a call returns or the error it raises. */
  datatype Result<+T, +E> = Success(value: T) | Failure(error: E)
}
