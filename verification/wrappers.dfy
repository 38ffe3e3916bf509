/** Optional values and results with an error, used for Java's nullable
    references and for the exceptions a call throws back to its caller. */
module Wrappers {

  /** A nullable reference: `None` stands for Java's `null`. */
  datatype Option<+T> = None | Some(value: T)

  /** Either the value a call returns or the exception it throws. */
  datatype Result<+R, +E> = Success(value: R) | Failure(error: E)
}
