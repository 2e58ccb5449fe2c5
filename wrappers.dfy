/** Small failure-carrying datatypes used throughout the model. */
module Wrappers {

  /** A Java reference that may be null. */
  datatype Option<+T> = None | Some(value: T)

  /** The outcome of a Java call that may throw: the value it returns, or the
      simple name of the exception it throws. */
  datatype Result<+T> = Returns(value: T) | Throws(exception: string)
}
