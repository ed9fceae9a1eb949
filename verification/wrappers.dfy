/** Small failure-carrying datatypes shared by the whole model. */
module Wrappers {

  /** A Java reference that may be null: `None` stands for null. */
  datatype Option<+T> = None | Some(value: T)

  /** The outcome of a call that may throw: `Failure` carries the exception's message. */
  datatype Result<+R> = Success(value: R) | Failure(error: string)

  /**
   * The argument of a Java `equals(Object)`: either an instance of the class being
   * compared, or anything else (null or an object of another class).
   */
  datatype Obj<+T> = Instance(value: T) | NotInstance
}
