/** Small failure-carrying datatypes shared by the model. */
module Wrappers {

  /** An optional value: a JavaScript value that may be `undefined` or `null`. */
  datatype Option<+T> = None | Some(value: T)

  /** The outcome of a call that either returns a value or throws. */
  datatype Attempt<+T> = Returns(value: T) | Throws

  /** A value or an error that crosses a method boundary as a thrown exception. */
  datatype Result<+T, +E> = Ok(value: T) | Err(error: E)
}
