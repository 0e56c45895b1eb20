/** Optional values and the outcome of a call that can fail. */
module Wrappers {

  /** Python's `None` or a value. */
  datatype Option<+T> = None | Some(value: T)

  /** The outcome of a call into a collaborator that may raise. */
  datatype Result<+T> = Ok(value: T) | Failure(message: string)
}
