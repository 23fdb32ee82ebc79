/** Option and Result, shared by the other modules. */
module Wrappers {
  datatype Option<+T> = None | Some(value: T)

  datatype Result<+T> = Success(value: T) | Failure(error: string)
}
