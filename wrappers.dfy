/** Option and Result types shared by every module of the model.
    A C# reference that may be null is an Option; a handler that throws
    is a Result (or an Outcome when it returns nothing). */
module Wrappers {

  datatype Option<+T> = None | Some(value: T)

  datatype Result<+T, +E> = Success(value: T) | Failure(error: E)

  datatype Outcome<+E> = Pass | Fail(error: E)
}
