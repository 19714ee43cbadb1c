/** Option stands for a nullable .NET reference (`string?`, a nullable result field);
    Result carries a value or the error that stopped a computation. */
module Wrappers {

  datatype Option<+T> = None | Some(value: T)

  datatype Result<+T, +E> = Success(value: T) | Failure(error: E)
}
