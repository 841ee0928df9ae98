/** Failure-compatible wrappers used in place of C# nulls and exceptions. */
module Wrappers {

  /** A value that may be absent (a C# reference or `Nullable<T>` that may be null). */
  datatype Option<+T> = None | Some(value: T)

  /** Why an operation failed: the exception the C# code throws. */
  datatype Fault =
    | ArgumentNull(paramName: string)
    | Argument(message: string, paramName: string)
    | KeyNotFound(key: string)
    | NullReference
    | StoreFailure(message: string)

  /** The outcome of an operation that returns a value or throws. */
  datatype Result<+T> = Ok(value: T) | Err(fault: Fault)

  /** The outcome of an operation that returns nothing or throws. */
  datatype Outcome = Pass | Fail(fault: Fault)
}
