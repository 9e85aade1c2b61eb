/** Nullable references and thrown exceptions, made explicit. */
module Wrappers {
  /** A value that C# allows to be null. */
  datatype Option<T> = None | Some(value: T)

  /** The outcome of an operation that may throw. */
  datatype Result<T, E> = Ok(value: T) | Err(error: E)
  {
    predicate IsOk() { Ok? }
  }

  /** The .NET exception types thrown by the modelled code. */
  datatype Exception =
    | ArgumentNull(param: string)
    | Argument(param: string)
    | ArgumentOutOfRange(param: string)
    | InvalidCast
    | InvalidOperation
    | NotImplemented
    | IndexOutOfRange
    | KeyNotFound
    | DuplicateKey
    | NullReference
    | BadImageFormat
    /** Recursion deeper than the host's stack allows. */
    | StackOverflow
}
