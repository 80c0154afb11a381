/** Shared value types: optional values, results carrying an error, and bytes. */
module Base {

  /** A value that may be absent; `None` stands for Go's nil pointer or nil slice. */
  datatype Option<+T> = None | Some(value: T)

  /** The (value, error) pair of a Go function: exactly one side is meaningful. */
  datatype Result<+T, +E> = Success(value: T) | Failure(error: E)

  /** A Go function that returns only an error: `Pass` is a nil error. */
  datatype Outcome<+E> = Pass | Fail(error: E)

  newtype byte = x: int | 0 <= x < 256

  type Bytes = seq<byte>
}
