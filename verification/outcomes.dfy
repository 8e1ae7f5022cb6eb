/** Error values and the two wrappers used throughout the model. */
module Outcomes {

  /** A value or nothing. `Option<Error>` stands for a Go `error`: `None` is `nil`. */
  datatype Option<+T> = None | Some(value: T)

  /** The result of an operation that either produces a value or fails. */
  datatype Result<+T, +E> = Success(value: T) | Failure(error: E)

  /** The errors the keyboard can observe: the device stream ending before a
      record (`io.EOF`), a record cut short (`io.ErrUnexpectedEOF`), and any
      error reported by an operating-system or terminal call, which the model
      treats as opaque. */
  datatype Error = EOF | UnexpectedEOF | OsError(code: int)
}
