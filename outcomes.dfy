/** Outcomes of the operations that can fail, and the nullable cell of a memoised thunk. */
module Outcomes {

  /** A value that may be absent; `None` plays the part of the null value. */
  datatype Option<T> = None | Some(value: T)

  /** The errors the stream library throws. */
  datatype Error =
    | TypeError   // `get` applied to the empty stream
    | RangeError  // `get` with an index at or past the length
    | ShapeError  // `second` on a stream with fewer than two elements

  /** A result or the error that was thrown instead. */
  datatype Result<T> = Ok(value: T) | Err(error: Error)
}
