/** Types shared by the generator model: bytes, Go's int64, an optional value
    and the errors a run can end with. */
module Common {

  /** One byte of a buffer or of a blob handed to the sink. */
  type byte = b: int | 0 <= b < 0x100

  /** Go's int64 (and time.Duration, which counts nanoseconds in an int64). */
  type int64 = x: int | -0x8000_0000_0000_0000 <= x < 0x8000_0000_0000_0000

  datatype Option<T> = None | Some(value: T)

  /** The errors Run can return.
      AppendFailed: appending a fragment to the in-memory buffer reported an error.
      Canceled: the run's context was cancelled (what ctx.Err() returns then). */
  datatype Error = AppendFailed | Canceled
}
