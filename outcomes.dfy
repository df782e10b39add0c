/** How a driver call ends: Python's `None`, a returned value, or an exception. */
module Outcomes {

  datatype Option<T> = None | Some(value: T)

  /** The exceptions the drivers raise, explicitly or through `int.to_bytes`
      (OverflowError) and `ord` / `bytes + None` (TypeError). */
  datatype Exception = ValueError | OverflowError | TypeError

  /** A call that returned `value`, or that raised `error`. */
  datatype Result<T> = Ok(value: T) | Raise(error: Exception)
}
