/** Optional values and failure results, used where the Python code returns
    ``None`` or raises an exception. */
module Wrappers {

  /** ``None`` in Python, or a present value. */
  datatype Option<+T> = None | Some(value: T)

  /** The value an operation returns, or the error it raises. */
  datatype Result<+T, +E> = Ok(value: T) | Err(error: E)
}
