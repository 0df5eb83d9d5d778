/** Optional values and fallible results, as the Rust source uses Option and Result. */
module Wrappers {

  datatype Option<+T> = None | Some(value: T)

  datatype Result<+T, +E> = Ok(value: T) | Err(error: E)
}
