/** Results of operations that can fail, values that may be absent, and bytes. */
module Wrappers {
  datatype Option<+T> = None | Some(value: T)

  datatype Result<+T, +E> = Ok(value: T) | Err(error: E)

  type byte = n: nat | n < 0x100

  type Bytes = seq<byte>
}
