/** Success, absence and failure values shared by every module. */
module Wrappers {

  datatype Option<+T> = None | Some(value: T)

  datatype Result<+T, +E> = Ok(value: T) | Err(error: E)
}

/** What every queue, stream and digest is made of. */
module Octets {

  type Byte = b: nat | b < 0x100

  type Bytes = seq<Byte>
}
