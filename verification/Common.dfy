/** Small shared vocabulary: optional and failing results, and bytes. */
module Common {

  datatype Option<+T> = None | Some(value: T)

  datatype Result<+T, +E> = Ok(value: T) | Err(error: E)

  newtype byte = x: int | 0 <= x < 256

  /** A Rust `&str` or `&[u8]`, as the bytes it is made of. */
  type Bytes = seq<byte>
}
