/** Shared value types: options, byte strings and the crate's error results. */
module Results {

  datatype Option<+T> = None | Some(value: T)

  newtype byte = x: int | 0 <= x < 256

  type Bytes = seq<byte>

  /** The failures of `core/src/error.rs` that the modelled code can return. */
  datatype Error = BadSignature | MalformedKey | DecryptFailed | UnknownPrekey | UnexpectedMessage

  datatype Result<+T> = Ok(value: T) | Err(error: Error)
}
