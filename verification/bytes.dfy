/** Bytes and an ideal, collision-free SHA-256: a digest is its preimage under a constructor. */
module Bytes {
  newtype Byte = x: int | 0 <= x < 256

  datatype Digest = Sha256(preimage: seq<Byte>)

  datatype Option<+T> = None | Some(value: T)

  datatype Result<+T> = Ok(value: T) | Err
}
