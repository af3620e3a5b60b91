/** Bytes, as the digest code and the Base64 codec share them. */
module Bytes {
  newtype Byte = x: int | 0 <= x < 256
}
