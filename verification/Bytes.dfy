/** Bytes, as the caches and the password hashes hold them. */
module Bytes {
  newtype byte = x: int | 0 <= x < 256
}
