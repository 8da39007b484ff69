/** Bytes, as the scanners of binary data see them. */
module Bytes {
  type Byte = n: int | 0 <= n < 256
}
