/** The bytes of C strings and buffers. */
module Bytes {
  type Byte = b: int | 0 <= b < 256
}
