/** The unit of every buffer. */
module Bytes {
  type byte = x: int | 0 <= x < 256
}
