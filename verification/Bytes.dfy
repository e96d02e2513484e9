/** Bytes on the wire and in roots. */
module Bytes {
  type Byte = b: int | 0 <= b < 0x100
}
