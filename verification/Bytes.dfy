/** Bytes, in memory and on the wire. */
module Bytes {
  type Byte = x: nat | x < 256
}
