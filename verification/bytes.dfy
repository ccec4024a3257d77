/** A byte as a number. */
module Bytes {
  type byte = b: nat | b < 256
}
