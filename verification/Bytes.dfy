/** Bytes as numbers, and strings of them. */
module Bytes {
  type Byte = b: int | 0 <= b < 256
  type Text = seq<Byte>
}
