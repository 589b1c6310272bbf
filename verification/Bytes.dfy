/** Bytes, as memory and the codecs know them. */
module Bytes {

  type byte = x: int | 0 <= x < 256
}
