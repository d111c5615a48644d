/** Bytes as the drivers combine them arithmetically. */
module Bytes {

  /** An `unsigned char`: 0 .. 255. */
  type byte = x: int | 0 <= x < 0x100
}
