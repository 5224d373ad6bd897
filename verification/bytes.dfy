/** Bytes as the C program sees them in its `char buf[]`, and the few
    character constants the echo loop compares against. */
module Bytes {

  newtype byte = b: int | 0 <= b < 256

  const NUL: byte := 0
  const LF: byte := 10   // '\n', the line terminator ENDLN
  const CR: byte := 13   // '\r'
  const DOT: byte := 46  // '.'
}
