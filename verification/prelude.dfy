/** Small shared vocabulary for the three models: an optional value (the C
    code's nullable pointers) and the byte type of `char` buffers. */
module Prelude {

  /** A value that may be absent, used wherever the C code has a pointer
      that may be NULL. */
  datatype Option<+T> = None | Some(value: T)

  /** One `char` of a C buffer; 0 is the string terminator. */
  newtype Byte = x: int | 0 <= x < 256
}
