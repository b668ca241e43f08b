/** Optional values: a C pointer that may be NULL. */
module Wrappers {

  datatype Option<+T> = None | Some(value: T)
}

/** The C scalar types the model needs. */
module CTypes {

  /** int32_t */
  type int32 = x: int | -0x8000_0000 <= x < 0x8000_0000

  /** uint8_t */
  type byte = x: int | 0 <= x < 0x100
}
