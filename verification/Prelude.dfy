/** Small shared vocabulary of the model. */
module Prelude {
  datatype Option<+T> = None | Some(value: T)

  type byte = b: int | 0 <= b < 256

  const U32: nat := 0x1_0000_0000
  const U64: nat := 0x1_0000_0000_0000_0000
}
