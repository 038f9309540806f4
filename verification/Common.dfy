/** What all models share: bytes, machine word sizes, and optional values. */
module Common {

  type byte = x: int | 0 <= x < 256

  const U32 := 0x1_0000_0000
  const U64 := 0x1_0000_0000_0000_0000

  datatype Option<T> = None | Some(value: T)
}
