/** What several parts share. */
module Common {
  type Byte = x: int | 0 <= x < 0x100

  datatype Option<+T> = None | Some(value: T)
}
