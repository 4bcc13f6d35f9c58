/** What several parts of the model share. */
module Common {

  datatype Option<T> = None | Some(value: T)

  /** The value of an unsigned 32-bit variable that is set to `x`. */
  function Uint32(x: int): int { x % 0x1_0000_0000 }
}
