/** Small shared types. */
module Common {
  datatype Option<+T> = None | Some(value: T)

  datatype Result<+T, +E> = Ok(value: T) | Err(error: E)

  type byte = b: int | 0 <= b < 256

  /** Two bytes, most significant first. */
  function Word(hi: byte, lo: byte): (n: nat)
    ensures n < 0x1_0000
  {
    256 * (hi as int) + (lo as int)
  }
}
