/** Small shared vocabulary: bytes and an optional value. */
module Common {

  /** One octet of an image or of a compound file. */
  newtype byte = x: int | 0 <= x < 256

  datatype Option<+T> = None | Some(value: T)
}
