/** Small shared vocabulary: an optional value and the byte type. */
module Common {

  /** Python's `None` or a value. */
  datatype Option<+T> = None | Some(value: T) {
    function GetOr(default: T): T {
      match this
      case Some(v) => v
      case None => default
    }
  }

  /** One octet, as held by Python's `bytes` and `bytearray`. */
  type byte = b: int | 0 <= b < 256

  function Min(a: int, b: int): int {
    if a <= b then a else b
  }
}
