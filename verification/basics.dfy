/** Small value types shared by the whole model: Python's `None`-or-value
    and the byte values that `str.encode` and `base64.b64encode` work on. */
module Basics {

  /** `None` or a value, as Python's optional results are. */
  datatype Option<+T> = None | Some(value: T)

  /** An octet, 0..255. */
  type byte = x: int | 0 <= x < 256

  /** `prefix` is an initial segment of `s`. */
  predicate StartsWith<T(==)>(s: seq<T>, prefix: seq<T>)
  {
    |prefix| <= |s| && s[..|prefix|] == prefix
  }
}
