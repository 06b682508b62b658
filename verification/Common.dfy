/** Declarations that several modules share. */
module Common {
  datatype Option<T> = None | Some(value: T)

  type U32 = x: int | 0 <= x < 0x1_0000_0000

  /** The list without `x`, the others in their order. */
  function Without<T(==)>(s: seq<T>, x: T): seq<T> {
    if s == [] then []
    else Without(s[..|s| - 1], x) + (if s[|s| - 1] == x then [] else [s[|s| - 1]])
  }
}
