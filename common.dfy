/** Values shared by every module: Java's nullable references, the failures a
    service call can surface, and Java's 32-bit `int` arithmetic. */
module Common {

  /** A nullable Java reference (`Long`, `String`, `Integer`, `Boolean`, ...). */
  datatype Option<T> = None | Some(value: T)

  /** The ways a service call of the modelled core ends in an exception. */
  datatype Failure =
    | NotNullViolation  // the store refuses a row holding null in a `nullable = false` column
    | NullUnboxing      // arithmetic on a null `Integer` field throws NullPointerException

  datatype Result<T> = Ok(value: T) | Err(error: Failure)

  const INT_MIN: int := -0x8000_0000
  const INT_MAX: int := 0x7fff_ffff

  /** The values of a Java `int` (and of an unboxed `Integer`). */
  type Int32 = x: int | INT_MIN <= x <= INT_MAX

  /** Java's `x + 1` on an `int`: the mathematical successor taken modulo 2^32,
      so `Integer.MAX_VALUE + 1` is `Integer.MIN_VALUE`. */
  function Increment(x: Int32): (r: Int32)
    ensures (r - x - 1) % 0x1_0000_0000 == 0
    ensures x < INT_MAX ==> r == x + 1
    ensures x == INT_MAX ==> r < x
  {
    if x == INT_MAX then INT_MIN else x + 1
  }
}
