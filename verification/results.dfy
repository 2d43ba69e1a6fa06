/** Java's nullable references, exceptions and fixed-width integers, as
    values the rest of the model can talk about. */
module Results {

  /** A nullable reference: `None` stands for Java's `null`. */
  datatype Option<+T> = None | Some(value: T)

  /** The unchecked exceptions the modelled code can raise. */
  datatype Error =
    | IllegalArgument        // java.lang.IllegalArgumentException
    | IndexOutOfBounds       // java.lang.ArrayIndexOutOfBoundsException
    | NullPointer            // java.lang.NullPointerException

  /** A call either returns a value or throws. */
  datatype Result<+T> = Ok(value: T) | Err(error: Error)

  const INT_MIN: int := -0x8000_0000
  const INT_MAX: int := 0x7fff_ffff
  const SHORT_MIN: int := -0x8000
  const SHORT_MAX: int := 0x7fff

  /** The values of a Java `int`. */
  predicate IsInt(x: int) {
    INT_MIN <= x <= INT_MAX
  }

  /** The values of a Java `short`. */
  predicate IsShort(x: int) {
    SHORT_MIN <= x <= SHORT_MAX
  }

  /** Java `int` arithmetic: the mathematical result reduced to 32-bit
      two's complement. */
  function WrapInt(x: int): (r: int)
    ensures IsInt(r)
    ensures (r - x) % 0x1_0000_0000 == 0
    ensures IsInt(x) ==> r == x
  {
    (x - INT_MIN) % 0x1_0000_0000 + INT_MIN
  }

  /** Java's `%` on a positive divisor: the remainder takes the sign of the
      dividend and its magnitude is that of `|a| mod b` (truncating
      division), unlike Dafny's Euclidean `%`. */
  function JavaRem(a: int, b: int): (r: int)
    requires b > 0
    ensures -b < r < b
    ensures a >= 0 ==> 0 <= r
    ensures a <= 0 ==> r <= 0
    ensures (if r < 0 then -r else r) == (if a < 0 then -a else a) % b
  {
    if a >= 0 then a % b else -((-a) % b)
  }
}
