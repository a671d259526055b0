/** The fixed-width integer semantics of C# that the modelled code relies on,
    written out over Dafny's unbounded integers. */
module CSharp {

  const INT_MIN := -0x8000_0000
  const INT_MAX := 0x7FFF_FFFF

  predicate IsInt32(x: int) {
    INT_MIN <= x <= INT_MAX
  }

  /** Unchecked `int` arithmetic: the result is the 32-bit value congruent to `x`. */
  function Wrap32(x: int): (r: int)
    ensures IsInt32(r)
    ensures (r - x) % 0x1_0000_0000 == 0
    ensures IsInt32(x) ==> r == x
  {
    (x + 0x8000_0000) % 0x1_0000_0000 - 0x8000_0000
  }

  /** The `/` operator on `int` for a positive divisor: truncation toward zero. */
  function TruncDiv(a: int, b: int): int
    requires b > 0
  {
    if a >= 0 then a / b else -((-a) / b)
  }

  /** The `%` operator on `int`: the remainder left by `TruncDiv`, so it takes
      the sign of the dividend. */
  function TruncRem(a: int, b: int): (r: int)
    requires b > 0
    ensures a >= 0 ==> 0 <= r < b
    ensures a < 0 ==> -b < r <= 0
    ensures a == b * TruncDiv(a, b) + r
  {
    if a >= 0 then a % b else -((-a) % b)
  }

  /** The `(short)` cast: the 16-bit value congruent to `x`. */
  function ToShort(x: int): (r: int)
    ensures -0x8000 <= r < 0x8000
    ensures (r - x) % 0x1_0000 == 0
    ensures -0x8000 <= x < 0x8000 ==> r == x
  {
    (x + 0x8000) % 0x1_0000 - 0x8000
  }
}
