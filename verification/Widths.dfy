/** Integer conversions and division as C++ defines them on the target.  A signed overflow,
    undefined there, is taken to wrap. */
module Widths {
  const TWO32: int := 0x1_0000_0000
  const TWO64: int := 0x1_0000_0000_0000_0000

  /** Two's complement conversion to a signed type of the given size. */
  function Wrap(x: int, size: int): int
    requires size > 0
  {
    if -size <= 2 * x < size then x
    else if 2 * (x % size) < size then x % size
    else x % size - size
  }

  /** Conversion to a 32-bit int. */
  function Int32(x: int): int { Wrap(x, TWO32) }

  /** Conversion to a 64-bit signed integer. */
  function Int64(x: int): int { Wrap(x, TWO64) }

  /** Conversion to a 64-bit unsigned integer. */
  function UInt64(x: int): int { if 0 <= x < TWO64 then x else x % TWO64 }

  /** Division truncating toward zero. */
  function Quot(a: int, b: int): int
    requires b != 0
  {
    if a >= 0 then a / b else -((-a) / b)
  }

  /** The conversions keep the value modulo their size, inside the range of the type. */
  lemma ConversionsAreModular(x: int)
    ensures -0x8000_0000 <= Int32(x) < 0x8000_0000 && (x - Int32(x)) % 0x1_0000_0000 == 0
    ensures -0x8000_0000_0000_0000 <= Int64(x) < 0x8000_0000_0000_0000 && (x - Int64(x)) % 0x1_0000_0000_0000_0000 == 0
    ensures 0 <= UInt64(x) < 0x1_0000_0000_0000_0000 && (x - UInt64(x)) % 0x1_0000_0000_0000_0000 == 0
  {}

  /** The quotient of a positive divisor is the nearest one toward zero. */
  lemma QuotTruncates(a: int, b: int)
    requires b > 0
    ensures a >= 0 ==> Quot(a, b) * b <= a < Quot(a, b) * b + b
    ensures a < 0 ==> Quot(a, b) * b - b < a <= Quot(a, b) * b
  {}
}
