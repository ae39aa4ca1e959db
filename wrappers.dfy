/** Small shared vocabulary: optional values and the C `int` range. */
module Wrappers {

  datatype Option<T> = None | Some(value: T)

  /** The range of a 32-bit C++ `int`. */
  type Int32 = x: int | -0x8000_0000 <= x < 0x8000_0000

  const IntMax: int := 0x7fff_ffff

  /** Two's-complement wrap-around of a mathematical integer into the `int` range. */
  function Wrap32(x: int): (r: Int32)
    ensures -0x8000_0000 <= x < 0x8000_0000 ==> r == x
    ensures (r - x) % 0x1_0000_0000 == 0
  {
    ((x + 0x8000_0000) % 0x1_0000_0000) - 0x8000_0000
  }

  /** Adding whole multiples of 2^32 does not change a remainder modulo 2^32. */
  lemma ModShift(a: int, q: int)
    ensures (a + q * 0x1_0000_0000) % 0x1_0000_0000 == a % 0x1_0000_0000
  {
  }

  /** Two integers that agree modulo 2^32 wrap to the same `int`. */
  lemma WrapCongruent(x: int, y: int)
    requires (x - y) % 0x1_0000_0000 == 0
    ensures Wrap32(x) == Wrap32(y)
  {
    var q := (x - y) / 0x1_0000_0000;
    assert x + 0x8000_0000 == (y + 0x8000_0000) + q * 0x1_0000_0000;
    ModShift(y + 0x8000_0000, q);
  }
}
