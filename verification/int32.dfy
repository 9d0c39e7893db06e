/** Java's 32-bit two's-complement `int` and its wrapping addition. */
module Int32 {

  const MIN: int := -0x8000_0000
  const MAX: int := 0x7fff_ffff
  /** Number of distinct `int` values. */
  const MODULUS: int := 0x1_0000_0000

  newtype int32 = x: int | -0x8000_0000 <= x < 0x8000_0000

  predicate InRange(x: int) {
    MIN <= x <= MAX
  }

  /** The `int` congruent to `x` modulo 2^32: what a Java `int` holds after an
      arithmetic result `x` has been truncated to 32 bits. */
  function Wrap(x: int): (r: int32)
    ensures (r as int - x) % MODULUS == 0
    ensures InRange(x) ==> r as int == x
  {
    var m := (x - MIN) % MODULUS;
    (m + MIN) as int32
  }

  /** Java's `a + b` on two `int`s: the mathematical sum, wrapped to 32 bits. */
  function Add(a: int32, b: int32): (r: int32)
    ensures (r as int - (a as int + b as int)) % MODULUS == 0
    ensures InRange(a as int + b as int) ==> r as int == a as int + b as int
  {
    Wrap(a as int + b as int)
  }

  /** The wrapped value is the unique `int` congruent to `x`: any two values of
      the `int` range that agree modulo 2^32 are equal. */
  lemma WrapUnique(x: int, r: int32)
    requires (r as int - x) % MODULUS == 0
    ensures r == Wrap(x)
  {
  }

  /** Without a guard, Java's `+` does overflow: `MAX + 1` wraps to `MIN`. */
  lemma AddOverflowExample()
    ensures Add(MAX as int32, 1) as int == MIN
  {
  }
}
