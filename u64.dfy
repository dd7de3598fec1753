/** Fixed-width C integer arithmetic used by the accounting code:
    `u64_t` counters that wrap modulo 2^64, the `make64(lo, hi)` constructor
    of a 64-bit counter from two 32-bit halves, and the conversion of an
    unsigned 32-bit sum back to a signed `int`. */
module U64 {

  const TWO32: int := 0x1_0000_0000
  const TWO31: int := 0x8000_0000
  const TWO64: int := 0x1_0000_0000_0000_0000

  /** `unsigned long` on MINIX: 32 bits. */
  type u32 = x: int | 0 <= x < TWO32

  /** `u64_t`. */
  type u64 = x: int | 0 <= x < TWO64

  /** C `a + b` on two `u64_t` values. */
  function Add64(a: u64, b: u64): (r: u64)
    ensures r == a + b || r == a + b - TWO64
    ensures r < a <==> a + b >= TWO64
  {
    (a + b) % TWO64
  }

  /** C `a - b` on two `u64_t` values. */
  function Sub64(a: u64, b: u64): (r: u64)
    ensures b <= a ==> r == a - b
    ensures a < b ==> r == a - b + TWO64
  {
    (a - b) % TWO64
  }

  /** Reducing modulo 2^64 before or after adding gives the same value: the
      step that lets a running `u64_t` sum stand for the exact sum. */
  lemma ModAdd(a: int, b: int)
    ensures (a % TWO64 + b) % TWO64 == (a + b) % TWO64
  {
  }

  /** `make64(lo, hi)`: the 64-bit counter whose high half is `hi` and whose
      low half is `lo`; the two halves can be read back. */
  function Make64(lo: u32, hi: u32): (r: u64)
    ensures r / TWO32 == hi && r % TWO32 == lo
  {
    hi * TWO32 + lo
  }

  /** Storing an `unsigned int` value into an `int` (two's complement): the
      value in [-2^31, 2^31) congruent to `x` modulo 2^32. */
  function WrapInt32(x: int): (r: int)
    ensures -TWO31 <= r < TWO31
    ensures (x - r) % TWO32 == 0
    ensures -TWO31 <= x < TWO31 ==> r == x
  {
    var m := x % TWO32;
    if m >= TWO31 then m - TWO32 else m
  }
}
