/** JavaScript's bitwise operators, which truncate their operands to 32 bits,
    and the range in which its numbers are exact integers. */
module JsNumber {
  import opened Modular

  const TWO32: int := 0x1_0000_0000

  /** Every integer up to 2^53 in magnitude is exact in a double. */
  predicate Exact(x: int) {
    -0x20_0000_0000_0000 <= x <= 0x20_0000_0000_0000
  }

  predicate IsInt32(x: int) {
    -0x8000_0000 <= x < 0x8000_0000
  }

  /** The truncation every signed bitwise operator applies to its operands. */
  function ToInt32(x: int): (r: int)
    ensures IsInt32(r)
    ensures (x - r) % TWO32 == 0
    ensures IsInt32(x) ==> r == x
  {
    var u := x % TWO32;
    if u >= 0x8000_0000 then u - TWO32 else u
  }

  /** x & (p - 1), for p a power of two up to 2^31. */
  function And(x: int, p: int): (r: int)
    requires 0 < p <= 0x8000_0000
    ensures 0 <= r < p
  {
    ToInt32(x) % p
  }

  /** x >> k, for p = 2^k. */
  function Shr(x: int, p: int): (r: int)
    requires 0 < p <= 0x8000_0000
  {
    ToInt32(x) / p
  }

  /** x << k, for p = 2^k. */
  function Shl(x: int, p: int): (r: int)
    requires 0 < p <= 0x8000_0000
    ensures IsInt32(x * p) && IsInt32(x) ==> r == x * p
  {
    ToInt32(ToInt32(x) * p)
  }

  /** x >>> k, for p = 2^k. */
  function Ushr(x: int, p: int): (r: int)
    requires 0 < p <= 0x8000_0000
  {
    (x % TWO32) / p
  }

  /** x % m, whose sign is that of x. */
  function Rem(x: int, m: int): (r: int)
    requires m > 0
    ensures -m < r < m
    ensures (x - r) % m == 0
  {
    RemCongruent(x, m);
    if x >= 0 then x % m else -((-x) % m)
  }

  lemma RemCongruent(x: int, m: int)
    requires m > 0
    ensures (x - (x % m)) % m == 0
    ensures (x + ((-x) % m)) % m == 0
  {
    assert x - x % m == m * (x / m);
    assert x + (-x) % m == m * (-((-x) / m));
    MultipleMod(x / m, m);
    MultipleMod(-((-x) / m), m);
  }
}
