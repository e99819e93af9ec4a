/** Powers of two and division by them. */
module PowersOfTwo {
  import opened Modular

  function Pow2(k: nat): (r: int)
    ensures r >= 1
  {
    if k == 0 then 1 else 2 * Pow2(k - 1)
  }

  /** v << n, without a width limit. */
  function ShiftUp(v: int, n: nat): (r: int)
    ensures v >= 0 ==> r >= 0
  {
    if n == 0 then v else 2 * ShiftUp(v, n - 1)
  }

  lemma {:induction false} ShiftUpSum(v: int, w: int, n: nat)
    ensures ShiftUp(v + w, n) == ShiftUp(v, n) + ShiftUp(w, n)
    ensures ShiftUp(2 * v, n) == 2 * ShiftUp(v, n)
  {
    if n == 0 {
    } else {
      ShiftUpSum(v, w, n - 1);
    }
  }

  lemma {:induction false} ShiftUpTwice(v: int, a: nat, b: nat)
    ensures ShiftUp(ShiftUp(v, a), b) == ShiftUp(v, a + b)
  {
    if b == 0 {
    } else {
      ShiftUpTwice(v, a, b - 1);
    }
  }

  /** A number of a bits, shifted by b, leaves room below 2^(a + b). */
  lemma {:induction false} ShiftUpBelow(v: int, a: nat, b: nat)
    requires 0 <= v < Pow2(a)
    ensures ShiftUp(v, b) + Pow2(b) <= Pow2(a + b)
  {
    if b == 0 {
    } else {
      ShiftUpBelow(v, a, b - 1);
    }
  }

  lemma {:induction false} Pow2Add(a: nat, b: nat)
    ensures Pow2(a + b) == Pow2(a) * Pow2(b)
  {
    if a == 0 {
    } else {
      Pow2Add(a - 1, b);
      assert 2 * (Pow2(a - 1) * Pow2(b)) == 2 * Pow2(a - 1) * Pow2(b);
    }
  }

  lemma {:induction false} Pow2Mono(a: nat, b: nat)
    requires a <= b
    ensures Pow2(a) <= Pow2(b)
  {
    if a >= b {
    } else {
      Pow2Mono(a, b - 1);
    }
  }

  lemma Pow2Table()
    ensures Pow2(1) == 2 && Pow2(2) == 4 && Pow2(3) == 8 && Pow2(4) == 16 && Pow2(5) == 32
    ensures Pow2(6) == 64 && Pow2(7) == 128 && Pow2(8) == 256 && Pow2(16) == 0x10000 && Pow2(32) == 0x1_0000_0000
  {
    assert Pow2(2) == 2 * Pow2(1);
    assert Pow2(3) == 2 * Pow2(2);
    assert Pow2(4) == 2 * Pow2(3);
    assert Pow2(5) == 2 * Pow2(4);
    assert Pow2(6) == 2 * Pow2(5);
    assert Pow2(7) == 2 * Pow2(6);
    assert Pow2(8) == 2 * Pow2(7);
    Pow2Add(8, 8);
    Pow2Add(16, 16);
  }

  lemma DivNonneg(x: int, p: int)
    requires x >= 0 && p > 0
    ensures x / p >= 0
  {}

  lemma MulMono(a: int, b: int, r: int)
    requires a <= b && r >= 0
    ensures a * r <= b * r
  {}

  lemma DivDiv(x: int, p: int, q: int)
    requires p > 0 && q > 0
    ensures p * q > 0 && (x / p) / q == x / (p * q)
  {
    var r, z, s := x % p, (x / p) / q, (x / p) % q;
    MulMono(1, q, p);
    DivDivAlgebra(x, p, q, r, z, s);
    MulMono(s, q - 1, p);
    MulMono(0, s, p);
    assert (q - 1) * p == p * q - p && s * p == p * s;
    DivModUnique(x, p * q, z, p * s + r);
  }

  lemma DivDivAlgebra(x: int, p: int, q: int, r: int, z: int, s: int)
    requires x == p * (q * z + s) + r
    ensures x == p * q * z + (p * s + r)
  {}

  /** Dropping a bits and then b bits drops a + b bits. */
  lemma Halve(x: int, a: nat, b: nat)
    requires x >= 0
    ensures (x / Pow2(a)) / Pow2(b) == x / Pow2(a + b)
  {
    Pow2Add(a, b);
    DivDiv(x, Pow2(a), Pow2(b));
  }
}
