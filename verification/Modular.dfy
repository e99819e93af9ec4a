/** Congruence of integers. */
module Modular {
  /** a and b differ by a multiple of m. */
  ghost predicate Cong(a: int, b: int, m: int)
    requires m > 0
  {
    (a - b) % m == 0
  }

  function Pow(b: int, e: nat): int {
    if e == 0 then 1 else b * Pow(b, e - 1)
  }

  lemma MulAtLeast(m: int, z: int)
    requires m > 0
    ensures z >= 1 ==> m * z >= m
    ensures z <= -1 ==> m * z <= -m
  {
    if z >= 1 {
      assert m * z >= m * 1;
    } else if z <= -1 {
      assert m * z <= m * -1;
    }
  }

  lemma MultipleMod(k: int, m: int)
    requires m > 0
    ensures (m * k) % m == 0
  {
    var q := (m * k) / m;
    assert m * (k - q) == (m * k) % m;
    MulAtLeast(m, k - q);
  }

  /** The quotient and remainder of a division are unique. */
  lemma DivModUnique(x: int, m: int, q: int, r: int)
    requires m > 0 && 0 <= r < m && x == m * q + r
    ensures x / m == q && x % m == r
  {
    assert m * (q - x / m) == x % m - r;
    MulAtLeast(m, q - x / m);
  }

  lemma CongIntro(a: int, b: int, k: int, m: int)
    requires m > 0 && a - b == m * k
    ensures Cong(a, b, m)
  {
    MultipleMod(k, m);
  }

  lemma CongElim(a: int, b: int, m: int) returns (k: int)
    requires m > 0 && Cong(a, b, m)
    ensures a - b == m * k
  {
    k := (a - b) / m;
  }

  lemma CongRefl(a: int, m: int)
    requires m > 0
    ensures Cong(a, a, m)
  {
    CongIntro(a, a, 0, m);
  }

  lemma CongSym(a: int, b: int, m: int)
    requires m > 0 && Cong(a, b, m)
    ensures Cong(b, a, m)
  {
    var k := CongElim(a, b, m);
    assert b - a == m * (-k);
    CongIntro(b, a, -k, m);
  }

  lemma CongTrans(a: int, b: int, c: int, m: int)
    requires m > 0 && Cong(a, b, m) && Cong(b, c, m)
    ensures Cong(a, c, m)
  {
    var k := CongElim(a, b, m);
    var l := CongElim(b, c, m);
    assert a - c == m * (k + l);
    CongIntro(a, c, k + l, m);
  }

  lemma CongMul(a: int, b: int, c: int, e: int, m: int)
    requires m > 0 && Cong(a, b, m) && Cong(c, e, m)
    ensures Cong(a * c, b * e, m)
  {
    var k := CongElim(a, b, m);
    var l := CongElim(c, e, m);
    assert a * c - b * e == m * (k * c + b * l) by {
      assert (a - b) * c == m * k * c;
      assert b * (c - e) == b * (m * l);
    }
    CongIntro(a * c, b * e, k * c + b * l, m);
  }

  lemma CongAdd(a: int, b: int, c: int, e: int, m: int)
    requires m > 0 && Cong(a, b, m) && Cong(c, e, m)
    ensures Cong(a + c, b + e, m)
  {
    var k := CongElim(a, b, m);
    var l := CongElim(c, e, m);
    assert a + c - (b + e) == m * (k + l);
    CongIntro(a + c, b + e, k + l, m);
  }

  lemma CongMod(a: int, m: int)
    requires m > 0
    ensures Cong(a % m, a, m)
  {
    assert a % m - a == m * (-(a / m));
    CongIntro(a % m, a, -(a / m), m);
  }

  /** Two remainders that are congruent are equal. */
  lemma CongUnique(a: int, b: int, m: int)
    requires m > 0 && Cong(a, b, m)
    requires 0 <= a < m && 0 <= b < m
    ensures a == b
  {
    var k := CongElim(a, b, m);
    MulAtLeast(m, k);
  }

  lemma CongSameMod(a: int, b: int, m: int)
    requires m > 0 && Cong(a, b, m)
    ensures a % m == b % m
  {
    CongMod(a, m);
    CongMod(b, m);
    CongSym(b % m, b, m);
    CongTrans(a % m, a, b, m);
    CongTrans(a % m, b, b % m, m);
    CongUnique(a % m, b % m, m);
  }

  /** A factor that has an inverse may be cancelled. */
  lemma CongCancel(a: int, b: int, r: int, inv: int, m: int)
    requires m > 0 && Cong(r * inv, 1, m) && Cong(a * r, b * r, m)
    ensures Cong(a, b, m)
  {
    CongRefl(inv, m);
    CongRefl(a, m);
    CongRefl(b, m);
    CongMul(a * r, b * r, inv, inv, m);
    CongMul(a, a, r * inv, 1, m);
    CongMul(b, b, r * inv, 1, m);
    assert a * r * inv == a * (r * inv) && b * r * inv == b * (r * inv);
    CongSym(a * (r * inv), a * 1, m);
    CongTrans(a, a * r * inv, b * r * inv, m);
    CongTrans(a, b * r * inv, b, m);
  }

  lemma {:induction false} PowAdd(b: int, x: nat, y: nat)
    ensures Pow(b, x + y) == Pow(b, x) * Pow(b, y)
  {
    if x == 0 {
    } else {
      PowAdd(b, x - 1, y);
      assert b * (Pow(b, x - 1) * Pow(b, y)) == b * Pow(b, x - 1) * Pow(b, y);
    }
  }
}
