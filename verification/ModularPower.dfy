/** Modular reduction and exponentiation on the player's BigInteger: the
    classic and the Montgomery reducer, and square-and-multiply over both. */
module ModularPower {
  import opened JsNumber
  import opened Modular
  import opened Positional
  import opened PowersOfTwo
  import opened BigIntegers

  /** The two reducer objects; neither is changed once built. */
  datatype Reducer =
    | Classic(m: BigInteger)
    | Montgomery(m: BigInteger, mp: int, mpl: int, mph: int, um: int, mt2: int)

  // ---------------------------------------------------------------- division

  /** The remainder of a number, digit by digit. */
  method LongRemainder(pt: BigInteger, mv: int) returns (rem: int)
    requires pt.Valid() && mv > 0 && InBase(pt.d, 0, pt.t)
    ensures rem == Val(pt.d, 0, pt.t) % mv
  {
    rem := 0;
    var i := pt.t;
    ValEmpty(pt.d, pt.t);
    while i > 0
      invariant 0 <= i <= pt.t && rem == Val(pt.d, i, pt.t - i) % mv
    {
      i := i - 1;
      ValCons(pt.d, i, pt.t - i - 1);
      HornerMod(pt.d[i], Val(pt.d, i + 1, pt.t - i - 1), mv);
      rem := (pt.d[i] + DV * rem) % mv;
    }
  }

  /** this % m with the sign of this; r may be this. */
  method DivRemTo(x: BigInteger, m: BigInteger, r: BigInteger)
    requires x.Valid() && m.Valid() && m.Value() > 0 && r != m
    modifies r
    ensures r.Valid() && r.Clamped()
    ensures r.Value() == if old(x.Value()) >= 0 then old(x.Value()) % m.Value() else -((-old(x.Value())) % m.Value())
  {
    ghost var v := x.Value();
    x.Range();
    var neg := x.s < 0;
    var mv := ToInt(m);
    var pt := x.Abs();
    pt.Unsigned();
    var rem := LongRemainder(pt, mv);
    assert rem == (if v < 0 then -v else v) % mv;
    FromNat(rem, r);
    if neg {
      var zero := new BigInteger();
      zero.SubTo(r, r);
    }
  }

  lemma ValEmpty(d: Digits, i: int)
    ensures Val(d, i, 0) == 0
  {}

  lemma HornerMod(a: int, v: int, m: int)
    requires m > 0
    ensures (a + DV * (v % m)) % m == (a + DV * v) % m
  {
    CongMod(v, m);
    CongRefl(DV, m);
    CongRefl(a, m);
    CongMul(DV, DV, v % m, v, m);
    CongAdd(a, a, DV * (v % m), DV * v, m);
    CongSameMod(a + DV * (v % m), a + DV * v, m);
  }

  method ToInt(m: BigInteger) returns (v: int)
    requires m.Valid() && m.Value() >= 0
    ensures v == m.Value()
  {
    m.Range();
    m.Unsigned();
    v := 0;
    var i := m.t;
    while i > 0
      invariant 0 <= i <= m.t && v == Val(m.d, i, m.t - i)
    {
      i := i - 1;
      ValCons(m.d, i, m.t - i - 1);
      v := m.d[i] + DV * v;
    }
  }

  method FromNat(n: nat, r: BigInteger)
    modifies r
    ensures r.Valid() && r.Clamped() && r.s == 0 && r.Value() == n
  {
    r.t, r.s := 0, 0;
    var v := n;
    while v > 0
      invariant r.s == 0 && r.t >= 0 && v >= 0 && r.Valid()
      invariant Val(r.d, 0, r.t) + Up(v, r.t) == n
      invariant v == 0 ==> r.Clamped()
    {
      ghost var d0 := r.d;
      r.d := r.d[r.t := v % DV];
      ValFrame(d0, r.d, 0, r.t);
      UpUp(v / DV, r.t);
      UpSum(v % DV, DV * (v / DV), r.t);
      v := v / DV;
      r.t := r.t + 1;
    }
    UpSmall(r.t);
    r.Unsigned();
  }

  method One() returns (r: BigInteger)
    ensures fresh(r) && r.Valid() && r.Clamped() && r.Value() == 1
  {
    r := new BigInteger();
    FromNat(1, r);
  }

  /** x mod a, never negative for positive a. */
  method Mod(x: BigInteger, a: BigInteger) returns (r: BigInteger)
    requires x.Valid() && a.Valid() && a.Value() > 0
    ensures fresh(r) && r.Valid() && r.Clamped() && r.Value() == x.Value() % a.Value()
  {
    r := new BigInteger();
    x.Range();
    var y := x.Abs();
    DivRemTo(y, a, r);
    NegativeMod(x.Value(), a.Value());
    if x.s < 0 {
      var zero := new BigInteger();
      var c := r.CompareTo(zero);
      if c > 0 {
        a.SubTo(r, r);
      }
    }
  }

  lemma NegativeMod(v: int, m: int)
    requires m > 0
    ensures v % m == if v >= 0 || (-v) % m == 0 then (if v >= 0 then v % m else 0) else m - (-v) % m
  {
    if v < 0 {
      var r, q := (-v) % m, (-v) / m;
      assert -v == m * q + r;
      if r == 0 {
        assert v == m * (-q) + 0;
        DivModUnique(v, m, -q, 0);
      } else {
        assert v == m * (-q - 1) + (m - r);
        DivModUnique(v, m, -q - 1, m - r);
      }
    }
  }

  // ------------------------------------------------- Newton's digit inverse

  /** -1 / x mod 2^28 for the lowest digit x, or 0 for an even number. */
  method InvDigit(b: BigInteger) returns (r: int)
    requires b.Valid()
    ensures 0 <= r < DV
    ensures b.t > 0 && Dig(b.d, 0) % 2 == 1 ==> Cong(Dig(b.d, 0) * r, -1, DV)
    ensures b.t < 1 || Dig(b.d, 0) % 2 == 0 ==> r == 0
  {
    if b.t < 1 { return 0; }
    var x := b.d[0];
    if And(x, 2) == 0 { return 0; }
    var y0 := And(x, 4);
    OddSquare(x, y0);
    NewtonSmall(x, y0, 4);
    var y1 := And(y0 * (2 - And(x, 0x10) * y0), 0x10);
    NewtonSmall(x, y1, 0x10);
    var y2 := And(y1 * (2 - And(x, 0x100) * y1), 0x100);
    NewtonMasked(x, y2);
    var y3 := And(y2 * (2 - And(And(x, 0x10000) * y2, 0x10000)), 0x10000);
    NewtonLast(x, y3);
    var y := Rem(y3 * (2 - Rem(x * y3, DV)), DV);
    NegatedInverse(x, y);
    r := if y > 0 then DV - y else -y;
  }

  /** If y inverts x modulo p, one Newton step inverts it modulo p * p, or
      modulo any divisor of p * p. */
  lemma NewtonStep(x: int, y: int, y': int, p: int, q: int, k: int)
    requires p > 0 && q > 0 && q * k == p * p
    requires Cong(x * y, 1, p) && Cong(y', y * (2 - x * y), q)
    ensures Cong(x * y', 1, q)
  {
    var l := CongElim(x * y, 1, p);
    var a := y * (2 - x * y);
    assert x * a - 1 == q * (-(k * l * l)) by {
      assert x * a - 1 == -((x * y - 1) * (x * y - 1)) by { NewtonAlgebra(x, y); }
      assert (p * l) * (p * l) == p * p * (l * l);
      assert q * (k * l * l) == q * k * (l * l);
    }
    CongIntro(x * a, 1, -(k * l * l), q);
    CongRefl(x, q);
    CongMul(x, x, y', a, q);
    CongTrans(x * y', x * a, 1, q);
  }

  lemma NewtonAlgebra(x: int, y: int)
    ensures x * (y * (2 - x * y)) - 1 == -((x * y - 1) * (x * y - 1))
  {}

  lemma OddSquare(x: int, y: int)
    requires 0 <= x < DV && x % 2 == 1 && y == x % 4
    ensures Cong(x * y, 1, 4)
  {
    var q := x / 4;
    assert x * y - 1 == 4 * (q * y) + (y * y - 1);
    assert y == 1 || y == 3;
    CongIntro(x * y, 1, if y == 1 then q * y else q * y + 2, 4);
  }

  /** Replacing x by its low bits does not disturb the step. */
  lemma StepMod(x: int, xm: int, y: int, q: int)
    requires q > 0 && Cong(xm, x, q)
    ensures Cong(y * (2 - xm * y), y * (2 - x * y), q)
  {
    var k := CongElim(xm, x, q);
    assert y * (2 - xm * y) - y * (2 - x * y) == q * (-(k * y * y)) by {
      assert xm == x + q * k;
      assert (x + q * k) * y == x * y + q * (k * y);
      assert y * (q * (k * y)) == q * (k * y * y);
    }
    CongIntro(y * (2 - xm * y), y * (2 - x * y), -(k * y * y), q);
  }

  lemma AndMod(e: int, p: int)
    requires IsInt32(e) && 0 < p <= 0x8000_0000
    ensures And(e, p) == e % p && Cong(And(e, p), e, p)
  {
    CongMod(e, p);
  }

  lemma NewtonSmall(x: int, y: int, p: int)
    requires 0 <= x < DV && 0 <= y < p && (p == 4 || p == 0x10)
    requires Cong(x * y, 1, p)
    ensures var e := y * (2 - And(x, p * p) * y);
            Exact(e) && Cong(x * And(e, p * p), 1, p * p)
  {
    var q := p * p;
    var w := And(x, q);
    AndMod(x, q);
    StepMod(x, w, y, q);
    MulBounds(w, 0xff, y, 0xf);
    MulBounds(w * y, 0xff * 0xf, y, 0xf);
    var e := y * (2 - w * y);
    assert e == 2 * y - w * y * y;
    AndMod(e, q);
    CongTrans(And(e, q), e, y * (2 - x * y), q);
    NewtonStep(x, y, And(e, q), p, q, 1);
  }

  lemma NewtonMasked(x: int, y: int)
    requires 0 <= x < DV && 0 <= y < 0x100 && Cong(x * y, 1, 0x100)
    ensures var w := And(And(x, 0x10000) * y, 0x10000);
            IsInt32(And(x, 0x10000) * y) && Exact(y * (2 - w)) &&
            Cong(x * And(y * (2 - w), 0x10000), 1, 0x10000)
  {
    var q := 0x10000;
    var xm := And(x, q);
    MulBounds(xm, 0xffff, y, 0xff);
    AndMod(x, q);
    AndMod(xm * y, q);
    var w := And(xm * y, q);
    CongRefl(y, q);
    CongMul(xm, x, y, y, q);
    CongTrans(w, xm * y, x * y, q);
    var e := y * (2 - w);
    assert -0x100_0000 < e <= 0x200 by {
      MulBounds(y, 0xff, w, 0xffff);
      assert e == 2 * y - y * w;
    }
    AndMod(e, q);
    NewtonWith(x, y, w, And(e, q), 0x100, q, 1);
  }

  /** The Newton step when w stands for x * y modulo q. */
  lemma NewtonWith(x: int, y: int, w: int, y': int, p: int, q: int, k: int)
    requires p > 0 && q > 0 && q * k == p * p
    requires Cong(x * y, 1, p) && Cong(w, x * y, q)
    requires Cong(y', y * (2 - w), q)
    ensures Cong(x * y', 1, q)
  {
    var j := CongElim(w, x * y, q);
    assert y * (2 - w) - y * (2 - x * y) == q * (-(j * y)) by {
      assert y * (w - x * y) == y * (q * j);
    }
    CongIntro(y * (2 - w), y * (2 - x * y), -(j * y), q);
    CongTrans(y', y * (2 - w), y * (2 - x * y), q);
    NewtonStep(x, y, y', p, q, k);
  }

  /** The last step works on up to 44 bits, which a double holds exactly. */
  lemma NewtonLast(x: int, y: int)
    requires 0 <= x < DV && 0 <= y < 0x10000 && Cong(x * y, 1, 0x10000)
    ensures var e := y * (2 - Rem(x * y, DV));
            Exact(x * y) && Exact(e) && Cong(x * Rem(e, DV), 1, DV)
  {
    MulBounds(x, DV - 1, y, 0xffff);
    var w := Rem(x * y, DV);
    CongSym(x * y, w, DV);
    var e := y * (2 - w);
    assert Exact(e) by {
      MulBounds(y, 0xffff, w, DV - 1);
      assert e == 2 * y - y * w;
    }
    CongSym(e, Rem(e, DV), DV);
    NewtonWith(x, y, w, Rem(e, DV), 0x10000, DV, 0x10);
  }

  lemma NegatedInverse(x: int, y: int)
    requires Cong(x * y, 1, DV) && -DV < y < DV
    ensures y != 0
    ensures Cong(x * (if y > 0 then DV - y else -y), -1, DV)
  {
    var k := CongElim(x * y, 1, DV);
    var r := if y > 0 then DV - y else -y;
    assert x * r + 1 == DV * ((if y > 0 then x else 0) - k) by {
      assert x * (DV - y) == DV * x - x * y;
    }
    CongIntro(x * r, -1, (if y > 0 then x else 0) - k, DV);
  }

  // ---------------------------------------------------- Montgomery reduction

  /** The reducer fits its modulus, which nobody has changed. */
  ghost predicate Ready(z: Reducer)
    reads z.m
  {
    z.m.Valid() && z.m.Clamped() && z.m.Value() >= 1 && z.m.s == 0 && z.m.t >= 1 &&
    (z.Montgomery? ==>
      0 <= z.mp < DV && Cong(Dig(z.m.d, 0) * z.mp, -1, DV) &&
      z.mpl == z.mp % 0x8000 && z.mph == z.mp / 0x8000 && z.um == 0x1fff && z.mt2 == 2 * z.m.t)
  }

  method NewMontgomery(m: BigInteger) returns (z: Reducer)
    requires m.Valid() && m.Clamped() && m.Value() >= 1 && Dig(m.d, 0) % 2 == 1
    ensures z.Montgomery? && z.m == m && Ready(z)
  {
    m.Range();
    UpSmall(0);
    var mp := InvDigit(m);
    z := Montgomery(m, mp, And(mp, 0x8000), Shr(mp, 0x8000), Shl(1, 0x2000) - 1, 2 * m.t);
  }

  /** A digit times mp modulo the base, from 15-bit halves; all products fit 31 bits. */
  function U0(digit: int, mpl: int, mph: int, um: int): int
    requires um == 0x1fff
  {
    var j := And(digit, 0x8000);
    And(j * mpl + Shl(And(j * mph + Shr(digit, 0x8000) * mpl, um + 1), 0x8000), DV)
  }

  lemma U0Correct(digit: int, mp: int)
    requires 0 <= digit < DV && 0 <= mp < DV
    ensures U0(digit, mp % 0x8000, mp / 0x8000, 0x1fff) == (digit * mp) % DV
  {
    var j, h, l, p := digit % 0x8000, digit / 0x8000, mp % 0x8000, mp / 0x8000;
    MulBounds(j, 0x7fff, l, 0x7fff);
    MulBounds(j, 0x7fff, p, 0x1fff);
    MulBounds(h, 0x1fff, l, 0x7fff);
    var mid := j * p + h * l;
    var low := j * l + (mid % 0x2000) * 0x8000;
    assert U0(digit, l, p, 0x1fff) == low % DV;
    assert digit * mp == low + DV * (mid / 0x2000 + 4 * (h * p)) by {
      assert (j + 0x8000 * h) * (l + 0x8000 * p) == j * l + 0x8000 * mid + 0x4000_0000 * (h * p) by {
        FifteenBitHalves(j, h, l, p);
      }
    }
    DivModUnique(digit * mp, DV, low / DV + mid / 0x2000 + 4 * (h * p), low % DV);
  }

  lemma FifteenBitHalves(j: int, h: int, l: int, p: int)
    ensures (j + 0x8000 * h) * (l + 0x8000 * p) == j * l + 0x8000 * (j * p + h * l) + 0x4000_0000 * (h * p)
  {}

  /** Turn i of the reduction has been reached: the low i digits of the padded
      number are zero, it is still congruent to x0, and it has grown by less
      than DV^i times the modulus. */
  ghost predicate Reduced(e: Digits, n: nat, mv: int, x0: int, i: nat) {
    InBase(e, 0, 2 * n + 1) && (forall k :: 0 <= k < i ==> Dig(e, k) == 0) && Grown(Val(e, 0, 2 * n + 1), mv, x0, i)
  }

  ghost predicate Grown(total: int, mv: int, x0: int, i: nat) {
    mv > 0 && x0 <= total <= x0 + Up(mv, i) - mv && Cong(total, x0, mv)
  }

  /** The digit u0 clears: x + (x * mp mod DV) * m0 is a multiple of DV. */
  lemma DigitCleared(e: Digits, e': Digits, m: Digits, i: nat, n: nat, mp: int, x: int, u0: int, c: int, p: int)
    requires n >= 1 && Cong(Dig(m, 0) * mp, -1, DV)
    requires x == Dig(e, i) && u0 == (x * mp) % DV && p == u0 * Val(m, 0, n)
    requires Val(e', i, n) + Up(c, n) == Val(e, i, n) + p
    requires 0 <= Dig(e', i) < DV
    ensures Dig(e', i) == 0
  {
    hide Cong, Val;
    ValCons(e, i, n - 1);
    ValCons(e', i, n - 1);
    var q := Val(e, i + 1, n - 1) - Val(e', i + 1, n - 1) - Up(c, n - 1);
    assert Up(c, n) == DV * Up(c, n - 1);
    CongIntro(Dig(e', i), x + p, q, DV);
    ClearingProduct(m, n, mp, x, u0, p);
    CongRefl(x, DV);
    CongAdd(x, x, p, -x, DV);
    CongTrans(Dig(e', i), x + p, 0, DV);
    CongUnique(Dig(e', i), 0, DV);
  }

  /** u0 times the modulus is congruent to x * mp * m0, hence to -x. */
  lemma ClearingProduct(m: Digits, n: nat, mp: int, x: int, u0: int, p: int)
    requires n >= 1 && Cong(Dig(m, 0) * mp, -1, DV)
    requires u0 == (x * mp) % DV && p == u0 * Val(m, 0, n)
    ensures Cong(p, -x, DV)
  {
    var m0 := Dig(m, 0);
    ValCons(m, 0, n - 1);
    CongIntro(Val(m, 0, n), m0, Val(m, 1, n - 1), DV);
    CongMod(x * mp, DV);
    CongMul(u0, x * mp, Val(m, 0, n), m0, DV);
    CongRefl(x, DV);
    CongMul(x, x, m0 * mp, -1, DV);
    assert x * mp * m0 == x * (m0 * mp);
    CongTrans(p, x * (m0 * mp), -x, DV);
  }

  /** The number never outgrows the padded array. */
  lemma RoomForCarry(total: int, mv: int, x0: int, n: nat, i: nat)
    requires Grown(total, mv, x0, i) && i <= n && 0 <= x0 < Up(mv, n) && mv < R(n)
    ensures total < 2 * Up(mv, n) && total < R(2 * n + 1)
  {
    UpOfMono(mv, i, n);
    UpMono(mv, R(n), n);
    RAdd(n, n);
  }

  lemma {:induction false} UpOfMono(c: int, a: nat, b: nat)
    requires c >= 0 && a <= b
    ensures 0 <= Up(c, a) <= Up(c, b)
  {
    if a < b { UpOfMono(c, a, b - 1); } else if a > 0 { UpOfMono(c, a - 1, b - 1); }
  }

  /** Adds a carry at digit j and lets it run up. */
  method Propagate(x: BigInteger, j0: nat, c: int, n: nat)
    requires j0 < n && InBase(x.d, 0, n) && 0 <= c < DV
    requires Val(x.d, 0, n) + Up(c, j0) < R(n)
    modifies x`d
    ensures InBase(x.d, 0, n)
    ensures Val(x.d, 0, n) == Val(old(x.d), 0, n) + Up(c, j0)
    ensures forall k :: 0 <= k < j0 ==> Dig(x.d, k) == Dig(old(x.d), k)
  {
    ghost var d0 := x.d;
    var j := j0;
    x.d := x.d[j := x.d[j] + c];
    ValUpdate(d0, x.d, n, j, c);
    while x.d[j] >= DV
      invariant j0 <= j < n && j in x.d && 0 <= x.d[j] < 2 * DV
      invariant InBase(x.d, 0, j) && InBase(x.d, j + 1, n - j - 1)
      invariant forall k :: 0 <= k < j0 ==> Dig(x.d, k) == Dig(d0, k)
      invariant Val(x.d, 0, n) == Val(d0, 0, n) + Up(c, j0)
      decreases n - j
    {
      CarryHasRoom(x.d, n, j);
      ghost var d1 := x.d;
      x.d := x.d[j := x.d[j] - DV];
      ghost var d2 := x.d;
      j := j + 1;
      x.d := x.d[j := x.d[j] + 1];
      CarryMoves(d1, d2, x.d, n, j - 1);
    }
  }

  lemma CarryHasRoom(d: Digits, n: nat, j: nat)
    requires j < n && InBase(d, 0, j) && InBase(d, j + 1, n - j - 1)
    requires j in d && d[j] >= DV && Val(d, 0, n) < R(n)
    ensures j + 1 < n
  {
    DigitBelow(d, n, j);
    UpMono(DV, d[j], j);
    UpSmall(j);
    RGrows(j + 1, n);
  }

  lemma RGrows(a: nat, b: nat)
    ensures R(a) < R(b) ==> a < b
  {
    if b <= a { RMono(b, a); }
  }

  lemma CarryMoves(d: Digits, e: Digits, f: Digits, n: nat, j: nat)
    requires j + 1 < n && j in d && j + 1 in d
    requires e == d[j := d[j] - DV] && f == e[j + 1 := e[j + 1] + 1]
    ensures Val(f, 0, n) == Val(d, 0, n)
  {
    ValUpdate(d, e, n, j, -DV);
    ValUpdate(e, f, n, j + 1, 1);
    UpUp(-1, j);
    UpSmall(j);
    UpSmall(j + 1);
  }

  /** One turn of the Montgomery loop. */
  method MontTurn(z: Reducer, x: BigInteger, i: nat, ghost mv: int, ghost x0: int)
    requires z.Montgomery? && Ready(z) && x != z.m && i < z.m.t && mv == z.m.Value()
    requires 0 <= x0 < Up(mv, z.m.t) && Reduced(x.d, z.m.t, mv, x0, i)
    modifies x`d
    ensures Reduced(x.d, z.m.t, mv, x0, i + 1)
  {
    ghost var d0, n := x.d, z.m.t;
    U0Correct(x.d[i], z.mp);
    var u0 := U0(x.d[i], z.mpl, z.mph, z.um);
    var c := z.m.Am3(0, u0, x, i, 0, z.m.t);
    ghost var d1 := x.d;
    z.m.Range();
    z.m.Unsigned();
    TurnDone(d0, d1, z.m.d, i, n, z.mp, u0, c, mv, x0);
    Propagate(x, i + z.m.t, c, 2 * z.m.t + 1);
  }

  /** What the am call of turn i leaves, but for its carry. */
  lemma TurnDone(d: Digits, e: Digits, m: Digits, i: nat, n: nat, mp: int, u0: int, c: int, mv: int, x0: int)
    requires i < n && Cong(Dig(m, 0) * mp, -1, DV) && u0 == (Dig(d, i) * mp) % DV
    requires mv == Val(m, 0, n) && mv < R(n) && 0 <= x0 < Up(mv, n)
    requires Reduced(d, n, mv, x0, i)
    requires SameOutside(e, d, i, n) && InBase(e, i, n)
    requires Val(e, i, n) + Up(c, n) == Val(d, i, n) + u0 * Val(m, 0, n)
    ensures InBase(e, 0, 2 * n + 1) && forall k :: 0 <= k < i + 1 ==> Dig(e, k) == 0
    ensures Grown(Val(e, 0, 2 * n + 1) + Up(c, i + n), mv, x0, i + 1)
    ensures Val(e, 0, 2 * n + 1) + Up(c, i + n) < R(2 * n + 1)
  {
    DigitCleared(d, e, m, i, n, mp, Dig(d, i), u0, c, u0 * Val(m, 0, n));
    forall k | 0 <= k < i + 1 ensures Dig(e, k) == 0 {
      assert k in d && Dig(e, k) == if k < i then Dig(d, k) else 0;
    }
    AmBlock(d, e, i, n, c, u0 * mv, 2 * n + 1);
    TurnGrows(Val(d, 0, 2 * n + 1), u0, mv, x0, i);
    RoomForCarry(Val(e, 0, 2 * n + 1) + Up(c, i + n), mv, x0, n, i + 1);
  }

  lemma TurnGrows(total: int, u0: int, mv: int, x0: int, i: nat)
    requires Grown(total, mv, x0, i) && 0 <= u0 < DV
    ensures Grown(total + Up(u0 * mv, i), mv, x0, i + 1)
  {
    assert 0 <= u0 * mv <= (DV - 1) * mv by { MulMono(u0, DV - 1, mv); }
    UpMono(0, u0 * mv, i);
    UpMono(u0 * mv, DV * mv - mv, i);
    UpSum(DV * mv, mv, i);
    UpUp(mv, i);
    UpSmall(i);
    UpMul(u0, mv, i);
    assert u0 * mv == mv * u0;
    var k := CongElim(total, x0, mv);
    assert total + mv * Up(u0, i) - x0 == mv * (k + Up(u0, i));
    CongIntro(total + Up(u0 * mv, i), x0, k + Up(u0, i), mv);
  }

  /** x = x / R mod m: x.Value() * DV^t becomes congruent to the old value. */
  method MontReduce(z: Reducer, x: BigInteger)
    requires z.Montgomery? && Ready(z) && x != z.m
    requires x.Valid() && x.Clamped() && x.s == 0
    requires x.Value() < z.m.Value() * R(z.m.t)
    modifies x
    ensures x.Valid() && x.Clamped() && x.s == 0
    ensures 0 <= x.Value() < z.m.Value()
    ensures Cong(x.Value() * R(z.m.t), old(x.Value()), z.m.Value())
  {
    ghost var x0, mv, n := x.Value(), z.m.Value(), z.m.t;
    z.m.Range();
    x.Range();
    x.Unsigned();
    UpR(mv, n);
    FitsTwice(x0, mv, n, x.t);
    Pad(x, z.mt2, x0);
    var i := 0;
    UpSmall(0);
    CongRefl(x0, mv);
    while i < z.m.t
      modifies x`d
      invariant 0 <= i <= n && Reduced(x.d, n, mv, x0, i)
    {
      MontTurn(z, x, i, mv, x0);
      i := i + 1;
    }
    x.Unsigned();
    ghost var w := ExactQuotient(x.d, x0, mv, n);
    x.Clamp();
    x.DRShiftTo(z.m.t, x);
    var c := x.CompareTo(z.m);
    if c >= 0 {
      x.SubTo(z.m, x);
    }
    x.Range();
    QuotientCong(w, x.Value(), x0, mv, R(n));
  }

  /** Pads with zero digits, so that there is room for the multiples of m. */
  method Pad(x: BigInteger, mt2: int, ghost x0: int)
    requires x.Valid() && x.s == 0 && x.t <= mt2 + 1 && Val(x.d, 0, x.t) == x0
    modifies x
    ensures x.Valid() && x.s == 0 && x.t == mt2 + 1 && Val(x.d, 0, x.t) == x0
  {
    while x.t <= mt2
      invariant x.Valid() && x.s == 0 && x.t <= mt2 + 1
      invariant Val(x.d, 0, x.t) == x0
    {
      ghost var d0 := x.d;
      x.d := x.d[x.t := 0];
      ValFrame(d0, x.d, 0, x.t);
      UpSmall(x.t);
      x.t := x.t + 1;
    }
  }

  lemma FitsTwice(x0: int, mv: int, n: nat, t: nat)
    requires 0 <= x0 < Up(mv, n) && mv < R(n)
    requires t > 0 ==> x0 >= R(t - 1)
    ensures t <= 2 * n
  {
    RAdd(n, n);
    UpMono(mv, R(n), n);
    if t > 0 { RGrows(t - 1, 2 * n); }
  }

  lemma ExactQuotient(d: Digits, x0: int, mv: int, n: nat) returns (w: int)
    requires Reduced(d, n, mv, x0, n) && 0 <= x0 < Up(mv, n) && mv < R(n)
    ensures w == Val(d, 0, 2 * n + 1) / R(n)
    ensures Cong(w * R(n), x0, mv) && 0 <= w < 2 * mv
  {
    ValZero(d, 0, n);
    ValSplit(d, 0, n, n + 1);
    w := Val(d, n, n + 1);
    UpR(w, n);
    assert w * R(n) == R(n) * w;
    DivModUnique(Val(d, 0, 2 * n + 1), R(n), w, 0);
    RoomForCarry(Val(d, 0, 2 * n + 1), mv, x0, n, n);
    ValBound(d, n, n + 1);
    UpMul(mv, 2, n);
    UpR(2 * mv, n);
    SmallQuotient(w, 2 * mv, R(n));
  }

  lemma SmallQuotient(w: int, b: int, r: int)
    requires r >= 1 && w * r < b * r
    ensures w < b
  {
    if b <= w {
      MulMono(b, w, r);
      assert false;
    }
  }

  lemma QuotientCong(w: int, v: int, x0: int, mv: int, r: int)
    requires mv > 0 && Cong(w * r, x0, mv) && (v == w || v == w - mv)
    ensures Cong(v * r, x0, mv)
  {
    if v == w - mv {
      assert v * r - w * r == mv * (-r);
      CongIntro(v * r, w * r, -r, mv);
      CongTrans(v * r, w * r, x0, mv);
    }
  }

  // --------------------------------------------------------- the reducers

  /** The factor by which a reducer scales the numbers it works on. */
  ghost function Scale(z: Reducer): int
    reads z.m
    requires z.m.t >= 0
  {
    if z.Classic? then 1 else R(z.m.t)
  }

  /** b is the reduced form, under z, of the residue of a. */
  ghost predicate Represents(z: Reducer, b: BigInteger, a: int)
    reads z.m, b
    requires z.m.t >= 0 && z.m.Value() >= 1
  {
    b.Valid() && b.Clamped() && b.s == 0 && 0 <= b.Value() < z.m.Value() &&
    Cong(b.Value(), a * Scale(z), z.m.Value())
  }

  method Convert(z: Reducer, x: BigInteger) returns (r: BigInteger)
    requires Ready(z) && x.Valid() && x.Clamped()
    ensures r == x || fresh(r)
    ensures Represents(z, r, x.Value())
  {
    match z
    case Classic(m) => r := CConvert(m, x);
    case Montgomery(m, _, _, _, _, _) => r := MontConvert(m, x);
  }

  method CConvert(m: BigInteger, x: BigInteger) returns (r: BigInteger)
    requires m.Valid() && m.Clamped() && m.Value() >= 1 && x.Valid() && x.Clamped()
    ensures r == x || fresh(r)
    ensures r.Valid() && r.Clamped() && r.s == 0 && 0 <= r.Value() < m.Value()
    ensures Cong(r.Value(), x.Value(), m.Value())
  {
    x.Range();
    var c := x.CompareTo(m);
    CongMod(x.Value(), m.Value());
    CongRefl(x.Value(), m.Value());
    if x.s < 0 || c >= 0 {
      r := Mod(x, m);
      r.Range();
    } else {
      r := x;
    }
  }

  /** xR mod m */
  method MontConvert(m: BigInteger, x: BigInteger) returns (r: BigInteger)
    requires m.Valid() && m.Clamped() && m.Value() >= 1 && x.Valid()
    ensures fresh(r)
    ensures r.Valid() && r.Clamped() && r.s == 0 && 0 <= r.Value() < m.Value()
    ensures Cong(r.Value(), x.Value() * R(m.t), m.Value())
  {
    ghost var v, mv := x.Value(), m.Value();
    x.Range();
    var ax := x.Abs();
    ghost var av := ax.Value();
    r := new BigInteger();
    ax.DLShiftTo(m.t, r);
    UpR(av, m.t);
    ghost var rv := (av * R(m.t)) % mv;
    MulMono(0, av, R(m.t));
    DivRemTo(r, m, r);
    assert r.Value() == rv;
    var zero := new BigInteger();
    var c := r.CompareTo(zero);
    if x.s < 0 && c > 0 {
      m.SubTo(r, r);
    }
    r.Range();
    ConvertedCong(v, av, rv, r.Value(), R(m.t), mv);
  }

  lemma ConvertedCong(x: int, ax: int, rv: int, v: int, r: int, m: int)
    requires m > 0 && r > 0 && ax == (if x < 0 then -x else x) && rv == (ax * r) % m
    requires v == if x < 0 && rv > 0 then m - rv else rv
    ensures Cong(v, x * r, m)
  {
    CongMod(ax * r, m);
    if x < 0 {
      var k := CongElim(rv, ax * r, m);
      assert x * r == -(ax * r);
      if rv > 0 {
        assert v - x * r == m * (1 - k);
        CongIntro(v, x * r, 1 - k, m);
      } else {
        assert v - x * r == m * (-k);
        CongIntro(v, x * r, -k, m);
      }
    }
  }

  /** x = x mod m, or x / R mod m: the reduction of a product of two forms. */
  method Reduce(z: Reducer, x: BigInteger, ghost a: int)
    requires Ready(z) && x != z.m && x.Valid() && x.Clamped() && x.s == 0
    requires x.Value() < z.m.Value() * z.m.Value()
    requires Cong(x.Value(), a * Scale(z) * Scale(z), z.m.Value())
    modifies x
    ensures Represents(z, x, a)
  {
    ghost var v, mv, sc := x.Value(), z.m.Value(), Scale(z);
    x.Range();
    z.m.Range();
    match z
    case Classic(m) =>
      DivRemTo(x, m, x);
      x.Range();
      CongMod(v, mv);
      CongTrans(x.Value(), v, a, mv);
    case Montgomery(m, mp, _, _, _, _) =>
      MulMono(mv, R(m.t), mv);
      MontReduce(z, x);
      m.Unsigned();
      ReducedCong(x.Value(), v, a, m.d, m.t, mp, mv, sc);
  }

  lemma ReducedCong(x: int, v: int, a: int, d: Digits, n: nat, mp: int, mv: int, r: int)
    requires mv > 0 && n >= 1 && Val(d, 0, n) == mv && Cong(Dig(d, 0) * mp, -1, DV) && r == R(n)
    requires Cong(x * R(n), v, mv) && Cong(v, a * r * r, mv)
    ensures Cong(x, a * r, mv)
  {
    var inv := RadixInverse(d, n, mp, mv);
    CongTrans(x * r, v, a * r * r, mv);
    CongCancel(x, a * r, r, inv, mv);
  }

  /** The radix is invertible modulo m, since its digit base is. */
  lemma RadixInverse(d: Digits, n: nat, mp: int, mv: int) returns (inv: int)
    requires mv > 0 && n >= 1 && Val(d, 0, n) == mv && Cong(Dig(d, 0) * mp, -1, DV)
    ensures Cong(R(n) * inv, 1, mv)
  {
    ValCons(d, 0, n - 1);
    var k := CongElim(Dig(d, 0) * mp, -1, DV);
    var q := k + Val(d, 1, n - 1) * mp;
    assert DV * q - 1 == mv * mp by {
      assert mv * mp == Dig(d, 0) * mp + DV * (Val(d, 1, n - 1) * mp);
    }
    CongIntro(DV * q, 1, mp, mv);
    inv := PowerInverse(q, n, mv);
  }

  lemma {:induction false} PowerInverse(q: int, n: nat, mv: int) returns (inv: int)
    requires mv > 0 && Cong(DV * q, 1, mv)
    ensures Cong(R(n) * inv, 1, mv)
  {
    if n == 0 {
      inv := 1;
      CongRefl(1, mv);
    } else {
      var j := PowerInverse(q, n - 1, mv);
      inv := q * j;
      CongMul(DV * q, 1, R(n - 1) * j, 1, mv);
      assert (DV * q) * (R(n - 1) * j) == R(n) * inv;
    }
  }

  /** r = x^2 reduced. */
  method SqrTo(z: Reducer, x: BigInteger, r: BigInteger, ghost a: int)
    requires Ready(z) && Represents(z, x, a) && r != x && r != z.m
    modifies r
    ensures Represents(z, r, a * a)
  {
    ghost var v, mv, sc := x.Value(), z.m.Value(), Scale(z);
    x.SquareTo(r);
    ProductOfForms(v, v, a, a, sc, mv);
    r.Range();
    Reduce(z, r, a * a);
  }

  /** r = x * y reduced. */
  method MulTo(z: Reducer, x: BigInteger, y: BigInteger, r: BigInteger, ghost a: int, ghost b: int)
    requires Ready(z) && Represents(z, x, a) && Represents(z, y, b) && r != x && r != y && r != z.m
    modifies r
    ensures Represents(z, r, a * b)
  {
    ghost var v, w, mv, sc := x.Value(), y.Value(), z.m.Value(), Scale(z);
    x.MultiplyTo(y, r);
    ProductOfForms(v, w, a, b, sc, mv);
    r.Range();
    Reduce(z, r, a * b);
  }

  lemma ProductOfForms(v: int, w: int, a: int, b: int, sc: int, m: int)
    requires m > 0 && 0 <= v < m && 0 <= w < m
    requires Cong(v, a * sc, m) && Cong(w, b * sc, m)
    ensures 0 <= v * w < m * m && Cong(v * w, (a * b) * sc * sc, m)
  {
    hide Cong;
    BelowSquare(v, w, m);
    CongMul(v, a * sc, w, b * sc, m);
    FourFactors(a, b, sc);
  }

  lemma BelowSquare(v: int, w: int, m: int)
    requires 0 <= v < m && 0 <= w < m
    ensures 0 <= v * w < m * m
  {
    MulMono(v, m - 1, w);
    MulMono(w, m, m - 1);
  }

  lemma FourFactors(a: int, b: int, sc: int)
    ensures (a * sc) * (b * sc) == (a * b) * sc * sc
  {}

  /** The residue a reduced form stands for. */
  method Revert(z: Reducer, x: BigInteger, ghost a: int) returns (r: BigInteger)
    requires Ready(z) && Represents(z, x, a)
    ensures r == x || fresh(r)
    ensures r.Valid() && r.Clamped() && r.Value() == a % z.m.Value()
  {
    ghost var v, mv := x.Value(), z.m.Value();
    match z
    case Classic(m) =>
      r := x;
      CongMod(a, mv);
      CongSym(a % mv, a, mv);
      CongTrans(v, a, a % mv, mv);
      CongUnique(v, a % mv, mv);
    case Montgomery(m, mp, _, _, _, _) =>
      r := new BigInteger();
      x.CopyTo(r);
      z.m.Range();
      MulMono(1, R(m.t), mv);
      MontReduce(z, r);
      m.Unsigned();
      RevertedCong(r.Value(), v, a, m.d, m.t, mp, mv);
  }

  lemma RevertedCong(x: int, v: int, a: int, d: Digits, n: nat, mp: int, mv: int)
    requires mv > 0 && n >= 1 && Val(d, 0, n) == mv && Cong(Dig(d, 0) * mp, -1, DV)
    requires Cong(x * R(n), v, mv) && Cong(v, a * R(n), mv) && 0 <= x < mv
    ensures x == a % mv
  {
    var inv := RadixInverse(d, n, mp, mv);
    CongTrans(x * R(n), v, a * R(n), mv);
    CongCancel(x, a, R(n), inv, mv);
    CongMod(a, mv);
    CongSym(a % mv, a, mv);
    CongTrans(x, a, a % mv, mv);
    CongUnique(x, a % mv, mv);
  }

  // ------------------------------------------------------ square-and-multiply

  /** Whether a bit test succeeds: bit 31 makes a negative number, so it fails there. */
  predicate BitSet(e: int, i: nat)
    requires i < 32
  {
    i < 31 && (e / Pow2(i)) % 2 == 1
  }

  /** The number of bits of x, by halving the width. */
  method NBits(x0: int) returns (r: int)
    requires 1 <= x0 < TWO32
    ensures 1 <= r <= 32 && x0 / Pow2(r - 1) == 1
  {
    var x := x0;
    r := 1;
    DivOne(x0);
    x, r := TakeHigh(x0, x, r, Ushr(x, 0x10000), 16, 0x10000);
    x, r := TakeHigh(x0, x, r, Shr(x, 0x100), 8, 0x100);
    x, r := TakeHigh(x0, x, r, Shr(x, 0x10), 4, 0x10);
    x, r := TakeHigh(x0, x, r, Shr(x, 4), 2, 4);
    x, r := TakeHigh(x0, x, r, Shr(x, 2), 1, 2);
  }

  /** If anything is left of x without its low b bits, it is that, and the bits
      are counted. */
  method TakeHigh(ghost x0: int, x: int, r: int, t: int, b: nat, ghost w: int) returns (x': int, r': int)
    requires Width(b, w) && Below(x, b) && x0 >= 0 && r >= 1 && x == x0 / Pow2(r - 1) && t == x / w
    ensures r <= r' <= r + b && x' == x0 / Pow2(r' - 1) && 1 <= x' < w
  {
    Narrow(x0, x, r - 1, b, w);
    if t != 0 {
      x', r' := t, r + b;
    } else {
      x', r' := x, r;
    }
  }

  ghost predicate Width(b: nat, w: int) {
    (b == 16 && w == 0x10000) || (b == 8 && w == 0x100) || (b == 4 && w == 0x10) || (b == 2 && w == 4) || (b == 1 && w == 2)
  }

  ghost predicate Below(x: int, b: nat) {
    1 <= x < (if b == 16 then 0x1_0000_0000 else if b == 8 then 0x10000 else if b == 4 then 0x100
              else if b == 2 then 0x10 else 4)
  }

  /** Dropping b bits of a number of at most 2b bits, if anything remains. */
  lemma Narrow(x0: int, x: int, a: nat, b: nat, w: int)
    requires Width(b, w) && Below(x, b) && x0 >= 0 && x == x0 / Pow2(a)
    ensures x / w == x0 / Pow2(a + b) && 0 <= x / w < w && (x / w == 0 ==> x < w)
  {
    Pow2Table();
    Halve(x0, a, b);
  }

  lemma DivOne(x: int)
    ensures x / Pow2(0) == x
  {}

  /** The form of x, and a copy of it to work on. */
  method Start(z: Reducer, x: BigInteger) returns (g: BigInteger, r: BigInteger)
    requires Ready(z) && x.Valid() && x.Clamped()
    ensures fresh(r) && r != g && (g == x || fresh(g))
    ensures Represents(z, g, x.Value()) && Represents(z, r, x.Value())
  {
    r := new BigInteger();
    g := Convert(z, x);
    g.CopyTo(r);
  }

  /** this^e under z, for 1 <= e < 2^32; anything else gives 1. */
  method Exp(x: BigInteger, e: int, z: Reducer) returns (r: BigInteger)
    requires Ready(z) && x.Valid() && x.Clamped()
    ensures r.Valid() && r.Clamped()
    ensures 1 <= e <= 0xffff_ffff ==> r.Value() == Pow(x.Value(), e) % z.m.Value()
    ensures !(1 <= e <= 0xffff_ffff) ==> r.Value() == 1
  {
    if e > 0xffff_ffff || e < 1 {
      r := One();
      return;
    }
    ghost var b := x.Value();
    var r2 := new BigInteger();
    var g;
    g, r := Start(z, x);
    var n := NBits(e);
    var i := n - 1;
    assert Pow(b, 1) == b * Pow(b, 0);
    r := ExpLoop(z, e, i, g, r, r2, b);
    DivOne(e);
    r := Revert(z, r, Pow(b, e));
  }

  method ExpLoop(z: Reducer, e: int, n: nat, g: BigInteger, r0: BigInteger, s0: BigInteger, ghost b: int)
    returns (r: BigInteger)
    requires e >= 0 && n <= 31 && Ready(z) && r0 != s0 && r0 != g && s0 != g && r0 != z.m && s0 != z.m
    requires Represents(z, g, b) && Represents(z, r0, Pow(b, Top(e, n)))
    modifies r0, s0
    ensures r == r0 || r == s0
    ensures Represents(z, r, Pow(b, Top(e, 0)))
  {
    r := r0;
    var r2, i := s0, n;
    while i > 0
      invariant 0 <= i <= 31 && ((r == r0 && r2 == s0) || (r == s0 && r2 == r0))
      invariant Ready(z) && Represents(z, g, b) && Represents(z, r, Pow(b, Top(e, i)))
    {
      i := i - 1;
      r, r2 := ExpTurn(z, e, i, g, r, r2, b);
    }
  }

  /** Squares, and multiplies by the base if bit i of e is set. */
  method ExpTurn(z: Reducer, e: int, i: nat, g: BigInteger, r0: BigInteger, s0: BigInteger, ghost b: int)
    returns (r: BigInteger, r2: BigInteger)
    requires e >= 0 && i < 31 && Ready(z) && r0 != s0 && r0 != g && s0 != g && r0 != z.m && s0 != z.m
    requires Represents(z, g, b) && Represents(z, r0, Pow(b, Top(e, i + 1)))
    modifies r0, s0
    ensures (r == r0 && r2 == s0) || (r == s0 && r2 == r0)
    ensures Represents(z, r, Pow(b, Top(e, i)))
  {
    ghost var p := Pow(b, Top(e, i + 1));
    TopStep(b, e, i);
    SqrTo(z, r0, s0, p);
    if BitSet(e, i) {
      MulTo(z, s0, g, r0, p * p, b);
      r, r2 := r0, s0;
    } else {
      r, r2 := s0, r0;
    }
  }

  /** e without its low i bits. */
  ghost function Top(e: nat, i: nat): nat {
    DivNonneg(e, Pow2(i));
    e / Pow2(i)
  }

  lemma TopStep(b: int, e: nat, i: nat)
    requires i < 31
    ensures var p := Pow(b, Top(e, i + 1));
            Pow(b, Top(e, i)) == if BitSet(e, i) then p * p * b else p * p
  {
    var k := Top(e, i + 1);
    Halve(e, i, 1);
    assert Pow2(1) == 2 * Pow2(0);
    PowAdd(b, k, k);
    assert Top(e, i) == if BitSet(e, i) then k + k + 1 else k + k;
    assert Pow(b, k + k + 1) == b * Pow(b, k + k);
    assert b * (Pow(b, k) * Pow(b, k)) == Pow(b, k) * Pow(b, k) * b;
  }

  lemma ParityOf(v: int, digit: int, high: int, sign: int)
    requires v == digit + DV * high + DV * sign
    ensures v % 2 == digit % 2
  {
    EvenPlus(digit, 0x800_0000 * (high + sign));
  }

  lemma EvenPlus(d: int, k: int)
    ensures (d + 2 * k) % 2 == d % 2
  {}

  lemma UpStep(c: int, n: nat)
    ensures Up(c, n + 1) == DV * Up(c, n)
  {}

  /** The lowest digit decides. */
  lemma Parity(m: BigInteger)
    requires m.Valid()
    ensures m.Value() % 2 == (if m.t > 0 then Dig(m.d, 0) else m.s) % 2
  {
    if m.t > 0 {
      hide Val, Up;
      ValCons(m.d, 0, m.t - 1);
      UpStep(m.s, m.t - 1);
      ParityOf(m.Value(), Dig(m.d, 0), Val(m.d, 1, m.t - 1), Up(m.s, m.t - 1));
    }
  }

  method IsEven(m: BigInteger) returns (b: bool)
    requires m.Valid()
    ensures b <==> m.Value() % 2 == 0
  {
    Parity(m);
    b := (if m.t > 0 then And(m.d[0], 2) else m.s) == 0;
  }

  /** this^e % m: the reducer depends on the exponent and on m's parity. */
  method ModPowInt(x: BigInteger, e: int, m: BigInteger) returns (r: BigInteger)
    requires x.Valid() && x.Clamped() && m.Valid() && m.Clamped() && m.Value() >= 1
    ensures r.Valid() && r.Clamped()
    ensures 0 <= e < TWO32 && !(m.Value() == 1 && e == 0) ==> r.Value() == Pow(x.Value(), e) % m.Value()
    ensures !(1 <= e < TWO32) ==> r.Value() == 1
  {
    m.Range();
    var z: Reducer;
    var even := IsEven(m);
    UpSmall(0);
    Parity(m);
    if e < 256 || even {
      z := Classic(m);
    } else {
      z := NewMontgomery(m);
    }
    r := Exp(x, e, z);
    if e == 0 && m.Value() > 1 { DivModUnique(1, m.Value(), 0, 1); }
  }
}
