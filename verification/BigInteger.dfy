/** The player's multi-precision integers: base-2^28 digits in properties
    0 .. t-1 of the object and a two's-complement sign s. */
module BigIntegers {
  import opened JsNumber
  import opened Modular
  import opened Positional


  class BigInteger {
    var d: Digits   // digit properties; those from t up are left-overs
    var t: int      // number of digits in use
    var s: int      // 0 or -1

    ghost predicate Valid()
      reads this
    {
      t >= 0 && (s == 0 || s == -1) && InBase(d, 0, t)
    }

    /** The integer the object stands for. */
    ghost function Value(): int
      requires t >= 0
      reads this
    {
      Val(d, 0, t) + Up(s, t)
    }

    /** The part of the integer that digits m and up and the sign contribute. */
    ghost function Above(m: int): int
      requires 0 <= m <= t
      reads this
    {
      Value() - Val(d, 0, m)
    }

    /** No digit could be dropped: the top one is not a copy of the sign. */
    ghost predicate Clamped()
      reads this
    {
      t > 0 ==> Dig(d, t - 1) != s % DV
    }

    constructor ()
      ensures Valid() && Clamped() && Value() == 0
    {
      d, t, s := map[], 0, 0;
    }

    /** w += x * this over n digits; the final carry is returned. */
    method Am3(i: int, x: int, w: BigInteger, j: int, c0: int, n: nat) returns (c: int)
      requires this != w
      requires 0 <= x < 2 * DV && 0 <= c0 < 3 * DV
      requires InBase(this.d, i, n) && InBase(w.d, j, n)
      modifies w`d
      ensures 0 <= c < 3 * DV
      ensures x < DV && c0 < DV ==> c < DV
      ensures InBase(w.d, j, n) && SameOutside(w.d, old(w.d), j, n)
      ensures Val(w.d, j, n) + Up(c, n) == Val(old(w.d), j, n) + x * Val(this.d, i, n) + c0
    {
      ghost var w0 := w.d;
      c := c0;
      var xl, xh := And(x, 0x4000), Shr(x, 0x4000);
      var k := 0;
      while k < n
        invariant 0 <= k <= n
        invariant 0 <= c < 3 * DV
        invariant x < DV && c0 < DV ==> c < DV
        invariant InBase(w.d, j, n) && SameOutside(w.d, w0, j, k)
        invariant Val(w.d, j, k) + Up(c, k) == Val(w0, j, k) + x * Val(this.d, i, k) + c0
      {
        var h0 := this.d[i + k];
        var l, h := And(h0, 0x4000), Shr(h0, 0x4000);
        var m := xh * l + h * xl;
        ghost var wk, before, c1 := w.d[j + k], w.d, c;
        Am3Ranges(x, h0, w.d[j + k], c);
        assert Exact(xl * l + Shl(And(m, 0x4000), 0x4000) + w.d[j + k] + c);
        l := xl * l + Shl(And(m, 0x4000), 0x4000) + w.d[j + k] + c;
        c := Shr(l, DV) + Shr(m, 0x4000) + xh * h;
        w.d := w.d[j + k := And(l, DV)];
        DigitStored(w0, before, w.d, j, k, n);
        CarryStep(Val(before, j, k), c1, k, Val(w0, j, k), x, Val(this.d, i, k), c0,
                  w.d[j + k], c, wk, h0);
        k := k + 1;
      }
    }

    /** r = this. */
    method CopyTo(r: BigInteger)
      requires Valid()
      modifies r
      ensures r.Valid() && r.Value() == old(Value()) && r.t == old(t) && r.s == old(s)
      ensures old(Clamped()) ==> r.Clamped()
    {
      ghost var d0 := d;
      var i := t - 1;
      while i >= 0
        invariant -1 <= i < t && t == old(t) && s == old(s)
        invariant InBase(d, 0, t) && forall k :: 0 <= k < t ==> d[k] == d0[k]
        invariant forall k :: i < k < t ==> k in r.d && r.d[k] == d0[k]
      {
        r.d := r.d[i := d[i]];
        i := i - 1;
      }
      r.t := t;
      r.s := s;
      ValFrame(r.d, d0, 0, t);
    }

    /** Drops top digits that only repeat the sign. */
    method Clamp()
      requires Valid()
      modifies this`t
      ensures Valid() && Clamped() && Value() == old(Value())
      ensures t <= old(t)
    {
      var c := And(s, DV);
      while t > 0 && d[t - 1] == c
        invariant 0 <= t <= old(t) && InBase(d, 0, t)
        invariant Value() == old(Value())
      {
        DropSign(d[t - 1], s, t - 1);
        t := t - 1;
      }
    }

    /** Turns the last carry into the sign and at most one more digit. */
    method Finish(i0: int, c: int)
      requires i0 >= 0 && -2 <= c <= 2 && InBase(d, 0, i0)
      modifies this
      ensures Valid() && Clamped()
      ensures Value() == Val(old(d), 0, i0) + Up(c, i0)
    {
      var i := i0;
      ghost var d0 := d;
      s := if c < 0 then -1 else 0;
      if c < -1 {
        d := d[i := DV + c];
        i := i + 1;
      } else if c > 0 {
        d := d[i := c];
        i := i + 1;
      }
      t := i;
      TopDigit(d0, i0, c);
      assert Value() == Val(d0, 0, i0) + Up(c, i0);
      Clamp();
    }

    /** Stores the low digit of the carry c and returns the rest of it. */
    method StoreLow(i: nat, c: int) returns (carry: int)
      requires -2 * DV <= c <= 2 * DV && InBase(d, 0, i)
      modifies this`d
      ensures DV * carry <= c < DV * carry + DV
      ensures InBase(d, 0, i + 1) && SameFrom(d, old(d), i + 1)
      ensures Val(d, 0, i + 1) + Up(carry, i + 1) == Val(old(d), 0, i) + Up(c, i)
    {
      ghost var d0 := d;
      d := d[i := And(c, DV)];
      carry := Shr(c, DV);
      ValFrame(d0, d, 0, i);
      UpUp(carry, i);
      UpSum(And(c, DV), DV * carry, i);
    }

    /** Adds the digits of this from index i on, and its sign, to the carry c. */
    method AddRest(i0: nat, c0: int, r: BigInteger) returns (c: int)
      requires i0 <= t && -1 <= c0 <= 1 && (s == 0 || s == -1)
      requires InBase(d, i0, t - i0) && InBase(r.d, 0, i0)
      modifies r`d
      ensures -2 <= c <= 1 && InBase(r.d, 0, t)
      ensures Val(r.d, 0, t) + Up(c, t) == Val(old(r.d), 0, i0) + Up(c0, i0) + old(Above(i0))
    {
      ghost var d0, u := d, Val(r.d, 0, i0) + Up(c0, i0) - Val(d, 0, i0);
      c := c0;
      var i := i0;
      while i < t
        invariant i0 <= i <= t && -1 <= c <= 1
        invariant SameFrom(d, d0, i) && InBase(r.d, 0, i)
        invariant Val(r.d, 0, i) + Up(c, i) == u + Val(d0, 0, i)
      {
        assert Val(r.d, 0, i) + Up(c + d[i], i) == u + Val(d0, 0, i + 1) by { UpSum(c, d[i], i); }
        c := c + d[i];
        c := r.StoreLow(i, c);
        i := i + 1;
      }
      UpSum(c, s, t);
      c := c + s;
    }

    /** Subtracts the digits of this from index i on, and its sign, from c. */
    method SubRest(i0: nat, c0: int, r: BigInteger) returns (c: int)
      requires i0 <= t && -2 <= c0 <= 0 && (s == 0 || s == -1)
      requires InBase(d, i0, t - i0) && InBase(r.d, 0, i0)
      modifies r`d
      ensures -2 <= c <= 1 && InBase(r.d, 0, t)
      ensures Val(r.d, 0, t) + Up(c, t) == Val(old(r.d), 0, i0) + Up(c0, i0) - old(Above(i0))
    {
      ghost var d0, u := d, Val(r.d, 0, i0) + Up(c0, i0) + Val(d, 0, i0);
      c := c0;
      var i := i0;
      while i < t
        invariant i0 <= i <= t && -2 <= c <= 0
        invariant SameFrom(d, d0, i) && InBase(r.d, 0, i)
        invariant Val(r.d, 0, i) + Up(c, i) == u - Val(d0, 0, i)
      {
        assert Val(r.d, 0, i) + Up(c - d[i], i) == u - Val(d0, 0, i + 1) by { UpSum(c, d[i], i); }
        c := c - d[i];
        c := r.StoreLow(i, c);
        i := i + 1;
      }
      UpSum(c, s, t);
      c := c - s;
    }

    /** The digits of this minus those of a, up to index m. */
    method SubBoth(a: BigInteger, m: nat, r: BigInteger) returns (c: int)
      requires m <= t && m <= a.t && InBase(d, 0, t) && InBase(a.d, 0, a.t)
      modifies r`d
      ensures -1 <= c <= 0 && InBase(r.d, 0, m)
      ensures InBase(d, m, t - m) && InBase(a.d, m, a.t - m)
      ensures Above(m) == old(Above(m)) && a.Above(m) == old(a.Above(m))
      ensures Val(r.d, 0, m) + Up(c, m) == Val(old(d), 0, m) - Val(old(a.d), 0, m)
    {
      ghost var d0, a0 := d, a.d;
      var i := 0;
      c := 0;
      while i < m
        invariant 0 <= i <= m && -1 <= c <= 0
        invariant SameFrom(d, d0, i) && SameFrom(a.d, a0, i) && InBase(r.d, 0, i)
        invariant Val(r.d, 0, i) + Up(c, i) == Val(d0, 0, i) - Val(a0, 0, i)
      {
        UpSum(c, d[i], i);
        UpSum(c + d[i], a.d[i], i);
        c := c + d[i] - a.d[i];
        c := r.StoreLow(i, c);
        i := i + 1;
      }
      RestFrame(d, d0, m, t);
      RestFrame(a.d, a0, m, a.t);
    }

    /** r = this - a; r may be this or a. */
    method SubTo(a: BigInteger, r: BigInteger)
      requires Valid() && a.Valid()
      modifies r
      ensures r.Valid() && r.Clamped()
      ensures r.Value() == old(Value()) - old(a.Value())
    {
      hide Val, Up;
      ghost var v, av := Value(), a.Value();
      var i := if a.t < t then a.t else t;
      var c := SubBoth(a, i, r);
      if a.t < t {
        UpSum(c, a.s, i);
        assert Val(r.d, 0, i) + Up(c - a.s, i) + Above(i) == v - av;
        c := AddRest(i, c - a.s, r);
        i := t;
      } else {
        UpSum(c, s, i);
        assert Val(r.d, 0, i) + Up(c + s, i) - a.Above(i) == v - av;
        c := a.SubRest(i, c + s, r);
        i := a.t;
      }
      assert Val(r.d, 0, i) + Up(c, i) == v - av;
      r.Finish(i, c);
    }

    /** The digits of this plus those of a, up to index m. */
    method AddBoth(a: BigInteger, m: nat, r: BigInteger) returns (c: int)
      requires m <= t && m <= a.t && InBase(d, 0, t) && InBase(a.d, 0, a.t)
      modifies r`d
      ensures 0 <= c <= 1 && InBase(r.d, 0, m)
      ensures InBase(d, m, t - m) && InBase(a.d, m, a.t - m)
      ensures Above(m) == old(Above(m)) && a.Above(m) == old(a.Above(m))
      ensures Val(r.d, 0, m) + Up(c, m) == Val(old(d), 0, m) + Val(old(a.d), 0, m)
    {
      ghost var d0, a0 := d, a.d;
      var i := 0;
      c := 0;
      while i < m
        invariant 0 <= i <= m && 0 <= c <= 1
        invariant SameFrom(d, d0, i) && SameFrom(a.d, a0, i) && InBase(r.d, 0, i)
        invariant Val(r.d, 0, i) + Up(c, i) == Val(d0, 0, i) + Val(a0, 0, i)
      {
        UpSum(c, d[i], i);
        UpSum(c + d[i], a.d[i], i);
        c := c + d[i] + a.d[i];
        c := r.StoreLow(i, c);
        i := i + 1;
      }
      RestFrame(d, d0, m, t);
      RestFrame(a.d, a0, m, a.t);
    }

    /** r = this + a; r may be this or a. */
    method AddTo(a: BigInteger, r: BigInteger)
      requires Valid() && a.Valid()
      modifies r
      ensures r.Valid() && r.Clamped()
      ensures r.Value() == old(Value()) + old(a.Value())
    {
      hide Val, Up;
      ghost var v, av := Value(), a.Value();
      var i := if a.t < t then a.t else t;
      var c := AddBoth(a, i, r);
      if a.t < t {
        UpSum(c, a.s, i);
        assert Val(r.d, 0, i) + Up(c + a.s, i) + Above(i) == v + av;
        c := AddRest(i, c + a.s, r);
        i := t;
      } else {
        UpSum(c, s, i);
        assert Val(r.d, 0, i) + Up(c + s, i) + a.Above(i) == v + av;
        c := a.AddRest(i, c + s, r);
        i := a.t;
      }
      assert Val(r.d, 0, i) + Up(c, i) == v + av;
      r.Finish(i, c);
    }

    /** The sign digit tells the sign, the length bounds the magnitude. */
    lemma Range()
      requires Valid()
      ensures s == 0 <==> Value() >= 0
      ensures -R(t) <= Value() < R(t)
      ensures Clamped() && t > 0 && s == 0 ==> Value() >= R(t - 1)
      ensures Clamped() && t > 0 && s == -1 ==> Value() < -R(t - 1)
    {
      ValBound(d, 0, t);
      UpSmall(t);
      if t > 0 { ClampedRange(d, t); }
    }

    lemma Unsigned()
      requires t >= 0 && s == 0
      ensures Value() == Val(d, 0, t)
    {
      UpSmall(t);
    }

    /** A negative, zero or positive number as this < a, this = a or this > a. */
    method CompareTo(a: BigInteger) returns (r: int)
      requires Valid() && a.Valid() && Clamped() && a.Clamped()
      ensures r < 0 <==> Value() < a.Value()
      ensures r == 0 <==> Value() == a.Value()
    {
      Range();
      a.Range();
      r := s - a.s;
      if r != 0 { return; }
      var i := t;
      r := i - a.t;
      if r != 0 {
        if r < 0 { RMono(t, a.t - 1); } else { RMono(a.t, t - 1); }
        r := if s < 0 then -r else r;
        return;
      }
      i := i - 1;
      while i >= 0
        invariant -1 <= i < t
        invariant forall k :: i < k < t ==> Dig(d, k) == Dig(a.d, k)
      {
        r := d[i] - a.d[i];
        if r != 0 {
          if r < 0 { DigitOrder(d, a.d, i, t); } else { DigitOrder(a.d, d, i, t); }
          return;
        }
        i := i - 1;
      }
      ValFrame(d, a.d, 0, t);
      r := 0;
    }

    /** Moves every digit n places up, from the top one down; r may be this. */
    method CopyUp(n: nat, r: BigInteger)
      requires t >= 0 && InBase(d, 0, t)
      modifies r`d
      ensures InBase(r.d, n, t) && Val(r.d, n, t) == Val(old(d), 0, t)
    {
      ghost var d0 := d;
      var i := t - 1;
      while i >= 0
        invariant -1 <= i < t
        invariant forall k :: 0 <= k <= i ==> k in d && d[k] == d0[k]
        invariant InBase(r.d, i + 1 + n, t - 1 - i)
        invariant Val(r.d, i + 1 + n, t - 1 - i) == Val(d0, i + 1, t - 1 - i)
      {
        ghost var e := r.d;
        r.d := r.d[i + n := d[i]];
        CopyStep(e, r.d, d0, i, n, t - 1 - i);
        i := i - 1;
      }
    }

    /** r = this << n digits; r may be this. */
    method DLShiftTo(n: nat, r: BigInteger)
      requires Valid()
      modifies r
      ensures r.Valid() && r.Value() == Up(old(Value()), n)
      ensures r.t == old(t) + n && r.s == old(s)
    {
      ghost var d0 := d;
      CopyUp(n, r);
      ghost var d1 := r.d;
      r.ZeroFill(n);
      ValFrame(d1, r.d, n, t);
      ShiftedUp(d0, r.d, t, n, s);
      r.t := t + n;
      r.s := s;
    }

    /** r = this >> n digits, rounding down; r may be this. */
    method DRShiftTo(n: nat, r: BigInteger)
      requires Valid()
      modifies r
      ensures r.Valid() && r.Value() == old(Value()) / R(n)
      ensures old(Clamped()) ==> r.Clamped()
      ensures r.s == old(s)
    {
      ghost var d0 := d;
      var i := n;
      while i < t
        modifies r`d
        invariant n <= i && (i <= t || i == n)
        invariant forall k :: i <= k < t ==> k in d && d[k] == d0[k]
        invariant InBase(r.d, 0, i - n) && Val(r.d, 0, i - n) == Val(d0, n, i - n)
        invariant i > n ==> Dig(r.d, i - n - 1) == Dig(d0, i - 1)
      {
        ghost var e := r.d;
        r.d := r.d[i - n := d[i]];
        ValFrame(e, r.d, 0, i - n);
        i := i + 1;
      }
      ShiftedDown(d0, t, n, s);
      UpSmall(0);
      r.t := if t - n > 0 then t - n else 0;
      r.s := s;
    }

    /** -this */
    method Negate() returns (r: BigInteger)
      requires Valid()
      ensures fresh(r) && r.Valid() && r.Clamped() && r.Value() == -Value()
    {
      r := new BigInteger();
      var zero := new BigInteger();
      zero.SubTo(this, r);
    }

    /** |this| */
    method Abs() returns (r: BigInteger)
      requires Valid()
      ensures r == this || fresh(r)
      ensures r.Valid() && r.s == 0 && (Clamped() ==> r.Clamped())
      ensures r.Value() == if Value() < 0 then -Value() else Value()
    {
      Range();
      if s < 0 {
        r := Negate();
        r.Range();
      } else {
        r := this;
      }
    }

    /** One row of the schoolbook product: x times one digit of y, and the carry
        behind it. */
    method AddRow(y: int, r: BigInteger, i: nat, ghost xv: int)
      requires r != this && t >= 0 && 0 <= y < DV
      requires InBase(d, 0, t) && InBase(r.d, 0, t + i) && xv == Val(d, 0, t)
      modifies r`d
      ensures InBase(r.d, 0, t + i + 1)
      ensures Val(r.d, 0, t + i + 1) == Val(old(r.d), 0, t + i) + Up(y * xv, i)
    {
      ghost var before := r.d;
      var c := Am3(0, y, r, i, 0, t);
      ghost var after := r.d;
      r.d := r.d[i + t := c];
      RowStep(before, after, r.d, t, i, y * xv, c);
    }

    /** The product of the digits of this and y. */
    method MultiplyRows(y: BigInteger, r: BigInteger, ghost product: int)
      requires Valid() && y.Valid() && r != this && r != y
      requires product == Val(d, 0, t) * Val(y.d, 0, y.t)
      modifies r`d
      ensures InBase(r.d, 0, t + y.t)
      ensures Val(r.d, 0, t + y.t) == product
    {
      ghost var xv := Val(d, 0, t);
      r.ZeroFill(t);
      var i := 0;
      while i < y.t
        invariant 0 <= i <= y.t && InBase(r.d, 0, t + i)
        invariant Val(r.d, 0, t + i) == Rows(xv, y.d, i)
      {
        AddRow(y.d[i], r, i, xv);
        i := i + 1;
      }
      RowsProduct(xv, y.d, y.t);
    }

    /** r = this * a; r is neither of them. */
    method MultiplyTo(a: BigInteger, r: BigInteger)
      requires Valid() && a.Valid() && r != this && r != a
      modifies r
      ensures r.Valid() && r.Clamped()
      ensures r.Value() == Value() * a.Value()
    {
      hide Val, Up, Dig;
      ghost var v, av := Value(), a.Value();
      Range();
      a.Range();
      var x := Abs();
      var y := a.Abs();
      ghost var p := SignedProduct(v, av, x.Value(), y.Value());
      r.t := x.t + y.t;
      x.Unsigned();
      y.Unsigned();
      x.MultiplyRows(y, r, p);
      r.s := 0;
      r.Unsigned();
      r.Clamp();
      assert r.Value() == p;
      if s != a.s {
        var zero := new BigInteger();
        zero.SubTo(r, r);
      }
      assert r.Value() == v * av;
    }

    /** The sums of one turn of the squaring loop: the square of digit i,
        and twice its products with all higher digits. */
    method SquareRow(i: nat, r: BigInteger)
      requires Valid() && r != this && i < t - 1
      requires InBase(r.d, 0, 2 * t) && Val(r.d, 0, 2 * t) == Squares(d, t, i)
      modifies r`d
      ensures InBase(r.d, 0, i + t) && 0 <= Dig(r.d, i + t) < 2 * DV
      ensures SameFrom(r.d, old(r.d), i + t + 1) && i + t in r.d
      ensures Val(r.d, 0, 2 * t) == Squares(d, t, i + 1)
    {
      ghost var d0 := r.d;
      var n := t - i - 1;
      var c := Am3(i, d[i], r, 2 * i, 0, 1);
      ghost var d1 := r.d;
      var c2 := Am3(i + 1, 2 * d[i], r, 2 * i + 1, c, n);
      ghost var d2 := r.d;
      r.d := r.d[i + t := r.d[i + t] + c2];
      SquareRowSum(d, t, i, d0, d1, d2, c, c2);
    }

    /** Passes on the one unit by which digit j may be too large. */
    method CarryOne(j: nat, n: nat)
      requires j + 1 < n && InBase(d, 0, j) && InBase(d, j + 1, n - j - 1)
      requires j in d && 0 <= d[j] < 2 * DV && d[j + 1] == 0
      modifies this`d
      ensures InBase(d, 0, n) && SameFrom(d, old(d), j + 2)
      ensures Val(d, 0, n) == Val(old(d), 0, n)
    {
      if d[j] >= DV {
        ghost var d0 := d;
        d := d[j := d[j] - DV];
        ghost var d1 := d;
        d := d[j + 1 := 1];
        ValUpdate(d0, d1, n, j, -DV);
        ValUpdate(d1, d, n, j + 1, 1);
        UpSmall(j);
        UpSmall(j + 1);
        UpUp(-1, j);
      }
    }

    /** Clears the low digits. */
    method ZeroFill(n: nat)
      modifies this`d
      ensures InBase(d, 0, n) && (forall k :: 0 <= k < n ==> d[k] == 0) && Val(d, 0, n) == 0
      ensures SameFrom(d, old(d), n)
    {
      var i := n - 1;
      while i >= 0
        invariant -1 <= i < n
        invariant forall k :: i < k < n ==> k in d && d[k] == 0
        invariant SameFrom(d, old(d), n)
      {
        d := d[i := 0];
        i := i - 1;
      }
      ValZero(d, 0, n);
    }

    /** One turn of the squaring loop. */
    method SquareTurn(i: nat, r: BigInteger)
      requires Valid() && r != this && i < t - 1
      requires SquaredUpTo(r.d, d, t, i)
      modifies r`d
      ensures SquaredUpTo(r.d, d, t, i + 1)
    {
      SquareRow(i, r);
      r.CarryOne(i + t, 2 * t);
    }

    /** The squaring loop over all digits but the top one, then that one. */
    method SquareRows(r: BigInteger)
      requires Valid() && r != this
      modifies r`d
      ensures InBase(r.d, 0, 2 * t) && Val(r.d, 0, 2 * t) == Squares(d, t, t)
    {
      r.ZeroFill(2 * t);
      var i := 0;
      while i < t - 1
        invariant 0 <= i && (i < t || i == 0)
        invariant SquaredUpTo(r.d, d, t, i)
      {
        SquareTurn(i, r);
        i := i + 1;
      }
      if t > 0 {
        SquareLast(i, r);
      }
    }

    /** r = this * this; r is not this. */
    method SquareTo(r: BigInteger)
      requires Valid() && r != this
      modifies r
      ensures r.Valid() && r.Clamped()
      ensures r.Value() == Value() * Value()
    {
      ghost var v := Value();
      var x := Abs();
      ghost var p := SignedProduct(v, v, x.Value(), x.Value());
      r.t := 2 * x.t;
      x.Unsigned();
      x.SquareRows(r);
      SquareOfVal(x.d, x.t);
      r.s := 0;
      r.Unsigned();
      r.Clamp();
    }

    /** The square of the top digit. */
    method SquareLast(i: nat, r: BigInteger)
      requires Valid() && r != this && i == t - 1
      requires InBase(r.d, 0, 2 * t) && Val(r.d, 0, 2 * t) == Squares(d, t, i)
      modifies r`d
      ensures InBase(r.d, 0, 2 * t)
      ensures Val(r.d, 0, 2 * t) == Squares(d, t, t)
    {
      ghost var d0 := r.d;
      var c := Am3(i, d[i], r, 2 * i, 0, 1);
      ghost var d1 := r.d;
      AmBlock(d0, d1, 2 * i, 1, c, d[i] * Val(d, i, 1), 2 * t);
      r.d := r.d[2 * t - 1 := r.d[2 * t - 1] + c];
      ValUpdate(d1, r.d, 2 * t, 2 * t - 1, c);
      SquareStep(d, t, i, 0);
      SquareTop(d, t, r.d);
    }
  }

  /** What the first i turns of the squaring loop have added up. */
  ghost function Squares(x: Digits, t: nat, i: nat): int
    requires i <= t
  {
    if i == 0 then 0
    else Squares(x, t, i - 1) + Up(Dig(x, i - 1) * Dig(x, i - 1), 2 * (i - 1))
         + Up(2 * Dig(x, i - 1) * Val(x, i, t - i), 2 * i - 1)
  }

  /** The squaring loop has done i turns: e holds their sum, and nothing yet
      above digit i + t. */
  ghost predicate SquaredUpTo(e: Digits, x: Digits, t: nat, i: nat)
    requires i <= t
  {
    InBase(e, 0, 2 * t) && (forall k :: i + t < k < 2 * t ==> Dig(e, k) == 0) &&
    Val(e, 0, 2 * t) == Squares(x, t, i)
  }

  lemma SquareStep(x: Digits, t: nat, i: nat, c: int)
    requires i < t
    ensures Val(x, i, 1) == Dig(x, i)
    ensures Up(2 * Dig(x, i) * Val(x, i + 1, t - i - 1) + c, 2 * i + 1)
            == Up(2 * Dig(x, i) * Val(x, i + 1, t - i - 1), 2 * i + 1) + Up(c, 2 * i + 1)
    ensures Squares(x, t, i + 1) == Squares(x, t, i) + Up(Dig(x, i) * Dig(x, i), 2 * i)
                                    + Up(2 * Dig(x, i) * Val(x, i + 1, t - i - 1), 2 * i + 1)
  {
    UpSum(2 * Dig(x, i) * Val(x, i + 1, t - i - 1), c, 2 * i + 1);
    assert Val(x, i, 1) == Val(x, i, 0) + Up(Dig(x, i), 0);
  }

  /** What the two am calls and the stored carry of turn i add up to. */
  lemma SquareRowSum(x: Digits, t: nat, i: nat, d0: Digits, d1: Digits, d2: Digits, c: int, c2: int)
    requires i < t - 1 && InBase(x, 0, t) && c2 >= 0
    requires InBase(d0, 0, 2 * t) && Val(d0, 0, 2 * t) == Squares(x, t, i)
    requires SameOutside(d1, d0, 2 * i, 1) && SameOutside(d2, d1, 2 * i + 1, t - i - 1)
    requires InBase(d1, 2 * i, 1) && InBase(d2, 2 * i + 1, t - i - 1)
    requires Val(d1, 2 * i, 1) + Up(c, 1) == Val(d0, 2 * i, 1) + Dig(x, i) * Val(x, i, 1)
    requires Val(d2, 2 * i + 1, t - i - 1) + Up(c2, t - i - 1)
             == Val(d1, 2 * i + 1, t - i - 1) + 2 * Dig(x, i) * Val(x, i + 1, t - i - 1) + c
    ensures i + t in d2
    ensures var e := d2[i + t := d2[i + t] + c2];
            InBase(e, 0, i + t) && 0 <= Dig(e, i + t) < 2 * DV && SameFrom(e, d0, i + t + 1) &&
            Val(e, 0, 2 * t) == Squares(x, t, i + 1)
  {
    var n := t - i - 1;
    assert InBase(d2, 0, 2 * t) by {
      assert forall k :: 0 <= k < 2 * t ==> k in d0 && k in d1 && k in d2;
    }
    var e := d2[i + t := d2[i + t] + c2];
    assert Val(e, 0, 2 * t) == Squares(x, t, i + 1) by {
      AmBlock(d0, d1, 2 * i, 1, c, Dig(x, i) * Val(x, i, 1), 2 * t);
      AmBlock(d1, d2, 2 * i + 1, n, c2, 2 * Dig(x, i) * Val(x, i + 1, n) + c, 2 * t);
      ValUpdate(d2, e, 2 * t, i + t, c2);
      SquareStep(x, t, i, c);
    }
    SquareCarry(x, t, i, e);
  }

  /** With low part a of the square's root x, the sum is x^2 - (x - a)^2. */
  lemma {:induction false} SquaresProduct(x: Digits, t: nat, i: nat)
    requires i <= t
    ensures Squares(x, t, i) == Val(x, 0, i) * (2 * Val(x, 0, t) - Val(x, 0, i))
  {
    if i == 0 {
    } else {
      SquaresProduct(x, t, i - 1);
      var a, g, h := Val(x, 0, i - 1), Dig(x, i - 1), Val(x, i, t - i);
      ValSplit(x, 0, i, t - i);
      UpR(h, i);
      UpR(g, i - 1);
      UpR(g * g, 2 * (i - 1));
      UpR(2 * g * h, 2 * i - 1);
      RAdd(i - 1, i - 1);
      RAdd(i - 1, i);
      SquareAlgebra(a, g, h, R(i - 1), R(i));
    }
  }

  lemma SquareAlgebra(a: int, g: int, h: int, q: int, q': int)
    ensures var x := a + g * q + h * q';
            a * (2 * x - a) + g * g * (q * q) + 2 * g * h * (q * q') == (a + g * q) * (2 * x - (a + g * q))
  {
    var x, b := a + g * q + h * q', g * q;
    assert (a + b) * (2 * x - (a + b)) == a * (2 * x - a) + b * (2 * x - 2 * a - b);
    assert b * (2 * x - 2 * a - b) == b * b + 2 * (b * (h * q'));
    assert b * b == g * g * (q * q);
    assert b * (h * q') == g * h * (q * q');
  }

  /** The digit that takes the carry of turn i stays below 2 * DV. */
  lemma SquareCarry(x: Digits, t: nat, i: nat, e: Digits)
    requires i < t && InBase(x, 0, t)
    requires i + t < 2 * t && InBase(e, 0, i + t) && InBase(e, i + t + 1, t - i - 1)
    requires Val(e, 0, 2 * t) == Squares(x, t, i + 1)
    ensures Dig(e, i + t) < 2 * DV
  {
    SquaresProduct(x, t, i + 1);
    var a, v := Val(x, 0, i + 1), Val(x, 0, t);
    ValBound(x, 0, i + 1);
    ValBound(x, 0, t);
    SquareBound(a, v, R(i + 1), R(t));
    RAdd(i + 1, t);
    DigitBelow(e, 2 * t, i + t);
    if Dig(e, i + t) >= 2 * DV {
      UpMono(2 * DV, Dig(e, i + t), i + t);
      UpMul(DV, 2, i + t);
      UpSmall(i + t);
    }
  }

  lemma SquareBound(a: int, v: int, q: int, q': int)
    requires 0 <= a < q && 0 <= v < q'
    ensures a * (2 * v - a) < 2 * (q * q')
  {
    assert a * (2 * v - a) == 2 * (a * v) - a * a;
    assert a * v <= q * v;
    assert q * v < q * q';
  }

  lemma SquareOfVal(x: Digits, t: nat)
    ensures Squares(x, t, t) == Val(x, 0, t) * Val(x, 0, t)
  {
    SquaresProduct(x, t, t);
    var v := Val(x, 0, t);
    assert 2 * v - v == v;
  }

  lemma SquareTop(x: Digits, t: nat, e: Digits)
    requires t > 0 && InBase(x, 0, t) && InBase(e, 0, 2 * t - 1)
    requires Val(e, 0, 2 * t) == Squares(x, t, t)
    ensures Dig(e, 2 * t - 1) < DV
  {
    SquareOfVal(x, t);
    ValBound(x, 0, t);
    ProductBelow(Val(x, 0, t), R(t));
    RAdd(t, t);
    DigitBelow(e, 2 * t, 2 * t - 1);
    if Dig(e, 2 * t - 1) >= DV {
      UpMono(DV, Dig(e, 2 * t - 1), 2 * t - 1);
      UpSmall(2 * t - 1);
    }
  }

  lemma ProductBelow(v: int, q: int)
    requires 0 <= v < q
    ensures v * v < q * q
  {
    assert v * v <= v * q;
    assert v * q < q * q;
  }

  lemma SignedProduct(v: int, w: int, x: int, y: int) returns (p: int)
    requires x == (if v < 0 then -v else v) && y == (if w < 0 then -w else w)
    ensures p == x * y
    ensures v * w == if (v < 0) == (w < 0) then p else -p
  {
    p := x * y;
  }

  lemma ShiftedUp(d: Digits, e: Digits, t: nat, n: nat, s: int)
    requires InBase(e, 0, n) && Val(e, 0, n) == 0
    requires InBase(e, n, t) && Val(e, n, t) == Val(d, 0, t)
    ensures InBase(e, 0, t + n)
    ensures Val(e, 0, t + n) + Up(s, t + n) == Up(Val(d, 0, t) + Up(s, t), n)
  {
    ValSplit(e, 0, n, t);
    UpAdd(s, t, n);
    UpSum(Val(d, 0, t), Up(s, t), n);
  }

  lemma CopyStep(e: Digits, e': Digits, d: Digits, i: nat, n: nat, m: nat)
    requires i in d && e' == e[i + n := d[i]]
    requires Val(e, i + 1 + n, m) == Val(d, i + 1, m)
    ensures Val(e', i + n, m + 1) == Val(d, i, m + 1)
  {
    ValFrame(e, e', i + 1 + n, m);
    ValCons(e', i + n, m);
    ValCons(d, i, m);
  }

  lemma ShiftedDown(d: Digits, t: nat, n: nat, s: int)
    requires InBase(d, 0, t) && (s == 0 || s == -1)
    ensures n < t ==> Val(d, n, t - n) + Up(s, t - n) == (Val(d, 0, t) + Up(s, t)) / R(n)
    ensures n >= t ==> s == (Val(d, 0, t) + Up(s, t)) / R(n)
  {
    if n < t {
      ValSplit(d, 0, n, t - n);
      ValBound(d, 0, n);
      UpAdd(s, t - n, n);
      var q := Val(d, n, t - n) + Up(s, t - n);
      UpSum(Val(d, n, t - n), Up(s, t - n), n);
      UpR(q, n);
      DivModUnique(Val(d, 0, t) + Up(s, t), R(n), q, Val(d, 0, n));
    } else {
      ValBound(d, 0, t);
      UpSmall(t);
      RMono(t, n);
      DivModUnique(Val(d, 0, t) + Up(s, t), R(n), s, Val(d, 0, t) + Up(s, t) - R(n) * s);
    }
  }

  /** The sum of the first n rows of the schoolbook product of x and d. */
  ghost function Rows(x: int, d: Digits, n: nat): int {
    if n == 0 then 0 else Rows(x, d, n - 1) + Up(Dig(d, n - 1) * x, n - 1)
  }

  lemma {:induction false} RowsProduct(x: int, d: Digits, n: nat)
    ensures Rows(x, d, n) == x * Val(d, 0, n)
  {
    if n == 0 {
    } else {
      RowsProduct(x, d, n - 1);
      RowAlgebra(x, Val(d, 0, n - 1), Dig(d, n - 1), n - 1);
    }
  }

  lemma RowAlgebra(x: int, v: int, y: int, i: nat)
    ensures x * v + Up(y * x, i) == x * (v + Up(y, i))
  {
    assert y * x == x * y;
    UpMul(y, x, i);
    Distribute(x, v, Up(y, i));
  }

  lemma Distribute(x: int, a: int, b: int)
    ensures x * (a + b) == x * a + x * b
  {}

  /** Adding a row at digit i and storing its carry one digit further up. */
  lemma RowStep(d: Digits, d': Digits, e: Digits, n: nat, i: nat, row: int, c: int)
    requires SameOutside(d', d, i, n) && e == d'[i + n := c]
    requires Val(d', i, n) + Up(c, n) == Val(d, i, n) + row
    ensures Val(e, 0, n + i + 1) == Val(d, 0, n + i) + Up(row, i)
  {
    var d0 := d[i + n := 0];
    UpSmall(n);
    UpSmall(n + i);
    ValFrame(d, d0, 0, i + n);
    ValFrame(d, d0, i, n);
    ValFrame(d', e, i, n);
    AddBlock(d0, e, i, n + 1, row);
  }

  lemma {:induction false} DigitsUnique(d: Digits, e: Digits, n: nat)
    requires InBase(d, 0, n) && InBase(e, 0, n) && Val(d, 0, n) == Val(e, 0, n)
    ensures forall k :: 0 <= k < n ==> Dig(d, k) == Dig(e, k)
  {
    if n == 0 {
    } else {
      if Dig(d, n - 1) < Dig(e, n - 1) {
        DigitOrder(d, e, n - 1, n);
      } else if Dig(e, n - 1) < Dig(d, n - 1) {
        DigitOrder(e, d, n - 1, n);
      }
      DigitsUnique(d, e, n - 1);
    }
  }

  /** Clamped objects that stand for the same integer have the same sign and
      digits: whatever way a result was computed, its form is the same. */
  lemma CanonicalForm(a: BigInteger, b: BigInteger)
    requires a.Valid() && b.Valid() && a.Clamped() && b.Clamped() && a.Value() == b.Value()
    ensures a.s == b.s && a.t == b.t && forall k :: 0 <= k < a.t ==> Dig(a.d, k) == Dig(b.d, k)
  {
    a.Range();
    b.Range();
    if a.t < b.t {
      RMono(a.t, b.t - 1);
    } else if b.t < a.t {
      RMono(b.t, a.t - 1);
    }
    DigitsUnique(a.d, b.d, a.t);
  }

  lemma DropSign(top: int, s: int, n: nat)
    requires (s == 0 || s == -1) && top == s % DV
    ensures Up(top, n) + Up(s, n + 1) == Up(s, n)
  {
    UpUp(s, n);
    UpSum(top, DV * s, n);
  }

  /** A carry between -2 and 2 is a sign digit and at most one more digit. */
  lemma TopDigit(d: Digits, i: nat, c: int)
    requires -2 <= c <= 2
    ensures c < -1 ==> Val(d[i := DV + c], 0, i + 1) + Up(-1, i + 1) == Val(d, 0, i) + Up(c, i)
    ensures c > 0 ==> Val(d[i := c], 0, i + 1) + Up(0, i + 1) == Val(d, 0, i) + Up(c, i)
    ensures Up(0, i) == 0
  {
    ValFrame(d, d[i := DV + c], 0, i);
    ValFrame(d, d[i := c], 0, i);
    UpSum(DV, c, i);
    UpSmall(i);
    UpSmall(i + 1);
  }

  /** Every intermediate of the am3 loop stays below 2^31, and the digit and
      carry it leaves are those of w + x * t + c. */
  lemma Am3Ranges(x: int, t: int, w: int, c: int)
    requires 0 <= x < 2 * DV && 0 <= t < DV && 0 <= w < DV && 0 <= c < 3 * DV
    ensures var xl, xh := And(x, 0x4000), Shr(x, 0x4000);
            var l, h := And(t, 0x4000), Shr(t, 0x4000);
            var m := xh * l + h * xl;
            var low := xl * l + Shl(And(m, 0x4000), 0x4000) + w + c;
            var carry := Shr(low, DV) + Shr(m, 0x4000) + xh * h;
            0 <= m < 0x8000_0000 && 0 <= low < 0x8000_0000 && 0 <= carry < 3 * DV &&
            And(low, DV) + DV * carry == w + x * t + c &&
            (x < DV && c < DV ==> carry < DV)
  {
    var xl, xh := x % 0x4000, x / 0x4000;
    var l, h := t % 0x4000, t / 0x4000;
    var m := xh * l + h * xl;
    MulBounds(xh, 0x7fff, l, 0x3fff);
    MulBounds(h, 0x3fff, xl, 0x3fff);
    MulBounds(xl, 0x3fff, l, 0x3fff);
    MulBounds(xh, 0x7fff, h, 0x3fff);
    var low := xl * l + (m % 0x4000) * 0x4000 + w + c;
    var carry := low / DV + m / 0x4000 + xh * h;
    assert x * t == xl * l + 0x4000 * m + DV * (xh * h) by { HalfDigits(xl, xh, l, h); }
    assert low % DV + DV * carry == w + x * t + c;
    MulBounds(x, 2 * DV - 1, t, DV - 1);
    if x < DV { MulBounds(x, DV - 1, t, DV - 1); }
  }

  lemma DigitStored(w0: Digits, w: Digits, w': Digits, j: int, k: nat, n: nat)
    requires k < n && InBase(w, j, n) && SameOutside(w, w0, j, k)
    requires j + k in w' && 0 <= w'[j + k] < DV && w' == w[j + k := w'[j + k]]
    ensures InBase(w', j, n) && SameOutside(w', w0, j, k + 1)
    ensures Val(w', j, k) == Val(w, j, k)
  {
    ValFrame(w, w', j, k);
  }

  lemma MulBounds(a: int, p: int, b: int, q: int)
    requires 0 <= a <= p && 0 <= b <= q
    ensures 0 <= a * b <= p * q
  {
    assert a * b <= p * b;
    assert p * b <= p * q;
  }

  lemma HalfDigits(xl: int, xh: int, l: int, h: int)
    ensures (xl + 0x4000 * xh) * (l + 0x4000 * h) == xl * l + 0x4000 * (xh * l + h * xl) + DV * (xh * h)
  {}

  lemma CarryStep(v: int, c: int, n: nat, v0: int, x: int, a: int, c0: int, w': int, c': int, w: int, t: int)
    requires v + Up(c, n) == v0 + x * a + c0
    requires w' + DV * c' == w + x * t + c
    ensures v + Up(w', n) + Up(c', n + 1) == v0 + Up(w, n) + x * (a + Up(t, n)) + c0
  {
    UpUp(c', n);
    UpSum(w', DV * c', n);
    UpSum(w, x * t, n);
    UpSum(w + x * t, c, n);
    UpMul(t, x, n);
    assert x * (a + Up(t, n)) == x * a + x * Up(t, n);
  }
}
