/** Strings of bits: the numbers they spell, and the codes that are printed
    as such strings. */
module BitStrings {
  import opened Modular
  import opened PowersOfTwo

  type byte = x: int | 0 <= x < 256

  function B(b: bool): int {
    if b then 1 else 0
  }

  /** The number a string spells, most significant bit first. */
  function Num(s: seq<bool>): (r: int)
    ensures 0 <= r < Pow2(|s|)
  {
    if s == [] then 0 else 2 * Num(s[..|s| - 1]) + B(s[|s| - 1])
  }

  lemma {:induction false} NumConcat(a: seq<bool>, b: seq<bool>)
    ensures Num(a + b) == ShiftUp(Num(a), |b|) + Num(b)
  {
    if b == [] {
      assert a + b == a;
    } else {
      assert (a + b)[..|a + b| - 1] == a + b[..|b| - 1];
      NumConcat(a, b[..|b| - 1]);
    }
  }

  /** u(n): the n bits of v. */
  function U(n: nat, v: int): (s: seq<bool>)
    ensures |s| == n
  {
    if n == 0 then [] else U(n - 1, v / 2) + [v % 2 == 1]
  }

  lemma {:induction false} NumU(n: nat, v: int)
    requires 0 <= v < Pow2(n)
    ensures Num(U(n, v)) == v
  {
    if n == 0 {
    } else {
      NumU(n - 1, v / 2);
      assert U(n, v)[..n - 1] == U(n - 1, v / 2);
    }
  }

  function Zeros(n: nat): (s: seq<bool>)
    ensures |s| == n && forall k :: 0 <= k < n ==> !s[k]
  {
    if n == 0 then [] else Zeros(n - 1) + [false]
  }

  /** The number of bits of v, less one. */
  function Log2(v: nat): (r: nat)
    requires v > 0
    ensures Pow2(r) <= v < 2 * Pow2(r)
  {
    if v == 1 then 0 else Log2(v / 2) + 1
  }

  /** ue(v), section 9.1 of ITU-T H.264: the bits of v + 1, preceded by one
      zero for each of them but the first. */
  function Ue(v: nat): seq<bool> {
    Golomb(v + 1)
  }

  function Golomb(k: nat): seq<bool>
    requires k > 0
  {
    if k == 1 then [true] else [false] + Golomb(k / 2) + [k % 2 == 1]
  }

  /** The form in which section 9.1 gives the code: leading zeros, a one, and
      as many bits of what v + 1 exceeds the power of two by. */
  lemma {:induction false} GolombForm(k: nat)
    requires k > 0
    ensures Golomb(k) == Zeros(Log2(k)) + [true] + U(Log2(k), k - Pow2(Log2(k)))
  {
    if k > 1 {
      GolombForm(k / 2);
      var n := Log2(k / 2);
      FrontZero(n);
      assert U(n + 1, k - Pow2(n + 1)) == U(n, k / 2 - Pow2(n)) + [k % 2 == 1];
      GolombStep(Zeros(n), U(n, k / 2 - Pow2(n)), k % 2 == 1);
    } else {
      assert U(0, 0) == [] && Zeros(0) == [];
    }
  }

  lemma GolombStep(z: seq<bool>, u: seq<bool>, b: bool)
    ensures [false] + (z + [true] + u) + [b] == ([false] + z) + [true] + (u + [b])
  {}

  lemma {:induction false} FrontZero(n: nat)
    ensures [false] + Zeros(n) == Zeros(n + 1)
  {
    if n == 0 {
    } else {
      FrontZero(n - 1);
      assert [false] + (Zeros(n - 1) + [false]) == ([false] + Zeros(n - 1)) + [false];
    }
  }

  /** Bit i of a byte string, most significant bit of each byte first. */
  function Bit(buf: seq<byte>, i: nat): int
    requires i < 8 * |buf|
  {
    (buf[i / 8] / Pow2(7 - i % 8)) % 2
  }

  /** All bits of a byte string, in order. */
  function BitsOf(buf: seq<byte>): (s: seq<bool>)
    ensures |s| == 8 * |buf|
  {
    if buf == [] then [] else U(8, buf[0]) + BitsOf(buf[1..])
  }

  lemma {:induction false} BitsOfConcat(a: seq<byte>, b: seq<byte>)
    ensures BitsOf(a + b) == BitsOf(a) + BitsOf(b)
  {
    if a == [] {
      assert a + b == b;
    } else {
      assert (a + b)[1..] == a[1..] + b;
      BitsOfConcat(a[1..], b);
    }
  }

  lemma {:induction false} BitAt(buf: seq<byte>, i: nat)
    requires i < 8 * |buf|
    ensures BitsOf(buf)[i] == (Bit(buf, i) == 1)
  {
    if i < 8 {
      UBit(8, buf[0], i);
    } else {
      BitAt(buf[1..], i - 8);
      assert buf[1..][(i - 8) / 8] == buf[i / 8];
    }
  }

  lemma {:induction false} UBit(n: nat, v: int, i: nat)
    requires i < n && v >= 0
    ensures U(n, v)[i] == ((v / Pow2(n - 1 - i)) % 2 == 1)
  {
    if i >= n - 1 {
    } else {
      UBit(n - 1, v / 2, i);
      Halve(v, 1, n - 2 - i);
      assert Pow2(1) == 2 * Pow2(0);
    }
  }

  /** The byte string whose bits are s, padded with zeros at the end. */
  function Pack(s: seq<bool>): (buf: seq<byte>)
    ensures |buf| == (|s| + 7) / 8
  {
    if s == [] then []
    else if |s| < 8 then [ByteOf(s + Zeros(8 - |s|))]
    else [ByteOf(s[..8])] + Pack(s[8..])
  }

  function ByteOf(s: seq<bool>): byte
    requires |s| == 8
  {
    Pow2Table();
    Num(s)
  }

  /** Bit k of the number a string spells, counted from its end. */
  lemma {:induction false} NumBit(s: seq<bool>, k: nat)
    requires k < |s|
    ensures (Num(s) / Pow2(k)) % 2 == B(s[|s| - 1 - k])
  {
    hide Num, Pow2;
    var t := s[..|s| - 1];
    NumLast(s);
    if k == 0 {
      NumNone();
    } else {
      NumBit(t, k - 1);
      Halve(Num(s), 1, k - 1);
      assert Pow2(1) == 2 by { Pow2Table(); }
      assert Num(s) / 2 == Num(t);
    }
  }

  lemma NumNone()
    ensures Num([]) == 0 && Pow2(0) == 1
  {}

  lemma NumLast(s: seq<bool>)
    requires s != []
    ensures Num(s) == 2 * Num(s[..|s| - 1]) + B(s[|s| - 1])
  {}

  lemma {:induction false} PackBits(s: seq<bool>, i: nat)
    requires i < |s|
    ensures Bit(Pack(s), i) == B(s[i])
  {
    if |s| < 8 {
      NumBit(s + Zeros(8 - |s|), 7 - i);
    } else if i < 8 {
      NumBit(s[..8], 7 - i);
    } else {
      PackBits(s[8..], i - 8);
      assert Pack(s)[i / 8] == Pack(s[8..])[(i - 8) / 8];
    }
  }

  /** Packing loses nothing: the bits are those printed, then zero padding. */
  lemma BitsOfPack(s: seq<bool>)
    ensures BitsOf(Pack(s))[..|s|] == s
  {
    forall i | 0 <= i < |s| ensures BitsOf(Pack(s))[i] == s[i] {
      PackBits(s, i);
      BitAt(Pack(s), i);
    }
  }

  /** a | b. */
  function Or(a: nat, b: nat): nat
    decreases a + b
  {
    if a == 0 then b
    else if b == 0 then a
    else 2 * Or(a / 2, b / 2) + (if a % 2 == 1 || b % 2 == 1 then 1 else 0)
  }

  /** Or-ing in bits below the lowest set bit of a adds them. */
  lemma {:induction false} OrDisjoint(a: nat, b: nat, k: nat)
    requires b < Pow2(k)
    ensures Or(ShiftUp(a, k), b) == ShiftUp(a, k) + b
  {
    if k == 0 {
    } else {
      OrDisjoint(a, b / 2, k - 1);
      var x := ShiftUp(a, k - 1);
      assert (2 * x) / 2 == x;
    }
  }

  /** The last v bits of a byte, less the last v - n of them, are bits
      8 - v .. 8 - v + n of the byte. */
  lemma {:induction false} ByteBits(buf: seq<byte>, p: nat, v: nat, n: nat)
    requires v <= 8 && n <= v && p + n <= 8 * |buf| && (n > 0 ==> p % 8 == 8 - v)
    ensures n > 0 ==> Num(BitsOf(buf)[p..p + n]) == (buf[p / 8] / Pow2(v - n)) % Pow2(n)
  {
    if n == 0 {
    } else {
      hide Num, Pow2, BitsOf;
      ByteBits(buf, p, v, n - 1);
      if n == 1 {
        NumNone();
        assert BitsOf(buf)[p..p] == [];
      }
      ByteStep(buf, p, v, n);
    }
  }

  lemma ByteStep(buf: seq<byte>, p: nat, v: nat, n: nat)
    requires v <= 8 && 1 <= n <= v && p + n <= 8 * |buf| && p % 8 == 8 - v
    requires Num(BitsOf(buf)[p..p + n - 1]) == (buf[p / 8] / Pow2(v - n + 1)) % Pow2(n - 1)
    ensures Num(BitsOf(buf)[p..p + n]) == (buf[p / 8] / Pow2(v - n)) % Pow2(n)
  {
    hide Num, Pow2, Bit, BitsOf;
    var s, b := BitsOf(buf)[p..p + n], buf[p / 8];
    assert s[..n - 1] == BitsOf(buf)[p..p + n - 1];
    NumLast(s);
    BitOfByte(buf, p, v, n);
    BitAt(buf, p + n - 1);
    NextBit(b, v - n, n);
    LastBit(Num(s), Num(s[..n - 1]), s[n - 1], b / Pow2(v - n), (b / Pow2(v - n)) % Pow2(n));
  }

  lemma LastBit(num: int, low: int, bit: bool, x: int, field: int)
    requires num == 2 * low + B(bit) && (bit <==> x % 2 == 1) && field == 2 * low + x % 2
    ensures num == field
  {}

  lemma BitOfByte(buf: seq<byte>, p: nat, v: nat, n: nat)
    requires v <= 8 && 1 <= n <= v && p + n <= 8 * |buf| && p % 8 == 8 - v
    ensures Bit(buf, p + n - 1) == (buf[p / 8] / Pow2(v - n)) % 2
  {
    assert (p + n - 1) / 8 == p / 8 && 7 - (p + n - 1) % 8 == v - n;
  }

  lemma NextBit(b: int, k: nat, n: nat)
    requires b >= 0 && n > 0
    ensures (b / Pow2(k)) % Pow2(n) == 2 * ((b / Pow2(k + 1)) % Pow2(n - 1)) + (b / Pow2(k)) % 2
  {
    Halve(b, k, 1);
    assert Pow2(1) == 2 * Pow2(0);
    DivNonneg(b, Pow2(k));
    ModHalves(b / Pow2(k), Pow2(n - 1));
  }

  lemma ModHalves(c: int, p: int)
    requires c >= 0 && p > 0
    ensures c % (2 * p) == 2 * ((c / 2) % p) + c % 2
  {
    var q, r := (c / 2) / p, (c / 2) % p;
    assert c == (2 * p) * q + (2 * r + c % 2) by { ModHalvesAlgebra(c, p, q, r); }
    DivModUnique(c, 2 * p, q, 2 * r + c % 2);
  }

  lemma ModHalvesAlgebra(c: int, p: int, q: int, r: int)
    requires c / 2 == p * q + r
    ensures c == (2 * p) * q + (2 * r + c % 2)
  {}
}
