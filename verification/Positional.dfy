/** Little-endian positional numbers in base 2^28, the digit base of the
    player's BigInteger, over a map from index to digit. */
module Positional {
  // The digit base, 1 << 28.
  const DV: int := 0x1000_0000

  type Digits = map<int, int>

  /** c times DV to the power n. */
  function Up(c: int, n: nat): int {
    if n == 0 then c else DV * Up(c, n - 1)
  }

  /** DV to the power n. */
  function R(n: nat): (r: int)
    ensures r >= 1
  {
    if n == 0 then 1 else DV * R(n - 1)
  }

  function Dig(d: Digits, k: int): int {
    if k in d then d[k] else 0
  }

  /** The number spelled by the n digits that start at index i. */
  function Val(d: Digits, i: int, n: nat): int {
    if n == 0 then 0 else Val(d, i, n - 1) + Up(Dig(d, i + n - 1), n - 1)
  }

  /** Every index in [i, i + n) holds a digit of base 2^28. */
  ghost predicate InBase(d: Digits, i: int, n: nat) {
    forall k :: i <= k < i + n ==> k in d && 0 <= d[k] < DV
  }

  /** The two maps agree from index i on. */
  ghost predicate SameFrom(d: Digits, e: Digits, i: int) {
    forall k :: k >= i ==> (k in d <==> k in e) && Dig(d, k) == Dig(e, k)
  }

  /** The two maps differ at most at indices in [j, j + n). */
  ghost predicate SameOutside(d: Digits, e: Digits, j: int, n: nat) {
    d.Keys == e.Keys && forall k :: k in d && !(j <= k < j + n) ==> d[k] == e[k]
  }

  lemma {:induction false} UpSum(a: int, b: int, n: nat)
    ensures Up(a + b, n) == Up(a, n) + Up(b, n)
    ensures Up(a - b, n) == Up(a, n) - Up(b, n)
  {
    if n == 0 {
    } else {
      UpSum(a, b, n - 1);
    }
  }

  lemma {:induction false} UpUp(c: int, n: nat)
    ensures Up(DV * c, n) == DV * Up(c, n)
  {
    if n == 0 {
    } else {
      UpUp(c, n - 1);
    }
  }

  lemma {:induction false} UpAdd(c: int, a: nat, b: nat)
    ensures Up(Up(c, a), b) == Up(c, a + b)
  {
    if b == 0 {
    } else {
      UpAdd(c, a, b - 1);
      UpUp(c, b - 1);
    }
  }

  lemma {:induction false} UpMul(c: int, x: int, n: nat)
    ensures Up(x * c, n) == x * Up(c, n)
  {
    if n == 0 {
    } else {
      UpMul(c, x, n - 1);
      assert DV * (x * Up(c, n - 1)) == x * (DV * Up(c, n - 1));
    }
  }

  lemma {:induction false} UpR(c: int, n: nat)
    ensures Up(c, n) == c * R(n)
  {
    if n == 0 {
    } else {
      UpR(c, n - 1);
      assert DV * (c * R(n - 1)) == c * (DV * R(n - 1));
    }
  }

  lemma {:induction false} UpMono(a: int, b: int, n: nat)
    requires a <= b
    ensures Up(a, n) <= Up(b, n)
  {
    if n == 0 {
    } else {
      UpMono(a, b, n - 1);
    }
  }

  lemma {:induction false} UpSmall(n: nat)
    ensures Up(0, n) == 0 && Up(1, n) == R(n) && Up(-1, n) == -R(n) && Up(DV, n) == R(n + 1)
    ensures Up(-2, n) == -2 * R(n) && Up(2, n) == 2 * R(n)
  {
    if n == 0 {
    } else {
      UpSmall(n - 1);
    }
  }

  lemma {:induction false} RAdd(a: nat, b: nat)
    ensures R(a + b) == R(a) * R(b) == Up(R(a), b)
  {
    if b == 0 {
    } else {
      RAdd(a, b - 1);
      assert DV * (R(a) * R(b - 1)) == R(a) * (DV * R(b - 1));
    }
  }

  lemma {:induction false} RMono(a: nat, b: nat)
    requires a <= b
    ensures R(a) <= R(b)
  {
    if a >= b {
    } else {
      RMono(a, b - 1);
    }
  }

  lemma {:induction false} ValFrame(d: Digits, e: Digits, i: int, n: nat)
    requires forall k :: i <= k < i + n ==> Dig(d, k) == Dig(e, k)
    ensures Val(d, i, n) == Val(e, i, n)
  {
    if n == 0 {
    } else {
      ValFrame(d, e, i, n - 1);
    }
  }

  lemma {:induction false} ValSplit(d: Digits, i: int, a: nat, b: nat)
    ensures Val(d, i, a + b) == Val(d, i, a) + Up(Val(d, i + a, b), a)
  {
    if b == 0 {
      UpSmall(a);
    } else {
      ValSplit(d, i, a, b - 1);
      var x := Dig(d, i + a + b - 1);
      UpAdd(x, b - 1, a);
      UpSum(Val(d, i + a, b - 1), Up(x, b - 1), a);
    }
  }

  lemma {:induction false} ValCons(d: Digits, i: int, n: nat)
    ensures Val(d, i, n + 1) == Dig(d, i) + DV * Val(d, i + 1, n)
  {
    ValSplit(d, i, 1, n);
    assert Val(d, i, 1) == Val(d, i, 0) + Up(Dig(d, i), 0);
    assert Up(Val(d, i + 1, n), 1) == DV * Up(Val(d, i + 1, n), 0);
  }

  /** A number of n proper digits lies in [0, R(n)). */
  lemma {:induction false} ValBound(d: Digits, i: int, n: nat)
    requires InBase(d, i, n)
    ensures 0 <= Val(d, i, n) < R(n)
  {
    if n == 0 {
    } else {
      ValBound(d, i, n - 1);
      var x := Dig(d, i + n - 1);
      UpMono(0, x, n - 1);
      UpMono(x, DV - 1, n - 1);
      UpSum(DV, 1, n - 1);
      UpSmall(n - 1);
    }
  }

  lemma {:induction false} ValZero(d: Digits, i: int, n: nat)
    requires forall k :: i <= k < i + n ==> Dig(d, k) == 0
    ensures Val(d, i, n) == 0
  {
    if n == 0 {
    } else {
      ValZero(d, i, n - 1);
      UpSmall(n - 1);
    }
  }

  /** Adding delta to the digit at k adds delta * R(k) to the number. */
  lemma {:induction false} ValUpdate(d: Digits, e: Digits, n: nat, k: nat, delta: int)
    requires k < n
    requires forall q :: 0 <= q < n && q != k ==> Dig(d, q) == Dig(e, q)
    requires Dig(e, k) == Dig(d, k) + delta
    ensures Val(e, 0, n) == Val(d, 0, n) + Up(delta, k)
  {
    if k == n - 1 {
      ValFrame(d, e, 0, n - 1);
      UpSum(Dig(d, k), delta, k);
    } else {
      ValUpdate(d, e, n - 1, k, delta);
    }
  }

  /** Maps that agree from index i on spell the same from there. */
  lemma {:induction false} RestFrame(d: Digits, e: Digits, i: nat, n: nat)
    requires i <= n && SameFrom(d, e, i)
    ensures Val(d, 0, n) - Val(d, 0, i) == Val(e, 0, n) - Val(e, 0, i)
  {
    if i >= n {
    } else {
      RestFrame(d, e, i, n - 1);
    }
  }

  /** Adding e to the number in [i, i + n) adds e * DV^i to the whole. */
  lemma AddBlock(d: Digits, e: Digits, i: nat, n: nat, delta: int)
    requires forall k :: 0 <= k < i ==> Dig(d, k) == Dig(e, k)
    requires Val(e, i, n) == Val(d, i, n) + delta
    ensures Val(e, 0, i + n) == Val(d, 0, i + n) + Up(delta, i)
  {
    ValSplit(d, 0, i, n);
    ValSplit(e, 0, i, n);
    ValFrame(d, e, 0, i);
    UpSum(Val(d, i, n), delta, i);
  }

  /** The range of a number whose top digit does not repeat the sign. */
  lemma ClampedRange(d: Digits, n: nat)
    requires InBase(d, 0, n) && n > 0
    ensures Dig(d, n - 1) > 0 ==> Val(d, 0, n) >= R(n - 1)
    ensures Dig(d, n - 1) < DV - 1 ==> Val(d, 0, n) < R(n) - R(n - 1)
  {
    ValBound(d, 0, n - 1);
    var x := Dig(d, n - 1);
    UpSmall(n - 1);
    if x > 0 { UpMono(1, x, n - 1); }
    if x < DV - 1 {
      UpMono(x, DV - 2, n - 1);
      UpSum(DV, 2, n - 1);
    }
  }

  /** Numbers of equal length are ordered by their first different digit. */
  lemma DigitOrder(d: Digits, e: Digits, i: nat, n: nat)
    requires i < n && InBase(d, 0, n) && InBase(e, 0, n)
    requires forall k :: i < k < n ==> Dig(d, k) == Dig(e, k)
    requires Dig(d, i) < Dig(e, i)
    ensures Val(d, 0, n) < Val(e, 0, n)
  {
    hide Val, Up, R;
    ValSplit(d, 0, i + 1, n - i - 1);
    ValSplit(e, 0, i + 1, n - i - 1);
    ValFrame(d, e, i + 1, n - i - 1);
    var high := Val(d, i + 1, n - i - 1);
    assert Val(d, 0, n) == Val(d, 0, i + 1) + Up(high, i + 1);
    ValLast(d, 0, i);
    ValLast(e, 0, i);
    ValBound(d, 0, i);
    ValBound(e, 0, i);
    UpMono(Dig(d, i) + 1, Dig(e, i), i);
    UpSum(Dig(d, i), 1, i);
    UpSmall(i);
  }

  lemma ValLast(d: Digits, i: int, n: nat)
    ensures Val(d, i, n + 1) == Val(d, i, n) + Up(Dig(d, i + n), n)
  {}

  /** An am call on the digits [i, i + n) adds delta * DV^i to the whole of N
      digits, but for the carry c still to be stored at index i + n. */
  lemma AmBlock(d: Digits, e: Digits, i: nat, n: nat, c: int, delta: int, N: nat)
    requires i + n <= N && SameOutside(e, d, i, n)
    requires Val(e, i, n) + Up(c, n) == Val(d, i, n) + delta
    ensures Val(e, 0, N) + Up(c, i + n) == Val(d, 0, N) + Up(delta, i)
  {
    AddBlock(d, e, i, n, delta - Up(c, n));
    UpSum(delta, Up(c, n), i);
    UpAdd(c, n, i);
    ValSplit(d, 0, i + n, N - i - n);
    ValSplit(e, 0, i + n, N - i - n);
    ValFrame(d, e, i + n, N - i - n);
  }

  /** No digit weighs more than the whole number, the others being proper. */
  lemma DigitBelow(d: Digits, N: nat, k: nat)
    requires k < N && InBase(d, 0, k) && InBase(d, k + 1, N - k - 1)
    ensures Up(Dig(d, k), k) <= Val(d, 0, N)
  {
    ValBound(d, 0, k);
    ValBound(d, k + 1, N - k - 1);
    ValSplit(d, 0, k + 1, N - k - 1);
    UpMono(0, Val(d, k + 1, N - k - 1), k + 1);
    UpSmall(k + 1);
  }
}
