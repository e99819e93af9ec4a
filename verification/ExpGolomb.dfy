/** The reader inverts the printers of sections 7.2 and 9.1 of ITU-T H.264. */
module ExpGolomb {
  import opened Wrappers
  import opened Modular
  import opened PowersOfTwo
  import opened BitStrings
  import opened BitReader

  /** code stands at position p of s. */
  ghost predicate Has(s: seq<bool>, p: nat, code: seq<bool>) {
    p + |code| <= |s| && s[p..p + |code|] == code
  }

  lemma HasSplit(s: seq<bool>, p: nat, a: seq<bool>, b: seq<bool>)
    requires Has(s, p, a + b)
    ensures Has(s, p, a) && Has(s, p + |a|, b)
  {
    assert s[p..p + |a|] == s[p..p + |a + b|][..|a|] == (a + b)[..|a|];
    assert s[p + |a|..p + |a| + |b|] == s[p..p + |a + b|][|a|..] == (a + b)[|a|..];
  }

  lemma UHas(s: seq<bool>, p: nat, n: nat, v: int)
    requires 0 <= v < Pow2(n) && Has(s, p, U(n, v))
    ensures UAt(s, p, n) == Ok((v, p + n))
  {
    NumU(n, v);
    UAtNum(s, p, n);
  }

  /** Reading a bits and then b bits is reading a + b bits at once. */
  lemma UAtSplit(s: seq<bool>, p: nat, a: nat, b: nat, x: nat, y: nat)
    requires UAt(s, p, a) == Ok((x, p + a)) && UAt(s, p + a, b) == Ok((y, p + a + b))
    requires p + a + b <= |s|
    ensures UAt(s, p, a + b) == Ok((ShiftUp(x, b) + y, p + a + b))
  {
    UAtNum(s, p, a);
    UAtNum(s, p + a, b);
    UAtNum(s, p, a + b);
    NumSlices(s, p, p + a, b);
  }

  lemma ZerosCounted(s: seq<bool>, p: nat, i: nat, n: nat)
    requires i <= n <= 32 && p + n - i < |s|
    requires forall k :: p <= k < p + n - i ==> !s[k]
    ensures UeFrom(s, p, i) == UeFrom(s, p + n - i, n)
    decreases n - i
  {
    if i < n { ZerosCounted(s, p + 1, i + 1, n); }
  }

  lemma {:induction false} Log2Below(v: nat, n: nat)
    requires 0 < v < Pow2(n + 1)
    ensures Log2(v) <= n
  {
    if n < Log2(v) {
      Pow2Mono(n + 1, Log2(v));
      assert false;
    }
  }

  lemma Log2Bound(k: nat)
    requires 0 < k < 0x2_0000_0000
    ensures Log2(k) <= 32 && Pow2(Log2(k)) <= k < 2 * Pow2(Log2(k))
  {
    Pow2Table();
    assert Pow2(33) == 2 * Pow2(32);
    Log2Below(k, 32);
  }

  /** Every code of up to 32 leading zeros is read back in 32-bit arithmetic, and
      exactly its bits are consumed. */
  lemma UeWraps(s: seq<bool>, p: nat, v: nat)
    requires v < 0x1_ffff_ffff && Has(s, p, Ue(v))
    ensures UeAt(s, p) == Ok((v % 0x1_0000_0000, p + |Ue(v)|))
  {
    hide UeAt, UeSum, Has, Golomb, Zeros, U, Pow2, Log2;
    var n := Log2(v + 1);
    var w := v + 1 - Pow2(n);
    GolombForm(v + 1);
    Log2Bound(v + 1);
    UeParts(s, p, n, w);
    UeSumInverse(v, n);
  }

  /** Every 32-bit code is read back, and exactly its bits are consumed. */
  lemma UeHas(s: seq<bool>, p: nat, v: nat)
    requires v < 0x1_0000_0000 && Has(s, p, Ue(v))
    ensures UeAt(s, p) == Ok((v, p + |Ue(v)|))
  {
    UeWraps(s, p, v);
  }

  /** A code in the form of section 9.1 with n leading zeros and suffix w. */
  lemma UeParts(s: seq<bool>, p: nat, n: nat, w: int)
    requires n <= 32 && 0 <= w < Pow2(n) && Has(s, p, Zeros(n) + [true] + U(n, w))
    ensures UeAt(s, p) == Ok((UeSum(w, n), p + |Zeros(n) + [true] + U(n, w)|))
  {
    hide UeFrom, UAt, UeAt, Has, UeSum, Zeros, U;
    UePrefix(s, p, n, U(n, w));
    UHas(s, p + n + 1, n, w);
    UeFromOne(s, p + n, n);
  }

  lemma UeFromOne(s: seq<bool>, q: nat, n: nat)
    requires n <= 32 && q < |s| && s[q] && UAt(s, q + 1, n).Ok?
    ensures UeFrom(s, q, n) == Ok((UeSum(UAt(s, q + 1, n).value.0, n), UAt(s, q + 1, n).value.1))
  {
  }

  lemma UePrefix(s: seq<bool>, p: nat, n: nat, rest: seq<bool>)
    requires n <= 32 && Has(s, p, Zeros(n) + [true] + rest)
    ensures UeAt(s, p) == UeFrom(s, p + n, n)
    ensures p + n < |s| && s[p + n] && Has(s, p + n + 1, rest)
  {
    HasSplit(s, p, Zeros(n) + [true], rest);
    HasSplit(s, p, Zeros(n), [true]);
    forall k | p <= k < p + n ensures !s[k] {
      assert s[k] == s[p..p + n][k - p] == Zeros(n)[k - p];
    }
    assert s[p + n] == s[p + n..p + n + 1][0];
    ZerosCounted(s, p, 0, n);
  }

  lemma UeSumInverse(v: nat, n: nat)
    requires n <= 32 && 1 <= Pow2(n) <= v + 1
    ensures UeSum(v + 1 - Pow2(n), n) == v % 0x1_0000_0000
  {
    Wrapped(v, Pow2(n));
  }

  lemma Wrapped(v: int, q: int)
    ensures (v + 1 - q + q % 0x1_0000_0000 - 1) % 0x1_0000_0000 == v % 0x1_0000_0000
  {}

  ghost function UeList(vs: seq<nat>): seq<bool> {
    if vs == [] then [] else Ue(vs[0]) + UeList(vs[1..])
  }

  /** Reading n codes one after the other. */
  ghost function UesAt(s: seq<bool>, p: nat, n: nat): Result<(seq<nat>, nat)>
    decreases n
  {
    if n == 0 then Ok(([], p))
    else
      match UeAt(s, p)
      case Panic => Panic
      case Ok((v, q)) =>
        match UesAt(s, q, n - 1)
        case Panic => Panic
        case Ok((vs, e)) => Ok(([v] + vs, e))
  }

  /** Codes printed back to back come out as the list that was printed. */
  lemma {:induction false} UeListRoundTrip(s: seq<bool>, p: nat, vs: seq<nat>)
    requires forall k :: 0 <= k < |vs| ==> vs[k] < 0x1_0000_0000
    requires Has(s, p, UeList(vs))
    ensures UesAt(s, p, |vs|) == Ok((vs, p + |UeList(vs)|))
    decreases |vs|
  {
    hide UeAt, UesAt, Has, Ue;
    if vs != [] {
      var v, rest := vs[0], vs[1..];
      HasSplit(s, p, Ue(v), UeList(rest));
      UeListRoundTrip(s, p + |Ue(v)|, rest);
      assert vs == [v] + rest;
      UesCons(s, p, v, rest, p + |UeList(vs)|);
    } else {
      NoCodes(s, p);
    }
  }

  lemma NoCodes(s: seq<bool>, p: nat)
    ensures UesAt(s, p, 0) == Ok(([], p)) && UeList([]) == []
  {}

  lemma UesCons(s: seq<bool>, p: nat, v: nat, vs: seq<nat>, e: nat)
    requires v < 0x1_0000_0000 && Has(s, p, Ue(v)) && UesAt(s, p + |Ue(v)|, |vs|) == Ok((vs, e))
    ensures UesAt(s, p, |vs| + 1) == Ok(([v] + vs, e))
  {
    UeHas(s, p, v);
  }

  /** se(v) for the code number k, section 9.1.1. */
  function SignedValue(k: nat): int {
    if k % 2 == 1 then (k + 1) / 2 else -(k / 2)
  }

  /** ReadSe, which always yields 0, agrees with section 9.1.1 exactly on code 0. */
  lemma SignedReadAgrees(k: nat)
    ensures 0 == SignedValue(k) <==> k == 0
  {}
}
