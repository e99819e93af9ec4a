/** Emulation-prevention bytes and start codes of NAL units. */
module Emulation {
  import opened BitStrings

  /** The payload of section 7.3.1 of ITU-T H.264 as an encoder writes it: a 3
      goes in front of every byte up to 3 that follows two zero bytes, and
      behind data that ends in a zero byte. */
  function Escape(b: seq<byte>, zeros: nat): seq<byte>
    requires zeros <= 2
  {
    if b == [] then (if zeros == 0 then [] else [3])
    else if zeros == 2 && b[0] <= 3 then [3, b[0]] + Escape(b[1..], if b[0] == 0 then 1 else 0)
    else [b[0]] + Escape(b[1..], if b[0] == 0 then zeros + 1 else 0)
  }

  /** Left to right, every 0 0 3 becomes 0 0. */
  function Unescape(s: seq<byte>): (r: seq<byte>)
    ensures |r| <= |s|
  {
    if |s| >= 3 && s[0] == 0 && s[1] == 0 && s[2] == 3 then [0, 0] + Unescape(s[3..])
    else if s == [] then []
    else [s[0]] + Unescape(s[1..])
  }

  function RemoveSeparator(nalu: seq<byte>): seq<byte> {
    if [0, 0, 0, 1] <= nalu then nalu[4..]
    else if [0, 0, 1] <= nalu then nalu[3..]
    else nalu
  }

  /** Copies a NAL unit, less its start code and the escaping bytes. */
  method RemoveEmulationBytes(nalu: seq<byte>) returns (r: seq<byte>)
    ensures r == Unescape(RemoveSeparator(nalu))
  {
    hide Unescape, RemoveSeparator;
    var from := RemoveSeparator(nalu);
    var to := new byte[|from|](_ => 0);
    var toMaxSize, fromSize, toSize, i := to.Length, |from|, 0, 0;
    assert to[..0] + Unescape(from) == Unescape(from) && from[0..] == from;
    while i < fromSize && toSize + 1 < toMaxSize
      invariant 0 <= toSize <= i <= fromSize
      invariant to[..toSize] + Unescape(from[i..]) == Unescape(from)
    {
      ghost var out := to[..toSize];
      if i + 2 < fromSize && from[i] == 0 && from[i + 1] == 0 && from[i + 2] == 3 {
        StripAt(out, from, i);
        to[toSize] := 0;
        to[toSize + 1] := 0;
        assert to[..toSize + 2] == out + [0, 0];
        toSize := toSize + 2;
        i := i + 3;
      } else {
        CopyAt(out, from, i);
        to[toSize] := from[i];
        assert to[..toSize + 1] == out + [from[i]];
        toSize := toSize + 1;
        i := i + 1;
      }
    }
    if i < fromSize && toSize < toMaxSize {
      ghost var out := to[..toSize];
      CopyAt(out, from, i);
      to[toSize] := from[i];
      assert to[..toSize + 1] == out + [from[i]];
      toSize := toSize + 1;
      i := i + 1;
    }
    assert from[i..] == [];
    NothingLeft(to[..toSize]);
    r := to[..toSize];
  }

  lemma NothingLeft(out: seq<byte>)
    ensures out + Unescape([]) == out
  {
  }

  lemma StripAt(out: seq<byte>, from: seq<byte>, i: nat)
    requires i + 2 < |from| && from[i] == 0 && from[i + 1] == 0 && from[i + 2] == 3
    ensures out + Unescape(from[i..]) == (out + [0, 0]) + Unescape(from[i + 3..])
  {
    assert from[i..][3..] == from[i + 3..];
  }

  lemma CopyAt(out: seq<byte>, from: seq<byte>, i: nat)
    requires i < |from|
    requires !(i + 2 < |from| && from[i] == 0 && from[i + 1] == 0 && from[i + 2] == 3)
    ensures out + Unescape(from[i..]) == (out + [from[i]]) + Unescape(from[i + 1..])
  {
    assert from[i..][1..] == from[i + 1..];
  }

  /** The zeros already written, which the decoder still sees as plain bytes. */
  function Run(zeros: nat): (r: seq<byte>)
    requires zeros <= 2
    ensures |r| == zeros
  {
    if zeros == 0 then [] else if zeros == 1 then [0] else [0, 0]
  }

  lemma Copied(x: byte, s: seq<byte>)
    requires !(x == 0 && |s| >= 2 && s[0] == 0 && s[1] == 3)
    ensures Unescape([x] + s) == [x] + Unescape(s)
  {
    assert ([x] + s)[1..] == s;
  }

  lemma Stripped(s: seq<byte>)
    ensures Unescape([0, 0, 3] + s) == [0, 0] + Unescape(s)
  {
    assert ([0, 0, 3] + s)[3..] == s;
  }

  /** The zeros the escaping has in sight behind b: 1 after an odd number of
      them, 2 after an even one. */
  function Ending(b: seq<byte>, zeros: nat): (r: nat)
    requires zeros <= 2
    ensures r <= 2
  {
    if b == [] then zeros
    else Ending(b[1..], if b[0] != 0 then 0 else if zeros == 1 then 2 else 1)
  }

  /** The final 3 survives behind a single zero in sight. */
  function Surplus(b: seq<byte>, zeros: nat): seq<byte>
    requires zeros <= 2
  {
    if Ending(b, zeros) == 1 then [3] else []
  }

  /** Decoding what was escaped after a run of zeros gives the run and the
      bytes, and the final 3 if the escaping has one zero in sight there. */
  lemma {:induction false} UnescapeAfter(b: seq<byte>, zeros: nat)
    requires zeros <= 2
    ensures Unescape(Run(zeros) + Escape(b, zeros)) == Run(zeros) + (b + Surplus(b, zeros))
  {
    if b == [] {
      FinalThree(zeros);
    } else {
      hide Unescape, Ending, Run;
      var x, t := b[0], b[1..];
      var z := if x != 0 then 0 else if zeros == 1 then 2 else 1;
      UnescapeAfter(t, z);
      SurplusStep(b, zeros);
      var e, u := Escape(t, z), t + Surplus(t, z);
      if zeros == 2 && x <= 3 {
        AfterStrip(x, e, u, z);
      } else if x == 0 {
        LongerRun(zeros, e);
        LongerRun(zeros, u);
      } else {
        NonZeroEnds(x, e, u, zeros);
      }
    }
  }

  lemma SurplusStep(b: seq<byte>, zeros: nat)
    requires zeros <= 2 && b != []
    ensures var t, z := b[1..], if b[0] != 0 then 0 else if zeros == 1 then 2 else 1;
            b + Surplus(b, zeros) == [b[0]] + (t + Surplus(t, z))
  {}

  lemma LongerRun(zeros: nat, s: seq<byte>)
    requires zeros < 2
    ensures Run(zeros) + ([0] + s) == Run(zeros + 1) + s
  {}

  lemma FinalThree(zeros: nat)
    requires zeros <= 2
    ensures Unescape(Run(zeros) + Escape([], zeros)) == Run(zeros) + ([] + Surplus([], zeros))
  {
    if zeros == 1 {
      Copied(0, [3]);
      Copied(3, []);
      assert [0] + [3] == [0, 3] && [3] + [] == [3];
    } else if zeros == 2 {
      Stripped([]);
      assert [0, 0, 3] + [] == Run(2) + [3];
    }
  }

  lemma AfterStrip(x: byte, e: seq<byte>, u: seq<byte>, z: nat)
    requires x <= 3 && z == if x == 0 then 1 else 0
    requires Unescape(Run(z) + e) == Run(z) + u
    ensures Unescape(Run(2) + ([3, x] + e)) == Run(2) + ([x] + u)
  {
    hide Unescape;
    assert Run(2) + ([3, x] + e) == [0, 0, 3] + ([x] + e);
    Stripped([x] + e);
    if x == 0 {
      assert [x] + e == Run(1) + e && Run(1) + u == [x] + u;
    } else {
      Copied(x, e);
      assert Run(0) + e == e && Run(0) + u == u;
    }
  }

  /** A nonzero byte that cannot be taken for an escape ends a run of zeros. */
  lemma NonZeroEnds(x: byte, s: seq<byte>, v: seq<byte>, zeros: nat)
    requires zeros <= 2 && x != 0 && (zeros == 2 ==> x > 3)
    requires Unescape(Run(0) + s) == Run(0) + v
    ensures Unescape(Run(zeros) + ([x] + s)) == Run(zeros) + ([x] + v)
  {
    hide Unescape;
    assert Run(0) + s == s && Run(0) + v == v;
    var e, u := [x] + s, [x] + v;
    Copied(x, s);
    if zeros == 0 {
      assert Run(0) + e == e && Run(0) + u == u;
    } else {
      Copied(0, e);
      if zeros == 2 {
        Copied(0, [0] + e);
        assert Run(2) + e == [0] + ([0] + e) && Run(2) + u == [0] + ([0] + u);
      }
    }
  }

  /** Which start code, if any, stands in front of a NAL unit. */
  function StartCode(n: nat): seq<byte>
    requires n == 0 || n == 3 || n == 4
  {
    if n == 0 then [] else if n == 3 then [0, 0, 1] else [0, 0, 0, 1]
  }

  lemma EscapedStart(b: seq<byte>)
    ensures !([0, 0, 1] <= Escape(b, 0)) && !([0, 0, 0, 1] <= Escape(b, 0))
  {
    var s := Escape(b, 0);
    if |s| >= 3 && s[0] == 0 && s[1] == 0 {
      var s1 := Escape(b[1..], 1);
      assert s == [0] + s1 && s1[0] == 0;
      var s2 := Escape(b[1..][1..], 2);
      assert s1 == [0] + s2 && s2[0] == s[2] && s2[0] >= 3;
    }
  }

  /** The number of zero bytes at the end. */
  function ZerosAtEnd(b: seq<byte>): nat {
    if b == [] || b[|b| - 1] != 0 then 0 else ZerosAtEnd(b[..|b| - 1]) + 1
  }

  lemma {:induction false} EndingLast(b: seq<byte>, x: byte, zeros: nat)
    requires zeros <= 2
    ensures Ending(b + [x], zeros) == if x != 0 then 0 else if Ending(b, zeros) == 1 then 2 else 1
  {
    if b == [] {
      assert ([x])[1..] == [];
    } else {
      assert (b + [x])[1..] == b[1..] + [x];
      EndingLast(b[1..], x, if b[0] != 0 then 0 else if zeros == 1 then 2 else 1);
    }
  }

  lemma {:induction false} EndingParity(b: seq<byte>)
    ensures Ending(b, 0) == if ZerosAtEnd(b) == 0 then 0 else if ZerosAtEnd(b) % 2 == 1 then 1 else 2
  {
    if b == [] {
    } else {
      var front := b[..|b| - 1];
      assert b == front + [b[|b| - 1]];
      EndingLast(front, b[|b| - 1], 0);
      EndingParity(front);
    }
  }

  /** The decoder returns every escaped byte string, with or without a start
      code, and a 3 behind it if it ends in an odd number of zero bytes. The
      data of a NAL unit ends in its stop bit or in words of two zero bytes. */
  lemma EscapeRoundTrip(b: seq<byte>, n: nat)
    requires n == 0 || n == 3 || n == 4
    ensures Unescape(RemoveSeparator(StartCode(n) + Escape(b, 0))) == b + (if ZerosAtEnd(b) % 2 == 1 then [3] else [])
  {
    hide Unescape, Escape, Ending, ZerosAtEnd, RemoveSeparator;
    EscapedStart(b);
    SeparatorGoes(Escape(b, 0), n);
    UnescapeAfter(b, 0);
    EndingParity(b);
    assert Run(0) + Escape(b, 0) == Escape(b, 0) && Run(0) + (b + Surplus(b, 0)) == b + Surplus(b, 0);
  }

  lemma SeparatorGoes(e: seq<byte>, n: nat)
    requires (n == 0 || n == 3 || n == 4) && !([0, 0, 1] <= e) && !([0, 0, 0, 1] <= e)
    ensures RemoveSeparator(StartCode(n) + e) == e
  {
    var s := StartCode(n) + e;
    if n == 0 {
      assert s == e;
    } else if n == 3 {
      assert s[2] == 1 && s[3..] == e;
    } else {
      assert s[..4] == [0, 0, 0, 1] && s[4..] == e;
    }
  }
}
