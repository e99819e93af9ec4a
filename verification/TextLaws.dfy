/** What the functions on strings mean, in plain terms. */
module TextLaws {
  import opened Text

  /** The characters with the property White_Space of Unicode. */
  lemma SpacesAre(c: char)
    ensures IsSpace(c) <==> c as int in {0x09, 0x0A, 0x0B, 0x0C, 0x0D, 0x20, 0x85, 0xA0, 0x1680,
                                         0x2000, 0x2001, 0x2002, 0x2003, 0x2004, 0x2005, 0x2006, 0x2007,
                                         0x2008, 0x2009, 0x200A, 0x2028, 0x2029, 0x202F, 0x205F, 0x3000}
  {
  }

  /** What trimming takes away, at both ends, and no more. */
  lemma {:induction false} TrimTakes(s: string, f: char -> bool) returns (a: string, b: string)
    ensures s == a + Trim(s, f) + b && Trimmed(Trim(s, f), f)
    ensures forall c :: c in a || c in b ==> f(c)
  {
    hide TrimLeft, TrimRight;
    a := LeftTaken(s, f);
    b := RightTaken(TrimLeft(s, f), f);
    assert a + (Trim(s, f) + b) == a + Trim(s, f) + b;
    if Trim(s, f) != "" { assert Trim(s, f)[0] == TrimLeft(s, f)[0]; }
  }

  lemma {:induction false} LeftTaken(s: string, f: char -> bool) returns (a: string)
    ensures s == a + TrimLeft(s, f) && forall c :: c in a ==> f(c)
  {
    if s != "" && f(s[0]) {
      a := LeftTaken(s[1..], f);
      a := [s[0]] + a;
    } else {
      a := "";
    }
  }

  lemma {:induction false} RightTaken(s: string, f: char -> bool) returns (b: string)
    ensures s == TrimRight(s, f) + b && forall c :: c in b ==> f(c)
  {
    if s != "" && f(s[|s| - 1]) {
      b := RightTaken(s[..|s| - 1], f);
      b := b + [s[|s| - 1]];
    } else {
      b := "";
    }
  }

  /** Decimal digits, most significant first. */
  lemma DigitsMean(s: string, d: nat)
    requires AllDigits(s) && d < 10
    ensures ParseDecimal(s + ["0123456789"[d]]) == 10 * ParseDecimal(s) + d && ParseDecimal("") == 0
  {
    assert (s + ["0123456789"[d]])[..|s|] == s;
  }

  // ---- Line breaks

  /** The text p stands in s at position k. */
  predicate At(s: string, k: int, p: string) {
    0 <= k && k + |p| <= |s| && s[k..k + |p|] == p
  }

  lemma AtTail(s: string, k: int, p: string)
    requires s != "" && k > 0
    ensures At(s, k, p) <==> At(s[1..], k - 1, p)
  {
    if 0 < k && k + |p| <= |s| { assert s[k..k + |p|] == s[1..][k - 1..k - 1 + |p|]; }
  }

  /** The first blank line is found, if there is one. */
  lemma {:induction false} BlankLineFirst(s: string)
    ensures var i := BlankLine(s);
            i >= -1 && (i >= 0 ==> At(s, i, "\r\n\r\n")) && forall k :: At(s, k, "\r\n\r\n") ==> 0 <= i <= k
  {
    hide At;
    if |s| < 4 {
      assert forall k :: !At(s, k, "\r\n\r\n") by { Short(s, "\r\n\r\n"); }
    } else if s[..4] == "\r\n\r\n" {
      AtStart(s, "\r\n\r\n");
    } else {
      AtStart(s, "\r\n\r\n");
      BlankLineFirst(s[1..]);
      if BlankLine(s) > 0 { AtTail(s, BlankLine(s), "\r\n\r\n"); }
      forall k | At(s, k, "\r\n\r\n") ensures 0 <= BlankLine(s) <= k {
        AtTail(s, k, "\r\n\r\n");
      }
    }
  }

  lemma Short(s: string, p: string)
    requires |s| < |p|
    ensures forall k :: !At(s, k, p)
  {
  }

  lemma AtStart(s: string, p: string)
    requires |s| >= |p|
    ensures At(s, 0, p) <==> s[..|p|] == p
    ensures forall k :: At(s, k, p) ==> k >= 0
  {
  }

  lemma {:induction false} LineBreakFirst(s: string)
    ensures var i := LineBreak(s);
            i >= -1 && (i >= 0 ==> At(s, i, "\r\n")) && forall k :: At(s, k, "\r\n") ==> 0 <= i <= k
  {
    hide At;
    if |s| < 2 {
      assert forall k :: !At(s, k, "\r\n") by { Short(s, "\r\n"); }
    } else if s[..2] == "\r\n" {
      AtStart(s, "\r\n");
    } else {
      AtStart(s, "\r\n");
      LineBreakFirst(s[1..]);
      if LineBreak(s) > 0 { AtTail(s, LineBreak(s), "\r\n"); }
      forall k | At(s, k, "\r\n") ensures 0 <= LineBreak(s) <= k {
        AtTail(s, k, "\r\n");
      }
    }
  }

  /** The lines of a text, put together with line breaks, are the text, and no
      line has a line break in it. */
  lemma {:induction false} SplitAtBreaks(s: string)
    ensures SplitLines(s) != [] && Joined(SplitLines(s)) == s
    ensures forall n, k :: 0 <= n < |SplitLines(s)| ==> !At(SplitLines(s)[n], k, "\r\n")
  {
    hide At, LineBreak;
    var i := LineBreak(s);
    LineBreakFirst(s);
    if i < 0 {
    } else {
      var a, rest := s[..i], s[i + 2..];
      SplitAtBreaks(rest);
      NoneBefore(s, i);
      var lines := [a] + SplitLines(rest);
      assert SplitLines(s) == lines && lines[1..] == SplitLines(rest);
      BreakBetween(s, i);
    }
  }

  lemma BreakBetween(s: string, i: int)
    requires At(s, i, "\r\n")
    ensures s == s[..i] + CRLF + s[i + 2..]
  {
  }

  lemma NoneBefore(s: string, i: nat)
    requires i <= |s| && forall k :: At(s, k, "\r\n") ==> i <= k
    ensures forall k :: !At(s[..i], k, "\r\n")
  {
    forall k ensures !At(s[..i], k, "\r\n") {
      if At(s[..i], k, "\r\n") {
        assert s[k..k + 2] == s[..i][k..k + 2];
        assert At(s, k, "\r\n");
      }
    }
  }
}
