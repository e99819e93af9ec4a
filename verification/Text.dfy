/** Strings of the Go and JavaScript code: trimming, searching, lines and
    decimal numbers. */
module Text {
  /** White space for Go. */
  predicate IsSpace(c: char) {
    var n := c as int;
    || 9 <= n <= 13 || n == 0x20 || n == 0x85 || n == 0xA0 || n == 0x1680 || 0x2000 <= n <= 0x200A
    || n == 0x2028 || n == 0x2029 || n == 0x202F || n == 0x205F || n == 0x3000
  }

  function TrimLeft(s: string, f: char -> bool): (r: string)
    ensures r != "" ==> !f(r[0])
    ensures |r| <= |s|
  {
    if s != "" && f(s[0]) then TrimLeft(s[1..], f) else s
  }

  function TrimRight(s: string, f: char -> bool): (r: string)
    ensures r <= s && (r != "" ==> !f(r[|r| - 1]))
  {
    if s != "" && f(s[|s| - 1]) then TrimRight(s[..|s| - 1], f) else s
  }

  function Trim(s: string, f: char -> bool): string {
    TrimRight(TrimLeft(s, f), f)
  }

  /** Trimming leaves the string as it is. */
  predicate Trimmed(s: string, f: char -> bool) {
    s == "" || (!f(s[0]) && !f(s[|s| - 1]))
  }

  lemma TrimTrimmed(s: string, f: char -> bool)
    ensures Trim(s, f) == s <==> Trimmed(s, f)
  {
  }

  lemma {:induction false} TrimRightAfter(a: string, b: string, f: char -> bool)
    requires a == "" || !f(a[|a| - 1]) || TrimRight(b, f) != ""
    ensures TrimRight(a + b, f) == a + TrimRight(b, f)
    decreases |b|
  {
    if b == "" {
      assert a + b == a;
    } else if f(b[|b| - 1]) {
      assert (a + b)[..|a + b| - 1] == a + b[..|b| - 1];
      TrimRightAfter(a, b[..|b| - 1], f);
    }
  }

  lemma {:induction false} TrimRightKeeps(s: string, f: char -> bool)
    requires s != "" && !f(s[0])
    ensures TrimRight(s, f) != ""
  {
    if f(s[|s| - 1]) { TrimRightKeeps(s[..|s| - 1], f); }
  }

  /** The position of the first c, or -1. */
  function IndexOf(s: string, c: char): (i: int)
    ensures -1 <= i < |s|
    ensures i >= 0 ==> s[i] == c && c !in s[..i]
    ensures i < 0 ==> c !in s
  {
    if s == "" then -1
    else if s[0] == c then 0
    else
      var i := IndexOf(s[1..], c);
      if i < 0 then -1 else assert s[..i + 1] == [s[0]] + s[1..][..i]; i + 1
  }

  lemma {:induction false} IndexOfFirst(a: string, c: char, b: string)
    requires c !in a
    ensures IndexOf(a + [c] + b, c) == |a|
  {
    if a == "" {
    } else {
      IndexOfFirst(a[1..], c, b);
      assert (a + [c] + b)[1..] == a[1..] + [c] + b;
    }
  }

  const CRLF := "\r\n"

  /** The position of the first blank line, or -1. */
  function BlankLine(s: string): int {
    if |s| < 4 then -1
    else if s[..4] == "\r\n\r\n" then 0
    else
      var i := BlankLine(s[1..]);
      if i < 0 then -1 else i + 1
  }

  predicate IsLine(s: string) {
    s != "" && '\r' !in s && '\n' !in s
  }

  predicate AllLines(lines: seq<string>) {
    forall k :: 0 <= k < |lines| ==> IsLine(lines[k])
  }

  function Joined(lines: seq<string>): string {
    if lines == [] then ""
    else if |lines| == 1 then lines[0]
    else lines[0] + CRLF + Joined(lines[1..])
  }

  /** Every return in the text is a line break in front of another line. */
  predicate NoBlankLine(s: string) {
    forall i :: 0 <= i < |s| && s[i] == '\r' ==> i + 2 < |s| && s[i + 2] != '\r'
  }

  lemma InFront(a: string, b: string, i: nat)
    requires '\r' !in a
    ensures i < |a| ==> (a + b)[i] != '\r'
  {
    if i < |a| { assert a[i] in a; }
  }

  lemma {:induction false} JoinedNoBlank(lines: seq<string>)
    requires AllLines(lines) && lines != []
    ensures NoBlankLine(Joined(lines)) && Joined(lines) != "" && Joined(lines)[0] == lines[0][0] != '\r'
  {
    if |lines| <= 1 {
    } else {
      var rest := Joined(lines[1..]);
      JoinedNoBlank(lines[1..]);
      var s := Joined(lines);
      var n := |lines[0]|;
      forall i | 0 <= i < |s| && s[i] == '\r' ensures i + 2 < |s| && s[i + 2] != '\r' {
        InFront(lines[0], CRLF + rest, i);
        if i == n {
          assert s[i + 2] == rest[0];
        } else if i > n + 1 {
          assert s[i] == rest[i - n - 2];
          assert s[i + 2] == rest[i - n];
        }
      }
    }
  }

  lemma FourDiffer(t: string)
    requires |t| >= 4 && (t[0] != '\r' || t[2] != '\r')
    ensures t[..4] != "\r\n\r\n"
  {
    var u := t[..4];
    assert u[0] == t[0] && u[2] == t[2];
  }

  lemma {:induction false} BlankLineAfter(s: string, body: string)
    requires NoBlankLine(s)
    ensures BlankLine(s + "\r\n\r\n" + body) == |s|
  {
    var t := s + "\r\n\r\n" + body;
    if s != "" {
      assert NoBlankLine(s[1..]);
      BlankLineAfter(s[1..], body);
      assert t[1..] == s[1..] + "\r\n\r\n" + body;
      assert t[0] == s[0] && (s[0] == '\r' ==> t[2] == s[2] != '\r');
      assert t[..4] != "\r\n\r\n" by { FourDiffer(t); }
    } else {
      assert t[..4] == "\r\n\r\n";
    }
  }

  /** JavaScript's split at line breaks. */
  function SplitLines(s: string): seq<string> {
    var i := LineBreak(s);
    if i < 0 then [s] else [s[..i]] + SplitLines(s[i + 2..])
  }

  function LineBreak(s: string): (i: int)
    ensures i >= 0 ==> i + 2 <= |s|
  {
    if |s| < 2 then -1
    else if s[..2] == CRLF then 0
    else
      var i := LineBreak(s[1..]);
      if i < 0 then -1 else i + 1
  }

  lemma {:induction false} LineBreakAfter(a: string, b: string)
    requires '\r' !in a
    ensures LineBreak(a) == -1 && LineBreak(a + CRLF + b) == |a|
  {
    var s := a + CRLF + b;
    if a != "" {
      LineBreakAfter(a[1..], b);
      assert s[1..] == a[1..] + CRLF + b;
      assert s[0] == a[0] && a[0] in a && (|a| >= 2 ==> a[..2][0] == a[0]) && s[..2][0] == a[0];
    } else {
      assert s[..2] == CRLF;
    }
  }

  lemma {:induction false} SplitJoined(lines: seq<string>)
    requires AllLines(lines) && lines != []
    ensures SplitLines(Joined(lines)) == lines
  {
    if |lines| > 1 {
      LineBreakAfter(lines[0], Joined(lines[1..]));
      SplitJoined(lines[1..]);
      assert Joined(lines)[|lines[0]| + 2..] == Joined(lines[1..]) && Joined(lines)[..|lines[0]|] == lines[0];
    } else {
      LineBreakAfter(lines[0], "");
    }
  }

  predicate IsDigit(c: char) {
    '0' <= c <= '9'
  }

  function Decimal(n: nat): (s: string)
    ensures s != "" && forall k :: 0 <= k < |s| ==> IsDigit(s[k])
  {
    if n < 10 then ['0' + n as char] else Decimal(n / 10) + ['0' + (n % 10) as char]
  }

  predicate AllDigits(s: string) {
    forall k :: 0 <= k < |s| ==> IsDigit(s[k])
  }

  function ParseDecimal(s: string): nat
    requires AllDigits(s)
  {
    if s == "" then 0
    else
      assert IsDigit(s[|s| - 1]);
      ParseDecimal(s[..|s| - 1]) * 10 + (s[|s| - 1] as int - '0' as int)
  }

  lemma {:induction false} DecimalRoundTrip(n: nat)
    ensures ParseDecimal(Decimal(n)) == n
  {
    var s := Decimal(n);
    if n >= 10 {
      DecimalRoundTrip(n / 10);
      assert s[..|s| - 1] == Decimal(n / 10);
    } else {
      assert s[..0] == "";
    }
  }
}
