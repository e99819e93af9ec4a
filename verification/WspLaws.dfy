/** What either side of the WSP protocol makes of a message, in plain terms. */
module WspLaws {
  import opened Wrappers
  import opened Text
  import opened TextLaws
  import opened Scanner
  import opened Wsp
  import opened WspPlayer
  import opened WspRoundTrip

  // ---- What is printed

  lemma {:induction false} Spelled(first: string, k: string, v: string, l: string, w: string, body: string)
    ensures Message(first, [], body) == first + "\r\n\r\n" + body
    ensures Message(first, [(k, v)], body) == first + "\r\n" + k + ": " + v + "\r\n\r\n" + body
    ensures Message(first, [(k, v), (l, w)], body) ==
            first + "\r\n" + k + ": " + v + "\r\n" + l + ": " + w + "\r\n\r\n" + body
    ensures StatusLine(200, first) == "WSP/1.1 200 " + first
  {
    assert [(k, v)][..0] == [] && [(k, v), (l, w)][..1] == [(k, v)];
    assert Printed([(k, v)]) == k + ": " + v + "\r\n";
    assert Printed([(k, v), (l, w)]) == k + ": " + v + "\r\n" + (l + ": " + w) + "\r\n";
    assert Decimal(20) == "20" && Decimal(200) == "200";
  }

  // ---- The server: what is refused

  /** A request without a blank line anywhere, and no other one, is refused for that. */
  lemma NoBlankLineAnywhere(input: string)
    ensures Decode(input) == MissingBlankLine <==> forall k :: !At(input, k, "\r\n\r\n")
  {
    BlankLineFirst(input);
  }

  /** One that has a single line is refused. */
  lemma SingleLine(line: string, body: string)
    requires IsLine(line)
    ensures Decode(line + "\r\n\r\n" + body) == BadFirstLine
  {
    hide BlankLine;
    var s := line + "\r\n\r\n" + body;
    BlankLineAfter(line, body);
    assert s[..|line|] == line;
  }

  /** The first line is two words: the protocol with its version, and one of five
      commands. */
  lemma FirstLineDecides(a: string, b: string, fs: Fields, body: string)
    requires fs != [] && AllStable(fs) && ' ' !in a
    requires a != "" && '\r' !in a && '\n' !in a && Trimmed(a, IsSpace)
    requires b != "" && '\r' !in b && '\n' !in b && Trimmed(b, IsSpace)
    ensures
      Decode(Message(a + " " + b, fs, body)) ==
        if a != "WSP/1.1" then BadProto(a)
        else if b !in {"INIT", "JOIN", "WRAP", "GET_INFO", "SWITCH"} then BadCommand(b)
        else Accepted(Request(b, MapOf(fs), body))
  {
    hide IsSpace, Message, ScanPair, Headers, MapOf, Trim;
    var first := a + " " + b;
    assert first[0] == a[0] && first[|first| - 1] == b[|b| - 1];
    HeadRead(first, fs, body);
    SpacePair(a, b);
    if a == "WSP/1.1" && ValidCmd(b) { RequestRoundTrip(b, fs, body); }
  }

  /** A first line of one word names no command. */
  lemma OneWord(a: string, fs: Fields, body: string)
    requires fs != [] && AllStable(fs) && ' ' !in a
    requires a != "" && '\r' !in a && '\n' !in a && Trimmed(a, IsSpace)
    ensures Decode(Message(a, fs, body)) == if a != "WSP/1.1" then BadProto(a) else BadCommand("")
  {
    hide IsSpace, Message, Headers, MapOf, Trim;
    HeadRead(a, fs, body);
  }

  lemma HeadRead(first: string, fs: Fields, body: string)
    requires fs != [] && AllStable(fs) && IsLine(first) && Trimmed(first, IsSpace)
    ensures
      var input := Message(first, fs, body);
      var i := BlankLine(input);
      i >= 0 && i <= |input| && ScanLine(input[..i]).more && ScanLine(input[..i]).token == first
  {
    hide Joined, LinesOf, IsSpace, TrimRight, Trim, Message;
    MessageParts(first, fs, body);
    var input := Message(first, fs, body);
    var r := Joined(LinesOf(fs));
    var head := input[..BlankLine(input)];
    assert head == first + CRLF + r == (first + "\r") + ['\n'] + r;
    IndexOfFirst(first + "\r", '\n', r);
    assert head[..|first| + 1] == first + "\r";
    TrimBreak(first);
    NothingToTrim(first, IsSpace);
  }

  // ---- The server: header lines

  lemma {:induction false} TrimMore(s: string)
    ensures Trim(TrimLeft(s, IsSpace), IsSpaceOrQuote) == Trim(s, IsSpaceOrQuote)
    ensures Trim(TrimRight(s, IsSpace), IsSpaceOrQuote) == Trim(s, IsSpaceOrQuote)
  {
    TrimMoreLeft(s);
    TrimMoreRight(s);
  }

  lemma {:induction false} TrimMoreLeft(s: string)
    ensures TrimLeft(TrimLeft(s, IsSpace), IsSpaceOrQuote) == TrimLeft(s, IsSpaceOrQuote)
  {
    if s != "" && IsSpace(s[0]) { TrimMoreLeft(s[1..]); }
  }

  lemma {:induction false} TrimMoreRight(s: string)
    ensures Trim(TrimRight(s, IsSpace), IsSpaceOrQuote) == Trim(s, IsSpaceOrQuote)
  {
    if s != "" && IsSpace(s[|s| - 1]) {
      var n := |s| - 1;
      TrimMoreRight(s[..n]);
      TrimOneMore(s[..n], s[n]);
      assert s[..n] + [s[n]] == s;
    }
  }

  lemma {:induction false} TrimOneMore(s: string, c: char)
    requires IsSpaceOrQuote(c)
    ensures Trim(s + [c], IsSpaceOrQuote) == Trim(s, IsSpaceOrQuote)
  {
    hide IsSpace;
    if s == "" {
      assert s + [c] == [c] && [c][1..] == "";
    } else if IsSpaceOrQuote(s[0]) {
      assert (s + [c])[1..] == s[1..] + [c];
      TrimOneMore(s[1..], c);
    } else {
      assert (s + [c])[..|s|] == s;
    }
  }

  lemma {:induction false} TrimLeftBefore(a: string, b: string, f: char -> bool)
    requires b != "" && !f(b[0])
    ensures TrimLeft(a + b, f) == TrimLeft(a, f) + b
    ensures forall c :: c in TrimLeft(a, f) ==> c in a
  {
    if a == "" {
      assert a + b == b;
    } else {
      assert (a + b)[1..] == a[1..] + b;
      TrimLeftBefore(a[1..], b, f);
    }
  }

  lemma ColonKept()
    ensures !IsSpace(':')
  {
  }

  /** A line with a colon is a field: what is in front of the first colon and what
      is behind it, both without white space and quotes around them. */
  lemma FieldRead(k: string, v: string)
    requires ':' !in k
    ensures ScanColonPair(Trim(k + ":" + v, IsSpace)) == Pair(Trim(k, IsSpaceOrQuote), Trim(v, IsSpaceOrQuote), true)
  {
    hide IsSpace, TrimLeft, TrimRight;
    var k1, v1 := TrimLeft(k, IsSpace), TrimRight(v, IsSpace);
    ColonKept();
    TrimLeftBefore(k, ":" + v, IsSpace);
    assert k + ":" + v == k + (":" + v) && k1 + (":" + v) == (k1 + ":") + v;
    TrimRightAfter(k1 + ":", v, IsSpace);
    var t := k1 + [':'] + v1;
    assert Trim(k + ":" + v, IsSpace) == t;
    IndexOfFirst(k1, ':', v1);
    assert t[..|k1|] == k1 && t[|k1| + 1..] == v1;
    TrimMore(k);
    TrimMore(v);
  }

  /** The rest of the lines is read with the field stored; a field that comes
      again is overwritten. */
  lemma FieldStored(k: string, v: string, rest: string, m: map<string, string>)
    requires ':' !in k && '\n' !in k && '\n' !in v
    ensures var n := m[Trim(k, IsSpaceOrQuote) := Trim(v, IsSpaceOrQuote)];
            && Headers(k + ":" + v + "\n" + rest, m) == Headers(Trim(rest, IsSpace), n)
            && Headers(k + ":" + v, m) == n
  {
    hide IsSpace, Trim, Headers, ScanColonPair;
    var line := k + ":" + v;
    FieldRead(k, v);
    LineScanned(line, rest);
    HeadersStep(line + "\n" + rest, m, ScanLine(line + "\n" + rest), Trim(k, IsSpaceOrQuote), Trim(v, IsSpaceOrQuote));
    HeadersStep(line, m, ScanLine(line), Trim(k, IsSpaceOrQuote), Trim(v, IsSpaceOrQuote));
  }

  lemma LineScanned(line: string, rest: string)
    requires '\n' !in line
    ensures ScanLine(line + "\n" + rest) == Scanned(Trim(rest, IsSpace), Trim(line, IsSpace), true)
    ensures ScanLine(line) == Scanned("", Trim(line, IsSpace), false)
  {
    hide Trim;
    var s := line + ['\n'] + rest;
    IndexOfFirst(line, '\n', rest);
    assert s[..|line|] == line && s[|line| + 1..] == rest;
  }

  /** A line without a colon is skipped. */
  lemma LineSkipped(line: string, rest: string, m: map<string, string>)
    requires ':' !in line && '\n' !in line
    ensures Headers(line + "\n" + rest, m) == Headers(Trim(rest, IsSpace), m) && Headers(line, m) == m
  {
    hide IsSpace, TrimLeft, TrimRight;
    LineScanned(line, rest);
    var a, b := TrimTakes(line, IsSpace);
    assert ':' !in Trim(line, IsSpace) by { NotInMiddle(line, a, Trim(line, IsSpace), b, ':'); }
  }

  lemma NotInMiddle(s: string, a: string, t: string, b: string, c: char)
    requires s == a + t + b && c !in s
    ensures c !in t
  {
  }

  // ---- The player: the status line

  lemma JsSpacesAre(c: char)
    ensures IsJsSpace(c) <==> c as int in {0x09, 0x0A, 0x0B, 0x0C, 0x0D, 0x20, 0xA0, 0x1680,
                                           0x2000, 0x2001, 0x2002, 0x2003, 0x2004, 0x2005, 0x2006, 0x2007,
                                           0x2008, 0x2009, 0x200A, 0x2028, 0x2029, 0x202F, 0x205F, 0x3000, 0xFEFF}
    ensures EndsLine(c) <==> c as int in {0x0A, 0x0D, 0x2028, 0x2029}
  {
  }

  lemma {:induction false} SpacesEnd(s: string, p: nat, q: nat)
    requires p <= q <= |s| && (q == |s| || !IsJsSpace(s[q])) && forall k :: p <= k < q ==> IsJsSpace(s[k])
    ensures SpaceEnd(s, p) == q
    decreases q - p
  {
    if p >= q {
    } else {
      SpacesEnd(s, p + 1, q);
    }
  }

  lemma {:induction false} LineEndAt(s: string, p: nat, q: nat)
    requires p <= q <= |s| && (q == |s| || EndsLine(s[q])) && forall k :: p <= k < q ==> !EndsLine(s[k])
    ensures LineEnd(s, p) == q
    decreases q - p
  {
    if p >= q {
    } else {
      LineEndAt(s, p + 1, q);
    }
  }

  predicate AllSpace(s: string) {
    forall k :: 0 <= k < |s| ==> IsJsSpace(s[k])
  }

  predicate InLine(s: string) {
    forall k :: 0 <= k < |s| ==> !EndsLine(s[k])
  }

  /** A status line, wherever it starts: one character may stand for the dot,
      there may be any white space, and the text goes to the end of its line. */
  lemma StatusLineRead(before: string, dot: char, s1: string, digits: string, s2: string, text: string, rest: string)
    requires 'W' !in before && !EndsLine(dot)
    requires s1 != "" && AllSpace(s1) && digits != "" && AllDigits(digits) && s2 != "" && AllSpace(s2)
    requires text != "" && InLine(text) && !IsJsSpace(text[0]) && (rest == "" || EndsLine(rest[0]))
    ensures Match(before + ("WSP/1" + [dot] + "1" + s1 + digits + s2 + text + rest)) == Some((ParseDecimal(digits), text))
  {
    hide MatchAt;
    StatusLineAt(dot, s1, digits, s2, text, rest);
    LeftmostFrom(before, "WSP/1" + [dot] + "1" + s1 + digits + s2 + text + rest);
  }

  lemma {:induction false} LeftmostFrom(before: string, s: string)
    requires 'W' !in before && MatchAt(s).Some?
    ensures Match(before + s) == MatchAt(s)
  {
    hide MatchAt;
    var t := before + s;
    if before == "" {
      assert t == s;
    } else {
      assert t[1..] == before[1..] + s;
      assert t[0] == before[0] != 'W';
      NoMatchAt(t);
      LeftmostFrom(before[1..], s);
    }
  }

  lemma NoMatchAt(s: string)
    requires !At(s, 0, "WSP/1")
    ensures MatchAt(s).None?
  {
    hide SpaceEnd, DigitEnd, LineEnd, Backtrack;
  }

  /** Without the protocol there is no match. */
  lemma {:induction false} NoMatch(s: string)
    requires forall k :: !At(s, k, "WSP/1")
    ensures Match(s).None?
  {
    hide MatchAt, At;
    NoMatchAt(s);
    if s != "" {
      forall k ensures !At(s[1..], k, "WSP/1") {
        if k >= 0 { AtTail(s, k + 1, "WSP/1"); }
        else { AtNegative(s[1..], k); }
      }
      NoMatch(s[1..]);
    }
  }

  lemma AtNegative(s: string, k: int)
    requires k < 0
    ensures !At(s, k, "WSP/1")
  {
  }

  lemma StatusLineAt(dot: char, s1: string, digits: string, s2: string, text: string, rest: string)
    requires !EndsLine(dot)
    requires s1 != "" && AllSpace(s1) && digits != "" && AllDigits(digits) && s2 != "" && AllSpace(s2)
    requires text != "" && InLine(text) && !IsJsSpace(text[0]) && (rest == "" || EndsLine(rest[0]))
    ensures MatchAt("WSP/1" + [dot] + "1" + s1 + digits + s2 + text + rest) == Some((ParseDecimal(digits), text))
  {
    hide IsJsSpace, EndsLine, ParseDecimal, SpaceEnd, DigitEnd, LineEnd, AllSpace, AllDigits, InLine;
    var head := "WSP/1" + [dot] + "1" + s1 + digits + s2;
    var s := head + text + rest;
    StatusParts(s, dot, s1, digits, s2);
    var d := 7 + |s1| + |digits|;
    TextBehind(s, head, d, text, rest);
  }

  lemma TextBehind(s: string, head: string, d: nat, text: string, rest: string)
    requires s == head + text + rest && d < |head| && forall k :: d <= k < |head| ==> IsJsSpace(s[k])
    requires text != "" && InLine(text) && !IsJsSpace(text[0]) && (rest == "" || EndsLine(rest[0]))
    ensures
      var e, z := |head|, |head| + |text|;
      SpaceEnd(s, d) == e && Backtrack(s, d, e) == e && LineEnd(s, e) == z && s[e..z] == text
  {
    hide IsJsSpace, EndsLine, SpaceEnd, LineEnd;
    var e, z := |head|, |head| + |text|;
    assert s[e] == text[0];
    SpacesEnd(s, d, e);
    forall k | e <= k < z ensures !EndsLine(s[k]) { assert s[k] == text[k - e]; }
    assert z == |s| || s[z] == rest[0];
    LineEndAt(s, e, z);
    assert !EndsLine(s[e]);
  }

  /** The parts of a status line up to the white space behind the code. */
  lemma StatusParts(s: string, dot: char, s1: string, digits: string, s2: string)
    requires s1 != "" && AllSpace(s1) && digits != "" && AllDigits(digits) && s2 != "" && AllSpace(s2)
    requires "WSP/1" + [dot] + "1" + s1 + digits + s2 <= s
    ensures
      var q, d, e := 7 + |s1|, 7 + |s1| + |digits|, 7 + |s1| + |digits| + |s2|;
      && s[..5] == "WSP/1" && s[5] == dot && s[6] == '1' && s[q..d] == digits && e <= |s|
      && SpaceEnd(s, 7) == q && DigitEnd(s, q) == d && forall k :: d <= k < e ==> IsJsSpace(s[k])
  {
    hide IsJsSpace, IsDigit, SpaceEnd, DigitEnd;
    var q, d, e := 7 + |s1|, 7 + |s1| + |digits|, 7 + |s1| + |digits| + |s2|;
    SlicesOf(s, "WSP/1" + [dot] + "1", s1, digits, s2);
    assert s[..7] == "WSP/1" + [dot] + "1";
    forall k | 7 <= k < q ensures IsJsSpace(s[k]) { assert s[k] == s1[k - 7]; }
    forall k | q <= k < d ensures IsDigit(s[k]) { assert s[k] == digits[k - q]; }
    forall k | d <= k < e ensures IsJsSpace(s[k]) { assert s[k] == s2[k - d]; }
    SpaceNoDigit(s[q]);
    SpaceNoDigit(s[d]);
    SpacesEnd(s, 7, q);
    DigitsEnd(s, q, d);
  }

  lemma SlicesOf(s: string, a: string, b: string, c: string, d: string)
    requires a + b + c + d <= s
    ensures var i, j, k := |a| + |b|, |a| + |b| + |c|, |a| + |b| + |c| + |d|;
            k <= |s| && s[..|a|] == a && s[|a|..i] == b && s[i..j] == c && s[j..k] == d
  {
  }

  lemma SpaceNoDigit(c: char)
    ensures !(IsJsSpace(c) && IsDigit(c))
  {
  }

  /** With nothing but white space behind the code, the text is its last character
      that does not end a line, if there is another one in front of it. */
  lemma BlankText(dot: char, s1: string, digits: string, s2: string, x: char, u: string)
    requires !EndsLine(dot)
    requires s1 != "" && AllSpace(s1) && digits != "" && AllDigits(digits) && s2 != "" && AllSpace(s2)
    requires IsJsSpace(x) && !EndsLine(x) && forall k :: 0 <= k < |u| ==> EndsLine(u[k])
    ensures MatchAt("WSP/1" + [dot] + "1" + s1 + digits + (s2 + [x] + u)) == Some((ParseDecimal(digits), [x]))
  {
    hide ParseDecimal, SpaceEnd, DigitEnd, LineEnd, Backtrack, IsJsSpace, EndsLine, AllSpace;
    var s3 := s2 + [x] + u;
    var s := "WSP/1" + [dot] + "1" + s1 + digits + s3;
    SpaceBehind(s2, x, u);
    StatusParts(s, dot, s1, digits, s3);
    var d := 7 + |s1| + |digits|;
    assert s[d..] == s3;
    TextOfSpaces(s, d, |s2|, x, u);
    assert s[d + |s2|..d + |s2| + 1] == [x];
  }

  lemma SpaceBehind(s2: string, x: char, u: string)
    requires AllSpace(s2) && IsJsSpace(x) && forall k :: 0 <= k < |u| ==> EndsLine(u[k])
    ensures AllSpace(s2 + [x] + u)
  {
    forall k | 0 <= k < |u| ensures IsJsSpace(u[k]) { EndIsSpace(u[k]); }
    hide IsJsSpace;
  }

  lemma EndIsSpace(c: char)
    requires EndsLine(c)
    ensures IsJsSpace(c)
  {
  }

  lemma TextOfSpaces(s: string, d: nat, n: nat, x: char, u: string)
    requires d <= |s| && n > 0 && d + n + 1 <= |s| && s[d + n] == x && s[d + n + 1..] == u
    requires forall k :: d <= k < |s| ==> IsJsSpace(s[k])
    requires !EndsLine(x) && forall k :: 0 <= k < |u| ==> EndsLine(u[k])
    ensures SpaceEnd(s, d) == |s| && Backtrack(s, d, |s|) == d + n && LineEnd(s, d + n) == d + n + 1
  {
    hide SpaceEnd, LineEnd, Backtrack, IsJsSpace, EndsLine;
    SpacesEnd(s, d, |s|);
    forall k | d + n < k < |s| ensures EndsLine(s[k]) { assert s[k] == u[k - d - n - 1]; }
    BacktracksTo(s, d, d + n, |s|);
    LineEndAt(s, d + n, d + n + 1);
  }

  lemma {:induction false} BacktracksTo(s: string, low: nat, m: nat, p: nat)
    requires low < m < p <= |s| && !EndsLine(s[m])
    requires p < |s| ==> EndsLine(s[p])
    requires forall k :: m < k < p ==> EndsLine(s[k])
    ensures Backtrack(s, low, p) == m
    decreases p
  {
    if p > m + 1 {
      BacktracksTo(s, low, m, p - 1);
    } else {
      assert Backtrack(s, low, m) == m;
    }
  }

  // ---- The player: fields

  /** An answer without a blank line anywhere is not taken for one. */
  lemma NoBlankLineNoAnswer(data: string)
    requires forall k :: !At(data, k, "\r\n\r\n")
    ensures Parse(data) == Ok(None)
  {
    hide Match, DataOf;
    BlankLineFirst(data);
    SplitAtBreaks("");
    assert SplitLines("") == [""];
    NoMatch("") by {
      forall k ensures !At("", k, "WSP/1") { }
    }
  }

  /** Nor is one whose first line does not have the protocol in it. */
  lemma OtherFirstLine(first: string, rest: seq<string>, body: string)
    requires IsLine(first) && AllLines(rest) && forall k :: !At(first, k, "WSP/1")
    ensures Parse(Joined([first] + rest) + "\r\n\r\n" + body) == Ok(None)
  {
    hide Match, DataOf, Joined, SplitLines, BlankLine, IsLine, NoBlankLine;
    var head := Joined([first] + rest);
    var data := head + "\r\n\r\n" + body;
    JoinedNoBlank([first] + rest);
    BlankLineAfter(head, body);
    SplitJoined([first] + rest);
    assert data[..|head|] == head;
    NoMatch(first);
  }

  /** A field ends at a second colon, and white space around its name and its value
      goes; one name cannot be assigned. */
  lemma FieldAssigned(k: string, v: string, more: string, lines: seq<string>, m: map<string, string>)
    requires ':' !in k && ':' !in v && (more == "" || more[0] == ':')
    ensures
      var name, value := Trim(k, IsJsSpace), Trim(v, IsJsSpace);
      DataOf([k + ":" + v + more] + lines, m) == DataOf(lines, if name == "__proto__" then m else m[name := value])
  {
    hide Trim, IsJsSpace;
    var line := k + ":" + v + more;
    assert line == k + [':'] + (v + more);
    IndexOfFirst(k, ':', v + more);
    assert line[..|k|] == k && line[|k| + 1..] == v + more;
    if more == "" {
      assert v + more == v;
    } else {
      assert v + more == v + [':'] + more[1..];
      IndexOfFirst(v, ':', more[1..]);
      assert (v + more)[..|v|] == v;
    }
    assert ([line] + lines)[1..] == lines;
  }

  /** A line without a colon throws, and an empty one ends the fields. */
  lemma OtherLines(line: string, lines: seq<string>, m: map<string, string>)
    requires ':' !in line
    ensures line != "" ==> DataOf([line] + lines, m) == Panic
    ensures line == "" ==> DataOf([line] + lines, m) == Ok(m)
    ensures DataOf([], m) == Ok(m)
  {
  }
}
