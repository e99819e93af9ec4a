/** The two sides of the WSP protocol understand each other. */
module WspRoundTrip {
  import opened Wrappers
  import opened Text
  import opened Scanner
  import opened Wsp
  import opened WspPlayer

  predicate OneLine(s: string) {
    '\r' !in s && '\n' !in s
  }

  /** A field that can be printed on a line of its own. */
  predicate IsField(f: (string, string)) {
    OneLine(f.0) && OneLine(f.1) && ':' !in f.0
  }

  /** A field that the server reads as it was. */
  predicate Stable(f: (string, string)) {
    IsField(f) && Trimmed(f.0, IsSpaceOrQuote) && Trimmed(f.1, IsSpaceOrQuote)
  }

  predicate AllStable(fs: Fields) {
    forall i :: 0 <= i < |fs| ==> Stable(fs[i])
  }

  // ---- Messages as lines

  lemma {:induction false} PrintedHead(fs: Fields)
    requires fs != []
    ensures Printed(fs) == Line(fs[0]) + CRLF + Printed(fs[1..])
  {
    hide Line, Printed;
    var n := |fs| - 1;
    PrintedLast(fs);
    if n == 0 {
      assert fs[..0] == fs[1..] == [];
      NothingPrinted();
      assert "" + Line(fs[0]) + CRLF == Line(fs[0]) + CRLF + "";
    } else {
      PrintedHead(fs[..n]);
      PrintedLast(fs[1..]);
      assert fs[..n][1..] == fs[1..][..n - 1];
      Regroup(Line(fs[0]), CRLF, Printed(fs[1..n]), Line(fs[n]));
    }
  }

  lemma PrintedLast(fs: Fields)
    requires fs != []
    ensures Printed(fs) == Printed(fs[..|fs| - 1]) + Line(fs[|fs| - 1]) + CRLF
  {
  }

  lemma Regroup(a: string, b: string, m: string, z: string)
    ensures a + b + m + z + b == a + b + (m + z + b)
  {
  }

  lemma {:induction false} PrintedJoined(fs: Fields)
    requires fs != []
    ensures Printed(fs) == Joined(LinesOf(fs)) + CRLF
    decreases |fs|
  {
    PrintedHead(fs);
    if |fs| <= 1 {
    } else {
      PrintedJoined(fs[1..]);
      assert LinesOf(fs)[1..] == LinesOf(fs[1..]);
    }
  }

  lemma {:induction false} LinesAre(fs: Fields)
    requires forall i :: 0 <= i < |fs| ==> IsField(fs[i])
    ensures AllLines(LinesOf(fs)) && |LinesOf(fs)| == |fs|
  {
    if fs == [] {
    } else {
      LinesAre(fs[1..]);
      LineIs(fs[0]);
    }
  }

  lemma LineIs(f: (string, string))
    requires IsField(f)
    ensures IsLine(Line(f))
  {
  }

  lemma JoinedCons(first: string, lines: seq<string>)
    requires lines != []
    ensures Joined([first] + lines) == first + CRLF + Joined(lines)
  {
    assert ([first] + lines)[1..] == lines;
  }

  /** The blank line of a message is behind its fields, whatever the body is. */
  lemma MessageParts(first: string, fs: Fields, body: string)
    requires IsLine(first) && fs != [] && forall i :: 0 <= i < |fs| ==> IsField(fs[i])
    ensures
      var head := Joined([first] + LinesOf(fs));
      && Message(first, fs, body) == head + "\r\n\r\n" + body
      && BlankLine(Message(first, fs, body)) == |head|
      && head == first + CRLF + Joined(LinesOf(fs))
      && SplitLines(head) == [first] + LinesOf(fs)
  {
    hide Joined, LinesOf, Printed, SplitLines, BlankLine, NoBlankLine;
    LinesAre(fs);
    var lines := [first] + LinesOf(fs);
    assert |lines| > 1 && lines[1..] == LinesOf(fs) && lines[0] == first;
    var head := Joined(lines);
    JoinedCons(first, LinesOf(fs));
    PrintedJoined(fs);
    MessageIs(first, Joined(LinesOf(fs)), body);
    JoinedNoBlank(lines);
    BlankLineAfter(head, body);
    SplitJoined(lines);
  }

  lemma MessageIs(first: string, rest: string, body: string)
    ensures first + CRLF + (rest + CRLF) + CRLF + body == (first + CRLF + rest) + "\r\n\r\n" + body
  {
    assert CRLF + CRLF == "\r\n\r\n";
  }

  /** Numbering a request keeps its fields as good as they were. */
  lemma WithSeqKeeps(fs: Fields, seq0: nat, gs: Fields, seq1: nat)
    requires Keyed(fs) && AllStable(fs) && WithSeq(fs, seq0, gs, seq1)
    ensures gs != [] && Keyed(gs) && AllStable(gs) && HasKey(gs, "seq")
  {
    assert Stable(("seq", Decimal(seq1))) by { DecimalStable(seq1); }
    if HasKey(fs, "seq") {
      var i :| 0 <= i < |fs| && fs[i].0 == "seq";
      assert gs[i].0 == "seq";
    } else {
      assert gs[|fs|].0 == "seq";
    }
  }

  lemma DecimalStable(n: nat)
    ensures OneLine(Decimal(n)) && ':' !in Decimal(n)
    ensures Trimmed(Decimal(n), IsSpaceOrQuote) && Trimmed(Decimal(n), IsJsSpace)
  {
    var s := Decimal(n);
    assert IsDigit(s[0]) && IsDigit(s[|s| - 1]);
  }

  // ---- From the player to the server

  lemma NoSpaceFirst(k: string)
    requires Trimmed(k, IsSpaceOrQuote)
    ensures !IsSpace(':') && (k != "" ==> !IsSpace(k[0]))
  {
  }

  lemma NothingToTrim(s: string, f: char -> bool)
    requires s == "" || !f(s[|s| - 1])
    ensures TrimRight(s, f) == s
  {
  }

  lemma ValueReads(v: string)
    requires Trimmed(v, IsSpaceOrQuote)
    ensures Trim(TrimRight(" " + v, IsSpace), IsSpaceOrQuote) == v
  {
    var s := " " + v;
    if v == "" {
      assert s[..0] == "";
      assert TrimRight(s, IsSpace) == "";
    } else {
      assert s[|s| - 1] == v[|v| - 1];
      assert TrimRight(s, IsSpace) == s && s[1..] == v;
      assert TrimLeft(s, IsSpaceOrQuote) == TrimLeft(v, IsSpaceOrQuote) == v;
    }
  }

  /** A line, with white space trimmed from its end, reads as its field. */
  lemma LineReads(f: (string, string))
    requires Stable(f)
    ensures
      var t := TrimRight(Line(f), IsSpace);
      && ScanColonPair(t) == Pair(f.0, f.1, true)
      && t != "" && !IsSpace(t[0]) && '\n' !in t && t[0] == Line(f)[0]
  {
    hide IsSpace, TrimRight, Trim;
    var k, v := f.0, f.1;
    var t := TrimRight(Line(f), IsSpace);
    var x := TrimRight(" " + v, IsSpace);
    assert Line(f) == (k + ":") + (" " + v);
    NoSpaceFirst(k);
    TrimRightAfter(k + ":", " " + v, IsSpace);
    assert t == k + [':'] + x;
    IndexOfFirst(k, ':', x);
    assert t[..|k|] == k && t[|k| + 1..] == x;
    TrimTrimmed(k, IsSpaceOrQuote);
    ValueReads(v);
    assert x <= " " + v && '\n' !in " " + v;
  }

  lemma MapOfNone()
    ensures MapOf([]) == map[]
  {
  }

  lemma {:induction false} MapOfHead(fs: Fields)
    requires fs != []
    ensures MapOf(fs) == map[fs[0].0 := fs[0].1] + MapOf(fs[1..])
  {
    if |fs| > 1 {
      MapOfHead(fs[..|fs| - 1]);
      assert fs[..|fs| - 1][1..] == fs[1..][..|fs| - 2];
    } else {
      assert fs[..0] == [];
    }
  }

  lemma JoinedStart(fs: Fields)
    requires fs != [] && AllStable(fs)
    ensures
      var r := TrimRight(Joined(LinesOf(fs)), IsSpace);
      Joined(LinesOf(fs)) != "" && r != "" && !IsSpace(r[0]) && Trim(Joined(LinesOf(fs)), IsSpace) == r
  {
    var s := Joined(LinesOf(fs));
    LineReads(fs[0]);
    var t := TrimRight(Line(fs[0]), IsSpace);
    assert Line(fs[0]) <= s;
    assert s[0] == t[0];
    TrimRightKeeps(s, IsSpace);
  }

  lemma TrimTwice(s: string, f: char -> bool)
    requires s == "" || !f(s[0])
    ensures Trim(s, f) == TrimRight(s, f) && Trim(TrimRight(s, f), f) == TrimRight(s, f)
  {
  }

  lemma HeadersStep(s: string, m: map<string, string>, l: Scanned, k: string, v: string)
    requires l == ScanLine(s) && ScanColonPair(l.token) == Pair(k, v, true)
    ensures Headers(s, m) == if l.more then Headers(l.advance, m[k := v]) else m[k := v]
  {
  }

  lemma ScanLast(s: string)
    requires '\n' !in s
    ensures ScanLine(s) == Scanned("", Trim(s, IsSpace), false)
  {
  }

  /** The first of several lines is scanned off. */
  lemma ScanFirst(line: string, r: string)
    requires line != "" && !IsSpace(line[0]) && '\n' !in line && r != "" && !IsSpace(r[0])
    ensures ScanLine(line + CRLF + TrimRight(r, IsSpace)) == Scanned(TrimRight(r, IsSpace), TrimRight(line, IsSpace), true)
  {
    hide IsSpace, TrimRight;
    var u := TrimRight(r, IsSpace);
    var s := line + CRLF + u;
    assert s == (line + "\r") + ['\n'] + u;
    IndexOfFirst(line + "\r", '\n', u);
    assert s[..|line| + 1] == line + "\r" && s[|line| + 2..] == u;
    TrimBreak(line);
    TrimTwice(r, IsSpace);
  }

  lemma {:induction false} HeadersRead(fs: Fields, m: map<string, string>)
    requires fs != [] && AllStable(fs)
    ensures Headers(TrimRight(Joined(LinesOf(fs)), IsSpace), m) == m + MapOf(fs)
    decreases |fs|
  {
    hide IsSpace, TrimRight, Trim, ScanLine, ScanColonPair, Headers, MapOf, Line;
    var f, rest := fs[0], fs[1..];
    var line := Line(f);
    var s := TrimRight(Joined(LinesOf(fs)), IsSpace);
    LineReads(f);
    MapOfHead(fs);
    if rest == [] {
      assert Joined(LinesOf(fs)) == line;
      TrimTwice(line, IsSpace);
      ScanLast(s);
      HeadersStep(s, m, ScanLine(s), f.0, f.1);
      MapOfNone();
    } else {
      var r := Joined(LinesOf(rest));
      assert Joined(LinesOf(fs)) == line + CRLF + r by { assert LinesOf(fs)[1..] == LinesOf(rest); }
      JoinedStart(rest);
      TrimRightAfter(line + CRLF, r, IsSpace);
      LineIs(f);
      ScanFirst(line, r);
      HeadersStep(s, m, ScanLine(s), f.0, f.1);
      HeadersRead(rest, m[f.0 := f.1]);
    }
    MergeHead(m, f.0, f.1, MapOf(rest));
  }

  lemma MergeHead(m: map<string, string>, k: string, v: string, n: map<string, string>)
    ensures m[k := v] + n == m + (map[k := v] + n)
  {
  }

  lemma TrimBreak(line: string)
    requires line == "" || !IsSpace(line[0])
    ensures Trim(line + "\r", IsSpace) == TrimRight(line, IsSpace)
  {
    assert (line + "\r")[..|line|] == line;
    TrimTwice(line, IsSpace);
    if line == "" { assert "\r"[1..] == ""; }
  }

  /** Whatever the player asks with a valid command and well-formed fields, the
      server takes in with the same command, fields and body. */
  lemma RequestRoundTrip(cmd: string, fs: Fields, body: string)
    requires ValidCmd(cmd) && fs != [] && AllStable(fs)
    ensures Decode(Message(WSP_PROTO + " " + cmd, fs, body)) == Accepted(Request(cmd, MapOf(fs), body))
  {
    hide Joined, LinesOf, Headers, MapOf, IsSpace, TrimRight, Trim, Message, ValidCmd, ScanPair;
    FirstLineReads(cmd);
    var first := WSP_PROTO + " " + cmd;
    MessageParts(first, fs, body);
    var input := Message(first, fs, body);
    var r := Joined(LinesOf(fs));
    var head := input[..BlankLine(input)];
    assert head == first + CRLF + r == (first + "\r") + ['\n'] + r;
    IndexOfFirst(first + "\r", '\n', r);
    assert head[..|first| + 1] == first + "\r" && head[|first| + 2..] == r;
    JoinedStart(fs);
    HeadersRead(fs, map[]);
    assert map[] + MapOf(fs) == MapOf(fs);
  }

  lemma FirstLineReads(cmd: string)
    requires ValidCmd(cmd)
    ensures var first := WSP_PROTO + " " + cmd;
            && IsLine(first) && !IsSpace(first[0]) && Trim(first + "\r", IsSpace) == first
            && ScanPair(first, ' ', IsSpace) == Pair(WSP_PROTO, cmd, true)
  {
    hide TrimRight, Trim, ValidCmd, IsSpace, ScanPair;
    var first := WSP_PROTO + " " + cmd;
    CmdFacts(cmd);
    assert first[|first| - 1] == cmd[|cmd| - 1] && first[0] == WSP_PROTO[0];
    TrimBreak(first);
    NothingToTrim(first, IsSpace);
    SpacePair(WSP_PROTO, cmd);
  }

  lemma CmdFacts(cmd: string)
    requires ValidCmd(cmd)
    ensures IsLine(cmd) && Trimmed(cmd, IsSpace) && !IsSpace(cmd[|cmd| - 1])
    ensures IsLine(WSP_PROTO) && Trimmed(WSP_PROTO, IsSpace) && !IsSpace(WSP_PROTO[0]) && ' ' !in WSP_PROTO
  {
  }

  /** Two words with a space between them. */
  lemma SpacePair(a: string, b: string)
    requires ' ' !in a && Trimmed(a, IsSpace) && Trimmed(b, IsSpace)
    ensures ScanPair(a + " " + b, ' ', IsSpace) == Pair(a, b, true)
  {
    hide TrimRight, Trim, IsSpace;
    var s := a + [' '] + b;
    IndexOfFirst(a, ' ', b);
    assert s[..|a|] == a && s[|a| + 1..] == b;
    TrimTrimmed(a, IsSpace);
    TrimTrimmed(b, IsSpace);
  }

  // ---- From the server to the player

  /** What the player makes of a value: it ends at the first colon. */
  function Seen(v: string): string {
    Trim(Before(v, ':'), IsJsSpace)
  }

  /** A value arrives as it was sent iff it has no colon and no white space
      around it. */
  lemma SeenUnchanged(v: string)
    ensures Seen(v) == v <==> ':' !in v && Trimmed(v, IsJsSpace)
  {
    TrimTrimmed(v, IsJsSpace);
    TrimLonger(Before(v, ':'), IsJsSpace);
  }

  /** All fields as the player sees them; one name cannot be assigned. */
  ghost function SeenAll(h: map<string, string>): map<string, string> {
    map k | k in h && k != "__proto__" :: Seen(h[k])
  }

  lemma TrimBlankBefore(x: string)
    ensures Trim(" " + x, IsJsSpace) == Trim(x, IsJsSpace)
  {
    assert (" " + x)[1..] == x;
  }

  lemma LineParts(f: (string, string))
    requires IsField(f)
    ensures
      var l, i := Line(f), IndexOf(Line(f), ':');
      l != "" && i >= 0 && l[..i] == f.0 && Trim(Before(l[i + 1..], ':'), IsJsSpace) == Seen(f.1)
  {
    hide Trim, IsJsSpace;
    var v := f.1;
    var l := Line(f);
    assert l == f.0 + [':'] + (" " + v);
    IndexOfFirst(f.0, ':', " " + v);
    assert l[..|f.0|] == f.0 && l[|f.0| + 1..] == " " + v;
    assert (" " + v)[1..] == v;
    assert Before(" " + v, ':') == " " + Before(v, ':');
    TrimBlankBefore(Before(v, ':'));
  }

  lemma SeenHead(m: map<string, string>, k: string, v: string, n: map<string, string>)
    ensures Assign(m, k, Seen(v)) + SeenAll(n) == m + SeenAll(map[k := v] + n)
  {
    hide Seen;
    var a, b := Assign(m, k, Seen(v)) + SeenAll(n), m + SeenAll(map[k := v] + n);
    forall j ensures (j in a <==> j in b) && (j in a ==> a[j] == b[j]) {
    }
  }

  lemma SeenNone(m: map<string, string>)
    ensures m + SeenAll(MapOf([])) == m
  {
  }

  lemma SeenAt(h: map<string, string>, k: string)
    requires k in h && k != "__proto__"
    ensures k in SeenAll(h) && SeenAll(h)[k] == Seen(h[k])
  {
  }

  lemma {:induction false} DataRead(fs: Fields, m: map<string, string>)
    requires forall i :: 0 <= i < |fs| ==> IsField(fs[i]) && Trimmed(fs[i].0, IsJsSpace)
    ensures DataOf(LinesOf(fs), m) == Ok(m + SeenAll(MapOf(fs)))
    decreases |fs|
  {
    hide Trim, Line, Seen, SeenAll, MapOf;
    if fs == [] {
      SeenNone(m);
    } else {
      var f, rest := fs[0], fs[1..];
      LineParts(f);
      TrimTrimmed(f.0, IsJsSpace);
      MapOfHead(fs);
      SeenHead(m, f.0, f.1, MapOf(rest));
      DataRead(rest, Assign(m, f.0, Seen(f.1)));
      assert LinesOf(fs)[1..] == LinesOf(rest);
    }
  }

  /** A status text that the player's pattern takes in whole. */
  predicate IsStatusText(t: string) {
    t != "" && !IsJsSpace(t[0]) && forall k :: 0 <= k < |t| ==> !EndsLine(t[k])
  }

  lemma {:induction false} DigitsEnd(s: string, p: nat, q: nat)
    requires p <= q < |s| && !IsDigit(s[q]) && forall k :: p <= k < q ==> IsDigit(s[k])
    ensures DigitEnd(s, p) == q
    decreases q - p
  {
    if p >= q {
    } else {
      DigitsEnd(s, p + 1, q);
    }
  }

  lemma {:induction false} LineEndsLast(s: string, p: nat)
    requires p <= |s| && forall k :: p <= k < |s| ==> !EndsLine(s[k])
    ensures LineEnd(s, p) == |s|
    decreases |s| - p
  {
    if p >= |s| {
    } else {
      LineEndsLast(s, p + 1);
    }
  }

  lemma JsSpaces()
    ensures IsJsSpace(' ') && !IsJsSpace('s') && !IsJsSpace('q') && !EndsLine('.')
    ensures forall c: char :: IsDigit(c) ==> !IsJsSpace(c)
  {
  }

  lemma StatusReads(code: nat, text: string)
    requires IsStatusText(text)
    ensures Match(StatusLine(code, text)) == Some((code, text)) && IsLine(StatusLine(code, text))
  {
    hide IsJsSpace, LineEnd, DigitEnd, EndsLine, ParseDecimal, Decimal;
    var digits := Decimal(code);
    var s := StatusLine(code, text);
    var d := 8 + |digits|;
    assert s == "WSP/1" + ".1 " + digits + " " + text;
    assert s[..5] == "WSP/1" && s[8..d] == digits && s[d] == ' ' && s[d + 1..] == text;
    JsSpaces();
    forall k | 8 <= k < d ensures IsDigit(s[k]) { assert s[k] == digits[k - 8]; }
    DigitsEnd(s, 8, d);
    assert s[d + 1] == text[0];
    assert SpaceEnd(s, 7) == 8 && SpaceEnd(s, d) == d + 1;
    assert Backtrack(s, d, d + 1) == d + 1;
    forall k | d + 1 <= k < |s| ensures !EndsLine(s[k]) { assert s[k] == text[k - d - 1]; }
    LineEndsLast(s, d + 1);
    assert s[d + 1..|s|] == text;
    DecimalRoundTrip(code);
    StatusIsLine(code, text);
  }

  lemma StatusIsLine(code: nat, text: string)
    requires IsStatusText(text)
    ensures IsLine(StatusLine(code, text))
  {
    assert '\r' !in Decimal(code) && '\n' !in Decimal(code);
    assert '\r' !in text && '\n' !in text;
  }

  lemma ListedSome(h: map<string, string>, order: Fields)
    requires h != map[] && Lists(order, h)
    ensures order != []
  {
    var k :| k in h;
    assert (k, h[k]) in order;
  }

  /** In whatever order the server prints its header, the player reads the same:
      the code, the text, the payload and each value up to a colon. */
  lemma ResponseRoundTrip(code: nat, text: string, header: map<string, string>, order: Fields, payload: string)
    requires IsStatusText(text) && header != map[] && Lists(order, header)
    requires forall k :: k in header ==> IsField((k, header[k])) && Trimmed(k, IsJsSpace)
    ensures Parse(Message(StatusLine(code, text), order, payload))
         == Ok(Some(Response(code, text, SeenAll(header), payload)))
  {
    hide Match, DataOf, Seen, SeenAll, MapOf, LinesOf, Message, Joined, StatusLine, IsJsSpace;
    StatusReads(code, text);
    assert order != [] by { ListedSome(header, order); }
    assert forall i :: 0 <= i < |order| ==> order[i] == (order[i].0, header[order[i].0]);
    var first := StatusLine(code, text);
    MessageParts(first, order, payload);
    ListsMapOf(order, header);
    DataRead(order, map[]);
    assert map[] + SeenAll(header) == SeenAll(header);
    var data, head := Message(first, order, payload), Joined([first] + LinesOf(order));
    assert data[..|head|] == head && data[|head| + 4..] == payload;
    assert ([first] + LinesOf(order))[1..] == LinesOf(order);
  }

  /** The answer to a request carries the number the player gave it. */
  lemma SeqEchoed(cmd: string, fs: Fields, body: string, n: nat, code: nat, text: string, header: map<string, string>,
                  order: Fields, payload: string)
    requires ValidCmd(cmd) && AllStable(fs) && Keyed(fs) && ("seq", Decimal(n)) in fs
    requires IsStatusText(text)
    requires forall k :: k in header ==> IsField((k, header[k])) && Trimmed(k, IsJsSpace)
    requires var asked := Decode(Message(WSP_PROTO + " " + cmd, fs, body));
             asked.Accepted? && "seq" in asked.request.header
             && Lists(order, header["seq" := asked.request.header["seq"]])
    ensures var answer := Parse(Message(StatusLine(code, text), order, payload));
            && answer.Ok? && answer.value.Some? && "seq" in answer.value.value.data
            && answer.value.value.data["seq"] == Decimal(n)
  {
    hide Decode, Parse, IsJsSpace, IsSpace, Message, Joined, LinesOf, MapOf, Lists, StatusLine, SeenAll, Decimal;
    RequestRoundTrip(cmd, fs, body);
    MapOfAt(fs, "seq", Decimal(n));
    DecimalStable(n);
    var h := header["seq" := Decimal(n)];
    JsSpaces();
    assert OneLine("seq") && ':' !in "seq" && Trimmed("seq", IsJsSpace);
    assert "seq" in h;
    ResponseRoundTrip(code, text, h, order, payload);
    SeenUnchanged(Decimal(n));
    SeenAt(h, "seq");
  }

  lemma {:induction false} MapOfAt(fs: Fields, k: string, v: string)
    requires Keyed(fs) && (k, v) in fs
    ensures k in MapOf(fs) && MapOf(fs)[k] == v
  {
    var last, rest := fs[|fs| - 1], fs[..|fs| - 1];
    assert fs == rest + [last];
    if last.0 == k {
      var i :| 0 <= i < |fs| && fs[i] == (k, v);
      assert i == |fs| - 1;
    } else {
      MapOfAt(rest, k, v);
    }
  }
}
