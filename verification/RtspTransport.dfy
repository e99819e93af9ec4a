/** The Transport header of RTSP (section 12.39 of RFC 2326) as the server reads it. */
module RtspTransport {
  import opened Text
  import opened Scanner

  datatype TransportType = UnknownTrans | TcpUnicast | UdpUnicast | Multicast

  datatype SessionMode = UnknownSession | PlaySession | RecordSession

  const CHANNEL_COUNT := 4

  type PerChannel = s: seq<int> | |s| == 4 witness [0, 0, 0, 0]

  datatype Settings = Settings(mode: SessionMode, append: bool, kind: TransportType,
                               channels: PerChannel, clientPorts: PerChannel, serverPorts: PerChannel,
                               ports: PerChannel, multicastIP: string, ttl: int, source: string)

  // ---- Numbers and ranges

  const MAX_INT := 0x7fff_ffff_ffff_ffff

  /** strconv.Atoi: the number, clamped to 64 bits, and whether it is one. */
  function Atoi(s: string): (int, bool) {
    var signed := s != "" && (s[0] == '-' || s[0] == '+');
    var digits := if signed then s[1..] else s;
    if digits == "" || !AllDigits(digits) then (0, false)
    else
      var n: int := ParseDecimal(digits);
      if signed && s[0] == '-' then if n > MAX_INT + 1 then (-MAX_INT - 1, false) else (0 - n, true)
      else if n > MAX_INT then (MAX_INT, false) else (n, true)
  }

  function AtoiOr(s: string, other: int): int {
    if s != "" && Atoi(s).1 then Atoi(s).0 else other
  }

  /** Both ends of a range; one that is missing or no number is -1. */
  method ParseRange(p: string) returns (begin: int, end: int)
    ensures (begin, end) == RangeOf(p)
  {
    begin, end := -1, -1;
    var s1, s2 := p, "";
    var index := IndexOf(p, '-');
    if index >= 0 {
      s1, s2 := Trim(p[..index], IsSpace), Trim(p[index + 1..], IsSpace);
    }
    if |s1| > 0 {
      var n := Atoi(s1);
      begin := if n.1 then n.0 else -1;
    }
    if |s2| > 0 {
      var n := Atoi(s2);
      end := if n.1 then n.0 else -1;
    }
  }

  function RangeOf(p: string): (int, int) {
    var i := IndexOf(p, '-');
    if i < 0 then (AtoiOr(p, -1), -1)
    else (AtoiOr(Trim(p[..i], IsSpace), -1), AtoiOr(Trim(p[i + 1..], IsSpace), -1))
  }

  lemma DecimalAtoi(n: nat)
    requires n <= MAX_INT
    ensures Atoi(Decimal(n)) == (n, true)
  {
    assert IsDigit(Decimal(n)[0]);
    DecimalRoundTrip(n);
  }

  lemma DecimalTrimmed(n: nat)
    ensures Trim(Decimal(n), IsSpace) == Decimal(n) && '-' !in Decimal(n)
    ensures !IsSpaceOrQuote(Decimal(n)[0]) && !IsSpaceOrQuote(Decimal(n)[|Decimal(n)| - 1])
  {
    var s := Decimal(n);
    assert IsDigit(s[0]) && IsDigit(s[|s| - 1]);
    TrimTrimmed(s, IsSpace);
  }

  function PrintRange(a: nat, b: nat): string {
    Decimal(a) + "-" + Decimal(b)
  }

  lemma RangeRoundTrip(a: nat, b: nat)
    requires a <= MAX_INT && b <= MAX_INT
    ensures RangeOf(PrintRange(a, b)) == (a, b)
  {
    hide Trim, Atoi, Decimal;
    var p := PrintRange(a, b);
    DecimalTrimmed(a);
    DecimalTrimmed(b);
    assert p == Decimal(a) + ['-'] + Decimal(b);
    IndexOfFirst(Decimal(a), '-', Decimal(b));
    assert p[..|Decimal(a)|] == Decimal(a) && p[|Decimal(a)| + 1..] == Decimal(b);
    DecimalAtoi(a);
    DecimalAtoi(b);
  }

  // ---- The parameters

  function Pair2(s: PerChannel, i: nat, r: (int, int)): PerChannel
    requires i + 1 < CHANNEL_COUNT
  {
    s[i := r.0][i + 1 := r.1]
  }

  datatype Param = Mode | Interleaved | ClientPort | ServerPort | Port | Destination | Source | Ttl | OtherParam

  function ParamOf(key: string): Param {
    if key == "mode" then Mode
    else if key == "interleaved" then Interleaved
    else if key == "client_port" then ClientPort
    else if key == "server_port" then ServerPort
    else if key == "port" then Port
    else if key == "destination" then Destination
    else if key == "source" then Source
    else if key == "ttl" then Ttl
    else OtherParam
  }

  /** The settings after one parameter, and whether it is well-formed. */
  function ApplyPair(t: Settings, i: nat, param: Param, v: string): (Settings, bool)
    requires i + 1 < CHANNEL_COUNT
  {
    var r := RangeOf(v);
    match param
    case Mode => (t.(mode := if v == "record" then RecordSession else PlaySession), true)
    case Interleaved =>
      var c1 := if r.0 >= 0 then t.channels[i := r.0] else t.channels;
      var c2 := if r.1 >= 0 then c1[i + 1 := r.1] else c1;
      (t.(channels := c2), r.0 >= 0)
    case ClientPort => (t.(clientPorts := Pair2(t.clientPorts, i, r)), r.0 >= 0)
    case ServerPort => (t.(serverPorts := Pair2(t.serverPorts, i, r)), r.0 >= 0)
    case Port => (t.(ports := Pair2(t.ports, i, r)), r.0 >= 0)
    case Destination => (t.(multicastIP := v), true)
    case Source => (t.(source := v), true)
    case Ttl => (t.(ttl := Atoi(v).0), true)
    case OtherParam => (t, true)
  }

  /** The same for a token as it stands in the header. */
  function Apply(t: Settings, i: nat, token: string): (Settings, bool)
    requires i + 1 < CHANNEL_COUNT
  {
    if token == "unicast" && t.kind == Multicast then (t.(kind := UdpUnicast), true)
    else if token == "multicast" && t.kind == TcpUnicast then (t, false)
    else if token == "append" then (t.(append := true), true)
    else
      var p := ScanEqualPair(token);
      ApplyPair(t, i, ParamOf(p.key), p.value)
  }

  function Tokens(s: string): seq<string>
    decreases |s|
  {
    ScanShrinks(s, ';', IsSpace);
    var r := ScanSemicolon(s);
    [r.token] + if r.more then Tokens(r.advance) else []
  }

  /** All parameters are applied, well-formed or not. */
  function ApplyAll(t: Settings, i: nat, tokens: seq<string>, ok: bool): (Settings, bool)
    requires i + 1 < CHANNEL_COUNT
    decreases |tokens|
  {
    if tokens == [] then (t, ok)
    else
      var a := Apply(t, i, tokens[0]);
      ApplyAll(a.0, i, tokens[1..], ok && a.1)
  }

  function WithMode(t: Settings): Settings {
    if t.mode == UnknownSession then t.(mode := PlaySession) else t
  }

  function KindOf(spec: string): TransportType {
    if spec == "RTP/AVP/TCP" then TcpUnicast
    else if spec == "RTP/AVP" || spec == "RTP/AVP/UDP" then Multicast
    else UnknownTrans
  }

  function Parsed(t: Settings, i: nat, ts: string): (Settings, bool)
    requires i + 1 < CHANNEL_COUNT
  {
    var j := IndexOf(ts, ';');
    if j < 0 || KindOf(Trim(ts[..j], IsSpace)) == UnknownTrans then (WithMode(t), false)
    else ApplyAll(WithMode(t).(kind := KindOf(Trim(ts[..j], IsSpace))), i, Tokens(ts[j + 1..]), true)
  }

  /** The settings are changed by a malformed header as well. */
  method ParseTransport(t0: Settings, rtpType: nat, ts: string) returns (t: Settings, ok: bool)
    requires rtpType + 1 < CHANNEL_COUNT
    ensures (t, ok) == Parsed(t0, rtpType, ts)
  {
    hide ApplyAll, Apply, Tokens, Scan;
    t := t0;
    if t.mode == UnknownSession {
      t := t.(mode := PlaySession);
    }
    var index := IndexOf(ts, ';');
    if index < 0 { return t, false; }
    var spec := Trim(ts[..index], IsSpace);
    var advance := ts[index + 1..];
    if spec == "RTP/AVP/TCP" {
      t := t.(kind := TcpUnicast);
    } else if spec == "RTP/AVP" || spec == "RTP/AVP/UDP" {
      t := t.(kind := Multicast);
    } else {
      return t, false;
    }
    ok := true;
    var more := true;
    while more
      invariant Parsed(t0, rtpType, ts) == if more then ApplyAll(t, rtpType, Tokens(advance), ok) else (t, ok)
      decreases more, |advance|
    {
      ScanShrinks(advance, ';', IsSpace);
      var r := ScanSemicolon(advance);
      var token := r.token;
      AllTokens(advance, t, rtpType, ok);
      var wellFormed;
      t, wellFormed := ApplyToken(t, rtpType, token);
      ok := ok && wellFormed;
      advance, more := r.advance, r.more;
    }
  }

  lemma AllTokens(s: string, t: Settings, i: nat, ok: bool)
    requires i + 1 < CHANNEL_COUNT
    ensures
      var r, a := ScanSemicolon(s), Apply(t, i, ScanSemicolon(s).token);
      ApplyAll(t, i, Tokens(s), ok)
      == if r.more then ApplyAll(a.0, i, Tokens(r.advance), ok && a.1) else (a.0, ok && a.1)
  {
    hide Apply;
    ScanShrinks(s, ';', IsSpace);
    var r := ScanSemicolon(s);
    assert Tokens(s)[1..] == if r.more then Tokens(r.advance) else [];
  }

  method ApplyToken(t0: Settings, i: nat, token: string) returns (t: Settings, ok: bool)
    requires i + 1 < CHANNEL_COUNT
    ensures (t, ok) == Apply(t0, i, token)
  {
    hide ApplyPair, ParamOf, ScanEqualPair;
    t, ok := t0, true;
    if token == "unicast" && t.kind == Multicast { return t.(kind := UdpUnicast), true; }
    if token == "multicast" && t.kind == TcpUnicast { return t, false; }
    if token == "append" { return t.(append := true), true; }
    var p := ScanEqualPair(token);
    t, ok := SetParam(t, i, ParamOf(p.key), p.value);
  }

  method SetParam(t0: Settings, i: nat, param: Param, v: string) returns (t: Settings, ok: bool)
    requires i + 1 < CHANNEL_COUNT
    ensures (t, ok) == ApplyPair(t0, i, param, v)
  {
    hide RangeOf, Atoi;
    t, ok := t0, true;
    var begin, end := ParseRange(v);
    match param
    case Mode =>
      t := t.(mode := if v == "record" then RecordSession else PlaySession);
    case Interleaved =>
      if begin >= 0 { t := t.(channels := t.channels[i := begin]); }
      if end >= 0 { t := t.(channels := t.channels[i + 1 := end]); }
      ok := begin >= 0;
    case ClientPort =>
      t := t.(clientPorts := t.clientPorts[i := begin][i + 1 := end]);
      ok := begin >= 0;
    case ServerPort =>
      t := t.(serverPorts := t.serverPorts[i := begin][i + 1 := end]);
      ok := begin >= 0;
    case Port =>
      t := t.(ports := t.ports[i := begin][i + 1 := end]);
      ok := begin >= 0;
    case Destination => t := t.(multicastIP := v);
    case Source => t := t.(source := v);
    case Ttl => t := t.(ttl := Atoi(v).0);
    case OtherParam =>
  }

  // ---- Whole headers

  function JoinSemicolon(tokens: seq<string>): string {
    if tokens == [] then ""
    else if |tokens| == 1 then tokens[0]
    else tokens[0] + ";" + JoinSemicolon(tokens[1..])
  }

  predicate IsToken(s: string) {
    s != "" && Trimmed(s, IsSpace) && ';' !in s
  }

  lemma {:induction false} JoinTrimmed(tokens: seq<string>)
    requires tokens != [] && forall k :: 0 <= k < |tokens| ==> IsToken(tokens[k])
    ensures JoinSemicolon(tokens) != "" && Trimmed(JoinSemicolon(tokens), IsSpace)
  {
    if |tokens| <= 1 {
    } else {
      JoinTrimmed(tokens[1..]);
      var s, r := JoinSemicolon(tokens), JoinSemicolon(tokens[1..]);
      assert s[|s| - 1] == r[|r| - 1] && s[0] == tokens[0][0];
    }
  }

  lemma {:induction false} TokensRoundTrip(tokens: seq<string>)
    requires tokens != [] && forall k :: 0 <= k < |tokens| ==> IsToken(tokens[k])
    ensures Tokens(JoinSemicolon(tokens)) == tokens
    decreases |tokens|
  {
    hide Tokens, Trimmed;
    if |tokens| <= 1 {
      LastToken(tokens[0]);
    } else {
      var r := JoinSemicolon(tokens[1..]);
      JoinTrimmed(tokens[1..]);
      NextToken(tokens[0], r);
      TokensRoundTrip(tokens[1..]);
      assert tokens == [tokens[0]] + tokens[1..];
    }
  }

  lemma LastToken(s: string)
    requires IsToken(s)
    ensures Tokens(s) == [s]
  {
    hide IsSpace;
    ScanShrinks(s, ';', IsSpace);
    TrimTrimmed(s, IsSpace);
  }

  lemma NextToken(s: string, r: string)
    requires IsToken(s) && Trimmed(r, IsSpace)
    ensures Tokens(s + ";" + r) == [s] + Tokens(r)
  {
    hide IsSpace;
    var all := s + [';'] + r;
    ScanShrinks(all, ';', IsSpace);
    TrimTrimmed(s, IsSpace);
    IndexOfFirst(s, ';', r);
    assert all[..|s|] == s && all[|s| + 1..] == r;
    TrimTrimmed(r, IsSpace);
  }

  /** A header with well-formed parameters is applied parameter by parameter. */
  lemma HeaderRoundTrip(t: Settings, i: nat, spec: string, tokens: seq<string>)
    requires i + 1 < CHANNEL_COUNT && KindOf(spec) != UnknownTrans
    requires tokens != [] && forall k :: 0 <= k < |tokens| ==> IsToken(tokens[k])
    ensures Parsed(t, i, spec + ";" + JoinSemicolon(tokens))
         == ApplyAll(WithMode(t).(kind := KindOf(spec)), i, tokens, true)
  {
    hide ApplyAll, Tokens;
    var r := JoinSemicolon(tokens);
    var ts := spec + ";" + r;
    assert ts == spec + [';'] + r;
    assert ';' !in spec && Trimmed(spec, IsSpace);
    IndexOfFirst(spec, ';', r);
    assert ts[..|spec|] == spec && ts[|spec| + 1..] == r;
    TrimTrimmed(spec, IsSpace);
    TokensRoundTrip(tokens);
  }

  function PairToken(key: string, value: string): string {
    key + "=" + value
  }

  /** The key and the value of a token, with quotes and white space off. */
  lemma PairReads(key: string, v: string)
    requires '=' !in key && Trimmed(key, IsSpaceOrQuote)
    ensures ScanEqualPair(PairToken(key, v)) == Pair(key, Trim(v, IsSpaceOrQuote), true)
  {
    hide IsSpaceOrQuote, Trim;
    var s := PairToken(key, v);
    assert s == key + ['='] + v;
    IndexOfFirst(key, '=', v);
    assert s[..|key|] == key && s[|key| + 1..] == v;
    TrimTrimmed(key, IsSpaceOrQuote);
  }

  lemma ApplyPairToken(t: Settings, i: nat, key: string, v: string)
    requires i + 1 < CHANNEL_COUNT && '=' !in key && Trimmed(key, IsSpaceOrQuote)
    ensures Apply(t, i, PairToken(key, v)) == ApplyPair(t, i, ParamOf(key), Trim(v, IsSpaceOrQuote))
  {
    hide ParamOf, ApplyPair, Trim, ScanEqualPair;
    PairReads(key, v);
    assert PairToken(key, v)[|key|] == '=';
    assert '=' !in "unicast" && '=' !in "multicast" && '=' !in "append";
  }

  lemma ParamNames()
    ensures ParamOf("mode") == Mode && ParamOf("interleaved") == Interleaved && ParamOf("client_port") == ClientPort
    ensures ParamOf("unicast") == OtherParam
  {
  }

  lemma RangeToken(key: string, a: nat, b: nat)
    requires key != "" && Trimmed(key, IsSpace) && ';' !in key && a <= MAX_INT && b <= MAX_INT
    ensures IsToken(PairToken(key, PrintRange(a, b)))
    ensures Trim(PrintRange(a, b), IsSpaceOrQuote) == PrintRange(a, b) && RangeOf(PrintRange(a, b)) == (a, b)
  {
    hide RangeOf, Trim, IsSpace;
    var v := PrintRange(a, b);
    var s := PairToken(key, v);
    DecimalTrimmed(a);
    DecimalTrimmed(b);
    assert v[0] == Decimal(a)[0] && v[|v| - 1] == Decimal(b)[|Decimal(b)| - 1];
    assert s[|s| - 1] == v[|v| - 1] && s[0] == key[0];
    TrimTrimmed(v, IsSpaceOrQuote);
    RangeRoundTrip(a, b);
    assert ';' !in Decimal(a) && ';' !in Decimal(b);
  }

  function ModeWord(record: bool): string {
    if record then "record" else "play"
  }

  lemma ModeWords(record: bool)
    ensures IsToken(PairToken("mode", ModeWord(record))) && Trim(ModeWord(record), IsSpaceOrQuote) == ModeWord(record)
  {
    var v := ModeWord(record);
    var s := PairToken("mode", v);
    assert s[|s| - 1] == v[|v| - 1];
    TrimTrimmed(v, IsSpaceOrQuote);
  }

  lemma UnicastToken()
    ensures IsToken("unicast")
  {
  }

  lemma ApplyMode(t: Settings, i: nat, record: bool)
    requires i + 1 < CHANNEL_COUNT
    ensures ApplyPair(t, i, Mode, ModeWord(record)) == (t.(mode := if record then RecordSession else PlaySession), true)
  {
  }

  ghost function ThreeTokens(key: string, a: nat, b: nat, record: bool): seq<string> {
    ["unicast", PairToken(key, PrintRange(a, b)), PairToken("mode", ModeWord(record))]
  }

  /** The usual header: one word for unicast, a range and a mode. */
  lemma ThreeParameters(t: Settings, i: nat, spec: string, key: string, a: nat, b: nat, record: bool)
    requires i + 1 < CHANNEL_COUNT && KindOf(spec) != UnknownTrans && a <= MAX_INT && b <= MAX_INT
    requires key != "" && Trimmed(key, IsSpaceOrQuote) && ';' !in key && '=' !in key
    ensures
      var t1 := Apply(WithMode(t).(kind := KindOf(spec)), i, "unicast");
      var t2 := ApplyPair(t1.0, i, ParamOf(key), PrintRange(a, b));
      var t3 := t2.0.(mode := if record then RecordSession else PlaySession);
      Parsed(t, i, spec + ";" + JoinSemicolon(ThreeTokens(key, a, b, record))) == (t3, t1.1 && t2.1)
  {
    hide Apply, ApplyPair, ParamOf, PrintRange, PairToken, JoinSemicolon, Parsed, IsToken, Trim, KindOf, RangeOf;
    var tokens := ThreeTokens(key, a, b, record);
    RangeToken(key, a, b);
    ModeWords(record);
    UnicastToken();
    HeaderRoundTrip(t, i, spec, tokens);
    var t0 := WithMode(t).(kind := KindOf(spec));
    var t1 := Apply(t0, i, "unicast");
    ApplyPairToken(t1.0, i, key, PrintRange(a, b));
    var t2 := Apply(t1.0, i, tokens[1]);
    ApplyPairToken(t2.0, i, "mode", ModeWord(record));
    ParamNames();
    ApplyMode(t2.0, i, record);
    ApplyThree(t0, i, tokens[0], tokens[1], tokens[2]);
  }

  lemma ApplyThree(t: Settings, i: nat, x: string, y: string, z: string)
    requires i + 1 < CHANNEL_COUNT
    ensures
      var t1 := Apply(t, i, x);
      var t2 := Apply(t1.0, i, y);
      var t3 := Apply(t2.0, i, z);
      ApplyAll(t, i, [x, y, z], true) == (t3.0, t1.1 && t2.1 && t3.1)
  {
    hide Apply;
    var t1 := Apply(t, i, x);
    var t2 := Apply(t1.0, i, y);
    assert [x, y, z][1..] == [y, z] && [y, z][1..] == [z] && [z][1..] == [];
    assert ApplyAll(t2.0, i, [z], t1.1 && t2.1) == (Apply(t2.0, i, z).0, t1.1 && t2.1 && Apply(t2.0, i, z).1);
    assert ApplyAll(t1.0, i, [y, z], t1.1) == ApplyAll(t2.0, i, [z], t1.1 && t2.1);
  }

  function TwoAt(p: PerChannel, i: nat, a: int, b: int): PerChannel
    requires i + 1 < CHANNEL_COUNT
  {
    p[i := a][i + 1 := b]
  }

  /** A transport over the connection itself is read as it was printed, and
      leaves the settings of the other channels alone. */
  lemma TcpRoundTrip(t: Settings, i: nat, a: nat, b: nat, record: bool)
    requires i + 1 < CHANNEL_COUNT && a <= MAX_INT && b <= MAX_INT
    ensures
      Parsed(t, i, "RTP/AVP/TCP" + ";" + JoinSemicolon(ThreeTokens("interleaved", a, b, record)))
      == (t.(kind := TcpUnicast, channels := TwoAt(t.channels, i, a, b),
             mode := if record then RecordSession else PlaySession), true)
  {
    hide ParamOf, PrintRange, JoinSemicolon, Parsed, Trim, RangeOf, ThreeTokens, ScanEqualPair;
    ParamNames();
    PlainToken("unicast");
    RangeRoundTrip(a, b);
    ThreeParameters(t, i, "RTP/AVP/TCP", "interleaved", a, b, record);
  }

  lemma PlainToken(s: string)
    requires '=' !in s
    ensures ScanEqualPair(s) == Pair(s, "", false)
  {
  }

  /** A transport over UDP, which both names ask for. */
  lemma UdpRoundTrip(t: Settings, i: nat, spec: string, a: nat, b: nat, record: bool)
    requires i + 1 < CHANNEL_COUNT && a <= MAX_INT && b <= MAX_INT
    requires spec == "RTP/AVP" || spec == "RTP/AVP/UDP"
    ensures
      Parsed(t, i, spec + ";" + JoinSemicolon(ThreeTokens("client_port", a, b, record)))
      == (t.(kind := UdpUnicast, clientPorts := TwoAt(t.clientPorts, i, a, b),
             mode := if record then RecordSession else PlaySession), true)
  {
    hide ParamOf, PrintRange, JoinSemicolon, Parsed, Trim, RangeOf, ThreeTokens;
    ParamNames();
    RangeRoundTrip(a, b);
    ThreeParameters(t, i, spec, "client_port", a, b, record);
  }

  /** Only the exact lower-case word asks for recording; RFC 2326 writes the mode
      as the name of a method, which is upper-case. */
  lemma ModeByExactWord(t: Settings, i: nat, v: string)
    requires i + 1 < CHANNEL_COUNT
    ensures Apply(t, i, PairToken("mode", v)).0.mode == RecordSession <==> Trim(v, IsSpaceOrQuote) == "record"
    ensures Apply(t, i, PairToken("mode", "\"RECORD\"")).0.mode == PlaySession
  {
    hide Trim, Apply, RangeOf;
    ParamNames();
    ApplyPairToken(t, i, "mode", v);
    ApplyPairToken(t, i, "mode", "\"RECORD\"");
    QuotedWord();
  }

  lemma QuotedWord()
    ensures Trim("\"RECORD\"", IsSpaceOrQuote) == "RECORD"
  {
    var s := "\"RECORD\"";
    assert s[1..] == "RECORD\"";
    assert TrimLeft(s, IsSpaceOrQuote) == "RECORD\"";
    assert "RECORD\""[..6] == "RECORD";
  }

  /** Whatever the header, a session mode is settled, and a header that is taken
      settles the kind of transport. */
  lemma ApplySettled(t: Settings, i: nat, token: string)
    requires i + 1 < CHANNEL_COUNT && t.mode != UnknownSession && t.kind != UnknownTrans
    ensures Apply(t, i, token).0.mode != UnknownSession && Apply(t, i, token).0.kind != UnknownTrans
  {
    hide ScanEqualPair, RangeOf, Atoi, ParamOf;
  }

  lemma {:induction false} Settled(t: Settings, i: nat, tokens: seq<string>, ok: bool)
    requires i + 1 < CHANNEL_COUNT && t.mode != UnknownSession && t.kind != UnknownTrans
    ensures ApplyAll(t, i, tokens, ok).0.mode != UnknownSession && ApplyAll(t, i, tokens, ok).0.kind != UnknownTrans
    decreases |tokens|
  {
    hide Apply;
    if tokens == [] {
    } else {
      var a := Apply(t, i, tokens[0]);
      ApplySettled(t, i, tokens[0]);
      Settled(a.0, i, tokens[1..], ok && a.1);
    }
  }

  lemma ParsedSettled(t: Settings, i: nat, ts: string)
    requires i + 1 < CHANNEL_COUNT
    ensures var r := Parsed(t, i, ts);
            && r.0.mode != UnknownSession && (r.1 ==> r.0.kind != UnknownTrans)
            && (t.kind != UnknownTrans ==> r.0.kind != UnknownTrans)
  {
    hide ApplyAll, Tokens, Apply;
    var j := IndexOf(ts, ';');
    if j >= 0 && KindOf(Trim(ts[..j], IsSpace)) != UnknownTrans {
      Settled(WithMode(t).(kind := KindOf(Trim(ts[..j], IsSpace))), i, Tokens(ts[j + 1..]), true);
    }
  }
}
