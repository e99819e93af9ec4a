/** What each parameter of a Transport header means, written out. */
module TransportLaws {
  import opened Text
  import opened Scanner
  import opened RtspTransport

  /** A decimal number with at most one sign in front is read as it stands, if it
      is of 64 bits; nothing else is a number. */
  lemma AtoiMeans(n: nat)
    ensures n <= 0x7fff_ffff_ffff_ffff ==> Atoi(Decimal(n)) == (n, true) && Atoi("+" + Decimal(n)) == (n, true)
    ensures n <= 0x8000_0000_0000_0000 ==> Atoi("-" + Decimal(n)) == (0 - n, true)
    ensures n > 0x7fff_ffff_ffff_ffff ==> !Atoi(Decimal(n)).1 && !Atoi("+" + Decimal(n)).1
    ensures n > 0x8000_0000_0000_0000 ==> !Atoi("-" + Decimal(n)).1
  {
    hide Decimal, ParseDecimal;
    var s := Decimal(n);
    DecimalRoundTrip(n);
    assert IsDigit(s[0]);
    assert ("+" + s)[1..] == s && ("-" + s)[1..] == s;
  }

  lemma NoNumber(s: string, k: nat)
    requires k < |s| && !('0' <= s[k] <= '9') && !(k == 0 && (s[0] == '-' || s[0] == '+'))
    ensures !Atoi(s).1
  {
    if s[0] == '-' || s[0] == '+' { assert s[1..][k - 1] == s[k]; }
  }

  /** A range with both ends, with one, or with none that is a number. */
  lemma RangeMeans(a: nat, b: nat)
    requires a <= 0x7fff_ffff_ffff_ffff && b <= 0x7fff_ffff_ffff_ffff
    ensures RangeOf(Decimal(a) + "-" + Decimal(b)) == (a, b)
    ensures RangeOf(Decimal(a)) == (a, -1)
    ensures RangeOf("") == (-1, -1) && RangeOf("x") == (-1, -1)
  {
    hide Decimal, ParseDecimal, Trim;
    RangeRoundTrip(a, b);
    DecimalTrimmed(a);
    AtoiMeans(a);
    NoNumber("x", 0);
  }

  /** The ends of a range lie around the first dash; white space around them goes. */
  lemma RangeEnds(a: string, b: string)
    requires '-' !in a
    ensures RangeOf(a + "-" + b).0 == AtoiOr(Trim(a, IsSpace), -1) && RangeOf(a + "-" + b).1 == AtoiOr(Trim(b, IsSpace), -1)
    ensures RangeOf(a) == (AtoiOr(a, -1), -1) && AtoiOr("", -1) == -1
    ensures !Atoi(a).1 ==> AtoiOr(a, -1) == -1
  {
    hide Trim, Atoi;
    var p := a + ['-'] + b;
    IndexOfFirst(a, '-', b);
    assert p[..|a|] == a && p[|a| + 1..] == b;
  }

  /** The three words. */
  lemma Words(t: Settings, i: nat)
    requires i + 1 < 4
    ensures Apply(t, i, "unicast") == if t.kind == Multicast then (t.(kind := UdpUnicast), true) else (t, true)
    ensures Apply(t, i, "multicast") == if t.kind == TcpUnicast then (t, false) else (t, true)
    ensures Apply(t, i, "append") == (t.(append := true), true)
  {
    hide RangeOf, Atoi, ScanEqualPair;
    PlainToken("unicast");
    PlainToken("multicast");
  }

  /** The two settings of the medium that a header is for are a and b, and the
      other two are as they were. */
  predicate PairIs(now: PerChannel, was: PerChannel, i: nat, a: int, b: int)
    requires i + 1 < 4
  {
    now[i] == a && now[i + 1] == b && forall k :: 0 <= k < 4 && k != i && k != i + 1 ==> now[k] == was[k]
  }

  lemma KeyApplies(t: Settings, i: nat, key: string, v: string)
    requires i + 1 < 4 && '=' !in key && Trimmed(key, IsSpaceOrQuote)
    ensures Apply(t, i, key + "=" + v) == ApplyPair(t, i, ParamOf(key), Trim(v, IsSpaceOrQuote))
  {
    hide ApplyPair, Apply, Trim, ParamOf;
    ApplyPairToken(t, i, key, v);
  }

  /** Ports: both settings are overwritten, and the first has to be a number. */
  lemma ClientPorts(t: Settings, i: nat, v: string)
    requires i + 1 < 4
    ensures
      var a := Apply(t, i, "client_port" + "=" + v);
      var r := RangeOf(Trim(v, IsSpaceOrQuote));
      && a.1 == (r.0 >= 0) && a.0 == t.(clientPorts := a.0.clientPorts)
      && PairIs(a.0.clientPorts, t.clientPorts, i, r.0, r.1)
  {
    hide RangeOf, Trim, Apply;
    KeyApplies(t, i, "client_port", v);
    assert ParamOf("client_port") == ClientPort;
    hide ParamOf;
  }

  lemma ServerPorts(t: Settings, i: nat, v: string)
    requires i + 1 < 4
    ensures
      var a := Apply(t, i, "server_port" + "=" + v);
      var r := RangeOf(Trim(v, IsSpaceOrQuote));
      && a.1 == (r.0 >= 0) && a.0 == t.(serverPorts := a.0.serverPorts)
      && PairIs(a.0.serverPorts, t.serverPorts, i, r.0, r.1)
  {
    hide RangeOf, Trim, Apply;
    KeyApplies(t, i, "server_port", v);
    assert ParamOf("server_port") == ServerPort;
    hide ParamOf;
  }

  lemma MulticastPorts(t: Settings, i: nat, v: string)
    requires i + 1 < 4
    ensures
      var a := Apply(t, i, "port" + "=" + v);
      var r := RangeOf(Trim(v, IsSpaceOrQuote));
      a.1 == (r.0 >= 0) && a.0 == t.(ports := a.0.ports) && PairIs(a.0.ports, t.ports, i, r.0, r.1)
  {
    hide RangeOf, Trim, Apply;
    KeyApplies(t, i, "port", v);
    assert ParamOf("port") == Port;
    hide ParamOf;
  }

  /** Channels: an end that is missing leaves its setting as it was. */
  lemma Channels(t: Settings, i: nat, v: string)
    requires i + 1 < 4
    ensures
      var a := Apply(t, i, "interleaved" + "=" + v);
      var r := RangeOf(Trim(v, IsSpaceOrQuote));
      && a.1 == (r.0 >= 0) && a.0 == t.(channels := a.0.channels)
      && PairIs(a.0.channels, t.channels, i, if r.0 >= 0 then r.0 else t.channels[i],
                if r.1 >= 0 then r.1 else t.channels[i + 1])
  {
    hide RangeOf, Trim, Apply;
    KeyApplies(t, i, "interleaved", v);
    assert ParamOf("interleaved") == Interleaved;
    hide ParamOf;
  }

  /** Addresses. */
  lemma Addresses(t: Settings, i: nat, v: string)
    requires i + 1 < 4
    ensures Apply(t, i, "destination" + "=" + v) == (t.(multicastIP := Trim(v, IsSpaceOrQuote)), true)
    ensures Apply(t, i, "source" + "=" + v) == (t.(source := Trim(v, IsSpaceOrQuote)), true)
  {
    hide RangeOf, Trim, Apply;
    KeyApplies(t, i, "destination", v);
    KeyApplies(t, i, "source", v);
    assert ParamOf("destination") == Destination && ParamOf("source") == Source;
    hide ParamOf;
  }

  /** The time to live; one that is no number is 0, and well-formed. */
  lemma TimeToLive(t: Settings, i: nat, n: nat)
    requires i + 1 < 4 && n <= 0x7fff_ffff_ffff_ffff
    ensures Apply(t, i, "ttl" + "=" + Decimal(n)) == (t.(ttl := n), true)
    ensures Apply(t, i, "ttl" + "=" + "x") == (t.(ttl := 0), true)
  {
    hide RangeOf, Trim, Apply, Decimal;
    DecimalTrimmed(n);
    TrimTrimmed(Decimal(n), IsSpaceOrQuote);
    TrimTrimmed("x", IsSpaceOrQuote);
    AtoiMeans(n);
    KeyApplies(t, i, "ttl", Decimal(n));
    KeyApplies(t, i, "ttl", "x");
    assert ParamOf("ttl") == Ttl;
    assert Atoi("x").0 == 0 by { assert !IsDigit("x"[0]); }
    hide ParamOf, Atoi;
  }

  /** Unknown parameters are skipped. */
  lemma UnknownPairs(t: Settings, i: nat, key: string, v: string)
    requires i + 1 < 4 && '=' !in key && Trimmed(key, IsSpaceOrQuote)
    requires key !in {"mode", "interleaved", "client_port", "server_port", "port", "destination", "source", "ttl"}
    ensures Apply(t, i, key + "=" + v) == (t, true)
  {
    hide ApplyPair, Apply, Trim, ParamOf;
    KeyApplies(t, i, key, v);
    Skipped(t, i, key, Trim(v, IsSpaceOrQuote));
  }

  lemma Skipped(t: Settings, i: nat, key: string, v: string)
    requires i + 1 < 4
    requires key !in {"mode", "interleaved", "client_port", "server_port", "port", "destination", "source", "ttl"}
    ensures ApplyPair(t, i, ParamOf(key), v) == (t, true)
  {
    hide RangeOf, Atoi;
  }

  // ---- Whole headers

  /** What a header starts with decides the kind of transport; one that does not
      start like that, or has no parameter, is malformed. */
  lemma Kinds(t: Settings, i: nat, spec: string, tokens: seq<string>)
    requires i + 1 < 4 && tokens != [] && forall k :: 0 <= k < |tokens| ==> IsToken(tokens[k])
    requires Trimmed(spec, IsSpace) && ';' !in spec
    ensures var mode := if t.mode == UnknownSession then PlaySession else t.mode;
            Parsed(t, i, spec + ";" + JoinSemicolon(tokens)) ==
              if spec == "RTP/AVP/TCP" then ApplyAll(t.(mode := mode, kind := TcpUnicast), i, tokens, true)
              else if spec == "RTP/AVP" || spec == "RTP/AVP/UDP" then
                ApplyAll(t.(mode := mode, kind := Multicast), i, tokens, true)
              else (t.(mode := mode), false)
    ensures Parsed(t, i, spec) == (t.(mode := if t.mode == UnknownSession then PlaySession else t.mode), false)
  {
    hide ApplyAll, Tokens, Trim;
    if KindOf(spec) != UnknownTrans {
      HeaderRoundTrip(t, i, spec, tokens);
    } else {
      var r := JoinSemicolon(tokens);
      var ts := spec + ";" + r;
      assert ts == spec + [';'] + r;
      IndexOfFirst(spec, ';', r);
      assert ts[..|spec|] == spec;
      TrimTrimmed(spec, IsSpace);
    }
  }

  /** Parameters are applied one by one, and all have to be well-formed. */
  lemma OneByOne(t: Settings, i: nat, token: string, rest: seq<string>, ok: bool)
    requires i + 1 < 4
    ensures ApplyAll(t, i, [], ok) == (t, ok)
    ensures var a := Apply(t, i, token);
            ApplyAll(t, i, [token] + rest, ok) == ApplyAll(a.0, i, rest, ok && a.1)
  {
    hide Apply;
    assert ([token] + rest)[1..] == rest;
  }
}
