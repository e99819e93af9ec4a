/** The group-of-pictures cache of an H.264 stream: which packets it keeps, as
    a function of all the packets that went through it. */
module H264Cache {
  import opened Wrappers
  import opened BitStrings
  import opened ByteStrings
  import opened RtpPayload

  const CHANNEL_VIDEO := 0

  /** An RTP packet as a consumer receives it, after its 4-byte prefix. */
  datatype Packet = Packet(channel: byte, header: seq<byte>, payload: seq<byte>) {
    function Size(): nat {
      |header| + |payload| + 4
    }
  }

  /** What is written of a packet to a connection that interleaves channels:
      a dollar sign, the channel, the 16-bit length and the data (section 10.12
      of RFC 2326). */
  function OnWire(p: Packet): seq<byte> {
    var n := |p.header| + |p.payload|;
    [0x24, p.channel, n / 256 % 256, n % 256] + p.header + p.payload
  }

  /** The size of a packet is what is written of it. */
  lemma SizeOnWire(p: Packet)
    ensures p.Size() == |OnWire(p)|
  {
  }

  function TotalSize(s: seq<Packet>): nat {
    if s == [] then 0 else TotalSize(s[..|s| - 1]) + s[|s| - 1].Size()
  }

  lemma {:induction false} TotalSizeAdd(a: seq<Packet>, b: seq<Packet>)
    ensures TotalSize(a + b) == TotalSize(a) + TotalSize(b)
    decreases |b|
  {
    if b == [] {
      assert a + b == a;
    } else {
      assert (a + b)[..|a + b| - 1] == a + b[..|b| - 1];
      TotalSizeAdd(a, b[..|b| - 1]);
    }
  }

  lemma TotalSizeNone()
    ensures TotalSize([]) == 0
  {
  }

  lemma TotalSizeStep(a: seq<Packet>, p: Packet)
    ensures TotalSize(a + [p]) == TotalSize(a) + p.Size()
  {
    assert (a + [p])[..|a|] == a;
  }

  /** What a payload was found to hold. */
  datatype Flags = Flags(sps: bool, pps: bool, idr: bool)

  function Note(f: Flags, nalType: int): Flags {
    match nalType
    case 7 => f.(sps := true)
    case 8 => f.(pps := true)
    case 5 => f.(idr := true)
    case _ => f
  }

  /** The scan of an aggregation packet from offset p: 16-bit sizes, each in
      front of a unit, up to a zero size or the end of the payload. */
  ghost function Scan(s: seq<byte>, p: nat, f: Flags): Result<Flags>
    decreases |s| - p
  {
    if p + 1 >= |s| then Panic
    else if Read2(s, p) == 0 then Ok(f)
    else if p + 2 >= |s| then Panic
    else
      var g := Note(f, s[p + 2] % 32);
      if p + 2 + Read2(s, p) >= |s| then Ok(g) else Scan(s, p + 2 + Read2(s, p), g)
  }

  ghost function PayloadFlags(s: seq<byte>): Result<Flags> {
    var none := Flags(false, false, false);
    if |s| < 3 then Ok(none)
    else if 24 <= s[0] % 32 <= 27 then Scan(s, 1, none)
    else if 28 <= s[0] % 32 <= 29 then Ok(if s[1] >= 128 then Note(none, s[1] % 32) else none)
    else Ok(Note(none, s[0] % 32))
  }

  method PayloadType(payload: seq<byte>) returns (r: Result<Flags>)
    ensures r == PayloadFlags(payload)
  {
    var flags := Flags(false, false, false);
    if |payload| < 3 { return Ok(flags); }
    var naluTypeInRtp := payload[0] % 32;
    if 24 <= naluTypeInRtp <= 27 {
      var off := 1;
      while true
        invariant 1 <= off
        invariant PayloadFlags(payload) == Scan(payload, off, flags)
        decreases |payload| - off
      {
        if off + 1 >= |payload| { return Panic; }
        var nalSize := payload[off] as int * 256 + payload[off + 1];
        if nalSize < 1 { return Ok(flags); }
        off := off + 2;
        if off >= |payload| { return Panic; }
        flags := Note(flags, payload[off] % 32);
        off := off + nalSize;
        if off >= |payload| { break; }
      }
    } else if 28 <= naluTypeInRtp <= 29 {
      var fuHeader := payload[1];
      if fuHeader / 128 % 2 == 1 {
        flags := Note(flags, fuHeader % 32);
      }
    } else {
      flags := Note(flags, naluTypeInRtp);
    }
    return Ok(flags);
  }

  ghost predicate SomeType(units: seq<seq<byte>>, nalType: int) {
    exists k :: 0 <= k < |units| && units[k] != [] && units[k][0] % 32 == nalType
  }

  /** What there is to notice about these units. */
  ghost function Types(units: seq<seq<byte>>): Flags {
    Flags(SomeType(units, 7), SomeType(units, 8), SomeType(units, 5))
  }

  function Join(f: Flags, g: Flags): Flags {
    Flags(f.sps || g.sps, f.pps || g.pps, f.idr || g.idr)
  }

  lemma SomeTypeSplit(units: seq<seq<byte>>, nalType: int)
    requires units != [] && units[0] != []
    ensures SomeType(units, nalType) <==> units[0][0] % 32 == nalType || SomeType(units[1..], nalType)
  {
    if SomeType(units[1..], nalType) {
      var k :| 0 <= k < |units| - 1 && units[1..][k] != [] && units[1..][k][0] % 32 == nalType;
      assert units[k + 1] == units[1..][k];
    }
    if SomeType(units, nalType) && units[0][0] % 32 != nalType {
      var k :| 0 <= k < |units| && units[k] != [] && units[k][0] % 32 == nalType;
      assert units[1..][k - 1] == units[k];
    }
  }

  lemma ScanUnit(pre: seq<byte>, u: seq<byte>, rest: seq<byte>, f: Flags)
    requires 1 <= |u| < 0x1_0000
    ensures Scan(pre + Sized(u) + rest, |pre|, f)
         == var g := Note(f, u[0] % 32);
            if rest == [] then Ok(g) else Scan(pre + Sized(u) + rest, |pre + Sized(u)|, g)
  {
    var s := pre + Sized(u) + rest;
    assert s[|pre|] == Sized(u)[0] && s[|pre| + 1] == Sized(u)[1] && s[|pre| + 2] == Sized(u)[2] == u[0];
    assert Read2(s, |pre|) == |u|;
  }

  /** The scan of a well-formed aggregate stays in bounds and finds exactly the
      types of the units in it. */
  lemma {:induction false} ScanUnits(pre: seq<byte>, units: seq<seq<byte>>, f: Flags)
    requires units != [] && WellSized(units)
    ensures Scan(pre + Units(units), |pre|, f) == Ok(Join(f, Types(units)))
    decreases |units|
  {
    hide Scan, Sized, SomeType, Units;
    UnitsStep(units);
    var u, rest := units[0], units[1..];
    SomeTypeSplit(units, 7);
    SomeTypeSplit(units, 8);
    SomeTypeSplit(units, 5);
    ScanUnit(pre, u, Units(rest), f);
    assert pre + Units(units) == pre + Sized(u) + Units(rest);
    if rest == [] {
      NoTypes();
    } else {
      ScanUnits(pre + Sized(u), rest, Note(f, u[0] % 32));
    }
  }

  lemma NoTypes()
    ensures forall t :: !SomeType([], t)
  {
  }

  /** A single-time aggregation packet sets each flag iff one of its units has
      that type. */
  lemma StapAFlags(header: byte, units: seq<seq<byte>>)
    requires header % 32 == 24 && WellSized(units)
    ensures PayloadFlags(StapA(header, units)) == Ok(Types(units))
  {
    if units != [] {
      ScanUnits([header], units, Flags(false, false, false));
      assert |Units(units)| >= 2 + |units[0]|;
    }
  }

  /** Of the fragments of a unit, only the first one sets the flag of its type. */
  lemma FragmentFlags(header: byte, start: bool, end: bool, piece: seq<byte>, p: seq<byte>)
    requires IsFragment(p, header, start, end, piece) && |p| >= 3
    ensures PayloadFlags(p) ==
              Ok(Flags(start && header % 32 == 7, start && header % 32 == 8, start && header % 32 == 5))
  {
    var second := (if start then 128 else 0) + (if end then 64 else 0) + header % 32;
    assert p[1] == second && second % 32 == header % 32;
    assert p[0] % 32 == 28 || p[0] % 32 == 29;
  }

  /** A packet with a single unit sets the flag of that unit's type. */
  lemma SingleUnitFlags(unit: seq<byte>)
    requires |unit| >= 3 && 1 <= unit[0] % 32 <= 23
    ensures PayloadFlags(unit) == Ok(Flags(unit[0] % 32 == 7, unit[0] % 32 == 8, unit[0] % 32 == 5))
  {
  }

  /** Nothing is noticed in a payload of two bytes or less, and in one of an
      undefined type. */
  lemma NothingNoticed(payload: seq<byte>)
    requires |payload| < 3 || payload[0] % 32 in {0, 30, 31}
    ensures PayloadFlags(payload) == Ok(Flags(false, false, false))
  {
  }

  // Packets with decoding order numbers. Their number is read as the size of
  // the first unit, and the high byte of that unit's size as its header.

  lemma {:induction false} ScanShift(pre: seq<byte>, s: seq<byte>, p: nat, f: Flags)
    ensures Scan(pre + s, |pre| + p, f) == Scan(s, p, f)
    decreases |s| - p
  {
    if p + 2 < |s| {
      assert (pre + s)[|pre| + p] == s[p] && (pre + s)[|pre| + p + 1] == s[p + 1] && (pre + s)[|pre| + p + 2] == s[p + 2];
      if 0 < Read2(s, p) && p + 2 + Read2(s, p) < |s| {
        ScanShift(pre, s, p + 2 + Read2(s, p), Note(f, s[p + 2] % 32));
      }
    } else if p + 1 < |s| {
      assert (pre + s)[|pre| + p] == s[p] && (pre + s)[|pre| + p + 1] == s[p + 1];
    }
  }

  /** The scan of any such packet, whatever follows the order number. */
  lemma OrderNumberRead(header: byte, don: nat, rest: seq<byte>)
    requires 25 <= header % 32 <= 27 && don < 0x1_0000
    ensures var none := Flags(false, false, false);
            PayloadFlags([header, don / 256, don % 256] + rest) ==
              if don == 0 then Ok(none)
              else if rest == [] then Panic
              else if don >= |rest| then Ok(Note(none, rest[0] % 32))
              else Scan(rest, don, Note(none, rest[0] % 32))
  {
    var pre := [header, don / 256, don % 256];
    var s := pre + rest;
    assert Read2(s, 1) == don;
    if 0 < don < |rest| {
      ScanShift(pre, rest, don, Note(Flags(false, false, false), rest[0] % 32));
    }
  }

  /** The type the scan finds first: the high byte of the first unit's size. */
  function Misread(units: seq<seq<byte>>): int
    requires units != []
  {
    |units[0]| / 256 % 32
  }

  /** Order number 0 hides all units. A number that is the length of the first
      k units, or that of all units or more, hides those and makes up the type
      of the first one's size. */
  lemma StapBFlags(header: byte, don: nat, units: seq<seq<byte>>, k: nat)
    requires header % 32 == 25 && don < 0x1_0000 && WellSized(units) && units != []
    ensures don == 0 ==> PayloadFlags(StapB(header, don, units)) == Ok(Flags(false, false, false))
    ensures Hidden(don, units, k) ==>
              PayloadFlags(StapB(header, don, units)) ==
                Ok(Join(Note(Flags(false, false, false), Misread(units)), Types(units[k..])))
  {
    var rest := Units(units);
    var g := Note(Flags(false, false, false), Misread(units));
    UnitsStep(units);
    assert rest[0] == |units[0]| / 256;
    OrderNumberRead(header, don, rest);
    hide Scan, SomeType, PayloadFlags;
    if Hidden(don, units, k) {
      UnitsStep(units[..k]);
      if k < |units| {
        assert units[..k] + units[k..] == units;
        UnitsConcat(units[..k], units[k..]);
        UnitsStep(units[k..]);
        ScanUnits(Units(units[..k]), units[k..], g);
      } else {
        assert units[..k] == units && units[k..] == [];
        NoTypes();
      }
    }
  }

  /** The order number skips the first k units, and no part of another one. */
  ghost predicate Hidden(don: nat, units: seq<seq<byte>>, k: nat)
    requires WellSized(units)
  {
    0 < k <= |units| && (don == |Units(units[..k])| || (k == |units| && don > |Units(units)|))
  }

  /** The packet is read right exactly if, for number 0, there is nothing to
      notice; for one that skips whole units, if every type hidden is made up or
      comes again, and the type made up is there; and for one that ends inside
      a unit, if the scan from there on happens to find the same types, for
      which the type made up must be there as well. */
  lemma StapBExact(header: byte, don: nat, units: seq<seq<byte>>, k: nat)
    requires header % 32 == 25 && don < 0x1_0000 && WellSized(units) && units != []
    ensures var right := PayloadFlags(StapB(header, don, units)) == Ok(Types(units));
            (don == 0 ==> (right <==> forall t | t in {5, 7, 8} :: !SomeType(units, t))) &&
            (Hidden(don, units, k) ==>
              (right <==> forall t | t in {5, 7, 8} ::
                            (SomeType(units[..k], t) ==> t == Misread(units) || SomeType(units[k..], t)) &&
                            (t == Misread(units) ==> SomeType(units, t)))) &&
            (0 < don < |Units(units)| ==>
              (right <==> Scan(Units(units), don, Note(Flags(false, false, false), Misread(units))) == Ok(Types(units)))) &&
            (don > 0 && right ==> forall t | t in {5, 7, 8} :: t == Misread(units) ==> SomeType(units, t))
  {
    StapBFlags(header, don, units, k);
    if k <= |units| {
      forall t ensures SomeType(units, t) <==> SomeType(units[..k], t) || SomeType(units[k..], t) {
        SomeTypeAdd(units[..k], units[k..], t);
        assert units[..k] + units[k..] == units;
      }
    }
    var none := Flags(false, false, false);
    UnitsStep(units);
    OrderNumberRead(header, don, Units(units));
    if 0 < don < |Units(units)| {
      ScanKeeps(Units(units), don, Note(none, Misread(units)));
    }
  }

  lemma SomeTypeAdd(a: seq<seq<byte>>, b: seq<seq<byte>>, t: int)
    ensures SomeType(a + b, t) <==> SomeType(a, t) || SomeType(b, t)
  {
    var s := a + b;
    forall k | 0 <= k < |a| ensures s[k] == a[k] {}
    forall k | 0 <= k < |b| ensures s[|a| + k] == b[k] {}
  }

  lemma {:induction false} ScanKeeps(s: seq<byte>, p: nat, f: Flags)
    ensures Scan(s, p, f).Ok? ==> Join(f, Scan(s, p, f).value) == Scan(s, p, f).value
    decreases |s| - p
  {
    if p + 2 < |s| && 0 < Read2(s, p) && p + 2 + Read2(s, p) < |s| {
      ScanKeeps(s, p + 2 + Read2(s, p), Note(f, s[p + 2] % 32));
    }
  }

  /** A parameter set that goes unnoticed, and one whose packet makes the scan
      panic. */
  lemma StapBMissed()
    ensures var units: seq<seq<byte>> := [[0x67, 0x42, 0]];
            WellSized(units) && Types(units).sps &&
            PayloadFlags(StapB(25, 9, units)) == Ok(Flags(false, false, false)) &&
            PayloadFlags(StapB(25, 4, units)) == Panic
  {
    var units: seq<seq<byte>> := [[0x67, 0x42, 0]];
    assert SomeType(units, 7) by { assert units[0][0] % 32 == 7; }
    assert units[1..] == [];
    NoUnits();
    var rest: seq<byte> := [0, 3, 0x67, 0x42, 0];
    assert Units(units) == rest;
    OrderNumberRead(25, 9, rest);
    OrderNumberRead(25, 4, rest);
  }

  ghost function Kind(p: Packet): Result<Flags> {
    if p.channel == CHANNEL_VIDEO then PayloadFlags(p.payload) else Ok(Flags(false, false, false))
  }

  ghost predicate IsSps(p: Packet) {
    Kind(p).Ok? && Kind(p).value.sps
  }

  /** A packet with both parameter sets counts as the first one only. */
  ghost predicate IsPps(p: Packet) {
    Kind(p).Ok? && Kind(p).value.pps && !IsSps(p)
  }

  ghost predicate IsPicture(p: Packet) {
    p.channel == CHANNEL_VIDEO && Kind(p).Ok? && !IsSps(p) && !IsPps(p)
  }

  ghost predicate IsKey(p: Packet) {
    IsPicture(p) && Kind(p).value.idr
  }

  ghost function Last(h: seq<Packet>, f: Packet -> bool): Option<Packet> {
    if h == [] then None
    else if f(h[|h| - 1]) then Some(h[|h| - 1])
    else Last(h[..|h| - 1], f)
  }

  ghost function Pictures(h: seq<Packet>): seq<Packet> {
    if h == [] then []
    else Pictures(h[..|h| - 1]) + if IsPicture(h[|h| - 1]) then [h[|h| - 1]] else []
  }

  /** The position of the last keyframe of h, or -1. */
  ghost function KeyAt(h: seq<Packet>): (k: int)
    ensures -1 <= k < |h|
  {
    if h == [] then -1
    else if IsKey(h[|h| - 1]) then |h| - 1
    else KeyAt(h[..|h| - 1])
  }

  /** The pictures of h from its last keyframe on. */
  ghost function Gop(h: seq<Packet>): seq<Packet> {
    if KeyAt(h) < 0 then [] else Pictures(h[KeyAt(h)..])
  }

  ghost function Opt(p: Option<Packet>): seq<Packet> {
    if p.Some? then [p.value] else []
  }

  /** What a consumer that joins after the packets h is given first. */
  ghost function Snapshot(h: seq<Packet>, cacheGop: bool): seq<Packet> {
    Opt(Last(h, IsSps)) + Opt(Last(h, IsPps)) + if cacheGop then Gop(h) else []
  }

  lemma {:induction false} KeyAtLast(h: seq<Packet>, i: nat)
    requires i < |h|
    ensures i == KeyAt(h) ==> IsKey(h[i])
    ensures i > KeyAt(h) ==> !IsKey(h[i])
  {
    hide IsKey;
    if i < |h| - 1 && !IsKey(h[|h| - 1]) { KeyAtLast(h[..|h| - 1], i); }
  }

  lemma KeyStep(h: seq<Packet>, p: Packet)
    ensures KeyAt(h + [p]) == if IsKey(p) then |h| else KeyAt(h)
  {
    hide IsKey;
    assert (h + [p])[..|h|] == h;
  }

  lemma LastStep(h: seq<Packet>, p: Packet, f: Packet -> bool)
    ensures Last(h + [p], f) == if f(p) then Some(p) else Last(h, f)
  {
    assert (h + [p])[..|h|] == h;
  }

  lemma PicturesNone()
    ensures Pictures([]) == []
  {
  }

  lemma PicturesStep(h: seq<Packet>, p: Packet)
    ensures Pictures(h + [p]) == Pictures(h) + if IsPicture(p) then [p] else []
  {
    hide IsPicture;
    assert (h + [p])[..|h|] == h;
  }

  lemma GopStep(h: seq<Packet>, p: Packet)
    ensures Gop(h + [p])
         == if IsKey(p) then [p] else if Gop(h) != [] && IsPicture(p) then Gop(h) + [p] else Gop(h)
  {
    hide Pictures, KeyAt, IsPicture, Kind;
    KeyStep(h, p);
    var k := KeyAt(h);
    if IsKey(p) {
      assert (h + [p])[|h|..] == [] + [p];
      PicturesStep([], p);
      PicturesNone();
    } else if k >= 0 {
      assert (h + [p])[k..] == h[k..] + [p];
      PicturesStep(h[k..], p);
      KeyAtLast(h, k);
      PicturesNonempty(h[k..]);
    }
  }

  lemma {:induction false} PicturesNonempty(h: seq<Packet>)
    requires h != [] && IsPicture(h[0])
    ensures Pictures(h) != []
  {
    hide IsPicture;
    if |h| <= 1 {
    } else {
      PicturesNonempty(h[..|h| - 1]);
    }
  }

  lemma {:induction false} PicturesLength(h: seq<Packet>)
    ensures |Pictures(h)| <= |h|
  {
    if h == [] {
    } else {
      PicturesLength(h[..|h| - 1]);
    }
  }

  /** An IDR picture aggregated with a parameter set is no keyframe for the
      server: nothing is cached from it, and no queue starts or stops dropping. */
  lemma KeyInAggregate(header: byte, units: seq<seq<byte>>, p: Packet)
    requires header % 32 == 24 && WellSized(units)
    requires p.channel == CHANNEL_VIDEO && p.payload == StapA(header, units)
    ensures IsKey(p) <==> SomeType(units, 5) && !SomeType(units, 7) && !SomeType(units, 8)
    ensures IsSps(p) <==> SomeType(units, 7)
    ensures IsPps(p) <==> SomeType(units, 8) && !SomeType(units, 7)
  {
    StapAFlags(header, units);
  }

  // ---- Streams of packets with a single unit each

  /** A packet of channel 0 that is a single unit of this type. */
  predicate CarriesType(p: Packet, nalType: int) {
    p.channel == 0 && |p.payload| >= 3 && p.payload[0] % 32 == nalType && 1 <= nalType <= 23
  }

  lemma SingleUnitKinds(p: Packet, nalType: int)
    requires CarriesType(p, nalType)
    ensures IsSps(p) <==> nalType == 7
    ensures IsPps(p) <==> nalType == 8
    ensures IsKey(p) <==> nalType == 5
    ensures IsPicture(p) <==> nalType != 7 && nalType != 8
    ensures Kind(p).Ok?
  {
    SingleUnitFlags(p.payload);
  }

  /** Packets of another channel are neither cached nor keyframes. */
  lemma OtherChannel(p: Packet)
    requires p.channel != 0
    ensures !IsSps(p) && !IsPps(p) && !IsKey(p) && !IsPicture(p) && Kind(p).Ok?
  {
  }

  /** Of a picture behind a keyframe, with no parameter set among its units, or
      of something else than video. */
  ghost predicate Follows(p: Packet) {
    p.channel != 0 || (exists t :: CarriesType(p, t) && t != 5 && t != 7 && t != 8)
  }

  function VideoOf(h: seq<Packet>): seq<Packet> {
    if h == [] then [] else VideoOf(h[..|h| - 1]) + if h[|h| - 1].channel == 0 then [h[|h| - 1]] else []
  }

  /** Whatever came before: after both parameter sets, a keyframe and packets
      that follow it, a new consumer is given these, and nothing else. */
  lemma {:induction false} OrdinaryStream(before: seq<Packet>, s: Packet, p: Packet, k: Packet, rest: seq<Packet>)
    requires CarriesType(s, 7) && CarriesType(p, 8) && CarriesType(k, 5)
    requires forall i :: 0 <= i < |rest| ==> Follows(rest[i])
    ensures var h := before + [s] + [p] + [k] + rest;
            && Snapshot(h, true) == [s, p, k] + VideoOf(rest) && Snapshot(h, false) == [s, p]
            && Last(h, IsSps) == Some(s) && Last(h, IsPps) == Some(p) && Gop(h) == [k] + VideoOf(rest)
    decreases |rest|
  {
    hide Last, Gop, IsSps, IsPps, IsKey, IsPicture;
    var start := before + [s] + [p] + [k];
    if rest == [] {
      SingleUnitKinds(s, 7);
      SingleUnitKinds(p, 8);
      SingleUnitKinds(k, 5);
      LastStep(before, s, IsSps);
      LastStep(before + [s], p, IsSps);
      LastStep(before + [s] + [p], k, IsSps);
      LastStep(before + [s], p, IsPps);
      LastStep(before + [s] + [p], k, IsPps);
      GopStep(before + [s] + [p], k);
      assert start + [] == start && [k] + [] == [k];
    } else {
      var n := |rest| - 1;
      var x := rest[n];
      OrdinaryStream(before, s, p, k, rest[..n]);
      assert start + rest == (start + rest[..n]) + [x];
      if x.channel != 0 {
        OtherChannel(x);
      } else {
        var t :| CarriesType(x, t) && t != 5 && t != 7 && t != 8;
        SingleUnitKinds(x, t);
      }
      LastStep(start + rest[..n], x, IsSps);
      LastStep(start + rest[..n], x, IsPps);
      GopStep(start + rest[..n], x);
    }
  }

  class Cache {
    const cacheGop: bool
    var sps: Option<Packet>
    var pps: Option<Packet>
    var gop: seq<Packet>
    ghost var seen: seq<Packet>   // the packets that went through since the last reset

    ghost predicate Valid()
      reads this
    {
      && sps == Last(seen, IsSps)
      && pps == Last(seen, IsPps)
      && gop == if cacheGop then Gop(seen) else []
    }

    constructor (cacheGop: bool)
      ensures Valid() && this.cacheGop == cacheGop && seen == []
    {
      this.cacheGop := cacheGop;
      sps, pps, gop, seen := None, None, [], [];
    }

    /** Whether the packet is a keyframe. */
    method CachePack(pack: Packet) returns (r: Result<bool>)
      requires Valid()
      modifies this
      ensures Valid()
      ensures Kind(pack).Ok? ==> r == Ok(IsKey(pack)) && seen == old(seen) + [pack]
      ensures Kind(pack).Panic? ==> r == Panic && unchanged(this)
    {
      hide Last, Gop, PayloadFlags;
      GopStep(seen, pack);
      LastStep(seen, pack, IsSps);
      LastStep(seen, pack, IsPps);
      if pack.channel != CHANNEL_VIDEO {
        seen := seen + [pack];
        return Ok(false);
      }
      var kind := PayloadType(pack.payload);
      if kind.Panic? { return Panic; }
      var flags := kind.value;
      seen := seen + [pack];
      if flags.sps {
        sps := Some(pack);
        return Ok(false);
      }
      if flags.pps {
        pps := Some(pack);
        return Ok(false);
      }
      if cacheGop {
        if flags.idr {
          gop := [pack];
        } else if |gop| > 0 {
          gop := gop + [pack];
        }
      }
      return Ok(flags.idr);
    }

    method Reset()
      modifies this
      ensures Valid() && seen == []
    {
      sps, pps, gop, seen := None, None, [], [];
    }

    /** The queue with the cached packets behind it, and their total size. */
    method PushTo(q: seq<Packet>) returns (r: seq<Packet>, bytes: nat)
      requires Valid()
      ensures r == q + Snapshot(seen, cacheGop)
      ensures bytes == TotalSize(Snapshot(seen, cacheGop))
    {
      hide Last, Gop, IsSps, IsPps, TotalSize;
      r, bytes := q, 0;
      ghost var out: seq<Packet> := [];
      TotalSizeNone();
      if sps.Some? {
        TotalSizeStep(out, sps.value);
        out := out + [sps.value];
        r := r + [sps.value];
        bytes := bytes + sps.value.Size();
      }
      assert r == q + out && bytes == TotalSize(out) && out == Opt(sps);
      if pps.Some? {
        TotalSizeStep(out, pps.value);
        out := out + [pps.value];
        r := r + [pps.value];
        bytes := bytes + pps.value.Size();
      }
      assert r == q + out && bytes == TotalSize(out) && out == Opt(sps) + Opt(pps);
      if cacheGop {
        var gopBytes := SizeOf(gop);
        TotalSizeAdd(out, gop);
        r := r + gop;
        bytes := bytes + gopBytes;
        assert r == q + (out + gop);
        out := out + gop;
      }
      assert out == Snapshot(seen, cacheGop);
    }

    method SizeOf(packs: seq<Packet>) returns (bytes: nat)
      ensures bytes == TotalSize(packs)
    {
      bytes := 0;
      for i := 0 to |packs|
        invariant bytes == TotalSize(packs[..i])
      {
        assert packs[..i + 1][..i] == packs[..i];
        bytes := bytes + packs[i].Size();
      }
      assert packs[..|packs|] == packs;
    }
  }
}
