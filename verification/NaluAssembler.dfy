/** The player's H.264 depacketiser: from RTP payloads to NAL units. */
module NaluAssembler {
  import opened Wrappers
  import opened BitStrings
  import opened ByteStrings
  import opened RtpPayload

  datatype Nalu = Nalu(ntype: int, nri: int, data: seq<byte>, dts: int, pts: int) {
    /** Four bytes of length, the header and the data. */
    function GetData(): seq<byte> {
      Bytes4(|data| + 1) + [nri / 32 % 4 * 32 + ntype % 32] + data
    }

    function GetSize(): nat {
      4 + 1 + |data|
    }
  }

  /** A time stamp of 0 counts as a missing one. */
  function NewNalu(ntype: int, nri: int, data: seq<byte>, dts: int, pts: int): Nalu {
    Nalu(ntype, nri, data, dts, if pts != 0 then pts else dts)
  }

  /** The importance bits of a header, in their place. */
  function Nri(header: byte): int {
    header / 32 % 4 * 32
  }

  /** The unit with this header as the player hands it on. */
  function Parsed(unit: seq<byte>, dts: int, pts: int): Nalu
    requires unit != []
  {
    NewNalu(unit[0] % 32, Nri(unit[0]), unit[1..], dts, pts)
  }

  /** The object stands for the unit: it hands on its length and its bytes, and
      has its type and the times given, of which a presentation time of 0 counts
      as missing. */
  predicate StandsFor(n: Nalu, unit: seq<byte>, dts: int, pts: int) {
    && unit != [] && n.GetData() == Bytes4(|unit|) + unit && n.GetSize() == 4 + |unit|
    && n.ntype == unit[0] % 32 && n.data == unit[1..]
    && n.dts == dts && (pts != 0 ==> n.pts == pts) && (pts == 0 ==> n.pts == dts)
  }

  /** A unit whose forbidden bit is 0 is passed on byte by byte. */
  lemma ParsedData(unit: seq<byte>, dts: int, pts: int)
    requires unit != [] && unit[0] < 128
    ensures StandsFor(Parsed(unit, dts, pts), unit, dts, pts)
  {
    assert unit == [unit[0]] + unit[1..];
  }

  // ---- What the code does, packet by packet

  /** JavaScript's subarray, which clamps its bounds. */
  function Subarray(s: seq<byte>, i: nat, j: int): seq<byte> {
    if i <= j <= |s| then s[i..j] else if i <= |s| <= j then s[i..] else []
  }

  /** The units of an aggregation packet from position i on. */
  ghost function Aggregated(s: seq<byte>, i: nat, dts: int, pts: int): Result<seq<Nalu>>
    decreases |s| - i
  {
    if i >= |s| then Ok([])
    else if i + 2 >= |s| then Panic
    else
      var size := Read2(s, i) - 1;
      var first := NewNalu(s[i + 2] % 32, Nri(s[i + 2]), Subarray(s, i + 3, i + 3 + size), dts, pts);
      Behind([first], Aggregated(s, i + 3 + size, dts, pts))
  }

  ghost function Behind(units: seq<Nalu>, r: Result<seq<Nalu>>): Result<seq<Nalu>> {
    if r.Ok? then Ok(units + r.value) else Panic
  }

  lemma BehindNothing(r: Result<seq<Nalu>>)
    ensures Behind([], r) == r
  {
    if r.Ok? { assert [] + r.value == r.value; }
  }

  lemma BehindEnd(units: seq<Nalu>)
    ensures Behind(units, Ok([])) == Ok(units)
  {
    assert units + [] == units;
  }

  lemma BehindPanic(units: seq<Nalu>)
    ensures Behind(units, Panic) == Panic
  {
  }

  lemma BehindOne(units: seq<Nalu>, unit: Nalu, r: Result<seq<Nalu>>)
    ensures Behind(units, Behind([unit], r)) == Behind(units + [unit], r)
  {
    if r.Ok? { assert units + ([unit] + r.value) == units + [unit] + r.value; }
  }

  /** A fragment: what is under assembly afterwards, and the finished unit. */
  ghost function Fragmented(asm: Option<Nalu>, s: seq<byte>, nri: int, dons: nat, dts: int, pts: int)
    : Result<(Option<Nalu>, Option<Nalu>)>
    requires dons in {0, 2}
  {
    if |s| < 1 + dons then Panic
    else
      var ntype, start, end, data := s[0] % 32, s[0] >= 128, s[0] % 128 >= 64, s[1 + dons..];
      if start then
        var unit := NewNalu(ntype, nri, data, dts, pts);
        Ok(if end then (None, Some(unit)) else (Some(unit), None))
      else if asm.Some? && asm.value.ntype == ntype then
        var unit := asm.value.(data := asm.value.data + data);
        Ok(if end then (None, Some(unit)) else (Some(unit), None))
      else Ok((asm, None))
  }

  ghost function Step(asm: Option<Nalu>, s: seq<byte>, dts: int, pts: int): Result<(Option<Nalu>, seq<Nalu>)> {
    if s == [] then Panic
    else
      var t := s[0] % 32;
      if 0 < t < 24 then Ok((asm, [Parsed(s, dts, pts)]))
      else if t == 28 || t == 29 then
        match Fragmented(asm, s[1..], Nri(s[0]), if t == 29 then 2 else 0, dts, pts)
        case Ok((asm', unit)) => Ok((asm', if unit.Some? then [unit.value] else []))
        case Panic => Panic
      else if t == 24 || t == 25 then
        if t == 25 && |s| < 3 then Panic
        else
          match Aggregated(s[1..], if t == 25 then 2 else 0, dts, pts)
          case Ok(units) => Ok((asm, units))
          case Panic => Panic
      else Ok((asm, []))
  }

  class NaluAsm {
    var fragmentedNalu: Option<Nalu>

    constructor ()
      ensures fragmentedNalu == None
    {
      fragmentedNalu := None;
    }

    static method ParseAggregationPacket(rawData: seq<byte>, stapB: bool, dts: int, pts: int)
      returns (r: Result<seq<Nalu>>)
      ensures r == if stapB && |rawData| < 2 then Panic else Aggregated(rawData, if stapB then 2 else 0, dts, pts)
    {
      hide Behind, NewNalu, Nri, Subarray;
      var idx := 0;
      if stapB {
        if |rawData| < 2 { return Panic; }
        idx := 2;
      }
      ghost var start := idx;
      var ret: seq<Nalu> := [];
      BehindNothing(Aggregated(rawData, idx, dts, pts));
      while idx < |rawData|
        invariant 0 <= start <= idx
        invariant Aggregated(rawData, start, dts, pts) == Behind(ret, Aggregated(rawData, idx, dts, pts))
      {
        ghost var before := ret;
        BehindPanic(before);
        if idx + 1 >= |rawData| { return Panic; }
        var size := Read2(rawData, idx) - 1;
        idx := idx + 2;
        if idx >= |rawData| { return Panic; }
        var header := rawData[idx];
        idx := idx + 1;
        ret := ret + [NewNalu(header % 32, Nri(header), Subarray(rawData, idx, idx + size), dts, pts)];
        idx := idx + size;
        BehindOne(before, ret[|before|], Aggregated(rawData, idx, dts, pts));
      }
      BehindEnd(ret);
      return Ok(ret);
    }

    method ParseFragmentationUnit(rawData: seq<byte>, fuB: bool, nri: int, dts: int, pts: int)
      returns (r: Result<Option<Nalu>>)
      modifies this
      ensures
        match Fragmented(old(fragmentedNalu), rawData, nri, if fuB then 2 else 0, dts, pts)
        case Ok((asm, unit)) => fragmentedNalu == asm && r == Ok(unit)
        case Panic => r == Panic && unchanged(this)
    {
      if |rawData| < 1 { return Panic; }
      var fuHeader := rawData[0];
      var isStart := fuHeader / 128 == 1;
      var isEnd := fuHeader / 64 % 2 == 1;
      var payloadType := fuHeader % 32;
      var idx := 1;
      if fuB {
        if |rawData| < 3 { return Panic; }
        idx := 3;
      }
      if isStart {
        fragmentedNalu := Some(NewNalu(payloadType, nri, rawData[idx..], dts, pts));
      }
      if fragmentedNalu.Some? && fragmentedNalu.value.ntype == payloadType {
        if !isStart {
          fragmentedNalu := Some(fragmentedNalu.value.(data := fragmentedNalu.value.data + rawData[idx..]));
        }
        if isEnd {
          var ret := fragmentedNalu;
          fragmentedNalu := None;
          return Ok(ret);
        }
      }
      return Ok(None);
    }

    method OnNaluFragment(rawData: seq<byte>, dts: int, pts: int) returns (r: Result<seq<Nalu>>)
      modifies this
      ensures
        match Step(old(fragmentedNalu), rawData, dts, pts)
        case Ok((asm, units)) => fragmentedNalu == asm && r == Ok(units)
        case Panic => r == Panic && unchanged(this)
    {
      if rawData == [] { return Panic; }
      var nri, t := Nri(rawData[0]), rawData[0] % 32;
      if 0 < t < 24 {
        return Ok([NewNalu(t, nri, rawData[1..], dts, pts)]);
      } else if t == 28 || t == 29 {
        var unit := ParseFragmentationUnit(rawData[1..], t == 29, nri, dts, pts);
        match unit
        case Ok(u) => return Ok(if u.Some? then [u.value] else []);
        case Panic => return Panic;
      } else if t == 24 || t == 25 {
        r := ParseAggregationPacket(rawData[1..], t == 25, dts, pts);
      } else {
        return Ok([]);
      }
    }
  }

  // ---- Runs of packets

  datatype Packet = Packet(payload: seq<byte>, dts: int, pts: int)

  /** The state after some packets, and all units that came out. */
  ghost function Run(asm: Option<Nalu>, ps: seq<Packet>): Result<(Option<Nalu>, seq<Nalu>)> {
    if ps == [] then Ok((asm, []))
    else
      match Run(asm, ps[..|ps| - 1])
      case Panic => Panic
      case Ok((asm', units)) =>
        var p := ps[|ps| - 1];
        match Step(asm', p.payload, p.dts, p.pts)
        case Panic => Panic
        case Ok((asm'', more)) => Ok((asm'', units + more))
  }

  lemma RunNone(asm: Option<Nalu>)
    ensures Run(asm, []) == Ok((asm, []))
  {
  }

  lemma RunStep(asm: Option<Nalu>, ps: seq<Packet>, p: Packet, asm': Option<Nalu>, units: seq<Nalu>,
                asm'': Option<Nalu>, more: seq<Nalu>)
    requires Run(asm, ps) == Ok((asm', units)) && Step(asm', p.payload, p.dts, p.pts) == Ok((asm'', more))
    ensures Run(asm, ps + [p]) == Ok((asm'', units + more))
    ensures units == [] ==> units + more == more
  {
    hide Step;
    assert (ps + [p])[..|ps|] == ps;
  }

  /** Which fragments of a unit arrive, in order. */
  ghost predicate Ascending(got: seq<nat>, n: nat) {
    (forall i :: 0 <= i < |got| ==> got[i] < n) && forall i, j :: 0 <= i < j < |got| ==> got[i] < got[j]
  }

  lemma {:induction false} AscendingFits(got: seq<nat>, n: nat)
    requires Ascending(got, n)
    ensures |got| <= n
  {
    if got == [] {
    } else {
      AscendingFits(got[..|got| - 1], got[|got| - 1]);
    }
  }

  /** The packets carry these fragments of one unit. */
  ghost predicate Carries(ps: seq<Packet>, header: byte, pieces: seq<seq<byte>>, got: seq<nat>) {
    |ps| == |got| && Ascending(got, |pieces|) &&
    forall i :: 0 <= i < |ps| ==>
      IsFragment(ps[i].payload, header, got[i] == 0, got[i] == |pieces| - 1, pieces[got[i]])
  }

  ghost function Pick(pieces: seq<seq<byte>>, got: seq<nat>): seq<seq<byte>>
    requires forall i :: 0 <= i < |got| ==> got[i] < |pieces|
  {
    if got == [] then [] else Pick(pieces, got[..|got| - 1]) + [pieces[got[|got| - 1]]]
  }

  /** What stands in a fragment of either kind, in front of the piece. */
  lemma FragmentRead(p: seq<byte>, header: byte, start: bool, end: bool, piece: seq<byte>) returns (h: byte, dons: nat)
    requires IsFragment(p, header, start, end, piece)
    ensures p != [] && (p[0] % 32 == 28 || p[0] % 32 == 29) && Nri(p[0]) == Nri(header)
    ensures dons == if p[0] % 32 == 29 then 2 else 0
    ensures |p| >= 2 + dons && p[1] == h && p[2 + dons..] == piece
    ensures h % 32 == header % 32 && (h >= 128 <==> start) && (h % 128 >= 64 <==> end)
  {
    h := p[1];
    dons := if p[0] % 32 == 29 then 2 else 0;
    assert h == (if start then 128 else 0) + (if end then 64 else 0) + header % 32;
  }

  /** The effect of a fragment does not depend on what was under assembly,
      unless it is a later fragment of the same unit. */
  lemma StepFragment(asm: Option<Nalu>, p: seq<byte>, header: byte, start: bool, end: bool, piece: seq<byte>,
                     dts: int, pts: int)
    requires IsFragment(p, header, start, end, piece)
    requires start || (asm.Some? && asm.value.ntype == header % 32)
    ensures
      var unit := if start then NewNalu(header % 32, Nri(header), piece, dts, pts)
                  else asm.value.(data := asm.value.data + piece);
      Step(asm, p, dts, pts) == Ok(if end then (None, [unit]) else (Some(unit), []))
  {
    hide IsFragment, Nri, NewNalu;
    var h, dons := FragmentRead(p, header, start, end, piece);
    assert p[1..][1 + dons..] == piece;
  }

  /** A later fragment of some other unit is dropped. */
  lemma StepForeign(asm: Option<Nalu>, p: seq<byte>, header: byte, end: bool, piece: seq<byte>, dts: int, pts: int)
    requires IsFragment(p, header, false, end, piece)
    requires asm.None? || asm.value.ntype != header % 32
    ensures Step(asm, p, dts, pts) == Ok((asm, []))
  {
    hide IsFragment, Nri, NewNalu;
    var h, dons := FragmentRead(p, header, false, end, piece);
    assert p[1..][1 + dons..] == piece;
  }

  /** What the fragments that arrive belong to, with their bytes added: a new
      unit if the first one is among them, else the unit under assembly if that
      has the same type, else nothing. */
  ghost function Assembly(asm: Option<Nalu>, ps: seq<Packet>, header: byte, pieces: seq<seq<byte>>, got: seq<nat>)
    : Option<Nalu>
    requires Carries(ps, header, pieces, got)
  {
    var data := Concat(Pick(pieces, got));
    if got != [] && got[0] == 0 then Some(NewNalu(header % 32, Nri(header), data, ps[0].dts, ps[0].pts))
    else if asm.Some? && asm.value.ntype == header % 32 then Some(asm.value.(data := asm.value.data + data))
    else None
  }

  /** How any of the fragments of a unit are taken, from any state: the unit
      comes out at the last fragment, and without it stays under assembly. */
  lemma {:induction false} FragmentsTaken(asm: Option<Nalu>, ps: seq<Packet>, header: byte,
                                          pieces: seq<seq<byte>>, got: seq<nat>)
    requires Carries(ps, header, pieces, got) && |pieces| >= 2
    ensures
      var unit := Assembly(asm, ps, header, pieces, got);
      Run(asm, ps) == Ok(if unit.None? then (asm, [])
                         else if got != [] && got[|got| - 1] == |pieces| - 1 then (None, [unit.value])
                         else (unit, []))
    decreases |got|
  {
    hide Step, Run, IsFragment, NewNalu, Nri;
    RunNone(asm);
    ConcatNone();
    if got == [] {
      assert asm.Some? ==> asm.value.data + [] == asm.value.data;
    } else {
      var k := |got| - 1;
      FragmentsTaken(asm, ps[..k], header, pieces, got[..k]);
      var piece, p := pieces[got[k]], ps[k];
      ConcatStep(Pick(pieces, got[..k]), piece);
      assert ps == ps[..k] + [p];
      var before := Assembly(asm, ps[..k], header, pieces, got[..k]);
      var unit := Assembly(asm, ps, header, pieces, got);
      var end := got[k] == |pieces| - 1;
      if unit.None? {
        StepForeign(asm, p.payload, header, end, piece, p.dts, p.pts);
        RunStep(asm, ps[..k], p, asm, [], asm, []);
      } else {
        var held := if before.Some? then before else asm;
        TypeKept(asm, ps[..k], header, pieces, got[..k]);
        StepFragment(held, p.payload, header, got[k] == 0, end, piece, p.dts, p.pts);
        AssemblyStep(asm, ps, header, pieces, got);
        RunStep(asm, ps[..k], p, held, [], if end then None else unit, if end then [unit.value] else []);
      }
    }
  }

  lemma TypeKept(asm: Option<Nalu>, ps: seq<Packet>, header: byte, pieces: seq<seq<byte>>, got: seq<nat>)
    requires Carries(ps, header, pieces, got)
    ensures var unit := Assembly(asm, ps, header, pieces, got); unit.Some? ==> unit.value.ntype == header % 32
  {}

  /** One more fragment is a new unit or extends the one there is. */
  lemma AssemblyStep(asm: Option<Nalu>, ps: seq<Packet>, header: byte, pieces: seq<seq<byte>>, got: seq<nat>)
    requires Carries(ps, header, pieces, got) && got != []
    requires Assembly(asm, ps, header, pieces, got).Some?
    ensures
      var k := |got| - 1;
      var piece, unit := pieces[got[k]], Assembly(asm, ps, header, pieces, got).value;
      if got[k] == 0 then unit == NewNalu(header % 32, Nri(header), piece, ps[k].dts, ps[k].pts)
      else var before := Assembly(asm, ps[..k], header, pieces, got[..k]);
           before.Some? && unit == before.value.(data := before.value.data + piece)
  {
    var k := |got| - 1;
    var front := Concat(Pick(pieces, got[..k]));
    ConcatStep(Pick(pieces, got[..k]), pieces[got[k]]);
    if got[k] == 0 {
      assert k == 0;
      assert got[..0] == [];
      assert front == [];
    } else if got[0] == 0 {
      assert got[..k][0] == 0;
    } else {
      assert asm.value.data + (front + pieces[got[k]]) == asm.value.data + front + pieces[got[k]];
    }
  }

  function UpTo(n: nat): (s: seq<nat>)
    ensures |s| == n && forall i :: 0 <= i < n ==> s[i] == i
  {
    if n == 0 then [] else UpTo(n - 1) + [n - 1]
  }

  lemma {:induction false} PickAll(pieces: seq<seq<byte>>, n: nat)
    requires n <= |pieces|
    ensures Pick(pieces, UpTo(n)) == pieces[..n]
  {
    if n == 0 {
    } else {
      PickAll(pieces, n - 1);
      assert UpTo(n)[..n - 1] == UpTo(n - 1);
    }
  }

  /** Whatever was under assembly, a unit cut into two or more fragments comes
      out exactly once, at the last one, with the bytes it had; it has the time
      of its first fragment. */
  lemma FragmentsRoundTrip(asm: Option<Nalu>, ps: seq<Packet>, header: byte, pieces: seq<seq<byte>>)
    requires Carries(ps, header, pieces, UpTo(|pieces|)) && |pieces| >= 2 && header < 128
    ensures Run(asm, ps[..|ps| - 1]).Ok? && Run(asm, ps[..|ps| - 1]).value.1 == []
    ensures var unit := [header] + Concat(pieces);
            && Run(asm, ps) == Ok((None, [Parsed(unit, ps[0].dts, ps[0].pts)]))
            && StandsFor(Parsed(unit, ps[0].dts, ps[0].pts), unit, ps[0].dts, ps[0].pts)
  {
    hide Run, Step, Concat, IsFragment, NewNalu, Nri, Nalu.GetData;
    var n := |pieces|;
    NothingEarly(asm, ps, header, pieces);
    FragmentsTaken(asm, ps, header, pieces, UpTo(n));
    PickAll(pieces, n);
    assert pieces[..n] == pieces;
    ParsedData([header] + Concat(pieces), ps[0].dts, ps[0].pts);
    assert ([header] + Concat(pieces))[1..] == Concat(pieces);
  }

  lemma NothingEarly(asm: Option<Nalu>, ps: seq<Packet>, header: byte, pieces: seq<seq<byte>>)
    requires Carries(ps, header, pieces, UpTo(|pieces|)) && |pieces| >= 2
    ensures Run(asm, ps[..|ps| - 1]).Ok? && Run(asm, ps[..|ps| - 1]).value.1 == []
  {
    hide Run, Concat, IsFragment, NewNalu, Nri;
    var n := |pieces|;
    assert UpTo(n)[..n - 1] == UpTo(n - 1);
    FragmentsTaken(asm, ps[..n - 1], header, pieces, UpTo(n - 1));
  }

  /** Nothing of pieces[..n] is missing but empty pieces. */
  ghost predicate NothingLost(pieces: seq<seq<byte>>, got: seq<nat>, n: nat)
    requires n <= |pieces|
  {
    forall k :: 0 <= k < n && k !in got ==> pieces[k] == []
  }

  lemma {:induction false} PickedBytes(pieces: seq<seq<byte>>, got: seq<nat>, n: nat)
    requires n <= |pieces| && Ascending(got, n)
    ensures |Concat(Pick(pieces, got))| <= |Concat(pieces[..n])|
    ensures |Concat(Pick(pieces, got))| == |Concat(pieces[..n])| ==> NothingLost(pieces, got, n)
    ensures NothingLost(pieces, got, n) ==> Concat(Pick(pieces, got)) == Concat(pieces[..n])
    decreases n
  {
    if n == 0 {
      AscendingFits(got, 0);
      assert pieces[..0] == [];
    } else {
      hide Concat, NothingLost;
      assert pieces[..n] == pieces[..n - 1] + [pieces[n - 1]];
      ConcatStep(pieces[..n - 1], pieces[n - 1]);
      LostStep(pieces, got, n);
      if got != [] && got[|got| - 1] == n - 1 {
        var front := got[..|got| - 1];
        PickedBytes(pieces, front, n - 1);
        ConcatStep(Pick(pieces, front), pieces[n - 1]);
      } else {
        PickedBytes(pieces, got, n - 1);
        assert pieces[n - 1] == [] ==> Concat(pieces[..n - 1]) + pieces[n - 1] == Concat(pieces[..n - 1]);
      }
    }
  }

  lemma LostStep(pieces: seq<seq<byte>>, got: seq<nat>, n: nat)
    requires 0 < n <= |pieces| && Ascending(got, n)
    ensures NothingLost(pieces, got, n) <==>
              if got != [] && got[|got| - 1] == n - 1 then NothingLost(pieces, got[..|got| - 1], n - 1)
              else NothingLost(pieces, got, n - 1) && pieces[n - 1] == []
  {
    if got != [] && got[|got| - 1] == n - 1 {
      var front := got[..|got| - 1];
      assert got == front + [n - 1];
      assert forall k :: 0 <= k < n - 1 ==> (k in got <==> k in front);
    }
  }

  /** Nothing tells the player that fragments got lost. When the first and the
      last one arrive, those that arrive come out as a unit, from any state,
      which is the unit that was sent exactly if all others were empty. */
  lemma LostFragments(asm: Option<Nalu>, ps: seq<Packet>, header: byte, pieces: seq<seq<byte>>, got: seq<nat>)
    requires Carries(ps, header, pieces, got) && |pieces| >= 2 && got != []
    requires got[0] == 0 && got[|got| - 1] == |pieces| - 1
    ensures var sent, unit := [header] + Concat(pieces), [header] + Concat(Pick(pieces, got));
            Run(asm, ps) == Ok((None, [Parsed(unit, ps[0].dts, ps[0].pts)])) &&
            (header < 128 ==> StandsFor(Parsed(unit, ps[0].dts, ps[0].pts), unit, ps[0].dts, ps[0].pts)) &&
            (unit == sent <==> NothingLost(pieces, got, |pieces|))
  {
    var unit := [header] + Concat(Pick(pieces, got));
    FragmentsTaken(asm, ps, header, pieces, got);
    assert unit[1..] == Concat(Pick(pieces, got));
    PickedBytes(pieces, got, |pieces|);
    assert pieces[..|pieces|] == pieces;
    assert ([header] + Concat(pieces))[1..] == Concat(pieces);
    if header < 128 { ParsedData(unit, ps[0].dts, ps[0].pts); }
  }

  /** When the first fragment is lost, the others are added to a unit of the
      same type under assembly, with whose header and time they come out, and
      are dropped otherwise. */
  lemma LostStart(asm: Option<Nalu>, ps: seq<Packet>, header: byte, pieces: seq<seq<byte>>, got: seq<nat>)
    requires Carries(ps, header, pieces, got) && |pieces| >= 2 && 0 !in got
    ensures asm.None? || asm.value.ntype != header % 32 ==> Run(asm, ps) == Ok((asm, []))
    ensures asm.Some? && asm.value.ntype == header % 32 ==>
              var unit := asm.value.(data := asm.value.data + Concat(Pick(pieces, got)));
              Run(asm, ps) == Ok(if |pieces| - 1 in got then (None, [unit]) else (Some(unit), []))
  {
    FragmentsTaken(asm, ps, header, pieces, got);
    if |pieces| - 1 in got {
      var i :| 0 <= i < |got| && got[i] == |pieces| - 1;
      assert got[i] <= got[|got| - 1];
    }
  }

  ghost function ParsedAll(units: seq<seq<byte>>, dts: int, pts: int): seq<Nalu>
    requires WellSized(units)
  {
    if units == [] then [] else [Parsed(units[0], dts, pts)] + ParsedAll(units[1..], dts, pts)
  }

  lemma {:induction false} AggregateUnits(pre: seq<byte>, units: seq<seq<byte>>, dts: int, pts: int)
    requires WellSized(units)
    ensures Aggregated(pre + Units(units), |pre|, dts, pts) == Ok(ParsedAll(units, dts, pts))
    decreases |units|
  {
    hide Sized, NewNalu, Nri, Units, Parsed, Aggregated;
    if units == [] {
      AggregateEnd(pre, dts, pts);
      NoUnits();
      assert pre + [] == pre;
    } else {
      UnitsStep(units);
      AggregateUnits(pre + Sized(units[0]), units[1..], dts, pts);
      assert pre + Units(units) == pre + Sized(units[0]) + Units(units[1..]);
      AggregateUnit(pre, units[0], Units(units[1..]), dts, pts);
    }
  }

  lemma AggregateEnd(s: seq<byte>, dts: int, pts: int)
    ensures Aggregated(s, |s|, dts, pts) == Ok([])
  {
  }

  lemma AggregateUnit(pre: seq<byte>, u: seq<byte>, rest: seq<byte>, dts: int, pts: int)
    requires 1 <= |u| < 0x1_0000
    ensures Aggregated(pre + Sized(u) + rest, |pre|, dts, pts)
         == Behind([Parsed(u, dts, pts)], Aggregated(pre + Sized(u) + rest, |pre + Sized(u)|, dts, pts))
  {
    hide NewNalu, Nri, Sized, Read2, Behind;
    SizedAt(pre, u, rest);
  }

  lemma SizedAt(pre: seq<byte>, u: seq<byte>, rest: seq<byte>)
    requires 1 <= |u| < 0x1_0000
    ensures var s, p := pre + Sized(u) + rest, |pre|;
            && |pre + Sized(u)| == p + 2 + |u| && |s| == p + 2 + |u| + |rest|
            && Read2(s, p) == |u| && s[p + 2] == u[0] && s[p + 3..p + 2 + |u|] == u[1..]
  {
    var s := pre + Sized(u) + rest;
    assert s[|pre|] == Sized(u)[0] && s[|pre| + 1] == Sized(u)[1] && s[|pre| + 2] == Sized(u)[2] == u[0];
  }

  /** A single-time aggregation packet comes out as the units in it, whatever is
      under assembly, and that is left alone. */
  lemma AggregateRoundTrip(asm: Option<Nalu>, header: byte, units: seq<seq<byte>>, dts: int, pts: int)
    requires header % 32 == 24 && WellSized(units)
    ensures Step(asm, StapA(header, units), dts, pts) == Ok((asm, ParsedAll(units, dts, pts)))
    ensures |ParsedAll(units, dts, pts)| == |units|
    ensures forall i :: 0 <= i < |units| && units[i][0] < 128 ==>
              StandsFor(ParsedAll(units, dts, pts)[i], units[i], dts, pts)
  {
    hide Aggregated, NewNalu, Nri, Parsed, Units;
    AggregateUnits([], units, dts, pts);
    assert StapA(header, units)[1..] == Units(units) == [] + Units(units);
    ParsedAllAt(units, dts, pts);
    forall i | 0 <= i < |units| && units[i][0] < 128
      ensures StandsFor(Parsed(units[i], dts, pts), units[i], dts, pts)
    {
      ParsedData(units[i], dts, pts);
    }
  }

  /** With a decoding order number as well, which the player skips. */
  lemma StapBRoundTrip(asm: Option<Nalu>, header: byte, don: nat, units: seq<seq<byte>>, dts: int, pts: int)
    requires header % 32 == 25 && don < 0x1_0000 && WellSized(units)
    ensures Step(asm, StapB(header, don, units), dts, pts) == Ok((asm, ParsedAll(units, dts, pts)))
  {
    hide Aggregated, NewNalu, Nri, Parsed, Units;
    var pre := [don / 256, don % 256];
    AggregateUnits(pre, units, dts, pts);
    assert StapB(header, don, units)[1..] == pre + Units(units);
  }

  /** A packet with a single unit comes out as that unit, whatever is under
      assembly, and that is left alone. */
  lemma SingleUnit(asm: Option<Nalu>, unit: seq<byte>, dts: int, pts: int) returns (n: Nalu)
    requires unit != [] && 1 <= unit[0] % 32 <= 23 && unit[0] < 128
    ensures Step(asm, unit, dts, pts) == Ok((asm, [n])) && StandsFor(n, unit, dts, pts)
  {
    n := Parsed(unit, dts, pts);
    ParsedData(unit, dts, pts);
  }

  /** Packets of types without a meaning to the player are ignored. */
  lemma OtherTypes(asm: Option<Nalu>, s: seq<byte>, dts: int, pts: int)
    requires s != [] && s[0] % 32 in {0, 26, 27, 30, 31}
    ensures Step(asm, s, dts, pts) == Ok((asm, []))
  {
  }

  /** A packet is too short to be read exactly if its headers are cut off; of an
      aggregate, the size or the header of a unit. */
  lemma TooShort(asm: Option<Nalu>, s: seq<byte>, dts: int, pts: int)
    requires s == [] || s[0] % 32 !in {24, 25}
    ensures Step(asm, s, dts, pts) == Panic <==>
              s == [] || (s[0] % 32 == 28 && |s| < 2) || (s[0] % 32 == 29 && |s| < 4)
  {
  }

  lemma ShortAggregate(header: byte, units: seq<seq<byte>>, rest: seq<byte>, asm: Option<Nalu>, dts: int, pts: int)
    requires header % 32 == 24 && WellSized(units) && 1 <= |rest| <= 2
    ensures Step(asm, StapA(header, units) + rest, dts, pts) == Panic
  {
    hide Aggregated, NewNalu, Nri, Parsed, Units;
    ShortUnits([], units, rest, dts, pts);
    assert (StapA(header, units) + rest)[1..] == [] + Units(units) + rest;
  }

  lemma {:induction false} ShortUnits(pre: seq<byte>, units: seq<seq<byte>>, rest: seq<byte>, dts: int, pts: int)
    requires WellSized(units) && 1 <= |rest| <= 2
    ensures Aggregated(pre + Units(units) + rest, |pre|, dts, pts) == Panic
    decreases |units|
  {
    hide Sized, NewNalu, Nri, Units, Parsed, Aggregated;
    if units == [] {
      NoUnits();
      ShortEnd(pre, rest, dts, pts);
      assert pre + [] + rest == pre + rest;
    } else {
      UnitsStep(units);
      ShortUnits(pre + Sized(units[0]), units[1..], rest, dts, pts);
      assert pre + Units(units) + rest == pre + Sized(units[0]) + (Units(units[1..]) + rest);
      assert pre + Sized(units[0]) + Units(units[1..]) + rest == pre + Sized(units[0]) + (Units(units[1..]) + rest);
      AggregateUnit(pre, units[0], Units(units[1..]) + rest, dts, pts);
    }
  }

  lemma ShortEnd(pre: seq<byte>, rest: seq<byte>, dts: int, pts: int)
    requires 1 <= |rest| <= 2
    ensures Aggregated(pre + rest, |pre|, dts, pts) == Panic
  {
  }

  /** A unit that is cut off comes out as far as it goes. */
  lemma CutOff(header: byte, size: nat, unit: seq<byte>, asm: Option<Nalu>, dts: int, pts: int) returns (n: Nalu)
    requires header % 32 == 24 && 0 < |unit| <= size < 0x1_0000 && unit[0] < 128
    ensures Step(asm, [header, size / 256, size % 256] + unit, dts, pts) == Ok((asm, [n])) && StandsFor(n, unit, dts, pts)
  {
    hide NewNalu, Nri;
    var s := [header, size / 256, size % 256] + unit;
    var r := s[1..];
    assert Read2(r, 0) == size && r[2] == unit[0] && r[3..] == unit[1..];
    assert r[3..|r|] == unit[1..];
    n := Parsed(unit, dts, pts);
    ParsedData(unit, dts, pts);
    assert Subarray(r, 3, 3 + size - 1) == unit[1..];
    assert Aggregated(r, 3 + size - 1, dts, pts) == Ok([]);
    assert [n] + [] == [n];
  }

  lemma {:induction false} ParsedAllAt(units: seq<seq<byte>>, dts: int, pts: int)
    requires WellSized(units)
    ensures |ParsedAll(units, dts, pts)| == |units|
    ensures forall i :: 0 <= i < |units| ==> ParsedAll(units, dts, pts)[i] == Parsed(units[i], dts, pts)
  {
    if units == [] {
    } else {
      ParsedAllAt(units[1..], dts, pts);
    }
  }
}
