/** Fragmented MP4 as the player writes it, and as a reader finds its way in it
    (ISO/IEC 14496-12, sections 4.2 and 8.8). */
module Mp4 {
  import opened Wrappers
  import opened BitStrings
  import opened ByteStrings

  type BoxType = s: seq<byte> | |s| == 4 witness [0, 0, 0, 0]

  const MOOF: BoxType := [0x6d, 0x6f, 0x6f, 0x66]
  const MFHD: BoxType := [0x6d, 0x66, 0x68, 0x64]
  const TRAF: BoxType := [0x74, 0x72, 0x61, 0x66]
  const TFHD: BoxType := [0x74, 0x66, 0x68, 0x64]
  const TFDT: BoxType := [0x74, 0x66, 0x64, 0x74]
  const TRUN: BoxType := [0x74, 0x72, 0x75, 0x6e]
  const SDTP: BoxType := [0x73, 0x64, 0x74, 0x70]
  const MDAT: BoxType := [0x6d, 0x64, 0x61, 0x74]

  /** A box: its size, its type and what is in it. */
  function Box(t: BoxType, body: seq<byte>): (r: seq<byte>)
    ensures |r| == 8 + |body|
  {
    Bytes4(8 + |body|) + t + body
  }

  /** The sizes of the parts, and eight bytes more. */
  method BoxSize(payload: seq<seq<byte>>) returns (size: nat)
    ensures size == 8 + |Concat(payload)|
  {
    size := 8;
    var i := |payload|;
    ConcatLength(payload, 0);
    while i > 0
      invariant 0 <= i <= |payload|
      invariant size + LengthTo(payload, i) == 8 + |Concat(payload)|
    {
      i := i - 1;
      size := size + |payload[i]|;
    }
  }

  method MakeBox(t: BoxType, payload: seq<seq<byte>>) returns (result: array<byte>)
    ensures fresh(result) && result[..] == Box(t, Concat(payload))
  {
    hide Bytes4, Concat;
    var size := BoxSize(payload);
    result := new byte[size](_ => 0);
    var head := Bytes4(size) + t;
    Copy(result, 0, head);
    assert result[..8] == head && payload[..0] == [];
    ConcatLength(payload, 0);
    ConcatNone();
    assert head + [] == head;
    size := 8;
    for k := 0 to |payload|
      invariant size == 8 + LengthTo(payload, k) <= result.Length
      invariant size + (|Concat(payload)| - LengthTo(payload, k)) == result.Length
      invariant result[..size] == head + Concat(payload[..k])
    {
      assert payload[..k + 1] == payload[..k] + [payload[k]];
      ConcatStep(payload[..k], payload[k]);
      ConcatLength(payload, k + 1);
      assert head + (Concat(payload[..k]) + payload[k]) == head + Concat(payload[..k]) + payload[k];
      Copy(result, size, payload[k]);
      size := size + |payload[k]|;
    }
    assert payload[..|payload|] == payload && result[..size] == result[..];
  }

  /** Stores a part at a position. */
  method Copy(result: array<byte>, size: nat, part: seq<byte>)
    requires size + |part| <= result.Length
    modifies result
    ensures result[..size + |part|] == old(result[..size]) + part
    ensures result[size + |part|..] == old(result[size + |part|..])
  {
    for j := 0 to |part|
      invariant result[..size + j] == old(result[..size]) + part[..j]
      invariant result[size + |part|..] == old(result[size + |part|..])
    {
      result[size + j] := part[j];
      assert result[..size + j + 1] == result[..size + j] + [part[j]];
    }
    assert part[..|part|] == part;
  }

  ghost function LengthTo(parts: seq<seq<byte>>, k: nat): nat
    requires k <= |parts|
  {
    if k == 0 then 0 else LengthTo(parts, k - 1) + |parts[k - 1]|
  }

  lemma {:induction false} ConcatTo(parts: seq<seq<byte>>, k: nat)
    requires k <= |parts|
    ensures |Concat(parts[..k])| == LengthTo(parts, k)
  {
    if k == 0 {
    } else {
      ConcatTo(parts, k - 1);
      assert parts[..k][..k - 1] == parts[..k - 1];
    }
  }

  lemma {:induction false} LengthGrows(parts: seq<seq<byte>>, k: nat, n: nat)
    requires k <= n <= |parts|
    ensures LengthTo(parts, k) <= LengthTo(parts, n)
  {
    if k >= n {
    } else {
      LengthGrows(parts, k, n - 1);
    }
  }

  lemma ConcatLength(parts: seq<seq<byte>>, k: nat)
    requires k <= |parts|
    ensures |Concat(parts)| == LengthTo(parts, |parts|) && LengthTo(parts, k) <= |Concat(parts)|
  {
    ConcatTo(parts, |parts|);
    assert parts[..|parts|] == parts;
    LengthGrows(parts, k, |parts|);
  }

  // ---- Reading boxes

  datatype BoxRead = BoxRead(kind: seq<byte>, body: seq<byte>)

  /** The boxes in a row that make up s. */
  ghost function Boxes(s: seq<byte>): Option<seq<BoxRead>> {
    if s == [] then Some([])
    else if |s| < 8 || Read4(s, 0) < 8 || Read4(s, 0) > |s| then None
    else
      var n := Read4(s, 0);
      match Boxes(s[n..])
      case Some(rest) => Some([BoxRead(s[4..8], s[8..n])] + rest)
      case None => None
  }

  lemma SizeField(t: BoxType, body: seq<byte>, rest: seq<byte>)
    ensures Read4(Box(t, body) + rest, 0) == |Box(t, body)| <==> |Box(t, body)| < 0x1_0000_0000
  {
    Bytes4RoundTrip(8 + |body|);
  }

  lemma BoxThen(t: BoxType, body: seq<byte>, rest: seq<byte>)
    requires |Box(t, body)| < 0x1_0000_0000
    ensures Boxes(Box(t, body) + rest)
         == if Boxes(rest).Some? then Some([BoxRead(t, body)] + Boxes(rest).value) else None
  {
    hide Read4, Bytes4;
    var b := Box(t, body);
    var s := b + rest;
    SizeField(t, body, rest);
    assert s[|b|..] == rest && s[4..8] == t && s[8..|b|] == body;
  }

  // ---- The boxes of a fragment

  datatype Sample = Sample(size: nat, duration: int, cts: int, dependsOn: int, isNonSync: int)

  function Entry(s: Sample): (r: seq<byte>)
    ensures |r| == 16
  {
    Bytes4(s.duration) + Bytes4(s.size) + [s.dependsOn % 256, s.isNonSync % 256, 0, 0] + Bytes4(s.cts)
  }

  function Entries(samples: seq<Sample>): (r: seq<byte>)
    ensures |r| == 16 * |samples|
  {
    if samples == [] then [] else Entries(samples[..|samples| - 1]) + Entry(samples[|samples| - 1])
  }

  function DependsOn(samples: seq<Sample>): (r: seq<byte>)
    ensures |r| == |samples|
  {
    if samples == [] then []
    else DependsOn(samples[..|samples| - 1]) + [samples[|samples| - 1].dependsOn % 16 * 16]
  }

  function SdtpBody(samples: seq<Sample>): seq<byte> {
    [0, 0, 0, 0] + DependsOn(samples)
  }

  /** The offset argument counts what is in front of the box and behind it. */
  function TrunBody(samples: seq<Sample>, offset: nat): seq<byte> {
    [0, 0, 0x0f, 0x01] + Bytes4(|samples|) + Bytes4(offset + 8 + 12 + 16 * |samples|) + Entries(samples)
  }

  function TrafBody(id: int, samples: seq<Sample>, baseTime: int): seq<byte> {
    var sdtp := Box(SDTP, SdtpBody(samples));
    Box(TFHD, [0, 0, 0, 0] + Bytes4(id)) + Box(TFDT, [0, 0, 0, 0] + Bytes4(baseTime))
    + Box(TRUN, TrunBody(samples, |sdtp| + 16 + 16 + 8 + 16 + 8 + 8)) + sdtp
  }

  function MoofBody(sn: int, id: int, samples: seq<Sample>, baseTime: int): seq<byte> {
    Box(MFHD, [0, 0, 0, 0] + Bytes4(sn)) + Box(TRAF, TrafBody(id, samples, baseTime))
  }

  /** One fragment of a track: the description of its samples, and their data. */
  function Fragment(sn: int, id: int, samples: seq<Sample>, baseTime: int, data: seq<byte>): seq<byte> {
    Box(MOOF, MoofBody(sn, id, samples, baseTime)) + Box(MDAT, data)
  }

  lemma EntriesNone()
    ensures Entries([]) == []
  {
  }

  lemma EntriesStep(samples: seq<Sample>, i: nat)
    requires i < |samples|
    ensures Entries(samples[..i + 1]) == Entries(samples[..i]) + Entry(samples[i])
  {
    assert samples[..i + 1][..i] == samples[..i];
  }

  method FillTrun(table: array<byte>, samples: seq<Sample>, offset: nat)
    requires table.Length == 12 + 16 * |samples|
    modifies table
    ensures table[..] == [0, 0, 0x0f, 0x01] + Bytes4(|samples|) + Bytes4(offset) + Entries(samples)
  {
    hide Bytes4, Entry, Entries;
    var len := |samples|;
    var head := [0, 0, 0x0f, 0x01] + Bytes4(len) + Bytes4(offset);
    Copy(table, 0, head);
    assert table[..12] == head && samples[..0] == [];
    EntriesNone();
    var pos := 12;
    for i := 0 to len
      invariant pos == 12 + 16 * i <= table.Length
      invariant table[..pos] == head + Entries(samples[..i])
    {
      EntriesStep(samples, i);
      Copy(table, pos, Entry(samples[i]));
      pos := pos + 16;
      assert head + (Entries(samples[..i]) + Entry(samples[i])) == head + Entries(samples[..i]) + Entry(samples[i]);
    }
    assert samples[..len] == samples && table[..pos] == table[..];
  }

  /** The run table with its offset filled in. */
  method MakeTrun(samples: seq<Sample>, offset0: nat) returns (result: array<byte>)
    ensures fresh(result) && result[..] == Box(TRUN, TrunBody(samples, offset0))
  {
    hide Bytes4, Entries, Box, Concat;
    var len := |samples|;
    var arraylen := 12 + 16 * len;
    var table := new byte[arraylen](_ => 0);
    var offset := offset0 + 8 + arraylen;
    FillTrun(table, samples, offset);
    var payload := [table[..]];
    ConcatOne(table[..]);
    result := MakeBox(TRUN, payload);
  }

  // ---- What a reader finds

  lemma FragmentLength(sn: int, id: int, samples: seq<Sample>, baseTime: int, data: seq<byte>)
    ensures |Box(MOOF, MoofBody(sn, id, samples, baseTime))| == 96 + 17 * |samples|
    ensures |Fragment(sn, id, samples, baseTime, data)| == 104 + 17 * |samples| + |data|
  {
  }

  lemma TwoBoxes(t1: BoxType, b1: seq<byte>, t2: BoxType, b2: seq<byte>)
    requires |Box(t1, b1)| < 0x1_0000_0000 && |Box(t2, b2)| < 0x1_0000_0000
    ensures Boxes(Box(t1, b1) + Box(t2, b2)) == Some([BoxRead(t1, b1), BoxRead(t2, b2)])
  {
    hide Box, Boxes;
    BoxThen(t1, b1, Box(t2, b2));
    OneBox(t2, b2);
    assert [BoxRead(t1, b1)] + [BoxRead(t2, b2)] == [BoxRead(t1, b1), BoxRead(t2, b2)];
  }

  lemma OneBox(t: BoxType, b: seq<byte>)
    requires |Box(t, b)| < 0x1_0000_0000
    ensures Boxes(Box(t, b)) == Some([BoxRead(t, b)])
  {
    hide Box;
    BoxThen(t, b, []);
    assert Box(t, b) + [] == Box(t, b);
    assert [BoxRead(t, b)] + [] == [BoxRead(t, b)];
  }

  /** A fragment reads as nested boxes whose size fields are their lengths. */
  lemma FragmentBoxes(sn: int, id: int, samples: seq<Sample>, baseTime: int, data: seq<byte>)
    requires |Fragment(sn, id, samples, baseTime, data)| < 0x1_0000_0000
    ensures Boxes(Fragment(sn, id, samples, baseTime, data))
         == Some([BoxRead(MOOF, MoofBody(sn, id, samples, baseTime)), BoxRead(MDAT, data)])
    ensures Boxes(MoofBody(sn, id, samples, baseTime))
         == Some([BoxRead(MFHD, [0, 0, 0, 0] + Bytes4(sn)), BoxRead(TRAF, TrafBody(id, samples, baseTime))])
    ensures Boxes(TrafBody(id, samples, baseTime))
         == Some([BoxRead(TFHD, [0, 0, 0, 0] + Bytes4(id)), BoxRead(TFDT, [0, 0, 0, 0] + Bytes4(baseTime)),
                  BoxRead(TRUN, TrunBody(samples, 84 + |samples|)), BoxRead(SDTP, SdtpBody(samples))])
  {
    FragmentLength(sn, id, samples, baseTime, data);
    TwoBoxes(MOOF, MoofBody(sn, id, samples, baseTime), MDAT, data);
    TwoBoxes(MFHD, [0, 0, 0, 0] + Bytes4(sn), TRAF, TrafBody(id, samples, baseTime));
    TrafBoxes(id, samples, baseTime);
  }

  lemma TrafBoxes(id: int, samples: seq<Sample>, baseTime: int)
    requires 104 + 17 * |samples| < 0x1_0000_0000
    ensures Boxes(TrafBody(id, samples, baseTime))
         == Some([BoxRead(TFHD, [0, 0, 0, 0] + Bytes4(id)), BoxRead(TFDT, [0, 0, 0, 0] + Bytes4(baseTime)),
                  BoxRead(TRUN, TrunBody(samples, 84 + |samples|)), BoxRead(SDTP, SdtpBody(samples))])
  {
    hide Boxes, Bytes4;
    var b1, b2 := [0, 0, 0, 0] + Bytes4(id), [0, 0, 0, 0] + Bytes4(baseTime);
    var b3, b4 := TrunBody(samples, 84 + |samples|), SdtpBody(samples);
    TwoBoxes(TRUN, b3, SDTP, b4);
    BoxThen(TFDT, b2, Box(TRUN, b3) + Box(SDTP, b4));
    BoxThen(TFHD, b1, Box(TFDT, b2) + (Box(TRUN, b3) + Box(SDTP, b4)));
    assert TrafBody(id, samples, baseTime) == Box(TFHD, b1) + (Box(TFDT, b2) + (Box(TRUN, b3) + Box(SDTP, b4)));
    assert [BoxRead(TFDT, b2)] + [BoxRead(TRUN, b3), BoxRead(SDTP, b4)]
        == [BoxRead(TFDT, b2), BoxRead(TRUN, b3), BoxRead(SDTP, b4)];
    assert [BoxRead(TFHD, b1)] + [BoxRead(TFDT, b2), BoxRead(TRUN, b3), BoxRead(SDTP, b4)]
        == [BoxRead(TFHD, b1), BoxRead(TFDT, b2), BoxRead(TRUN, b3), BoxRead(SDTP, b4)];
  }

  /** The size of the i-th sample in a run table. */
  function SizeIn(trun: seq<byte>, i: nat): nat
    requires 12 + 16 * i + 8 <= |trun|
  {
    Read4(trun, 12 + 16 * i + 4)
  }

  lemma {:induction false} EntryAt(samples: seq<Sample>, i: nat) returns (after: seq<byte>)
    requires i < |samples|
    ensures Entries(samples) == Entries(samples[..i]) + Entry(samples[i]) + after
    decreases |samples|
  {
    var n := |samples| - 1;
    if i < n {
      var rest := EntryAt(samples[..n], i);
      assert samples[..n][..i] == samples[..i];
      after := rest + Entry(samples[n]);
    } else {
      after := [];
    }
  }

  lemma TrunReads(samples: seq<Sample>, offset: nat, i: nat)
    requires i < |samples| && samples[i].size < 0x1_0000_0000
    ensures SizeIn(TrunBody(samples, offset), i) == samples[i].size
  {
    hide Bytes4, Read4, Entries;
    var t := TrunBody(samples, offset);
    var rest := EntryAt(samples, i);
    var x := samples[i];
    var head := [0, 0, 0x0f, 0x01] + Bytes4(|samples|) + Bytes4(offset + 8 + 12 + 16 * |samples|);
    var before := head + Entries(samples[..i]) + Bytes4(x.duration);
    var after := [x.dependsOn % 256, x.isNonSync % 256, 0, 0] + Bytes4(x.cts) + rest;
    assert t == before + Bytes4(x.size) + after;
    ReadAt(before, x.size, after);
  }

  /** The data offset in the run table, which counts from the start of the
      fragment, is where the data starts. */
  lemma DataOffset(sn: int, id: int, samples: seq<Sample>, baseTime: int, data: seq<byte>)
    requires |Fragment(sn, id, samples, baseTime, data)| < 0x1_0000_0000
    ensures
      var offset := Read4(TrunBody(samples, 84 + |samples|), 8);
      && offset <= |Fragment(sn, id, samples, baseTime, data)|
      && Fragment(sn, id, samples, baseTime, data)[offset..] == data
  {
    hide Read4, Bytes4, MoofBody, Box;
    FragmentLength(sn, id, samples, baseTime, data);
    var n := 84 + |samples| + 8 + 12 + 16 * |samples|;
    var before := [0, 0, 0x0f, 0x01] + Bytes4(|samples|);
    assert TrunBody(samples, 84 + |samples|) == before + Bytes4(n) + Entries(samples);
    ReadAt(before, n, Entries(samples));
    DataBehind(Box(MOOF, MoofBody(sn, id, samples, baseTime)), data);
  }

  lemma DataBehind(moof: seq<byte>, data: seq<byte>)
    ensures (moof + Box(MDAT, data))[|moof| + 8..] == data
  {
  }

  lemma {:induction false} PartAt(parts: seq<seq<byte>>, i: nat)
    requires i < |parts|
    ensures LengthTo(parts, i + 1) <= |Concat(parts)|
    ensures Concat(parts)[LengthTo(parts, i)..LengthTo(parts, i + 1)] == parts[i]
    decreases |parts|
  {
    var n := |parts| - 1;
    ConcatLength(parts, i + 1);
    if i < n {
      PartAt(parts[..n], i);
      PrefixLength(parts, n, i);
      PrefixLength(parts, n, i + 1);
    } else {
      ConcatTo(parts, n);
    }
  }

  lemma {:induction false} PrefixLength(parts: seq<seq<byte>>, n: nat, k: nat)
    requires k <= n <= |parts|
    ensures LengthTo(parts[..n], k) == LengthTo(parts, k)
  {
    if k == 0 {
    } else {
      PrefixLength(parts, n, k - 1);
    }
  }

  /** Where the i-th sample starts in the data, by the sizes in the run table. */
  ghost function StartIn(trun: seq<byte>, i: nat): nat
    requires 12 + 16 * i <= |trun|
  {
    if i == 0 then 0 else StartIn(trun, i - 1) + SizeIn(trun, i - 1)
  }

  ghost predicate SizesAre(samples: seq<Sample>, parts: seq<seq<byte>>) {
    |samples| == |parts| && forall i :: 0 <= i < |parts| ==> samples[i].size == |parts[i]| < 0x1_0000_0000
  }

  lemma TrunLength(samples: seq<Sample>, offset: nat)
    ensures |TrunBody(samples, offset)| == 12 + 16 * |samples|
  {
  }

  lemma {:induction false} StartsAre(samples: seq<Sample>, offset: nat, parts: seq<seq<byte>>, i: nat)
    requires SizesAre(samples, parts) && i <= |parts|
    ensures StartIn(TrunBody(samples, offset), i) == LengthTo(parts, i)
  {
    hide TrunBody;
    TrunLength(samples, offset);
    if i == 0 {
    } else {
      StartsAre(samples, offset, parts, i - 1);
      TrunReads(samples, offset, i - 1);
    }
  }

  /** By the offset and the sizes in the run table, part is the i-th sample. */
  ghost predicate Finds(all: seq<byte>, trun: seq<byte>, i: nat, part: seq<byte>) {
    12 + 16 * (i + 1) <= |trun| &&
    var start := Read4(trun, 8) + StartIn(trun, i);
    start + SizeIn(trun, i) <= |all| && all[start..start + SizeIn(trun, i)] == part
  }

  /** A reader that follows the offset and the sizes of the run table finds each
      unit in its place. */
  lemma SamplesInPlace(sn: int, id: int, samples: seq<Sample>, baseTime: int, parts: seq<seq<byte>>, i: nat)
    requires SizesAre(samples, parts) && i < |parts|
    requires |Fragment(sn, id, samples, baseTime, Concat(parts))| < 0x1_0000_0000
    ensures Finds(Fragment(sn, id, samples, baseTime, Concat(parts)), TrunBody(samples, 84 + |samples|), i, parts[i])
  {
    hide Fragment, Read4, Concat, Bytes4;
    var data := Concat(parts);
    var all := Fragment(sn, id, samples, baseTime, data);
    var trun := TrunBody(samples, 84 + |samples|);
    DataOffset(sn, id, samples, baseTime, data);
    StartsAre(samples, 84 + |samples|, parts, i);
    TrunReads(samples, 84 + |samples|, i);
    PartAt(parts, i);
    var offset := Read4(trun, 8);
    Sub(all, offset, LengthTo(parts, i), LengthTo(parts, i + 1));
  }

  lemma Sub(s: seq<byte>, o: nat, a: nat, b: nat)
    requires o <= |s| && a <= b <= |s[o..]|
    ensures s[o + a..o + b] == s[o..][a..b]
  {
  }
}
