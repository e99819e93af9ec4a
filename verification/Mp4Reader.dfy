/** A reader of fragments by ISO/IEC 14496-12: boxes are found by their types,
    and fields at their offsets. */
module Mp4Reader {
  import opened Wrappers
  import opened BitStrings
  import opened ByteStrings
  import opened Mp4

  /** The bytes of a text of ASCII characters. */
  function Ascii(s: string): seq<byte>
    requires forall k :: 0 <= k < |s| ==> s[k] as int < 256
  {
    if s == "" then []
    else
      var first: byte := s[0] as int;
      [first] + Ascii(s[1..])
  }

  /** The contents of the first box of this type. */
  ghost function Find(boxes: seq<BoxRead>, kind: seq<byte>): Option<seq<byte>> {
    if boxes == [] then None
    else if boxes[0].kind == kind then Some(boxes[0].body)
    else Find(boxes[1..], kind)
  }

  ghost function Child(s: Option<seq<byte>>, kind: seq<byte>): Option<seq<byte>> {
    if s.None? || Boxes(s.value).None? then None else Find(Boxes(s.value).value, kind)
  }

  lemma {:induction false} FourLetters(a: char, b: char, c: char, d: char)
    requires a as int < 256 && b as int < 256 && c as int < 256 && d as int < 256
    ensures Ascii([a, b, c, d]) == [a as int, b as int, c as int, d as int]
  {
    assert [a, b, c, d][1..] == [b, c, d] && [b, c, d][1..] == [c, d] && [c, d][1..] == [d] && [d][1..] == [];
    assert Ascii([d]) == [d as int] + Ascii([]) == [d as int];
    assert Ascii([c, d]) == [c as int] + Ascii([d]);
    assert Ascii([b, c, d]) == [b as int] + Ascii([c, d]);
  }

  lemma TypesSpelled()
    ensures MOOF == Ascii("moof") && MFHD == Ascii("mfhd") && TRAF == Ascii("traf") && TFHD == Ascii("tfhd")
    ensures TFDT == Ascii("tfdt") && TRUN == Ascii("trun") && SDTP == Ascii("sdtp") && MDAT == Ascii("mdat")
  {
    FourLetters('m', 'o', 'o', 'f');
    FourLetters('m', 'f', 'h', 'd');
    FourLetters('t', 'r', 'a', 'f');
    FourLetters('t', 'f', 'h', 'd');
    FourLetters('t', 'f', 'd', 't');
    FourLetters('t', 'r', 'u', 'n');
    FourLetters('s', 'd', 't', 'p');
    FourLetters('m', 'd', 'a', 't');
  }

  lemma FindIn(a: seq<byte>, b: seq<byte>, rest: seq<BoxRead>, kind: seq<byte>)
    ensures Find([BoxRead(a, b)] + rest, kind) == if a == kind then Some(b) else Find(rest, kind)
  {
    assert ([BoxRead(a, b)] + rest)[1..] == rest;
  }

  /** The numbers in the headers of a fragment, the run table and the table of
      sample dependencies, and the data. */
  datatype FragmentRead = FragmentRead(sn: nat, id: nat, baseTime: nat, trun: seq<byte>, sdtp: seq<byte>, data: seq<byte>)

  /** The fields of version 0 boxes without flags stand behind the first four
      bytes (sections 8.8.5, 8.8.7 and 8.8.12). */
  ghost function ReadFragment(s: seq<byte>): Option<FragmentRead> {
    var moof := Child(Some(s), Ascii("moof"));
    var traf := Child(moof, Ascii("traf"));
    var mfhd, tfhd, tfdt := Child(moof, Ascii("mfhd")), Child(traf, Ascii("tfhd")), Child(traf, Ascii("tfdt"));
    var trun, sdtp, data := Child(traf, Ascii("trun")), Child(traf, Ascii("sdtp")), Child(Some(s), Ascii("mdat"));
    if mfhd.None? || tfhd.None? || tfdt.None? || trun.None? || sdtp.None? || data.None? then None
    else if |mfhd.value| != 8 || |tfhd.value| != 8 || |tfdt.value| != 8 then None
    else if Read4(mfhd.value, 0) != 0 || Read4(tfhd.value, 0) != 0 || Read4(tfdt.value, 0) != 0 then None
    else Some(FragmentRead(Read4(mfhd.value, 4), Read4(tfhd.value, 4), Read4(tfdt.value, 4), trun.value, sdtp.value, data.value))
  }

  lemma HeaderNumber(n: int)
    ensures var b := [0, 0, 0, 0] + Bytes4(n);
            |b| == 8 && Read4(b, 0) == 0 && Read4(b, 4) == n % 0x1_0000_0000
  {
    ReadAt([0, 0, 0, 0], n, []);
    assert [0, 0, 0, 0] + Bytes4(n) + [] == [0, 0, 0, 0] + Bytes4(n);
  }

  /** The reader finds what went into the fragment. */
  lemma FragmentReads(sn: int, id: int, samples: seq<Sample>, baseTime: int, data: seq<byte>)
    requires |Fragment(sn, id, samples, baseTime, data)| < 0x1_0000_0000
    ensures ReadFragment(Fragment(sn, id, samples, baseTime, data))
         == Some(FragmentRead(sn % 0x1_0000_0000, id % 0x1_0000_0000, baseTime % 0x1_0000_0000,
                              TrunBody(samples, 84 + |samples|), SdtpBody(samples), data))
  {
    hide Fragment, MoofBody, TrafBody, TrunBody, SdtpBody, Boxes, Ascii, Read4, Bytes4;
    FragmentBoxes(sn, id, samples, baseTime, data);
    TypesSpelled();
    HeaderNumber(sn);
    HeaderNumber(id);
    HeaderNumber(baseTime);
    var moof, traf := MoofBody(sn, id, samples, baseTime), TrafBody(id, samples, baseTime);
    var b1, b2, b3 := [0, 0, 0, 0] + Bytes4(sn), [0, 0, 0, 0] + Bytes4(id), [0, 0, 0, 0] + Bytes4(baseTime);
    var trun, sdtp := TrunBody(samples, 84 + |samples|), SdtpBody(samples);
    TwoFound(MOOF, moof, MDAT, data);
    TwoFound(MFHD, b1, TRAF, traf);
    FourFound(b2, b3, trun, sdtp);
  }

  lemma TwoFound(k1: BoxType, b1: seq<byte>, k2: BoxType, b2: seq<byte>)
    requires k1 != k2
    ensures var bs := [BoxRead(k1, b1), BoxRead(k2, b2)]; Find(bs, k1) == Some(b1) && Find(bs, k2) == Some(b2)
  {
    FindIn(k1, b1, [BoxRead(k2, b2)], k1);
    FindIn(k1, b1, [BoxRead(k2, b2)], k2);
    FindIn(k2, b2, [], k2);
    assert [BoxRead(k1, b1)] + [BoxRead(k2, b2)] == [BoxRead(k1, b1), BoxRead(k2, b2)];
    assert [BoxRead(k2, b2)] + [] == [BoxRead(k2, b2)];
  }

  lemma FourFound(b1: seq<byte>, b2: seq<byte>, b3: seq<byte>, b4: seq<byte>)
    ensures var bs := [BoxRead(TFHD, b1), BoxRead(TFDT, b2), BoxRead(TRUN, b3), BoxRead(SDTP, b4)];
            && Find(bs, TFHD) == Some(b1) && Find(bs, TFDT) == Some(b2)
            && Find(bs, TRUN) == Some(b3) && Find(bs, SDTP) == Some(b4)
  {
    var last := [BoxRead(TRUN, b3), BoxRead(SDTP, b4)];
    TwoFound(TRUN, b3, SDTP, b4);
    assert [BoxRead(TFDT, b2)] + last == [BoxRead(TFDT, b2), BoxRead(TRUN, b3), BoxRead(SDTP, b4)];
    assert [BoxRead(TFHD, b1)] + ([BoxRead(TFDT, b2)] + last)
        == [BoxRead(TFHD, b1), BoxRead(TFDT, b2), BoxRead(TRUN, b3), BoxRead(SDTP, b4)];
    forall k | k in [TFHD, TFDT, TRUN, SDTP]
      ensures Find([BoxRead(TFHD, b1)] + ([BoxRead(TFDT, b2)] + last), k)
           == if k == TFHD then Some(b1) else if k == TFDT then Some(b2) else Find(last, k)
    {
      FindIn(TFHD, b1, [BoxRead(TFDT, b2)] + last, k);
      FindIn(TFDT, b2, last, k);
    }
  }

  // ---- The run table and the dependencies

  /** A run table with data offset, and the duration, size, flags and composition
      offset of each sample (section 8.8.8). */
  ghost predicate FullTable(trun: seq<byte>, n: nat) {
    |trun| == 12 + 16 * n && Read4(trun, 0) == 0x000f01 && Read4(trun, 4) == n
  }

  /** The i-th entry holds these numbers, of which the flags tell on what other
      samples the sample depends, and whether it is no sync sample (section
      8.8.3.1). */
  ghost predicate EntryIs(trun: seq<byte>, i: nat, duration: int, size: int, dependsOn: int, nonSync: int, offset: int) {
    12 + 16 * i + 16 <= |trun| &&
    var p := 12 + 16 * i;
    && Read4(trun, p) == duration % 0x1_0000_0000 && Read4(trun, p + 4) == size % 0x1_0000_0000
    && Read4(trun, p + 8) == dependsOn * 0x100_0000 + nonSync * 0x1_0000
    && Read4(trun, p + 12) == offset % 0x1_0000_0000
  }

  lemma TableReads(samples: seq<Sample>, offset: nat)
    requires |samples| < 0x1_0000_0000
    ensures FullTable(TrunBody(samples, offset), |samples|)
  {
    hide Bytes4, Entries;
    var rest := Bytes4(offset + 8 + 12 + 16 * |samples|) + Entries(samples);
    var t := TrunBody(samples, offset);
    ReadAt([0, 0, 0x0f, 0x01], |samples|, rest);
    assert t == [0, 0, 0x0f, 0x01] + Bytes4(|samples|) + rest;
  }

  /** Each sample is read back from its entry. */
  lemma SampleReads(samples: seq<Sample>, offset: nat, i: nat)
    requires i < |samples| && 0 <= samples[i].dependsOn < 4 && 0 <= samples[i].isNonSync < 2
    ensures var x := samples[i];
            EntryIs(TrunBody(samples, offset), i, x.duration, x.size, x.dependsOn, x.isNonSync, x.cts)
  {
    hide Bytes4, Read4, Entries;
    var t, x := TrunBody(samples, offset), samples[i];
    var rest := EntryAt(samples, i);
    var head := [0, 0, 0x0f, 0x01] + Bytes4(|samples|) + Bytes4(offset + 8 + 12 + 16 * |samples|) + Entries(samples[..i]);
    var e := Entry(x);
    assert t == head + e + rest;
    EntryReads(head, x, rest);
  }

  lemma EntryReads(head: seq<byte>, x: Sample, rest: seq<byte>)
    requires 0 <= x.dependsOn < 4 && 0 <= x.isNonSync < 2
    ensures var t, p := head + Entry(x) + rest, |head|;
            && Read4(t, p) == x.duration % 0x1_0000_0000 && Read4(t, p + 4) == x.size % 0x1_0000_0000
            && Read4(t, p + 8) == x.dependsOn * 0x100_0000 + x.isNonSync * 0x1_0000
            && Read4(t, p + 12) == x.cts % 0x1_0000_0000
  {
    hide Bytes4;
    var t := head + Entry(x) + rest;
    var d, s, f, c := Bytes4(x.duration), Bytes4(x.size), [x.dependsOn, x.isNonSync, 0, 0], Bytes4(x.cts);
    assert t == head + d + (s + f + c + rest) == head + d + s + (f + c + rest) == head + d + s + f + c + rest;
    assert t[|head| + 8..|head| + 12] == f;
    hide Read4;
    ReadAt(head, x.duration, s + f + c + rest);
    ReadAt(head + d, x.size, f + c + rest);
    ReadAt(head + d + s + f, x.cts, rest);
    FlagsRead(t, |head| + 8, x.dependsOn, x.isNonSync);
  }

  lemma FlagsRead(t: seq<byte>, p: nat, a: byte, b: byte)
    requires p + 4 <= |t| && t[p..p + 4] == [a, b, 0, 0]
    ensures Read4(t, p) == a * 0x100_0000 + b * 0x1_0000
  {
    assert t[p] == t[p..p + 4][0] && t[p + 1] == t[p..p + 4][1] && t[p + 2] == t[p..p + 4][2] && t[p + 3] == t[p..p + 4][3];
  }

  /** The dependencies table has a byte for each sample, with what it depends on
      in the third and fourth bit (section 8.6.4). */
  lemma {:induction false} DependenciesRead(samples: seq<Sample>, i: nat)
    requires i < |samples| && 0 <= samples[i].dependsOn < 4
    ensures var s := SdtpBody(samples); |s| == 4 + |samples| && Read4(s, 0) == 0 && s[4 + i] == samples[i].dependsOn * 16
  {
    DependsAt(samples, i);
  }

  lemma {:induction false} DependsAt(samples: seq<Sample>, i: nat)
    requires i < |samples|
    ensures DependsOn(samples)[i] == samples[i].dependsOn % 16 * 16
    decreases |samples|
  {
    if i == |samples| - 1 {
    } else {
      DependsAt(samples[..|samples| - 1], i);
    }
  }
}
