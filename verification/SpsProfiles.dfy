/** For which profiles the server's parameter-set decoder agrees with the table
    of ITU-T H.264. */
module SpsProfiles {
  import opened Wrappers
  import opened PowersOfTwo
  import opened BitStrings
  import opened BitReader
  import opened ExpGolomb
  import opened SpsSyntax
  import opened SpsPrinter
  import opened SpsRoundTrip

  // Exp-Golomb codes have odd lengths. So where the fields that are read are
  // known, an odd number of bits too few cannot be made up for.

  predicate OddLength(p: int, q: int) {
    (q - p) % 2 == 1
  }

  lemma {:induction false} GolombOdd(k: nat)
    requires k > 0
    ensures |Golomb(k)| % 2 == 1
  {
    if k == 1 {
    } else {
      GolombOdd(k / 2);
    }
  }

  lemma UAtEnds(s: seq<bool>, p: nat, n: nat)
    ensures UAt(s, p, n).Ok? ==> UAt(s, p, n).value.1 == p + n
  {
    UAtNum(s, p, n);
    if n == 0 { assert UAt(s, p, 0) == Ok((0, p)); }
  }

  lemma {:induction false} UeFromOdd(s: seq<bool>, p: nat, i: nat)
    requires i <= 32
    ensures UeFrom(s, p, i).Ok? ==> (UeFrom(s, p, i).value.1 - p + i) % 2 == 1
    decreases 32 - i
  {
    hide UAt, UeSum;
    if p >= |s| {
    } else if !s[p] && i < 32 {
      UeFromOdd(s, p + 1, i + 1);
    } else {
      UAtEnds(s, p + 1, i);
    }
  }

  lemma UeModOdd(s: seq<bool>, p: nat, m: int)
    requires m > 0
    ensures UeModAt(s, p, m).Ok? ==> OddLength(p, UeModAt(s, p, m).value.1)
  {
    UeFromOdd(s, p, 0);
  }

  lemma {:induction false} SesParity(s: seq<bool>, p: nat, n: nat)
    ensures SesAt(s, p, n).Ok? ==> (SesAt(s, p, n).value - p) % 2 == n % 2
    decreases n
  {
    if n == 0 {
    } else {
      hide UeFrom;
      UeFromOdd(s, p, 0);
      if UeAt(s, p).Ok? { SesParity(s, UeAt(s, p).value.1, n - 1); }
    }
  }

  // ---- What is read

  function PocParity(o: Poc): int {
    if o.pocType == 0 then 1 else if o.pocType == 1 then o.cycle % 2 else 0
  }

  lemma PocRead(s: seq<bool>, p: nat, held: Poc)
    requires |held.offsets| == 256
    ensures var r := PocAt(s, p, held); r.Ok? ==> (r.value.1 - p) % 2 == PocParity(r.value.0)
  {
    hide UeModAt, UAt, SesAt;
    UeModOdd(s, p, 0x100);
    if UeModAt(s, p, 0x100).Ok? {
      var (a, p1) := UeModAt(s, p, 0x100).value;
      UeModOdd(s, p1, 0x100);
      if UeModAt(s, p1, 0x100).Ok? {
        var (b, p2) := UeModAt(s, p1, 0x100).value;
        UeModOdd(s, p2, 0x100);
        CycleRead(s, p2, held.(log2FrameNum := a, pocType := b));
      }
    }
  }

  lemma CycleRead(s: seq<bool>, p: nat, held: Poc)
    requires |held.offsets| == 256
    ensures var r := CycleAt(s, p, held);
            r.Ok? ==> (r.value.1 - p) % 2 == r.value.0.cycle % 2 && r.value.0.pocType == held.pocType
  {
    hide UeModAt, UAt, SesAt;
    UAtEnds(s, p, 1);
    SesParity(s, p + 1, 2);
    if UAt(s, p, 1).Ok? && SesAt(s, p + 1, 2).Ok? {
      var p2 := SesAt(s, p + 1, 2).value;
      UeModOdd(s, p2, 0x100);
      if UeModAt(s, p2, 0x100).Ok? {
        SesParity(s, UeModAt(s, p2, 0x100).value.1, UeModAt(s, p2, 0x100).value.0);
      }
    }
  }

  lemma FrameRead(s: seq<bool>, p: nat, held: Frame)
    ensures var r := FrameAt(s, p, held);
            r.Ok? ==> (r.value.1 - p) % 2 == if r.value.0.mbsOnly == 0 then 1 else 0
  {
    hide UeModAt, UAt, ScanAt;
    UeModOdd(s, p, 0x100);
    if UeModAt(s, p, 0x100).Ok? {
      var p1 := UeModAt(s, p, 0x100).value.1;
      UAtEnds(s, p1, 1);
      UeModOdd(s, p1 + 1, 0x10000);
      if UAt(s, p1, 1).Ok? && UeModAt(s, p1 + 1, 0x10000).Ok? {
        var p3 := UeModAt(s, p1 + 1, 0x10000).value.1;
        UeModOdd(s, p3, 0x10000);
        if UeModAt(s, p3, 0x10000).Ok? {
          var (d, p4) := UeModAt(s, p3, 0x10000).value;
          ScanRead(s, p4, held.(maxRefFrames := UeModAt(s, p, 0x100).value.0, gaps := UAt(s, p1, 1).value.0,
                                widthMbs := UeModAt(s, p1 + 1, 0x10000).value.0, heightUnits := d));
        }
      }
    }
  }

  lemma ScanRead(s: seq<bool>, p: nat, held: Frame)
    ensures var r := ScanAt(s, p, held);
            r.Ok? ==> r.value.1 == p + if r.value.0.mbsOnly == 0 then 3 else 2
  {
    hide UAt;
    UAtEnds(s, p, 1);
    UAtEnds(s, p + 1, 1);
    UAtEnds(s, p + 2, 1);
  }

  lemma CropRead(s: seq<bool>, p: nat, held: Crop)
    ensures var r := CropAt(s, p, held); r.Ok? ==> OddLength(p, r.value.1)
  {
    hide UeModAt, UAt;
    UAtEnds(s, p, 1);
    UeModOdd(s, p + 1, 0x10000);
    if UeModAt(s, p + 1, 0x10000).Ok? {
      var p2 := UeModAt(s, p + 1, 0x10000).value.1;
      UeModOdd(s, p2, 0x10000);
      if UeModAt(s, p2, 0x10000).Ok? {
        var p3 := UeModAt(s, p2, 0x10000).value.1;
        UeModOdd(s, p3, 0x10000);
        if UeModAt(s, p3, 0x10000).Ok? {
          UeModOdd(s, UeModAt(s, p3, 0x10000).value.1, 0x10000);
        }
      }
    }
  }

  /** The parity of the bits read behind the chroma fields. */
  function LaterParity(o: Poc, f: Frame): int {
    PocParity(o) + if f.mbsOnly == 0 then 1 else 0
  }

  lemma LaterRead(s: seq<bool>, p: nat, a: Fields)
    requires Shaped(a) && MiddleAt(s, p, a).Ok? && BackAt(s, MiddleAt(s, p, a).value.1, MiddleAt(s, p, a).value.0).Ok?
    ensures var (z, q) := BackAt(s, MiddleAt(s, p, a).value.1, MiddleAt(s, p, a).value.0).value;
            (q - p) % 2 == LaterParity(z.poc, z.frame) % 2 && z.chroma == a.chroma
  {
    hide PocAt, FrameAt, CropAt, UAt;
    PocRead(s, p, a.poc);
    var p1 := PocAt(s, p, a.poc).value.1;
    FrameRead(s, p1, a.frame);
    var p2 := FrameAt(s, p1, a.frame).value.1;
    CropRead(s, p2, a.crop);
    UAtEnds(s, CropAt(s, p2, a.crop).value.1, 1);
  }

  // ---- What is printed

  lemma {:induction false} SeRowsParity(ks: seq<nat>, rest: Syntax)
    ensures Len(SeRows(ks, rest)) % 2 == (Len(rest) + |ks|) % 2
  {
    if ks == [] {
    } else {
      GolombOdd(ks[0] + 1);
      SeRowsParity(ks[1..], rest);
    }
  }

  lemma {:induction false} ListRowsParity(c: Chroma, lists: seq<seq<nat>>, i: nat, n: nat, rest: Syntax)
    requires i <= n <= 12 == |lists| && ChromaShaped(c) && ListsHeld(c, lists)
    ensures Len(ListRows(c, lists, i, n, rest)) % 2 == (Len(rest) + n - i) % 2
    decreases n - i
  {
    if i == n {
    } else {
      hide ListsHeld, Len, SeRows;
      ListRowsParity(c, lists, i + 1, n, rest);
      OneListParity(c, lists, i, ListRows(c, lists, i + 1, n, rest));
    }
  }

  lemma OneListParity(c: Chroma, lists: seq<seq<nat>>, i: nat, next: Syntax)
    requires i < 12 == |lists| && ChromaShaped(c) && ListsHeld(c, lists)
    ensures Len(UField(1, c.listPresent[i], if c.listPresent[i] == 0 then next else SeRows(lists[i], next))) % 2
         == (Len(next) + 1) % 2
  {
    hide ListsHeld, Len, SeRows;
    ListEven(c, lists, i);
    SeRowsParity(lists[i], next);
    LenU(1, c.listPresent[i], if c.listPresent[i] == 0 then next else SeRows(lists[i], next));
  }

  lemma ListEven(c: Chroma, lists: seq<seq<nat>>, i: nat)
    requires i < 12 == |lists| && ChromaShaped(c) && ListsHeld(c, lists)
    ensures c.listPresent[i] != 0 ==> |lists[i]| % 2 == 0
  {
    if c.listPresent[i] != 0 { assert ListHeld(c.lists[i], lists[i], if i < 6 then 16 else 64); }
  }

  /** The chroma rows of a 4:2:0 set of 8-bit samples have an odd length. */
  lemma ChromaRowsOdd(idc: nat, c: Chroma, lists: seq<seq<nat>>, rest: Syntax)
    requires CodesChroma(idc) && ChromaShaped(c) && |lists| == 12
    requires c.format == 1 && c.depthLuma == c.depthChroma == 0
    requires c.matrixPresent != 0 ==> ListsHeld(c, lists)
    ensures Len(ChromaRows(idc, c, lists, rest)) % 2 == (Len(rest) + 1) % 2
  {
    hide ListRows, ListsHeld, CodesChroma;
    GolombOdd(2);
    GolombOdd(1);
    var last := if c.matrixPresent == 0 then rest else ListRows(c, lists, 0, 8, rest);
    if c.matrixPresent != 0 { ListRowsParity(c, lists, 0, 8, rest); }
    var r1 := UField(1, c.bypass, UField(1, c.matrixPresent, last));
    var r2 := UeField(c.depthChroma, 0x100, r1);
    var r3 := UeField(c.depthLuma, 0x100, r2);
    assert Len(r1) == 2 + Len(last);
    assert Len(r2) == |Ue(0)| + Len(r1);
    assert Len(r3) == |Ue(0)| + Len(r2);
    assert ChromaRows(idc, c, lists, rest) == UeField(1, 0x100, r3);
  }

  lemma LaterRowsParity(x: Fields, g: Signed, tail: seq<bool>)
    requires x.poc.pocType == 1 ==> |g.refs| == x.poc.cycle
    ensures Len(LaterRows(x, g, tail)) % 2 == (|tail| + LaterParity(x.poc, x.frame)) % 2
  {
    hide PocRows, FrameRows, CropRows;
    var r1 := UField(1, x.vuiPresent, End(tail));
    var r2 := CropRows(x.crop, r1);
    var r3 := FrameRows(x.frame, r2);
    assert Len(r1) == 1 + |tail|;
    CropRowsOdd(x.crop, r1);
    FrameRowsParity(x.frame, r2);
    PocRowsParity(x.poc, g, r3);
  }

  lemma CropRowsOdd(c: Crop, rest: Syntax)
    ensures Len(CropRows(c, rest)) % 2 == (Len(rest) + 1) % 2
  {
    hide Len;
    var r1 := UeField(c.bottom, 0x10000, rest);
    var r2 := UeField(c.top, 0x10000, r1);
    var r3 := UeField(c.right, 0x10000, r2);
    var r4 := UeField(c.left, 0x10000, r3);
    LenUe(c.bottom, 0x10000, rest);
    LenUe(c.top, 0x10000, r1);
    LenUe(c.right, 0x10000, r2);
    LenUe(c.left, 0x10000, r3);
    LenU(1, c.flag, if c.flag == 1 then r4 else rest);
  }

  lemma LenU(n: nat, v: nat, rest: Syntax)
    ensures Len(UField(n, v, rest)) == n + Len(rest)
  {}

  lemma LenUe(k: nat, m: nat, rest: Syntax)
    ensures Len(UeField(k, m, rest)) % 2 == (Len(rest) + 1) % 2
  {
    GolombOdd(k + 1);
  }

  lemma LenSe(k: nat, rest: Syntax)
    ensures Len(SeField(k, rest)) % 2 == (Len(rest) + 1) % 2
  {
    GolombOdd(k + 1);
  }

  lemma FrameRowsParity(f: Frame, rest: Syntax)
    ensures Len(FrameRows(f, rest)) % 2 == (Len(rest) + if f.mbsOnly == 0 then 1 else 0) % 2
  {
    hide Len;
    var last := UField(1, f.direct8x8, rest);
    var mbaff := if f.mbsOnly == 0 then UField(1, f.mbaff, last) else last;
    var r1 := UField(1, f.mbsOnly, mbaff);
    var r2 := UeField(f.heightUnits, 0x10000, r1);
    var r3 := UeField(f.widthMbs, 0x10000, r2);
    var r4 := UField(1, f.gaps, r3);
    LenU(1, f.direct8x8, rest);
    LenU(1, f.mbaff, last);
    LenU(1, f.mbsOnly, mbaff);
    LenUe(f.heightUnits, 0x10000, r1);
    LenUe(f.widthMbs, 0x10000, r2);
    LenU(1, f.gaps, r3);
    LenUe(f.maxRefFrames, 0x100, r4);
  }

  lemma PocRowsParity(o: Poc, g: Signed, rest: Syntax)
    requires o.pocType == 1 ==> |g.refs| == o.cycle
    ensures Len(PocRows(o, g, rest)) % 2 == (Len(rest) + PocParity(o)) % 2
  {
    hide Len, SeRows;
    var refs := SeRows(g.refs, rest);
    SeRowsParity(g.refs, rest);
    var r1 := UeField(o.cycle, 0x100, refs);
    LenUe(o.cycle, 0x100, refs);
    LenSe(g.topBottom, r1);
    LenSe(g.nonRef, SeField(g.topBottom, r1));
    var r3 := SeField(g.nonRef, SeField(g.topBottom, r1));
    LenU(1, o.deltaZero, r3);
    LenUe(o.log2PocLsb, 0x100, rest);
    var r := if o.pocType == 0 then UeField(o.log2PocLsb, 0x100, rest)
             else if o.pocType == 1 then UField(1, o.deltaZero, r3) else rest;
    LenUe(o.pocType, 0x100, r);
    LenUe(o.log2FrameNum, 0x100, UeField(o.pocType, 0x100, r));
  }

  // ---- The profiles

  /** In a set of one of the five profiles the server passes over the chroma
      rows, and whatever it makes of what comes then, it does not end with the
      fields of the set at the end of the set. */
  lemma UnknownMisread(s: seq<bool>, held: Fields, x: Fields, g: Signed, tail: seq<bool>, q: nat)
    requires WellFormed(x, g, tail) && Unknown(x.profile.idc) && Shaped(held) && At(s, 0, SpsRows(x, g, tail))
    requires DecodeBits(s, held) == Decoded(Over(held, x), q)
    ensures q + |tail| != Len(SpsRows(x, g, tail))
  {
    hide UnitHeaderAt, ProfileAt, MiddleAt, BackAt, Fits, ListsHeld, OffsetsHeld, At, PocOver, ListsOver;
    var later := LaterRows(x, g, tail);
    var chroma := ChromaRows(x.profile.idc, x.chroma, g.lists, later);
    UnitHeaderBack(s, 0, x.unit, ProfileRows(x.profile, chroma));
    var p := ProfileBack(s, 8, x.profile, chroma);
    var a := held.(unit := x.unit, profile := x.profile,
                   chroma := held.chroma.(format := 1, separatePlane := 0, depthLuma := 0, depthChroma := 0));
    assert FrontAt(s, 8, held.(unit := x.unit)) == Ok((a, p));
    LaterRead(s, p, a);
    OverParity(held, x);
    OffsetsCounted(x, g, tail);
    LaterRowsParity(x, g, tail);
    ChromaRowsOdd(x.profile.idc, x.chroma, g.lists, later);
    assert Len(SpsRows(x, g, tail)) == p + Len(chroma);
  }

  lemma OverParity(held: Fields, x: Fields)
    requires Shaped(held) && Shaped(x)
    ensures x.poc.pocType == 1 ==> x.poc.cycle <= 256 ==>
              LaterParity(Over(held, x).poc, Over(held, x).frame) == LaterParity(x.poc, x.frame)
    ensures x.poc.pocType != 1 ==> LaterParity(Over(held, x).poc, Over(held, x).frame) == LaterParity(x.poc, x.frame)
  {}

  lemma OffsetsCounted(x: Fields, g: Signed, tail: seq<bool>)
    requires WellFormed(x, g, tail)
    ensures x.poc.pocType == 1 ==> |g.refs| == x.poc.cycle <= 256
  {}

  /** The server reads a well-formed set to its end as what it is exactly if the
      profile is none of five for which it misses the chroma rows. */
  lemma ProfilesRead(held: Fields, x: Fields, g: Signed, tail: seq<bool>, n: nat, end: nat)
    requires WellFormed(x, g, tail) && Shaped(held) && (n == 0 || n == 3 || n == 4)
    requires end + |tail| == |Print(SpsRows(x, g, tail))|
    ensures DecodeNal(Nal(x, g, tail, n), held) == Decoded(Over(held, x), end) <==>
              x.profile.idc !in {128, 138, 139, 134, 135}
  {
    assert Shaped(x) && |g.lists| == 12;
    hide WellFormed, DecodeNal, DecodeBits, Over, SpsRows, Print;
    var s := BitsReach(x, g, tail, n);
    if x.profile.idc !in {128, 138, 139, 134, 135} {
      var q := SpsRoundTrip.SpsRoundTrip(held, x, g, tail, n);
    } else if DecodeNal(Nal(x, g, tail, n), held) == Decoded(Over(held, x), end) {
      UnknownMisread(s, held, x, g, tail, end);
    }
  }
}
