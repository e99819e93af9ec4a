/** Concrete parameter sets, among them the failing inputs of what the server
    makes of such sets. */
module SpsExamples {
  import opened Wrappers
  import opened PowersOfTwo
  import opened BitStrings
  import opened BitReader
  import opened ExpGolomb
  import opened Emulation
  import opened SpsSyntax
  import opened SpsPrinter
  import opened SpsRoundTrip

  /** No signed elements. */
  function NoneSigned(): (s: Signed)
    ensures |s.lists| == 12
  {
    Signed(seq(12, _ => []), 0, 0, [])
  }

  function Blanked(format: nat): Chroma {
    Chroma(format, 0, 0, 0, 0, 0, Blank().chroma.listPresent, Blank().chroma.lists)
  }

  /** A set of this profile and chroma format for level 4, with 8-bit samples,
      order-count type 2, and this frame and crop. */
  function SetOf(idc: nat, format: nat, frame: Frame, crop: Crop): Fields {
    Fields(UnitHeader(0, 3, 7), Profile(idc, 0, 0, 0, 0, 0, 0, 0, 40, 0), Blanked(format),
           Poc(0, 2, 0, 0, 0, 0, 0, Blank().poc.offsets), frame, crop, 0)
  }

  predicate SmallFrame(f: Frame) {
    f.maxRefFrames < 256 && f.gaps < 2 && f.widthMbs < 256 && f.heightUnits < 256 && f.mbsOnly < 2 && f.mbaff < 2 &&
    f.direct8x8 < 2
  }

  predicate SmallCropping(c: Crop) {
    c.flag < 2 && c.left < 256 && c.right < 256 && c.top < 256 && c.bottom < 256
  }

  lemma UnitFits(h: UnitHeader, rest: Syntax)
    requires h.forbidden < 2 && h.refIdc < 4 && h.unitType < 32 && Fits(rest)
    ensures Fits(UnitRows(h, rest))
  {
    Pow2Table();
    hide Pow2;
    assert Fits(UField(5, h.unitType, rest));
    assert Fits(UField(2, h.refIdc, UField(5, h.unitType, rest)));
  }

  lemma ProfileFits(idc: nat, rest: Syntax)
    requires idc < 256 && Fits(rest)
    ensures Fits(ProfileRows(Profile(idc, 0, 0, 0, 0, 0, 0, 0, 40, 0), rest))
  {
    Pow2Table();
    hide Pow2;
    var r := UField(1, 0, UField(1, 0, UField(2, 0, UField(8, 40, UeField(0, 0x100, rest)))));
    assert Fits(UField(8, 40, UeField(0, 0x100, rest)));
    assert Fits(UField(1, 0, UField(2, 0, UField(8, 40, UeField(0, 0x100, rest)))));
    assert Fits(r);
    assert Fits(UField(1, 0, UField(1, 0, r)));
    assert Fits(UField(1, 0, UField(1, 0, UField(1, 0, UField(1, 0, r)))));
  }

  lemma ChromaFits(idc: nat, c: Chroma, lists: seq<seq<nat>>, rest: Syntax)
    requires ChromaShaped(c) && |lists| == 12 && (c.format == 1 || c.format == 3)
    requires c.separatePlane == c.depthLuma == c.depthChroma == c.bypass == c.matrixPresent == 0 && Fits(rest)
    ensures Fits(ChromaRows(idc, c, lists, rest))
  {
    Pow2Table();
    hide Pow2, CodesChroma;
    assert Fits(UField(1, 0, UField(1, 0, rest)));
    assert Fits(DepthsRows(c, lists, rest));
  }

  lemma FrameFits(f: Frame, rest: Syntax)
    requires SmallFrame(f) && Fits(rest)
    ensures Fits(FrameRows(f, rest))
  {
    Pow2Table();
    hide Pow2;
    assert Fits(UField(1, f.direct8x8, rest));
    assert Fits(UField(1, f.mbaff, UField(1, f.direct8x8, rest)));
    var scan := ScanRows(f, rest);
    assert Fits(scan);
    hide ScanRows;
    assert Fits(UeField(f.widthMbs, 0x10000, UeField(f.heightUnits, 0x10000, scan)));
  }

  lemma CropFits(c: Crop, rest: Syntax)
    requires SmallCropping(c) && Fits(rest)
    ensures Fits(CropRows(c, rest))
  {
    Pow2Table();
    hide Pow2;
    var r := UeField(c.top, 0x10000, UeField(c.bottom, 0x10000, rest));
    assert Fits(r);
    assert Fits(UeField(c.left, 0x10000, UeField(c.right, 0x10000, r)));
  }

  lemma FlagFits(tail: seq<bool>)
    ensures Fits(UField(1, 0, End(tail)))
  {
    Pow2Table();
  }

  lemma PocFits(y: Poc, g: Signed, rest: Syntax)
    requires y.log2FrameNum == 0 && y.pocType == 2 && Fits(rest)
    ensures Fits(PocRows(y, g, rest))
  {}

  /** Such a set is well-formed. */
  lemma SetFits(idc: nat, format: nat, f: Frame, c: Crop, tail: seq<bool>)
    requires SmallFrame(f) && SmallCropping(c) && idc < 256
    requires format == 1 || (format == 3 && CodesChroma(idc))
    requires idc == 183 ==> CodesChroma(idc)
    ensures var x := SetOf(idc, format, f, c);
            WellFormed(x, NoneSigned(), tail) && x.frame == f && x.crop == c && x.chroma.format == format &&
            x.chroma.separatePlane == 0 && x.profile.idc == idc
  {
    var x, g := SetOf(idc, format, f, c), NoneSigned();
    hide Blank, Fits, UnitRows, ProfileRows, ChromaRows, FrameRows, CropRows, CodesChroma, NoneSigned;
    var flag := UField(1, 0, End(tail));
    FlagFits(tail);
    CropFits(c, flag);
    FrameFits(f, CropRows(c, flag));
    var r := LaterRows(x, g, tail);
    PocFits(x.poc, g, FrameRows(f, CropRows(c, flag)));
    ChromaFits(idc, x.chroma, g.lists, r);
    ProfileFits(idc, ChromaRows(idc, x.chroma, g.lists, r));
    UnitFits(x.unit, ProfileRows(x.profile, ChromaRows(idc, x.chroma, g.lists, r)));
  }

  /** Decoding the NAL unit of x leaves the sizes of x, and the crop of x if
      that is coded. */
  lemma SizesBack(held: Fields, x: Fields, tail: seq<bool>, n: nat) returns (q: nat, y: Fields)
    requires WellFormed(x, NoneSigned(), tail) && Shaped(held) && (n == 0 || n == 3 || n == 4)
    requires x.profile.idc !in {128, 138, 139, 134, 135}
    ensures DecodeNal(Nal(x, NoneSigned(), tail, n), held) == Decoded(y, q) && Shaped(y)
    ensures q + |tail| == |Print(SpsRows(x, NoneSigned(), tail))|
    ensures y.frame.widthMbs == x.frame.widthMbs && y.frame.heightUnits == x.frame.heightUnits
    ensures y.frame.mbsOnly == x.frame.mbsOnly && y.chroma.format == x.chroma.format
    ensures y.chroma.separatePlane == if CodesChroma(x.profile.idc) then x.chroma.separatePlane else 0
    ensures y.crop == if x.crop.flag == 1 then x.crop else held.crop.(flag := x.crop.flag)
  {
    assert Shaped(x);
    hide WellFormed, DecodeNal, SpsRows, Print, CodesChroma, ListsOver, NoneSigned;
    q := SpsRoundTrip.SpsRoundTrip(held, x, NoneSigned(), tail, n);
    y := Over(held, x);
  }

  /** Reuse shows: 1080 rows of 1088 coded ones, then the same size without
      cropping. A fresh structure reports 1088 rows for the second set, the one
      used for the first set 1080. */
  lemma StaleCrop(tail: seq<bool>, n: nat) returns (q1: nat, q2: nat, first: Fields, second: Fields, unused: Fields)
    requires n == 0 || n == 3 || n == 4
    ensures var f, g := Frame(1, 0, 119, 67, 1, 0, 1), NoneSigned();
            var cropped, plain := SetOf(77, 1, f, Crop(1, 0, 0, 0, 4)), SetOf(77, 1, f, Crop(0, 0, 0, 0, 0));
            WellFormed(cropped, g, tail) && WellFormed(plain, g, tail) && Shaped(first) &&
            DecodeNal(Nal(cropped, g, tail, n), Blank()) == Decoded(first, q1) && Height(first) == 1080 &&
            DecodeNal(Nal(plain, g, tail, n), first) == Decoded(second, q2) && Height(second) == 1080 &&
            DecodeNal(Nal(plain, g, tail, n), Blank()) == Decoded(unused, q2) && Height(unused) == 1088
  {
    hide WellFormed, DecodeNal, Nal, SetOf, SpsRows, Print, NoneSigned;
    var f := Frame(1, 0, 119, 67, 1, 0, 1);
    var cropped, plain := SetOf(77, 1, f, Crop(1, 0, 0, 0, 4)), SetOf(77, 1, f, Crop(0, 0, 0, 0, 0));
    SetFits(77, 1, f, Crop(1, 0, 0, 0, 4), tail);
    SetFits(77, 1, f, Crop(0, 0, 0, 0, 0), tail);
    q1, first := SizesBack(Blank(), cropped, tail, n);
    q2, second := SizesBack(first, plain, tail, n);
    var q3;
    q3, unused := SizesBack(Blank(), plain, tail, n);
  }

  /** A High-profile set of 1920 by 1080 is read as such. */
  lemma HighSet(tail: seq<bool>, n: nat) returns (q: nat, y: Fields)
    requires n == 0 || n == 3 || n == 4
    ensures var x := SetOf(100, 1, Frame(1, 0, 119, 67, 1, 0, 1), Crop(1, 0, 0, 0, 4));
            WellFormed(x, NoneSigned(), tail) && DecodeNal(Nal(x, NoneSigned(), tail, n), Blank()) == Decoded(y, q)
    ensures Width(y) == 1920 && Height(y) == 1080
  {
    hide WellFormed, DecodeNal, Nal, SetOf, SpsRows, Print, NoneSigned;
    var f, c := Frame(1, 0, 119, 67, 1, 0, 1), Crop(1, 0, 0, 0, 4);
    SetFits(100, 1, f, c, tail);
    q, y := SizesBack(Blank(), SetOf(100, 1, f, c), tail, n);
  }

  /** 1080 interlaced rows in 4:2:0 come out four too many. */
  lemma FieldCropUnit(tail: seq<bool>, n: nat) returns (q: nat, y: Fields)
    requires n == 0 || n == 3 || n == 4
    ensures var x := SetOf(77, 1, Frame(1, 0, 119, 33, 0, 0, 1), Crop(1, 0, 0, 0, 2));
            WellFormed(x, NoneSigned(), tail) && DecodeNal(Nal(x, NoneSigned(), tail, n), Blank()) == Decoded(y, q)
    ensures Height(y) == 1084 && PictureHeight(y) == 1080 && Width(y) == PictureWidth(y) == 1920
  {
    hide WellFormed, DecodeNal, Nal, SetOf, SpsRows, Print, NoneSigned;
    var f, c := Frame(1, 0, 119, 33, 0, 0, 1), Crop(1, 0, 0, 0, 2);
    SetFits(77, 1, f, c, tail);
    q, y := SizesBack(Blank(), SetOf(77, 1, f, c), tail, n);
  }

  /** An odd size in 4:4:4 comes out one row and one column too small. */
  lemma ChromaCropUnit(tail: seq<bool>, n: nat) returns (q: nat, y: Fields)
    requires n == 0 || n == 3 || n == 4
    ensures var x := SetOf(244, 3, Frame(1, 0, 0, 0, 1, 0, 1), Crop(1, 1, 0, 1, 0));
            WellFormed(x, NoneSigned(), tail) && DecodeNal(Nal(x, NoneSigned(), tail, n), Blank()) == Decoded(y, q)
    ensures Width(y) == Height(y) == 14 && PictureWidth(y) == PictureHeight(y) == 15
  {
    hide WellFormed, DecodeNal, Nal, SetOf, SpsRows, Print, NoneSigned;
    var f, c := Frame(1, 0, 0, 0, 1, 0, 1), Crop(1, 1, 0, 1, 0);
    SetFits(244, 3, f, c, tail);
    q, y := SizesBack(Blank(), SetOf(244, 3, f, c), tail, n);
  }

  // --------------------------------------------- a profile that is not known

  lemma Codes()
    ensures Ue(0) == [true] && Ue(1) == [false, true, false] && Ue(2) == [false, true, true]
    ensures Ue(4) == [false, false, true, false, true]
    ensures Ue(67) == [false, false, false, false, false, false, true, false, false, false, true, false, false]
    ensures Ue(119) == [false, false, false, false, false, false, true, true, true, true, false, false, false]
    ensures Ue(239) == [false] + Ue(119) + [false]
  {
    hide Golomb;
    GolombOne();
    GolombNext(1);
    GolombNext(2);
    GolombNext(4);
    GolombNext(8);
    GolombNext(17);
    GolombNext(34);
    GolombNext(3);
    GolombNext(7);
    GolombNext(15);
    GolombNext(30);
    GolombNext(60);
    GolombNext(120);
    assert Golomb(8) == [false, false, false, true, false, false, false];
    assert Golomb(15) == [false, false, false, true, true, true, true];
  }

  lemma GolombOne()
    ensures Golomb(1) == [true]
  {}

  lemma GolombNext(k: nat)
    requires k > 0
    ensures Golomb(2 * k) == [false] + Golomb(k) + [false] && Golomb(2 * k + 1) == [false] + Golomb(k) + [true]
  {
    GolombHalf(2 * k, k);
    GolombHalf(2 * k + 1, k);
  }

  lemma GolombHalf(n: nat, k: nat)
    requires k > 0 && n / 2 == k
    ensures Golomb(n) == [false] + Golomb(k) + [n % 2 == 1]
  {}

  lemma PrintU(v: nat, rest: Syntax)
    requires v < 2
    ensures Print(UField(1, v, rest)) == [v == 1] + Print(rest)
  {
    assert U(1, v) == U(0, v / 2) + [v % 2 == 1];
  }

  lemma PrintUe(k: nat, m: nat, rest: Syntax)
    ensures Print(UeField(k, m, rest)) == Ue(k) + Print(rest)
  {}

  /** The chroma rows and what follows them in the set of 1920 by 1088. */
  lemma RowsPrinted(idc: nat, tail: seq<bool>)
    requires CodesChroma(idc)
    ensures var x := SetOf(idc, 1, Frame(1, 0, 119, 67, 1, 0, 1), Crop(0, 0, 0, 0, 0));
            Print(ChromaRows(idc, x.chroma, NoneSigned().lists, LaterRows(x, NoneSigned(), tail))) ==
              Ue(1) + ([true, true, false, false, true] + (Ue(2) + (Ue(1) + ([false] + (Ue(119) + (Ue(67) +
              ([true, true, false, false] + tail)))))))
  {
    hide CodesChroma, Ue, Print;
    var x, g := SetOf(idc, 1, Frame(1, 0, 119, 67, 1, 0, 1), Crop(0, 0, 0, 0, 0)), NoneSigned();
    var e0 := End(tail);
    PrintEnd(tail);
    var e1 := UField(1, 0, e0);
    PrintU(0, e0);
    var e2 := UField(1, 0, e1);
    PrintU(0, e1);
    var e3 := UField(1, 1, e2);
    PrintU(1, e2);
    var e4 := UField(1, 1, e3);
    PrintU(1, e3);
    assert Print(e4) == [true, true, false, false] + tail;
    var e5 := UeField(67, 0x10000, e4);
    PrintUe(67, 0x10000, e4);
    var e6 := UeField(119, 0x10000, e5);
    PrintUe(119, 0x10000, e5);
    var e7 := UField(1, 0, e6);
    PrintU(0, e6);
    var e8 := UeField(1, 0x100, e7);
    PrintUe(1, 0x100, e7);
    var e9 := UeField(2, 0x100, e8);
    PrintUe(2, 0x100, e8);
    var e10 := UeField(0, 0x100, e9);
    PrintUe(0, 0x100, e9);
    var e11 := UField(1, 0, e10);
    PrintU(0, e10);
    var e12 := UField(1, 0, e11);
    PrintU(0, e11);
    var e13 := UeField(0, 0x100, e12);
    PrintUe(0, 0x100, e12);
    var e14 := UeField(0, 0x100, e13);
    PrintUe(0, 0x100, e13);
    CodeZero();
    assert Print(e14) == [true, true, false, false, true] + Print(e9);
    var e15 := UeField(1, 0x100, e14);
    PrintUe(1, 0x100, e14);
    assert ChromaRows(idc, x.chroma, g.lists, LaterRows(x, g, tail)) == e15;
  }

  lemma CodeZero()
    ensures Ue(0) == [true]
  {}

  lemma PrintEnd(tail: seq<bool>)
    ensures Print(End(tail)) == tail
  {}

  /** What the server takes these bits for. */
  function Misread(): Fields {
    SetOf(0, 1, Frame(4, 1, 1, 239, 0, 0, 0), Crop(0, 0, 0, 0, 0)).(poc := Poc(1, 0, 0, 0, 0, 0, 0, Blank().poc.offsets))
  }

  lemma MisreadPrinted(more: seq<bool>)
    ensures Print(LaterRows(Misread(), NoneSigned(), more)) ==
              Ue(1) + ([true, true] + (Ue(4) + ([true] + (Ue(1) + (Ue(239) + ([false, false, false, false, false] + more))))))
    ensures Fits(LaterRows(Misread(), NoneSigned(), more))
  {
    hide Ue, Print, Fits;
    var y, g := Misread(), NoneSigned();
    var e0 := End(more);
    PrintEnd(more);
    var e1 := UField(1, 0, e0);
    PrintU(0, e0);
    var e2 := UField(1, 0, e1);
    PrintU(0, e1);
    var e3 := UField(1, 0, e2);
    PrintU(0, e2);
    var e4 := UField(1, 0, e3);
    PrintU(0, e3);
    var e5 := UField(1, 0, e4);
    PrintU(0, e4);
    assert Print(e5) == [false, false, false, false, false] + more;
    var e6 := UeField(239, 0x10000, e5);
    PrintUe(239, 0x10000, e5);
    var e7 := UeField(1, 0x10000, e6);
    PrintUe(1, 0x10000, e6);
    var e8 := UField(1, 1, e7);
    PrintU(1, e7);
    var e9 := UeField(4, 0x100, e8);
    PrintUe(4, 0x100, e8);
    var e10 := UeField(0, 0x100, e9);
    PrintUe(0, 0x100, e9);
    var e11 := UeField(0, 0x100, e10);
    PrintUe(0, 0x100, e10);
    CodeZero();
    assert Print(e11) == [true, true] + Print(e9);
    var e12 := UeField(1, 0x100, e11);
    PrintUe(1, 0x100, e11);
    assert LaterRows(y, g, more) == e12;
    MisreadFits(more);
  }

  lemma MisreadFits(more: seq<bool>)
    ensures Fits(LaterRows(Misread(), NoneSigned(), more))
  {
    hide Fits, FrameRows, CropRows;
    var y := Misread();
    FlagFits(more);
    CropFits(y.crop, UField(1, 0, End(more)));
    FrameFits(y.frame, CropRows(y.crop, UField(1, 0, End(more))));
    LevelFits(y.poc, FrameRows(y.frame, CropRows(y.crop, UField(1, 0, End(more)))));
  }

  lemma LevelFits(o: Poc, rest: Syntax)
    requires o.log2FrameNum == 1 && o.pocType == o.log2PocLsb == 0 && Fits(rest)
    ensures Fits(PocRows(o, NoneSigned(), rest))
  {
    assert Fits(UeField(o.log2PocLsb, 0x100, rest));
  }

  lemma SameBits(tail: seq<bool>)
    ensures
      var more := [true, false, false, false, true, false, false, true, true, false, false] + tail;
      Ue(1) + ([true, true, false, false, true] + (Ue(2) + (Ue(1) + ([false] + (Ue(119) + (Ue(67) +
        ([true, true, false, false] + tail)))))))
      == Ue(1) + ([true, true] + (Ue(4) + ([true] + (Ue(1) + (Ue(239) + ([false, false, false, false, false] + more))))))
  {
    hide Golomb;
    Codes();
  }

  lemma {:induction false} AtPrinted(s: seq<bool>, p: nat, e: Syntax)
    requires At(s, p, e)
    ensures Has(s, p, Print(e))
    decreases e
  {
    match e
    case End(tail) =>
    case UField(n, v, rest) =>
      AtPrinted(s, p + n, rest);
      HasJoin(s, p, U(n, v), Print(rest));
    case UeField(k, _, rest) =>
      AtPrinted(s, p + |Ue(k)|, rest);
      HasJoin(s, p, Ue(k), Print(rest));
    case SeField(k, rest) =>
      AtPrinted(s, p + |Ue(k)|, rest);
      HasJoin(s, p, Ue(k), Print(rest));
  }

  lemma HasJoin(s: seq<bool>, p: nat, a: seq<bool>, b: seq<bool>)
    requires Has(s, p, a) && Has(s, p + |a|, b)
    ensures Has(s, p, a + b)
  {
    assert s[p..p + |a + b|] == s[p..p + |a|] + s[p + |a|..p + |a| + |b|];
  }

  /** A failing input for each of the five profiles: 1920 by 1088 is read as 32
      by 7680, without an error. */
  lemma UnknownSet(idc: nat, tail: seq<bool>, n: nat) returns (q: nat, z: Fields)
    requires idc in {128, 138, 139, 134, 135} && (n == 0 || n == 3 || n == 4)
    ensures var x := SetOf(idc, 1, Frame(1, 0, 119, 67, 1, 0, 1), Crop(0, 0, 0, 0, 0));
            WellFormed(x, NoneSigned(), tail) && DecodeNal(Nal(x, NoneSigned(), tail, n), Blank()) == Decoded(z, q) &&
            PictureWidth(x) == 1920 && PictureHeight(x) == 1088
    ensures Width(z) == 32 && Height(z) == 7680
  {
    hide WellFormed, DecodeBits, Nal, SpsRows, Print, NoneSigned, SetOf, LaterRows, ChromaRows, ProfileRows, At, Misread;
    var f, c, g := Frame(1, 0, 119, 67, 1, 0, 1), Crop(0, 0, 0, 0, 0), NoneSigned();
    SetFits(idc, 1, f, c, tail);
    var x := SetOf(idc, 1, f, c);
    var s := BitsReach(x, g, tail, n);
    q, z := UnknownBits(s, idc, tail);
  }

  lemma SameRows(s: seq<bool>, p: nat, idc: nat, tail: seq<bool>)
    requires CodesChroma(idc)
    requires var x := SetOf(idc, 1, Frame(1, 0, 119, 67, 1, 0, 1), Crop(0, 0, 0, 0, 0));
             At(s, p, ChromaRows(idc, x.chroma, NoneSigned().lists, LaterRows(x, NoneSigned(), tail)))
    ensures p <= |s|
    ensures At(s, p, LaterRows(Misread(), NoneSigned(),
                               [true, false, false, false, true, false, false, true, true, false, false] + tail))
  {
    hide At, Ue, Print, ChromaRows, LaterRows, Misread, CodesChroma, NoneSigned, Fits, Len;
    var x := SetOf(idc, 1, Frame(1, 0, 119, 67, 1, 0, 1), Crop(0, 0, 0, 0, 0));
    var more := [true, false, false, false, true, false, false, true, true, false, false] + tail;
    AtPrinted(s, p, ChromaRows(idc, x.chroma, NoneSigned().lists, LaterRows(x, NoneSigned(), tail)));
    RowsPrinted(idc, tail);
    MisreadPrinted(more);
    SameBits(tail);
    PrintedAt(s, p, LaterRows(Misread(), NoneSigned(), more));
  }

  lemma UnknownBits(s: seq<bool>, idc: nat, tail: seq<bool>) returns (q: nat, z: Fields)
    requires idc in {128, 138, 139, 134, 135}
    requires At(s, 0, SpsRows(SetOf(idc, 1, Frame(1, 0, 119, 67, 1, 0, 1), Crop(0, 0, 0, 0, 0)), NoneSigned(), tail))
    ensures |s| >= 32 && DecodeBits(s, Blank()) == Decoded(z, q)
    ensures Width(z) == 32 && Height(z) == 7680
  {
    hide UnitHeaderAt, ProfileAt, MiddleAt, BackAt, FrontAt, At, Ue, Print, BodyAt, ChromaRows, LaterRows, PocOver;
    assert Blank().crop.flag == 0 && Shaped(Blank());
    hide Blank;
    var x, y, g := SetOf(idc, 1, Frame(1, 0, 119, 67, 1, 0, 1), Crop(0, 0, 0, 0, 0)), Misread(), NoneSigned();
    var chroma := ChromaRows(idc, x.chroma, g.lists, LaterRows(x, g, tail));
    var more := [true, false, false, false, true, false, false, true, true, false, false] + tail;
    UnitHeaderBack(s, 0, x.unit, ProfileRows(x.profile, chroma));
    var p := ProfileBack(s, 8, x.profile, chroma);
    SameRows(s, p, idc, tail);
    var a := Blank().(unit := x.unit, profile := x.profile,
                      chroma := Blank().chroma.(format := 1, separatePlane := 0, depthLuma := 0, depthChroma := 0));
    NoChromaRead(s, x.unit, x.profile, p);
    q, z := LaterMisread(s, p, a, more);
    hide Width, Height;
    MisreadSizes(z);
    BodySteps(s, 8, Blank().(unit := x.unit), a, p, MiddleAt(s, p, a).value.0, MiddleAt(s, p, a).value.1, z, q);
  }

  lemma MisreadSizes(z: Fields)
    requires z.frame.widthMbs == 1 && z.frame.heightUnits == 239 && z.frame.mbsOnly == 0
    requires z.crop == Blank().crop
    ensures Width(z) == 32 && Height(z) == 7680
  {}

  lemma NoChromaRead(s: seq<bool>, u: UnitHeader, o: Profile, p: nat)
    requires ProfileAt(s, 8) == Ok((o, p)) && Unknown(o.idc)
    ensures FrontAt(s, 8, Blank().(unit := u)) ==
              Ok((Blank().(unit := u, profile := o, chroma := Blank().chroma.(format := 1, separatePlane := 0,
                  depthLuma := 0, depthChroma := 0)), p))
  {
    hide ProfileAt;
  }

  lemma LaterMisread(s: seq<bool>, p: nat, a: Fields, more: seq<bool>) returns (q: nat, z: Fields)
    requires Shaped(a) && At(s, p, LaterRows(Misread(), NoneSigned(), more))
    ensures MiddleAt(s, p, a).Ok? && BackAt(s, MiddleAt(s, p, a).value.1, MiddleAt(s, p, a).value.0) == Ok((z, q))
    ensures z.frame.widthMbs == 1 && z.frame.heightUnits == 239 && z.frame.mbsOnly == 0
    ensures a.crop.flag == 0 ==> z.crop == a.crop
  {
    hide MiddleAt, BackAt, At, PocOver;
    var y, g := Misread(), NoneSigned();
    var q1 := MiddleBack(s, p, a, y.poc, g, y.frame, CropRows(y.crop, UField(1, 0, End(more))));
    var b := a.(poc := PocOver(a.poc, y.poc), frame := FrameOver(a.frame, y.frame));
    q := BackBack(s, q1, b, y.crop, 0, End(more));
    z := b.(crop := CropOver(b.crop, y.crop), vuiPresent := 0);
  }
}
