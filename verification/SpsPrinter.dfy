/** Sequence parameter sets as an encoder prints them, by the syntax tables of
    ITU-T H.264. */
module SpsPrinter {
  import opened PowersOfTwo
  import opened BitStrings
  import opened ExpGolomb
  import opened Emulation
  import opened SpsSyntax

  /** A list of syntax elements and the bits after them: u(n) with n bits, ue(v)
      with the number of values of the type that holds it, and se(v) with its
      code number. */
  datatype Syntax =
    | End(tail: seq<bool>)
    | UField(n: nat, v: nat, rest: Syntax)
    | UeField(k: nat, m: nat, rest: Syntax)
    | SeField(k: nat, rest: Syntax)

  function Print(e: Syntax): seq<bool> {
    match e
    case End(tail) => tail
    case UField(n, v, rest) => U(n, v) + Print(rest)
    case UeField(k, _, rest) => Ue(k) + Print(rest)
    case SeField(k, rest) => Ue(k) + Print(rest)
  }

  /** Every value fits its descriptor and its type. */
  ghost predicate Fits(e: Syntax) {
    match e
    case End(_) => true
    case UField(n, v, rest) => v < Pow2(n) && Fits(rest)
    case UeField(k, m, rest) => (m == 0x100 || m == 0x10000) && k < m && Fits(rest)
    case SeField(k, rest) => k < 0x1_0000_0000 && Fits(rest)
  }

  /** The code numbers of the signed elements of a set: of its scaling lists and
      its picture order offsets. */
  datatype Signed = Signed(lists: seq<seq<nat>>, nonRef: nat, topBottom: nat, refs: seq<nat>)

  // The columns of section 7.3.2.1.1, one group of rows each.

  function UnitRows(h: UnitHeader, rest: Syntax): Syntax {
    UField(1, h.forbidden, UField(2, h.refIdc, UField(5, h.unitType, rest)))
  }

  function ProfileRows(y: Profile, rest: Syntax): Syntax {
    UField(8, y.idc, UField(1, y.set0, UField(1, y.set1, UField(1, y.set2, UField(1, y.set3, UField(1, y.set4,
    UField(1, y.set5, UField(2, y.reserved, UField(8, y.level, UeField(y.id, 0x100, rest))))))))))
  }

  /** The profiles for which the table has the chroma rows. */
  predicate CodesChroma(idc: int) {
    idc in {100, 110, 122, 244, 44, 83, 86, 118, 128, 138, 139, 134, 135}
  }

  function ChromaRows(idc: nat, c: Chroma, lists: seq<seq<nat>>, rest: Syntax): Syntax
    requires |c.listPresent| == |lists| == 12
  {
    if !CodesChroma(idc) then rest
    else
      var depths := DepthsRows(c, lists, rest);
      UeField(c.format, 0x100, if c.format == 3 then UField(1, c.separatePlane, depths) else depths)
  }

  function DepthsRows(c: Chroma, lists: seq<seq<nat>>, rest: Syntax): Syntax
    requires |c.listPresent| == |lists| == 12
  {
    UeField(c.depthLuma, 0x100, UeField(c.depthChroma, 0x100, UField(1, c.bypass, UField(1, c.matrixPresent,
    if c.matrixPresent == 0 then rest else ListRows(c, lists, 0, if c.format != 3 then 8 else 12, rest)))))
  }

  /** The scaling lists i..n, each with all its differences coded. */
  function ListRows(c: Chroma, lists: seq<seq<nat>>, i: nat, n: nat, rest: Syntax): Syntax
    requires i <= n <= 12 && |c.listPresent| == |lists| == 12
    decreases n - i
  {
    if i == n then rest
    else
      var next := ListRows(c, lists, i + 1, n, rest);
      UField(1, c.listPresent[i], if c.listPresent[i] == 0 then next else SeRows(lists[i], next))
  }

  function SeRows(ks: seq<nat>, rest: Syntax): Syntax {
    if ks == [] then rest else SeField(ks[0], SeRows(ks[1..], rest))
  }

  function PocRows(y: Poc, s: Signed, rest: Syntax): Syntax {
    UeField(y.log2FrameNum, 0x100, UeField(y.pocType, 0x100,
    if y.pocType == 0 then UeField(y.log2PocLsb, 0x100, rest)
    else if y.pocType == 1 then
      UField(1, y.deltaZero, SeField(s.nonRef, SeField(s.topBottom, UeField(y.cycle, 0x100, SeRows(s.refs, rest)))))
    else rest))
  }

  function FrameRows(y: Frame, rest: Syntax): Syntax {
    UeField(y.maxRefFrames, 0x100, UField(1, y.gaps, UeField(y.widthMbs, 0x10000, UeField(y.heightUnits, 0x10000,
    ScanRows(y, rest)))))
  }

  function ScanRows(y: Frame, rest: Syntax): Syntax {
    var last := UField(1, y.direct8x8, rest);
    UField(1, y.mbsOnly, if y.mbsOnly == 0 then UField(1, y.mbaff, last) else last)
  }

  function CropRows(y: Crop, rest: Syntax): Syntax {
    UField(1, y.flag, if y.flag == 1
      then UeField(y.left, 0x10000, UeField(y.right, 0x10000, UeField(y.top, 0x10000, UeField(y.bottom, 0x10000, rest))))
      else rest)
  }

  /** The rows behind the profile, the VUI flag, and what follows it. */
  function LaterRows(x: Fields, s: Signed, tail: seq<bool>): Syntax {
    PocRows(x.poc, s, FrameRows(x.frame, CropRows(x.crop, UField(1, x.vuiPresent, End(tail)))))
  }

  /** The printed set, from the NAL header on. */
  function SpsRows(x: Fields, s: Signed, tail: seq<bool>): Syntax
    requires |x.chroma.listPresent| == |s.lists| == 12
  {
    UnitRows(x.unit, ProfileRows(x.profile, ChromaRows(x.profile.idc, x.chroma, s.lists, LaterRows(x, s, tail))))
  }

  /** A sequence parameter set whose values fit and belong to the code numbers of
      its signed elements, whose scaling lists are either left out or coded to
      their end, and with the inferred values of section 7.4.2.1.1 as the server
      has them where a profile codes no chroma format. */
  ghost predicate WellFormed(x: Fields, s: Signed, tail: seq<bool>) {
    && Shaped(x) && |s.lists| == 12
    && Fits(SpsRows(x, s, tail)) && x.unit.unitType == 7
    && ChromaInferred(x.profile.idc, x.chroma)
    && (CodesChroma(x.profile.idc) && x.chroma.matrixPresent != 0 ==> ListsHeld(x.chroma, s.lists))
    && (x.poc.pocType == 1 ==> OffsetsHeld(x.poc, s))
  }

  ghost predicate ChromaInferred(idc: nat, c: Chroma) {
    (c.format != 3 ==> c.separatePlane == 0) &&
    (!CodesChroma(idc) ==> c.format == (if idc == 183 then 0 else 1) && c.depthLuma == 0 && c.depthChroma == 0)
  }

  /** The first six lists have 16 entries, the others 64. */
  ghost predicate ListsHeld(c: Chroma, lists: seq<seq<nat>>)
    requires ChromaShaped(c) && |lists| == 12
  {
    forall i :: 0 <= i < 12 && c.listPresent[i] != 0 ==> ListHeld(c.lists[i], lists[i], if i < 6 then 16 else 64)
  }

  ghost predicate ListHeld(held: seq<int>, ks: seq<nat>, n: nat) {
    |ks| == n <= |held| && forall k :: 0 <= k < n ==> held[k] == SignedValue(ks[k])
  }

  ghost predicate OffsetsHeld(o: Poc, s: Signed)
    requires |o.offsets| == 256
  {
    && o.offsetNonRef == SignedValue(s.nonRef) && o.offsetTopBottom == SignedValue(s.topBottom)
    && o.cycle < 256 && ListHeld(o.offsets, s.refs, o.cycle)
  }

  /** The NAL unit of a printed set: packed into bytes, escaped, and behind a
      start code or none. */
  function Nal(x: Fields, s: Signed, tail: seq<bool>, n: nat): seq<byte>
    requires |x.chroma.listPresent| == |s.lists| == 12 && (n == 0 || n == 3 || n == 4)
  {
    StartCode(n) + Escape(Pack(Print(SpsRows(x, s, tail))), 0)
  }
}
