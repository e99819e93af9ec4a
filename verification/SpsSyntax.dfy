/** The H.264 sequence parameter set: what the server's decoder reads at each
    step, as functions of the bits. */
module SpsSyntax {
  import opened Wrappers
  import opened PowersOfTwo
  import opened BitStrings
  import opened BitReader
  import opened Emulation

  // The decoded structure, in the groups in which its fields are read.
  datatype UnitHeader = UnitHeader(forbidden: nat, refIdc: nat, unitType: nat)
  datatype Profile = Profile(
    idc: nat, set0: nat, set1: nat, set2: nat, set3: nat, set4: nat, set5: nat,
    reserved: nat, level: nat, id: nat)
  datatype Chroma = Chroma(
    format: nat, separatePlane: nat, depthLuma: nat, depthChroma: nat, bypass: nat,
    matrixPresent: nat, listPresent: seq<nat>, lists: seq<seq<int>>)
  datatype Poc = Poc(
    log2FrameNum: nat, pocType: nat, log2PocLsb: nat,
    deltaZero: nat, offsetNonRef: int, offsetTopBottom: int, cycle: nat, offsets: seq<int>)
  datatype Frame = Frame(
    maxRefFrames: nat, gaps: nat, widthMbs: nat, heightUnits: nat, mbsOnly: nat, mbaff: nat, direct8x8: nat)
  datatype Crop = Crop(flag: nat, left: nat, right: nat, top: nat, bottom: nat)
  datatype Fields = Fields(
    unit: UnitHeader, profile: Profile, chroma: Chroma, poc: Poc, frame: Frame, crop: Crop, vuiPresent: nat)

  /** The sizes of the structure's fixed arrays. */
  ghost predicate ChromaShaped(c: Chroma) {
    |c.listPresent| == 12 && |c.lists| == 12 && forall k :: 0 <= k < 12 ==> |c.lists[k]| == 64
  }

  ghost predicate Shaped(x: Fields) {
    ChromaShaped(x.chroma) && |x.poc.offsets| == 256
  }

  function Repeat(v: int, n: nat): (s: seq<int>)
    ensures |s| == n && forall k :: 0 <= k < n ==> s[k] == v
  {
    if n == 0 then [] else Repeat(v, n - 1) + [v]
  }

  /** A structure nobody has decoded into yet. */
  function Blank(): (x: Fields)
    ensures Shaped(x)
  {
    Fields(UnitHeader(0, 0, 0), Profile(0, 0, 0, 0, 0, 0, 0, 0, 0, 0),
           Chroma(0, 0, 0, 0, 0, 0, seq(12, _ => 0), seq(12, _ => Repeat(0, 64))),
           Poc(0, 0, 0, 0, 0, 0, 0, Repeat(0, 256)), Frame(0, 0, 0, 0, 0, 0, 0), Crop(0, 0, 0, 0, 0), 0)
  }

  predicate HighProfile(p: int) {
    p == 100 || p == 110 || p == 122 || p == 244 || p == 44 || p == 83 || p == 86 || p == 118
  }

  ghost function UnitHeaderAt(s: seq<bool>, p: nat): Result<(UnitHeader, nat)> {
    var (a, p) :- UAt(s, p, 1);
    var (b, p) :- UAt(s, p, 2);
    var (c, p) :- UAt(s, p, 5);
    Ok((UnitHeader(a, b, c), p))
  }

  ghost function ProfileAt(s: seq<bool>, p: nat): Result<(Profile, nat)> {
    var (idc, p) :- UAt(s, p, 8);
    var (f0, p) :- UAt(s, p, 1);
    var (f1, p) :- UAt(s, p, 1);
    var (f2, p) :- UAt(s, p, 1);
    var (f3, p) :- UAt(s, p, 1);
    var (f4, p) :- UAt(s, p, 1);
    var (f5, p) :- UAt(s, p, 1);
    var (reserved, p) :- UAt(s, p, 2);
    var (level, p) :- UAt(s, p, 8);
    var (id, p) :- UeModAt(s, p, 0x100);
    Ok((Profile(idc, f0, f1, f2, f3, f4, f5, reserved, level, id), p))
  }

  /** Skips n signed codes, whose values the reader drops. */
  ghost function SesAt(s: seq<bool>, p: nat, n: nat): Result<nat>
    decreases n
  {
    if n == 0 then Ok(p)
    else
      match UeAt(s, p)
      case Panic => Panic
      case Ok((_, q)) => SesAt(s, q, n - 1)
  }

  function ScanSize(i: nat): nat {
    if i < 6 then 16 else 64
  }

  ghost function ListAt(s: seq<bool>, p: nat, c: Chroma, i: nat): (r: Result<(Chroma, nat)>)
    requires i < 12 && ChromaShaped(c)
    ensures r.Ok? ==> ChromaShaped(r.value.0)
  {
    match UAt(s, p, 1)
    case Panic => Panic
    case Ok((f, q)) =>
      var y := c.(listPresent := c.listPresent[i := f]);
      if f == 0 then Ok((y, q))
      else
        match SesAt(s, q, ScanSize(i))
        case Panic => Panic
        case Ok(e) => Ok((y.(lists := c.lists[i := Zeroed(c.lists[i], ScanSize(i))]), e))
  }

  /** The list with its first n entries set to 0. */
  function Zeroed(l: seq<int>, n: nat): (r: seq<int>)
    requires n <= |l|
    ensures |r| == |l|
  {
    Repeat(0, n) + l[n..]
  }

  ghost function ListsAt(s: seq<bool>, p: nat, c: Chroma, i: nat, n: nat): (r: Result<(Chroma, nat)>)
    requires i <= n <= 12 && ChromaShaped(c)
    ensures r.Ok? ==> ChromaShaped(r.value.0)
    decreases n - i
  {
    if i == n then Ok((c, p))
    else
      match ListAt(s, p, c, i)
      case Panic => Panic
      case Ok((y, q)) => ListsAt(s, q, y, i + 1, n)
  }

  ghost function ChromaAt(s: seq<bool>, p: nat, idc: int, x: Chroma): (r: Result<(Chroma, nat)>)
    requires ChromaShaped(x)
    ensures r.Ok? ==> ChromaShaped(r.value.0)
  {
    if HighProfile(idc) then
      var (a, p) :- UeModAt(s, p, 0x100);
      var (b, p) :- if a == 3 then UAt(s, p, 1) else Ok((0, p));
      DepthsAt(s, p, x.(format := a, separatePlane := b))
    else
      Ok((x.(format := if idc == 183 then 0 else 1, separatePlane := 0, depthLuma := 0, depthChroma := 0), p))
  }

  ghost function DepthsAt(s: seq<bool>, p: nat, x: Chroma): (r: Result<(Chroma, nat)>)
    requires ChromaShaped(x)
    ensures r.Ok? ==> ChromaShaped(r.value.0)
  {
    var (c, p) :- UeModAt(s, p, 0x100);
    var (d, p) :- UeModAt(s, p, 0x100);
    var (e, p) :- UAt(s, p, 1);
    var (f, p) :- UAt(s, p, 1);
    var y := x.(depthLuma := c, depthChroma := d, bypass := e, matrixPresent := f);
    if f != 0 then ListsAt(s, p, y, 0, if x.format == 3 then 12 else 8) else Ok((y, p))
  }

  ghost function PocAt(s: seq<bool>, p: nat, x: Poc): (r: Result<(Poc, nat)>)
    requires |x.offsets| == 256
    ensures r.Ok? ==> |r.value.0.offsets| == 256
  {
    var (a, p) :- UeModAt(s, p, 0x100);
    var (b, p) :- UeModAt(s, p, 0x100);
    var y := x.(log2FrameNum := a, pocType := b);
    if b == 0 then
      var (c, p) :- UeModAt(s, p, 0x100);
      Ok((y.(log2PocLsb := c), p))
    else if b == 1 then CycleAt(s, p, y)
    else Ok((y, p))
  }

  ghost function CycleAt(s: seq<bool>, p: nat, x: Poc): (r: Result<(Poc, nat)>)
    requires |x.offsets| == 256
    ensures r.Ok? ==> |r.value.0.offsets| == 256
  {
    var (a, p) :- UAt(s, p, 1);
    var p :- SesAt(s, p, 2);
    var (c, p) :- UeModAt(s, p, 0x100);
    var p :- SesAt(s, p, c);
    Ok((x.(deltaZero := a, offsetNonRef := 0, offsetTopBottom := 0, cycle := c, offsets := Zeroed(x.offsets, c)), p))
  }

  ghost function FrameAt(s: seq<bool>, p: nat, x: Frame): Result<(Frame, nat)> {
    var (a, p) :- UeModAt(s, p, 0x100);
    var (b, p) :- UAt(s, p, 1);
    var (c, p) :- UeModAt(s, p, 0x10000);
    var (d, p) :- UeModAt(s, p, 0x10000);
    ScanAt(s, p, x.(maxRefFrames := a, gaps := b, widthMbs := c, heightUnits := d))
  }

  ghost function ScanAt(s: seq<bool>, p: nat, x: Frame): Result<(Frame, nat)> {
    var (e, p) :- UAt(s, p, 1);
    var (f, p) :- if e == 0 then UAt(s, p, 1) else Ok((x.mbaff, p));
    var (g, p) :- UAt(s, p, 1);
    Ok((x.(mbsOnly := e, mbaff := f, direct8x8 := g), p))
  }

  ghost function CropAt(s: seq<bool>, p: nat, x: Crop): Result<(Crop, nat)> {
    var (a, p) :- UAt(s, p, 1);
    if a == 1 then
      var (l, p) :- UeModAt(s, p, 0x10000);
      var (r, p) :- UeModAt(s, p, 0x10000);
      var (t, p) :- UeModAt(s, p, 0x10000);
      var (b, p) :- UeModAt(s, p, 0x10000);
      Ok((Crop(a, l, r, t, b), p))
    else
      Ok((x.(flag := a), p))
  }

  ghost function FrontAt(s: seq<bool>, p: nat, x: Fields): (r: Result<(Fields, nat)>)
    requires Shaped(x)
    ensures r.Ok? ==> Shaped(r.value.0)
  {
    var (profile, p) :- ProfileAt(s, p);
    var (chroma, p) :- ChromaAt(s, p, profile.idc, x.chroma);
    Ok((x.(profile := profile, chroma := chroma), p))
  }

  ghost function MiddleAt(s: seq<bool>, p: nat, x: Fields): (r: Result<(Fields, nat)>)
    requires Shaped(x)
    ensures r.Ok? ==> Shaped(r.value.0)
  {
    var (poc, p) :- PocAt(s, p, x.poc);
    var (frame, p) :- FrameAt(s, p, x.frame);
    Ok((x.(poc := poc, frame := frame), p))
  }

  ghost function BackAt(s: seq<bool>, p: nat, x: Fields): (r: Result<(Fields, nat)>)
    ensures r.Ok? && Shaped(x) ==> Shaped(r.value.0)
  {
    var (crop, p) :- CropAt(s, p, x.crop);
    var (vui, p) :- UAt(s, p, 1);
    Ok((x.(crop := crop, vuiPresent := vui), p))
  }

  /** Everything between the NAL header and the VUI parameters. */
  ghost function BodyAt(s: seq<bool>, p: nat, x: Fields): (r: Result<(Fields, nat)>)
    requires Shaped(x)
    ensures r.Ok? ==> Shaped(r.value.0)
  {
    match FrontAt(s, p, x)
    case Panic => Panic
    case Ok((y, q)) =>
      match MiddleAt(s, q, y)
      case Panic => Panic
      case Ok((z, e)) => BackAt(s, e, z)
  }

  datatype Error = NotEnough | Unsupported | NotSps | Panicked

  /** How decoding ends: in an error, or with all fields read, after which the
      VUI parameters may follow at some bit position. */
  datatype Outcome = Failed(error: Error) | Decoded(x: Fields, p: nat)

  ghost function DecodeBits(s: seq<bool>, x: Fields): Outcome
    requires Shaped(x)
  {
    match UnitHeaderAt(s, 0)
    case Panic => Failed(Panicked)
    case Ok((h, p)) =>
      if h.unitType == 14 || h.unitType == 20 || h.unitType == 21 then Failed(Unsupported)
      else if h.unitType != 7 then Failed(NotSps)
      else
        match BodyAt(s, p, x.(unit := h))
        case Panic => Failed(Panicked)
        case Ok((z, q)) => Decoded(z, q)
  }

  /** Decoding a NAL unit into a structure that holds x. */
  ghost function DecodeNal(data: seq<byte>, x: Fields): Outcome
    requires Shaped(x)
  {
    var web := Unescape(RemoveSeparator(data));
    if |web| < 4 then Failed(NotEnough) else DecodeBits(BitsOf(web), x)
  }

  /** How a unit is refused, told from its bytes: less than four; one of the
      unsupported types; another type than 7; and a set that ends behind its
      level. */
  lemma Refused(data: seq<byte>, x: Fields)
    requires Shaped(x)
    ensures var web := Unescape(RemoveSeparator(data));
            && (|web| < 4 ==> DecodeNal(data, x) == Failed(NotEnough))
            && (|web| >= 4 && web[0] % 32 in {14, 20, 21} ==> DecodeNal(data, x) == Failed(Unsupported))
            && (|web| >= 4 && web[0] % 32 !in {7, 14, 20, 21} ==> DecodeNal(data, x) == Failed(NotSps))
            && (|web| == 4 && web[0] % 32 == 7 ==> DecodeNal(data, x) == Failed(Panicked))
  {
    hide Unescape, RemoveSeparator, ProfileAt, ChromaAt, MiddleAt, BackAt, BitsOf, UAt;
    var web := Unescape(RemoveSeparator(data));
    if |web| >= 4 {
      var s := BitsOf(web);
      HeaderBits(web);
      if |web| == 4 { ProfileCut(s, 8); }
    }
  }

  lemma HeaderBits(web: seq<byte>)
    requires |web| >= 1
    ensures UnitHeaderAt(BitsOf(web), 0).Ok?
    ensures var r := UnitHeaderAt(BitsOf(web), 0).value; r.0.unitType == web[0] % 32 && r.1 == 8
  {
    hide UAt, Num, Pow2, BitsOf;
    var s := BitsOf(web);
    UAtNum(s, 0, 1);
    UAtNum(s, 1, 2);
    UAtNum(s, 3, 5);
    ByteBits(web, 3, 5, 5);
    assert Pow2(0) == 1 && Pow2(5) == 32 by { Pow2Table(); NumNone(); }
  }

  lemma ProfileCut(s: seq<bool>, p: nat)
    requires |s| <= p + 24
    ensures ProfileAt(s, p).Panic?
  {
    hide UAt, UeModAt;
    UAtNum(s, p, 8);
    UAtNum(s, p + 8, 1);
    UAtNum(s, p + 9, 1);
    UAtNum(s, p + 10, 1);
    UAtNum(s, p + 11, 1);
    UAtNum(s, p + 12, 1);
    UAtNum(s, p + 13, 1);
    UAtNum(s, p + 14, 2);
    UAtNum(s, p + 16, 8);
    NoCode(s, p + 24, 0x100);
  }

  lemma NoCode(s: seq<bool>, p: nat, m: int)
    requires |s| <= p && m > 0
    ensures UeModAt(s, p, m).Panic?
  {}

  // --------------------------------------------------------- picture size

  function U16(v: int): nat {
    v % 0x10000
  }

  /** The width in pixels, in 16-bit arithmetic. */
  function Width(x: Fields): nat {
    U16(U16(U16(U16(x.frame.widthMbs + 1) * 16) - U16(x.crop.left * 2)) - U16(x.crop.right * 2))
  }

  /** The height in pixels, in 16-bit arithmetic. */
  function Height(x: Fields): nat {
    U16(U16(U16(U16(2 - x.frame.mbsOnly) * U16(x.frame.heightUnits + 1) * 16) - U16(x.crop.top * 2)) - U16(x.crop.bottom * 2))
  }

  // The sizes of section 7.4.2.1.1 of ITU-T H.264, in unbounded integers. The
  // offsets count crop units, whose size depends on how chroma is sampled.

  /** ChromaArrayType: 0 for monochrome or separate planes, 1 for 4:2:0, 2 for
      4:2:2, 3 for 4:4:4; the standard reserves the rest. */
  function ChromaArrayType(x: Fields): nat {
    if x.chroma.separatePlane == 0 then x.chroma.format else 0
  }

  /** Samples per crop unit across: SubWidthC, or 1 without chroma. */
  function CropUnitX(x: Fields): int {
    if ChromaArrayType(x) == 1 || ChromaArrayType(x) == 2 then 2 else 1
  }

  /** Rows per crop unit: SubHeightC, or 1 without chroma, doubled when fields
      may be coded. So it is 2 for 4:2:0 frames and for fields of any other
      format. */
  function CropUnitY(x: Fields): int {
    (if ChromaArrayType(x) == 1 then 2 else 1) * (2 - x.frame.mbsOnly)
  }

  /** The crop units by table 6-1 of ITU-T H.264. */
  lemma ChromaTable(x: Fields)
    requires x.chroma.format <= 3 && x.chroma.separatePlane <= 1
    ensures CropUnitX(x) == if x.chroma.separatePlane == 1 then 1 else [1, 2, 2, 1][x.chroma.format]
    ensures CropUnitY(x) ==
            (if x.frame.mbsOnly == 1 then 1 else 2 - x.frame.mbsOnly) *
            (if x.chroma.separatePlane == 1 then 1 else [1, 2, 1, 1][x.chroma.format])
  {}

  function PictureWidth(x: Fields): int {
    (x.frame.widthMbs + 1) * 16 - CropUnitX(x) * (x.crop.left + x.crop.right)
  }

  function PictureHeight(x: Fields): int {
    (2 - x.frame.mbsOnly) * (x.frame.heightUnits + 1) * 16 - CropUnitY(x) * (x.crop.top + x.crop.bottom)
  }

  /** Offsets that add up to c take away the same, modulo 2^16, in units of 2,
      which is what the server counts in, and in units of size unit. */
  predicate SameCrop(unit: int, c: int) {
    unit == 2 || (unit == 1 && c % 0x10000 == 0) || (unit == 4 && c % 0x8000 == 0)
  }

  lemma CropMod(full: int, unit: int, c: int)
    requires unit == 1 || unit == 2 || unit == 4
    ensures U16(full - 2 * c) == full - unit * c <==> 0 <= full - unit * c < 0x10000 && SameCrop(unit, c)
  {}

  /** The 16-bit width is right exactly if the true width is a 16-bit number
      and cropping is by two samples a unit or takes nothing away. */
  lemma WidthExact(x: Fields)
    ensures Width(x) == PictureWidth(x)
            <==> 0 <= PictureWidth(x) < 0x10000 && SameCrop(CropUnitX(x), x.crop.left + x.crop.right)
  {
    var full, crop := (x.frame.widthMbs + 1) * 16, x.crop.left + x.crop.right;
    U16Mul(1, x.frame.widthMbs + 1);
    U16Sub(full, x.crop.left * 2);
    U16Sub(full - x.crop.left * 2, x.crop.right * 2);
    assert Width(x) == U16(full - 2 * crop) by { hide U16; }
    CropMod(full, CropUnitX(x), crop);
  }

  lemma U16Sub(a: int, b: int)
    ensures U16(U16(a) - U16(b)) == U16(a - b)
  {}

  lemma U16Mul(f: nat, a: nat)
    requires 1 <= f <= 2
    ensures U16(f * U16(a) * 16) == U16(f * a * 16) && U16(f) == f && f * a * 16 == f * (a * 16)
    ensures f == 1 ==> U16(U16(a) * 16) == U16(a * 16)
  {
    var k := a / 0x10000;
    if f == 1 {
      U16Plus(16 * U16(a), 16 * k);
      assert 16 * a == 16 * U16(a) + 0x10000 * (16 * k);
    } else {
      U16Plus(32 * U16(a), 32 * k);
      assert 32 * a == 32 * U16(a) + 0x10000 * (32 * k);
    }
  }

  lemma U16Plus(v: int, k: int)
    ensures U16(v + 0x10000 * k) == U16(v)
  {}

  /** The 16-bit height is right exactly if the true height is a 16-bit number
      and cropping is by two rows a unit or takes nothing away. */
  lemma HeightExact(x: Fields)
    requires x.frame.mbsOnly <= 1
    ensures Height(x) == PictureHeight(x)
            <==> 0 <= PictureHeight(x) < 0x10000 && SameCrop(CropUnitY(x), x.crop.top + x.crop.bottom)
  {
    var f, crop := 2 - x.frame.mbsOnly, x.crop.top + x.crop.bottom;
    var full := f * (x.frame.heightUnits + 1) * 16;
    U16Mul(f, x.frame.heightUnits + 1);
    U16Sub(full, x.crop.top * 2);
    U16Sub(full - x.crop.top * 2, x.crop.bottom * 2);
    assert Height(x) == U16(full - 2 * crop) by { hide U16; }
    CropMod(full, CropUnitY(x), crop);
  }

  /** Up to 1055 macroblocks a side, the most that any level allows, and with
      a crop that leaves something: each is right exactly if its crop unit is
      2 or nothing is cropped that way. */
  lemma SmallPicture(x: Fields)
    requires x.frame.mbsOnly <= 1
    requires x.frame.widthMbs + 1 <= 1055 && (2 - x.frame.mbsOnly) * (x.frame.heightUnits + 1) <= 1055
    requires PictureWidth(x) > 0 && PictureHeight(x) > 0
    ensures Width(x) == PictureWidth(x) <==> CropUnitX(x) == 2 || x.crop.left + x.crop.right == 0
    ensures Height(x) == PictureHeight(x) <==> CropUnitY(x) == 2 || x.crop.top + x.crop.bottom == 0
  {
    hide Width, Height, SameCrop;
    WidthExact(x);
    HeightExact(x);
    SmallCrop(CropUnitX(x), x.crop.left + x.crop.right);
    SmallCrop(CropUnitY(x), x.crop.top + x.crop.bottom);
  }

  lemma SmallCrop(unit: int, c: nat)
    requires (unit == 1 || unit == 2 || unit == 4) && unit * c < 16880
    ensures SameCrop(unit, c) <==> unit == 2 || c == 0
  {}
}
