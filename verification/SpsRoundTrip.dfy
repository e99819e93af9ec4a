/** Printing a sequence parameter set by the syntax tables of ITU-T H.264 and
    decoding it again, through all three layers. */
module SpsRoundTrip {
  import opened Wrappers
  import opened PowersOfTwo
  import opened BitStrings
  import opened BitReader
  import opened ExpGolomb
  import opened Emulation
  import opened SpsSyntax
  import opened SpsPrinter

  // ------------------------------------------------------- reading the rows

  /** The elements of e, all of which fit, stand one after the other from
      position p on. */
  ghost predicate At(s: seq<bool>, p: nat, e: Syntax)
    decreases e
  {
    match e
    case End(tail) => Has(s, p, tail)
    case UField(n, v, rest) => v < Pow2(n) && Has(s, p, U(n, v)) && At(s, p + n, rest)
    case UeField(k, m, rest) =>
      (m == 0x100 || m == 0x10000) && k < m && Has(s, p, Ue(k)) && At(s, p + |Ue(k)|, rest)
    case SeField(k, rest) => k < 0x1_0000_0000 && Has(s, p, Ue(k)) && At(s, p + |Ue(k)|, rest)
  }

  ghost function Len(e: Syntax): nat {
    match e
    case End(tail) => |tail|
    case UField(n, _, rest) => n + Len(rest)
    case UeField(k, _, rest) => |Ue(k)| + Len(rest)
    case SeField(k, rest) => |Ue(k)| + Len(rest)
  }

  lemma {:induction false} PrintedAt(s: seq<bool>, p: nat, e: Syntax)
    requires Has(s, p, Print(e)) && Fits(e)
    ensures At(s, p, e) && Len(e) == |Print(e)|
    decreases e
  {
    hide Has, U, Ue;
    match e
    case End(tail) =>
    case UField(n, v, rest) =>
      HasSplit(s, p, U(n, v), Print(rest));
      PrintedAt(s, p + n, rest);
    case UeField(k, _, rest) =>
      HasSplit(s, p, Ue(k), Print(rest));
      PrintedAt(s, p + |Ue(k)|, rest);
    case SeField(k, rest) =>
      HasSplit(s, p, Ue(k), Print(rest));
      PrintedAt(s, p + |Ue(k)|, rest);
  }

  /** rest stands at q, where the reader is once it has read e from p on. */
  ghost predicate Reached(s: seq<bool>, p: nat, e: Syntax, q: nat, rest: Syntax) {
    At(s, q, rest) && q + Len(rest) == p + Len(e)
  }

  lemma NextU(s: seq<bool>, p: nat, n: nat, v: nat, rest: Syntax)
    requires At(s, p, UField(n, v, rest))
    ensures UAt(s, p, n) == Ok((v, p + n)) && Reached(s, p, UField(n, v, rest), p + n, rest)
  {
    UHas(s, p, n, v);
  }

  lemma NextUe(s: seq<bool>, p: nat, k: nat, m: nat, rest: Syntax) returns (q: nat)
    requires m > 0 && At(s, p, UeField(k, m, rest))
    ensures UeModAt(s, p, m) == Ok((k, q)) && Reached(s, p, UeField(k, m, rest), q, rest) && q > p
  {
    UeHas(s, p, k);
    q := p + |Ue(k)|;
    SmallMod(k, m);
  }

  lemma SmallMod(k: int, m: int)
    requires (m == 0x100 || m == 0x10000) && 0 <= k < m
    ensures k % m == k
  {}

  lemma UnitHeaderBack(s: seq<bool>, p: nat, h: UnitHeader, rest: Syntax)
    requires At(s, p, UnitRows(h, rest))
    ensures UnitHeaderAt(s, p) == Ok((h, p + 8)) && Reached(s, p, UnitRows(h, rest), p + 8, rest)
  {
    var r1 := UField(5, h.unitType, rest);
    NextU(s, p, 1, h.forbidden, UField(2, h.refIdc, r1));
    NextU(s, p + 1, 2, h.refIdc, r1);
    NextU(s, p + 3, 5, h.unitType, rest);
  }

  lemma ProfileBack(s: seq<bool>, p: nat, y: Profile, rest: Syntax) returns (q: nat)
    requires At(s, p, ProfileRows(y, rest))
    ensures ProfileAt(s, p) == Ok((y, q)) && Reached(s, p, ProfileRows(y, rest), q, rest) && q >= p + 24
  {
    var r0 := UeField(y.id, 0x100, rest);
    var r1 := UField(8, y.level, r0);
    var r2 := UField(2, y.reserved, r1);
    var r3 := UField(1, y.set5, r2);
    var r4 := UField(1, y.set4, r3);
    var r5 := UField(1, y.set3, r4);
    var r6 := UField(1, y.set2, r5);
    var r7 := UField(1, y.set1, r6);
    var r8 := UField(1, y.set0, r7);
    NextU(s, p, 8, y.idc, r8);
    NextU(s, p + 8, 1, y.set0, r7);
    NextU(s, p + 9, 1, y.set1, r6);
    NextU(s, p + 10, 1, y.set2, r5);
    NextU(s, p + 11, 1, y.set3, r4);
    NextU(s, p + 12, 1, y.set4, r3);
    NextU(s, p + 13, 1, y.set5, r2);
    NextU(s, p + 14, 2, y.reserved, r1);
    NextU(s, p + 16, 8, y.level, r0);
    q := NextUe(s, p + 24, y.id, 0x100, rest);
  }

  /** Signed elements are passed over, whatever they are. */
  lemma {:induction false} SesBack(s: seq<bool>, p: nat, ks: seq<nat>, rest: Syntax) returns (q: nat)
    requires At(s, p, SeRows(ks, rest))
    ensures SesAt(s, p, |ks|) == Ok(q) && Reached(s, p, SeRows(ks, rest), q, rest) && q >= p
    decreases |ks|
  {
    hide UeAt;
    if ks == [] {
      q := p;
    } else {
      UeHas(s, p, ks[0]);
      q := SesBack(s, p + |Ue(ks[0])|, ks[1..], rest);
    }
  }

  /** A list whose first n entries were read, as zeros. */
  function Read0(held: seq<int>, n: nat): (r: seq<int>)
    requires n <= |held|
    ensures |r| == |held|
    ensures forall k :: 0 <= k < |held| ==> r[k] == if k < n then 0 else held[k]
  {
    Zeroed(held, n)
  }

  function ListOver(held: Chroma, present: nat, i: nat): (r: Chroma)
    requires i < 12 && ChromaShaped(held)
    ensures ChromaShaped(r)
  {
    held.(listPresent := held.listPresent[i := present],
          lists := if present == 0 then held.lists else held.lists[i := Read0(held.lists[i], if i < 6 then 16 else 64)])
  }

  function ListsOver(held: Chroma, present: seq<nat>, i: nat, n: nat): (r: Chroma)
    requires i <= n <= 12 == |present| && ChromaShaped(held)
    ensures ChromaShaped(r)
    decreases n - i
  {
    if i == n then held else ListsOver(ListOver(held, present[i], i), present, i + 1, n)
  }

  lemma {:induction false} ListsBack(s: seq<bool>, p: nat, held: Chroma, c: Chroma, lists: seq<seq<nat>>, i: nat, n: nat,
                                     rest: Syntax) returns (q: nat)
    requires i <= n <= 12 == |lists| && ChromaShaped(held) && ChromaShaped(c) && ListsHeld(c, lists)
    requires At(s, p, ListRows(c, lists, i, n, rest))
    ensures ListsAt(s, p, held, i, n) == Ok((ListsOver(held, c.listPresent, i, n), q)) && q >= p
    ensures Reached(s, p, ListRows(c, lists, i, n, rest), q, rest)
    decreases n - i
  {
    hide At, UAt, SesAt, ListOver, Len, ListsHeld;
    if i == n {
      q := p;
    } else {
      var next := ListRows(c, lists, i + 1, n, rest);
      q := ListBack(s, p, held, c, lists, i, next);
      q := ListsBack(s, q, ListOver(held, c.listPresent[i], i), c, lists, i + 1, n, rest);
    }
  }

  lemma ListBack(s: seq<bool>, p: nat, held: Chroma, c: Chroma, lists: seq<seq<nat>>, i: nat, next: Syntax) returns (q: nat)
    requires i < 12 == |lists| && ChromaShaped(held) && ChromaShaped(c) && ListsHeld(c, lists)
    requires At(s, p, UField(1, c.listPresent[i], if c.listPresent[i] == 0 then next else SeRows(lists[i], next)))
    ensures ListAt(s, p, held, i) == Ok((ListOver(held, c.listPresent[i], i), q)) && q >= p
    ensures Reached(s, p, UField(1, c.listPresent[i], if c.listPresent[i] == 0 then next else SeRows(lists[i], next)), q, next)
  {
    hide UAt, SesAt;
    var f := c.listPresent[i];
    NextU(s, p, 1, f, if f == 0 then next else SeRows(lists[i], next));
    q := p + 1;
    if f != 0 {
      assert ListHeld(c.lists[i], lists[i], if i < 6 then 16 else 64);
      q := SesBack(s, q, lists[i], next);
    }
  }

  lemma {:induction false} SesSplit(s: seq<bool>, p: nat, a: nat, b: nat)
    requires SesAt(s, p, a).Ok?
    ensures SesAt(s, p, a + b) == SesAt(s, SesAt(s, p, a).value, b)
    ensures SesAt(s, p, a).value >= p + a
    decreases a
  {
    hide UeFrom;
    if a == 0 {
    } else {
      UeLonger(s, p);
      SesSplit(s, UeAt(s, p).value.1, a - 1, b);
    }
  }

  lemma UeLonger(s: seq<bool>, p: nat)
    requires UeAt(s, p).Ok?
    ensures UeAt(s, p).value.1 > p
  {
    UeFromLonger(s, p, 0);
  }

  lemma {:induction false} UeFromLonger(s: seq<bool>, p: nat, i: nat)
    requires i <= 32 && UeFrom(s, p, i).Ok?
    ensures UeFrom(s, p, i).value.1 > p
    decreases 32 - i
  {
    hide UAt, UeSum;
    if !s[p] && i < 32 {
      UeFromLonger(s, p + 1, i + 1);
    } else {
      UAtNum(s, p + 1, i);
      if i == 0 { assert UAt(s, p + 1, 0) == Ok((0, p + 1)); }
    }
  }

  /** A scaling list may end early in the table, once the next scale is 0. The
      server stands behind a list exactly if it did not: it reads all of them to
      their full length. */
  lemma ListEnds(s: seq<bool>, p: nat, held: Chroma, i: nat, ks: seq<nat>, rest: Syntax)
    requires i < 12 && ChromaShaped(held) && |ks| <= (if i < 6 then 16 else 64)
    requires At(s, p, UField(1, 1, SeRows(ks, rest)))
    ensures var behind := p + Len(UField(1, 1, SeRows(ks, rest))) - Len(rest);
            ListAt(s, p, held, i).Ok? && ListAt(s, p, held, i).value.1 == behind <==>
              |ks| == if i < 6 then 16 else 64
  {
    hide UAt, SesAt;
    NextU(s, p, 1, 1, SeRows(ks, rest));
    var q := SesBack(s, p + 1, ks, rest);
    var n := if i < 6 then 16 else 64;
    SesSplit(s, p + 1, |ks|, n - |ks|);
    if |ks| < n && SesAt(s, q, n - |ks|).Ok? {
      SesSplit(s, q, n - |ks|, 0);
    }
  }

  /** What reading the rows leaves: where the table codes nothing, what was held. */
  function ChromaOver(held: Chroma, idc: nat, c: Chroma): Chroma
    requires ChromaShaped(held) && |c.listPresent| == 12
  {
    if !CodesChroma(idc) then held.(format := c.format, separatePlane := 0, depthLuma := 0, depthChroma := 0)
    else
      var lists := if c.matrixPresent == 0 then held
                   else ListsOver(held, c.listPresent, 0, if c.format == 3 then 12 else 8);
      c.(listPresent := lists.listPresent, lists := lists.lists)
  }

  /** Reading the lists does not look at the other fields. */
  lemma {:induction false} ListsAlone(a: Chroma, b: Chroma, present: seq<nat>, i: nat, n: nat)
    requires i <= n <= 12 == |present| && ChromaShaped(a) && ChromaShaped(b)
    requires a.listPresent == b.listPresent && a.lists == b.lists
    ensures var r, t := ListsOver(a, present, i, n), ListsOver(b, present, i, n);
            r == a.(listPresent := t.listPresent, lists := t.lists)
    decreases n - i
  {
    if i == n {
    } else {
      ListsAlone(ListOver(a, present[i], i), ListOver(b, present[i], i), present, i + 1, n);
    }
  }

  lemma DepthsBack(s: seq<bool>, p: nat, held: Chroma, c: Chroma, lists: seq<seq<nat>>, rest: Syntax) returns (q: nat)
    requires ChromaShaped(held) && ChromaShaped(c) && |lists| == 12 && held.format == c.format
    requires c.matrixPresent != 0 ==> ListsHeld(c, lists)
    requires At(s, p, DepthsRows(c, lists, rest))
    ensures
      var y := held.(depthLuma := c.depthLuma, depthChroma := c.depthChroma, bypass := c.bypass,
                     matrixPresent := c.matrixPresent);
      DepthsAt(s, p, held) ==
        Ok((if c.matrixPresent == 0 then y else ListsOver(y, c.listPresent, 0, if c.format == 3 then 12 else 8), q))
    ensures Reached(s, p, DepthsRows(c, lists, rest), q, rest) && q >= p
  {
    hide ListRows, ListsAt, ListsOver, ListsHeld;
    var n := if c.format != 3 then 8 else 12;
    var r0 := if c.matrixPresent == 0 then rest else ListRows(c, lists, 0, n, rest);
    var r1 := UField(1, c.matrixPresent, r0);
    var r2 := UField(1, c.bypass, r1);
    var r3 := UeField(c.depthChroma, 0x100, r2);
    q := NextUe(s, p, c.depthLuma, 0x100, r3);
    q := NextUe(s, q, c.depthChroma, 0x100, r2);
    NextU(s, q, 1, c.bypass, r1);
    NextU(s, q + 1, 1, c.matrixPresent, r0);
    q := q + 2;
    if c.matrixPresent != 0 {
      var y := held.(depthLuma := c.depthLuma, depthChroma := c.depthChroma, bypass := c.bypass,
                     matrixPresent := c.matrixPresent);
      q := ListsBack(s, q, y, c, lists, 0, n, rest);
    }
  }

  /** The profiles of the table that the server does not take for such. */
  predicate Unknown(idc: int) {
    idc == 128 || idc == 138 || idc == 139 || idc == 134 || idc == 135
  }

  lemma ChromaBack(s: seq<bool>, p: nat, idc: nat, held: Chroma, c: Chroma, lists: seq<seq<nat>>, rest: Syntax) returns (q: nat)
    requires !Unknown(idc)
    requires ChromaInferred(idc, c) && ChromaShaped(held) && ChromaShaped(c) && |lists| == 12
    requires CodesChroma(idc) && c.matrixPresent != 0 ==> ListsHeld(c, lists)
    requires At(s, p, ChromaRows(idc, c, lists, rest))
    ensures ChromaAt(s, p, idc, held) == Ok((ChromaOver(held, idc, c), q)) && q >= p
    ensures Reached(s, p, ChromaRows(idc, c, lists, rest), q, rest)
  {
    hide At, UAt, UeModAt, DepthsAt, DepthsRows, ListsOver, ListsHeld;
    if CodesChroma(idc) {
      var r3 := DepthsRows(c, lists, rest);
      if c.format == 3 {
        q := NextUe(s, p, c.format, 0x100, UField(1, c.separatePlane, r3));
        NextU(s, q, 1, c.separatePlane, r3);
        q := q + 1;
      } else {
        q := NextUe(s, p, c.format, 0x100, r3);
      }
      var h := held.(format := c.format, separatePlane := c.separatePlane);
      q := DepthsBack(s, q, h, c, lists, rest);
      var y := h.(depthLuma := c.depthLuma, depthChroma := c.depthChroma, bypass := c.bypass,
                  matrixPresent := c.matrixPresent);
      ListsAlone(y, held, c.listPresent, 0, if c.format == 3 then 12 else 8);
    } else {
      q := p;
    }
  }

  function PocOver(held: Poc, o: Poc): Poc
    requires |held.offsets| == 256
  {
    var y := held.(log2FrameNum := o.log2FrameNum, pocType := o.pocType);
    if o.pocType == 0 then y.(log2PocLsb := o.log2PocLsb)
    else if o.pocType == 1 && o.cycle <= 256 then
      y.(deltaZero := o.deltaZero, offsetNonRef := 0, offsetTopBottom := 0, cycle := o.cycle,
         offsets := Read0(held.offsets, o.cycle))
    else y
  }

  lemma PocBack(s: seq<bool>, p: nat, held: Poc, o: Poc, g: Signed, rest: Syntax) returns (q: nat)
    requires |held.offsets| == |o.offsets| == 256 && At(s, p, PocRows(o, g, rest))
    requires o.pocType == 1 ==> OffsetsHeld(o, g)
    ensures PocAt(s, p, held) == Ok((PocOver(held, o), q)) && Reached(s, p, PocRows(o, g, rest), q, rest)
  {
    hide CycleAt, SeRows;
    var cycle := UField(1, o.deltaZero, SeField(g.nonRef, SeField(g.topBottom, UeField(o.cycle, 0x100, SeRows(g.refs, rest)))));
    var r := if o.pocType == 0 then UeField(o.log2PocLsb, 0x100, rest) else if o.pocType == 1 then cycle else rest;
    q := NextUe(s, p, o.log2FrameNum, 0x100, UeField(o.pocType, 0x100, r));
    q := NextUe(s, q, o.pocType, 0x100, r);
    if o.pocType == 0 {
      q := NextUe(s, q, o.log2PocLsb, 0x100, rest);
    } else if o.pocType == 1 {
      q := CycleBack(s, q, held.(log2FrameNum := o.log2FrameNum, pocType := 1), o, g, rest);
    }
  }

  lemma CycleBack(s: seq<bool>, p: nat, held: Poc, o: Poc, g: Signed, rest: Syntax) returns (q: nat)
    requires |held.offsets| == |o.offsets| == 256 && OffsetsHeld(o, g)
    requires At(s, p, UField(1, o.deltaZero, SeField(g.nonRef, SeField(g.topBottom, UeField(o.cycle, 0x100, SeRows(g.refs, rest))))))
    ensures CycleAt(s, p, held) ==
              Ok((held.(deltaZero := o.deltaZero, offsetNonRef := 0, offsetTopBottom := 0, cycle := o.cycle,
                        offsets := Read0(held.offsets, o.cycle)), q))
    ensures Reached(s, p, UField(1, o.deltaZero, SeField(g.nonRef, SeField(g.topBottom,
                            UeField(o.cycle, 0x100, SeRows(g.refs, rest))))), q, rest)
  {
    hide Ue, U, Has;
    var r1 := UeField(o.cycle, 0x100, SeRows(g.refs, rest));
    var r2 := SeField(g.nonRef, SeField(g.topBottom, r1));
    NextU(s, p, 1, o.deltaZero, r2);
    TwoSigned(s, p + 1, g.nonRef, g.topBottom, r1);
    q := p + 1 + |Ue(g.nonRef)| + |Ue(g.topBottom)|;
    hide UeAt, UAt, SesAt;
    q := NextUe(s, q, o.cycle, 0x100, SeRows(g.refs, rest));
    q := SesBack(s, q, g.refs, rest);
  }

  lemma TwoSigned(s: seq<bool>, p: nat, a: nat, b: nat, rest: Syntax)
    requires At(s, p, SeField(a, SeField(b, rest)))
    ensures var q := p + |Ue(a)| + |Ue(b)|;
            SesAt(s, p, 2) == Ok(q) && Reached(s, p, SeField(a, SeField(b, rest)), q, rest)
  {
    hide UeAt;
    UeHas(s, p, a);
    UeHas(s, p + |Ue(a)|, b);
    var next := SeField(b, rest);
    assert At(s, p + |Ue(a)|, next) && Len(SeField(a, next)) == |Ue(a)| + Len(next);
    assert SesAt(s, p + |Ue(a)|, 1) == SesAt(s, p + |Ue(a)| + |Ue(b)|, 0);
  }

  function FrameOver(held: Frame, f: Frame): Frame {
    f.(mbaff := if f.mbsOnly == 0 then f.mbaff else held.mbaff)
  }

  lemma ScanBack(s: seq<bool>, p: nat, held: Frame, f: Frame, rest: Syntax) returns (q: nat)
    requires At(s, p, ScanRows(f, rest))
    ensures ScanAt(s, p, held) ==
            Ok((held.(mbsOnly := f.mbsOnly, mbaff := if f.mbsOnly == 0 then f.mbaff else held.mbaff, direct8x8 := f.direct8x8), q))
    ensures Reached(s, p, ScanRows(f, rest), q, rest)
  {
    var last := UField(1, f.direct8x8, rest);
    NextU(s, p, 1, f.mbsOnly, if f.mbsOnly == 0 then UField(1, f.mbaff, last) else last);
    q := p + 1;
    if f.mbsOnly == 0 {
      NextU(s, q, 1, f.mbaff, last);
      q := q + 1;
    }
    NextU(s, q, 1, f.direct8x8, rest);
    q := q + 1;
  }

  lemma FrameBack(s: seq<bool>, p: nat, held: Frame, f: Frame, rest: Syntax) returns (q: nat)
    requires At(s, p, FrameRows(f, rest))
    ensures FrameAt(s, p, held) == Ok((FrameOver(held, f), q)) && Reached(s, p, FrameRows(f, rest), q, rest)
  {
    hide ScanAt, UeModAt;
    var r1 := ScanRows(f, rest);
    var r2 := UeField(f.heightUnits, 0x10000, r1);
    var r3 := UeField(f.widthMbs, 0x10000, r2);
    q := NextUe(s, p, f.maxRefFrames, 0x100, UField(1, f.gaps, r3));
    NextU(s, q, 1, f.gaps, r3);
    q := NextUe(s, q + 1, f.widthMbs, 0x10000, r2);
    q := NextUe(s, q, f.heightUnits, 0x10000, r1);
    q := ScanBack(s, q, held.(maxRefFrames := f.maxRefFrames, gaps := f.gaps, widthMbs := f.widthMbs,
                              heightUnits := f.heightUnits), f, rest);
  }

  function CropOver(held: Crop, r: Crop): Crop {
    if r.flag == 1 then r else held.(flag := r.flag)
  }

  lemma CropBack(s: seq<bool>, p: nat, held: Crop, r: Crop, rest: Syntax) returns (q: nat)
    requires At(s, p, CropRows(r, rest))
    ensures CropAt(s, p, held) == Ok((CropOver(held, r), q)) && Reached(s, p, CropRows(r, rest), q, rest)
  {
    if r.flag == 1 {
      var r0 := UeField(r.bottom, 0x10000, rest);
      var r1 := UeField(r.top, 0x10000, r0);
      var r2 := UeField(r.right, 0x10000, r1);
      NextU(s, p, 1, r.flag, UeField(r.left, 0x10000, r2));
      q := NextUe(s, p + 1, r.left, 0x10000, r2);
      q := NextUe(s, q, r.right, 0x10000, r1);
      q := NextUe(s, q, r.top, 0x10000, r0);
      q := NextUe(s, q, r.bottom, 0x10000, rest);
    } else {
      NextU(s, p, 1, r.flag, rest);
      q := p + 1;
    }
  }

  // --------------------------------------------------------- the whole set

  /** What decoding the printed x leaves in a structure that held other values. */
  function Over(held: Fields, x: Fields): Fields
    requires |held.poc.offsets| == 256 && ChromaShaped(held.chroma) && |x.chroma.listPresent| == 12
  {
    Fields(x.unit, x.profile, ChromaOver(held.chroma, x.profile.idc, x.chroma), PocOver(held.poc, x.poc),
           FrameOver(held.frame, x.frame), CropOver(held.crop, x.crop), x.vuiPresent)
  }

  lemma FrontBack(s: seq<bool>, p: nat, held: Fields, y: Profile, c: Chroma, lists: seq<seq<nat>>, rest: Syntax) returns (q: nat)
    requires !Unknown(y.idc)
    requires ChromaInferred(y.idc, c) && ChromaShaped(held.chroma) && Shaped(held) && ChromaShaped(c) && |lists| == 12
    requires CodesChroma(y.idc) && c.matrixPresent != 0 ==> ListsHeld(c, lists)
    requires At(s, p, ProfileRows(y, ChromaRows(y.idc, c, lists, rest)))
    ensures FrontAt(s, p, held) == Ok((held.(profile := y, chroma := ChromaOver(held.chroma, y.idc, c)), q))
    ensures Reached(s, p, ProfileRows(y, ChromaRows(y.idc, c, lists, rest)), q, rest) && q >= p + 24
  {
    hide ProfileAt, ChromaAt, ListsHeld, ChromaInferred;
    var q1 := ProfileBack(s, p, y, ChromaRows(y.idc, c, lists, rest));
    q := ChromaBack(s, q1, y.idc, held.chroma, c, lists, rest);
    FrontSteps(s, p, held, y, q1, ChromaOver(held.chroma, y.idc, c), q);
  }

  lemma FrontSteps(s: seq<bool>, p: nat, held: Fields, y: Profile, q1: nat, c: Chroma, q: nat)
    requires Shaped(held) && ProfileAt(s, p) == Ok((y, q1)) && ChromaAt(s, q1, y.idc, held.chroma) == Ok((c, q))
    ensures FrontAt(s, p, held) == Ok((held.(profile := y, chroma := c), q))
  {}

  lemma MiddleBack(s: seq<bool>, p: nat, held: Fields, o: Poc, g: Signed, f: Frame, rest: Syntax) returns (q: nat)
    requires Shaped(held) && |o.offsets| == 256 && At(s, p, PocRows(o, g, FrameRows(f, rest)))
    requires o.pocType == 1 ==> OffsetsHeld(o, g)
    ensures MiddleAt(s, p, held) == Ok((held.(poc := PocOver(held.poc, o), frame := FrameOver(held.frame, f)), q))
    ensures Reached(s, p, PocRows(o, g, FrameRows(f, rest)), q, rest)
  {
    hide PocAt, FrameAt, OffsetsHeld;
    var q1 := PocBack(s, p, held.poc, o, g, FrameRows(f, rest));
    q := FrameBack(s, q1, held.frame, f, rest);
    MiddleSteps(s, p, held, PocOver(held.poc, o), q1, FrameOver(held.frame, f), q);
  }

  lemma MiddleSteps(s: seq<bool>, p: nat, held: Fields, o: Poc, q1: nat, f: Frame, q: nat)
    requires Shaped(held) && PocAt(s, p, held.poc) == Ok((o, q1)) && FrameAt(s, q1, held.frame) == Ok((f, q))
    ensures MiddleAt(s, p, held) == Ok((held.(poc := o, frame := f), q))
  {}

  lemma BackBack(s: seq<bool>, p: nat, held: Fields, r: Crop, v: nat, rest: Syntax) returns (q: nat)
    requires At(s, p, CropRows(r, UField(1, v, rest)))
    ensures BackAt(s, p, held) == Ok((held.(crop := CropOver(held.crop, r), vuiPresent := v), q))
    ensures Reached(s, p, CropRows(r, UField(1, v, rest)), q, rest)
  {
    hide CropAt;
    q := CropBack(s, p, held.crop, r, UField(1, v, rest));
    NextU(s, q, 1, v, rest);
    q := q + 1;
  }

  /** The decoder reads back the bits of a printed set, whatever follows it. */
  lemma BitsBack(s: seq<bool>, held: Fields, x: Fields, g: Signed, tail: seq<bool>) returns (q: nat)
    requires WellFormed(x, g, tail) && !Unknown(x.profile.idc) && Shaped(held) && At(s, 0, SpsRows(x, g, tail))
    ensures DecodeBits(s, held) == Decoded(Over(held, x), q)
    ensures q + |tail| == Len(SpsRows(x, g, tail)) && |s| >= 32
  {
    hide UnitHeaderAt, FrontAt, MiddleAt, BackAt, BodyAt, Fits, ListsHeld, OffsetsHeld;
    var r1 := UField(1, x.vuiPresent, End(tail));
    var r3 := LaterRows(x, g, tail);
    UnitHeaderBack(s, 0, x.unit, ProfileRows(x.profile, ChromaRows(x.profile.idc, x.chroma, g.lists, r3)));
    var q1 := FrontBack(s, 8, held.(unit := x.unit), x.profile, x.chroma, g.lists, r3);
    var held2 := held.(unit := x.unit, profile := x.profile, chroma := ChromaOver(held.chroma, x.profile.idc, x.chroma));
    var q2 := MiddleBack(s, q1, held2, x.poc, g, x.frame, CropRows(x.crop, r1));
    var held3 := held2.(poc := PocOver(held.poc, x.poc), frame := FrameOver(held.frame, x.frame));
    q := BackBack(s, q2, held3, x.crop, x.vuiPresent, End(tail));
    BodySteps(s, 8, held.(unit := x.unit), held2, q1, held3, q2, Over(held, x), q);
  }

  lemma BodySteps(s: seq<bool>, p: nat, a: Fields, b: Fields, q1: nat, c: Fields, q2: nat, d: Fields, q: nat)
    requires Shaped(a) && FrontAt(s, p, a) == Ok((b, q1)) && MiddleAt(s, q1, b) == Ok((c, q2)) && BackAt(s, q2, c) == Ok((d, q))
    ensures BodyAt(s, p, a) == Ok((d, q))
  {}

  /** The bits that reach the decoder begin with those printed. */
  lemma BitsReach(x: Fields, g: Signed, tail: seq<bool>, n: nat) returns (s: seq<bool>)
    requires WellFormed(x, g, tail) && (n == 0 || n == 3 || n == 4)
    ensures At(s, 0, SpsRows(x, g, tail)) && Len(SpsRows(x, g, tail)) == |Print(SpsRows(x, g, tail))| <= |s|
    ensures forall held :: Shaped(held) ==>
              DecodeNal(Nal(x, g, tail, n), held) == if |s| < 32 then Failed(NotEnough) else DecodeBits(s, held)
  {
    var e := SpsRows(x, g, tail);
    FitsOf(x, g, tail);
    hide DecodeBits, WellFormed, SpsRows, At, BitsOf;
    var bits := Print(e);
    var data := Pack(bits);
    EscapeRoundTrip(data, n);
    var more := if ZerosAtEnd(data) % 2 == 1 then [3] else [];
    BitsOfPack(bits);
    BitsOfConcat(data, more);
    s := BitsOf(data + more);
    assert s[0..|bits|] == BitsOf(data)[..|bits|];
    PrintedAt(s, 0, e);
  }

  lemma FitsOf(x: Fields, g: Signed, tail: seq<bool>)
    requires WellFormed(x, g, tail)
    ensures Fits(SpsRows(x, g, tail))
  {}

  /** Round trip through all layers: the NAL unit of any well-formed set, but for
      five profiles, is decoded to its fields, and q is where the bits after the
      VUI flag start. */
  lemma SpsRoundTrip(held: Fields, x: Fields, g: Signed, tail: seq<bool>, n: nat) returns (q: nat)
    requires WellFormed(x, g, tail) && Shaped(held) && (n == 0 || n == 3 || n == 4)
    requires x.profile.idc !in {128, 138, 139, 134, 135}
    ensures DecodeNal(Nal(x, g, tail, n), held) == Decoded(Over(held, x), q)
    ensures q + |tail| == |Print(SpsRows(x, g, tail))|
  {
    hide WellFormed, DecodeNal, DecodeBits, SpsRows, Over;
    var s := BitsReach(x, g, tail, n);
    q := BitsBack(s, held, x, g, tail);
  }

  /** Decoding into a fresh structure gives back every field but the signed ones,
      and decoding into a used one does so exactly if that one holds the same
      uncoded fields and the signed ones are 0. */
  lemma UsedStructure(held: Fields, x: Fields, g: Signed, tail: seq<bool>, n: nat) returns (q: nat)
    requires WellFormed(x, g, tail) && Shaped(held) && (n == 0 || n == 3 || n == 4)
    requires x.profile.idc !in {128, 138, 139, 134, 135}
    ensures DecodeNal(Nal(x, g, tail, n), held) == Decoded(x, q) <==> UncodedAgree(held, x)
  {
    q := SpsRoundTrip(held, x, g, tail, n);
    OverSame(held, x, g, tail);
  }

  /** The structures agree on every field that the printed x leaves out, and
      the signed fields that it has, which are read as 0, are 0. */
  ghost predicate UncodedAgree(held: Fields, x: Fields)
    requires Shaped(held) && Shaped(x)
  {
    && ListsAgree(held.chroma, x.chroma, CodesChroma(x.profile.idc) && x.chroma.matrixPresent != 0)
    && (!CodesChroma(x.profile.idc) ==>
      held.chroma.bypass == x.chroma.bypass && held.chroma.matrixPresent == x.chroma.matrixPresent)
    && (x.poc.pocType != 0 ==> held.poc.log2PocLsb == x.poc.log2PocLsb)
    && OffsetsAgree(held.poc, x.poc)
    && (x.frame.mbsOnly != 0 ==> held.frame.mbaff == x.frame.mbaff)
    && (x.crop.flag != 1 ==>
      held.crop.left == x.crop.left && held.crop.right == x.crop.right &&
      held.crop.top == x.crop.top && held.crop.bottom == x.crop.bottom)
  }

  /** Of the fields that come from signed codes, the first n are 0 and the others
      what was held. */
  ghost predicate SignedAgree(held: seq<int>, l: seq<int>, n: nat) {
    |held| == |l| && forall k :: 0 <= k < |l| ==> l[k] == if k < n then 0 else held[k]
  }

  ghost predicate ListsAgree(held: Chroma, c: Chroma, coded: bool)
    requires ChromaShaped(held) && ChromaShaped(c)
  {
    var n := if !coded then 0 else if c.format == 3 then 12 else 8;
    forall i :: 0 <= i < 12 ==>
      (i >= n ==> held.listPresent[i] == c.listPresent[i]) &&
      SignedAgree(held.lists[i], c.lists[i], if i >= n || c.listPresent[i] == 0 then 0 else if i < 6 then 16 else 64)
  }

  ghost predicate OffsetsAgree(held: Poc, o: Poc) {
    if o.pocType == 1 then o.offsetNonRef == 0 && o.offsetTopBottom == 0 && SignedAgree(held.offsets, o.offsets, o.cycle)
    else
      && held.deltaZero == o.deltaZero && held.offsetNonRef == o.offsetNonRef && held.offsetTopBottom == o.offsetTopBottom
      && held.cycle == o.cycle && held.offsets == o.offsets
  }

  lemma {:induction false} ListsOverAt(held: Chroma, present: seq<nat>, i: nat, n: nat, k: nat)
    requires i <= n <= 12 == |present| && ChromaShaped(held) && k < 12
    ensures var r := ListsOver(held, present, i, n);
            && r.listPresent[k] == (if i <= k < n then present[k] else held.listPresent[k])
            && SignedAgree(held.lists[k], r.lists[k],
                           if k < i || k >= n || present[k] == 0 then 0 else if k < 6 then 16 else 64)
    decreases n - i
  {
    if i == n {
    } else {
      ListsOverAt(ListOver(held, present[i], i), present, i + 1, n, k);
    }
  }

  lemma ListsSame(held: Chroma, idc: nat, c: Chroma)
    requires ChromaShaped(held) && ChromaShaped(c)
    ensures var r := ChromaOver(held, idc, c);
            r.listPresent == c.listPresent && r.lists == c.lists <==>
              ListsAgree(held, c, CodesChroma(idc) && c.matrixPresent != 0)
  {
    hide CodesChroma, ListsOver;
    var r := ChromaOver(held, idc, c);
    var coded := CodesChroma(idc) && c.matrixPresent != 0;
    var n := if !coded then 0 else if c.format == 3 then 12 else 8;
    forall k | 0 <= k < 12
      ensures r.listPresent[k] == (if k < n then c.listPresent[k] else held.listPresent[k])
      ensures SignedAgree(held.lists[k], r.lists[k], if k >= n || c.listPresent[k] == 0 then 0 else if k < 6 then 16 else 64)
    {
      if coded { ListsOverAt(held, c.listPresent, 0, n, k); }
    }
    ListwiseSame(held, r, c, n);
  }

  lemma ListwiseSame(held: Chroma, r: Chroma, c: Chroma, n: nat)
    requires ChromaShaped(held) && ChromaShaped(c) && |r.listPresent| == |r.lists| == 12
    requires forall k :: 0 <= k < 12 ==>
               r.listPresent[k] == (if k < n then c.listPresent[k] else held.listPresent[k])
    requires forall k :: 0 <= k < 12 ==>
               SignedAgree(held.lists[k], r.lists[k], if k >= n || c.listPresent[k] == 0 then 0 else if k < 6 then 16 else 64)
    ensures r.listPresent == c.listPresent && r.lists == c.lists <==>
              forall i :: 0 <= i < 12 ==>
                (i >= n ==> held.listPresent[i] == c.listPresent[i]) &&
                SignedAgree(held.lists[i], c.lists[i], if i >= n || c.listPresent[i] == 0 then 0 else if i < 6 then 16 else 64)
  {
    if forall i :: 0 <= i < 12 ==>
         (i >= n ==> held.listPresent[i] == c.listPresent[i]) &&
         SignedAgree(held.lists[i], c.lists[i], if i >= n || c.listPresent[i] == 0 then 0 else if i < 6 then 16 else 64)
    {
      forall i | 0 <= i < 12 ensures r.listPresent[i] == c.listPresent[i] && r.lists[i] == c.lists[i] {
        assert SignedAgree(held.lists[i], c.lists[i], if i >= n || c.listPresent[i] == 0 then 0 else if i < 6 then 16 else 64);
      }
    }
  }

  lemma OffsetsSame(held: Poc, o: Poc)
    requires |held.offsets| == |o.offsets| == 256 && (o.pocType == 1 ==> o.cycle <= 256)
    ensures PocOver(held, o) == o <==> (o.pocType != 0 ==> held.log2PocLsb == o.log2PocLsb) && OffsetsAgree(held, o)
  {
    if o.pocType == 1 {
      assert SignedAgree(held.offsets, Read0(held.offsets, o.cycle), o.cycle);
      if SignedAgree(held.offsets, o.offsets, o.cycle) {
        assert Read0(held.offsets, o.cycle) == o.offsets;
      }
    }
  }

  lemma OverSame(held: Fields, x: Fields, g: Signed, tail: seq<bool>)
    requires WellFormed(x, g, tail) && Shaped(held)
    ensures Over(held, x) == x <==> UncodedAgree(held, x)
  {
    hide Fits, ListsAgree, OffsetsAgree, ListsOver, ListsHeld, CodesChroma, PocOver;
    ListsSame(held.chroma, x.profile.idc, x.chroma);
    CycleFits(x, g, tail);
    OffsetsSame(held.poc, x.poc);
    var r := ChromaOver(held.chroma, x.profile.idc, x.chroma);
    assert r == x.chroma <==>
      r.listPresent == x.chroma.listPresent && r.lists == x.chroma.lists &&
      (!CodesChroma(x.profile.idc) ==>
        held.chroma.bypass == x.chroma.bypass && held.chroma.matrixPresent == x.chroma.matrixPresent);
    assert FrameOver(held.frame, x.frame) == x.frame <==> (x.frame.mbsOnly != 0 ==> held.frame.mbaff == x.frame.mbaff);
    assert CropOver(held.crop, x.crop) == x.crop <==>
      (x.crop.flag != 1 ==> held.crop.left == x.crop.left && held.crop.right == x.crop.right &&
                            held.crop.top == x.crop.top && held.crop.bottom == x.crop.bottom);
  }

  lemma CycleFits(x: Fields, g: Signed, tail: seq<bool>)
    requires WellFormed(x, g, tail)
    ensures x.poc.pocType == 1 ==> x.poc.cycle <= 256
  {}
}
