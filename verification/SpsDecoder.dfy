/** The server's decoder object for an H.264 sequence parameter set. */
module SpsDecoder {
  import opened Wrappers
  import opened PowersOfTwo
  import opened BitStrings
  import opened BitReader
  import opened Emulation
  import opened SpsSyntax

  class RawSPS {
    var unit: UnitHeader
    var profile: Profile
    var chroma: Chroma
    var poc: Poc
    var frame: Frame
    var crop: Crop
    var vuiPresent: nat

    constructor ()
      ensures Value() == Blank()
    {
      unit, profile, chroma := Blank().unit, Blank().profile, Blank().chroma;
      poc, frame, crop, vuiPresent := Blank().poc, Blank().frame, Blank().crop, 0;
    }

    ghost function Value(): Fields
      reads this
    {
      Fields(unit, profile, chroma, poc, frame, crop, vuiPresent)
    }

    method DecodeUnitHeader(r: Reader) returns (res: Result<()>)
      modifies this`unit, r`offset
      ensures match UnitHeaderAt(r.Bits(), old(r.offset))
              case Panic => res.Panic?
              case Ok((y, p)) => res.Ok? && unit == y && r.offset == p
    {
      var v :- r.ReadBit();
      unit := unit.(forbidden := v);
      v :- r.ReadUint64(2, 8);
      unit := unit.(refIdc := v);
      v :- r.ReadUint64(5, 8);
      unit := unit.(unitType := v);
      res := Ok(());
    }

    method DecodeProfile(r: Reader) returns (res: Result<()>)
      modifies this`profile, r`offset
      ensures match ProfileAt(r.Bits(), old(r.offset))
              case Panic => res.Panic?
              case Ok((y, p)) => res.Ok? && profile == y && r.offset == p
    {
      hide UAt, UeModAt, BitsOf;
      var v :- r.ReadUint64(8, 8);
      profile := profile.(idc := v);
      v :- r.ReadBit();
      profile := profile.(set0 := v);
      v :- r.ReadBit();
      profile := profile.(set1 := v);
      v :- r.ReadBit();
      profile := profile.(set2 := v);
      v :- r.ReadBit();
      profile := profile.(set3 := v);
      v :- r.ReadBit();
      profile := profile.(set4 := v);
      v :- r.ReadBit();
      profile := profile.(set5 := v);
      v :- r.ReadUint64(2, 8);
      profile := profile.(reserved := v);
      v :- r.ReadUint64(8, 8);
      profile := profile.(level := v);
      v :- r.ReadUe8();
      profile := profile.(id := v);
      res := Ok(());
    }

    method ScanList(r: Reader, i: nat) returns (res: Result<()>)
      requires i < 12 && ChromaShaped(chroma)
      modifies this`chroma, r`offset
      ensures match SesAt(r.Bits(), old(r.offset), ScanSize(i))
              case Panic => res.Panic?
              case Ok(p) =>
                res.Ok? && r.offset == p && chroma == ScannedList(old(chroma), i, ScanSize(i))
    {
      var sizeOfScan := if i < 6 then 16 else 64;
      var scale, k := 8, 0;
      ghost var s, p0, c0 := r.Bits(), r.offset, chroma;
      assert Zeroed(c0.lists[i], 0) == c0.lists[i];
      while k < sizeOfScan
        invariant 0 <= k <= sizeOfScan && scale == 8
        invariant SesAt(s, p0, sizeOfScan) == SesAt(s, r.offset, sizeOfScan - k)
        invariant chroma == ScannedList(c0, i, k)
      {
        var v :- r.ReadSe();
        chroma := chroma.(lists := chroma.lists[i := chroma.lists[i][k := v]]);
        ZeroedNext(c0.lists[i], k);
        scale := (scale + chroma.lists[i][k] + 256) % 256;
        if scale == 0 {
          break;
        }
        k := k + 1;
      }
      res := Ok(());
    }

    method DecodeList(r: Reader, i: nat) returns (res: Result<()>)
      requires i < 12 && ChromaShaped(chroma)
      modifies this`chroma, r`offset
      ensures match ListAt(r.Bits(), old(r.offset), old(chroma), i)
              case Panic => res.Panic?
              case Ok((y, p)) => res.Ok? && chroma == y && r.offset == p
    {
      var flag :- r.ReadBit();
      chroma := chroma.(listPresent := chroma.listPresent[i := flag]);
      if flag != 0 {
        var _ :- ScanList(r, i);
      }
      res := Ok(());
    }

    method DecodeLists(r: Reader, n: nat) returns (res: Result<()>)
      requires n <= 12 && ChromaShaped(chroma)
      modifies this`chroma, r`offset
      ensures match ListsAt(r.Bits(), old(r.offset), old(chroma), 0, n)
              case Panic => res.Panic?
              case Ok((y, p)) => res.Ok? && chroma == y && r.offset == p
    {
      var i := 0;
      ghost var s := r.Bits();
      ghost var spec := ListsAt(s, r.offset, chroma, 0, n);
      while i < n
        invariant 0 <= i <= n && ChromaShaped(chroma)
        invariant spec == ListsAt(s, r.offset, chroma, i, n)
      {
        var _ :- DecodeList(r, i);
        i := i + 1;
      }
      res := Ok(());
    }

    method DecodeDepths(r: Reader) returns (res: Result<()>)
      requires ChromaShaped(chroma)
      modifies this`chroma, r`offset
      ensures match DepthsAt(r.Bits(), old(r.offset), old(chroma))
              case Panic => res.Panic?
              case Ok((y, p)) => res.Ok? && chroma == y && r.offset == p
    {
      var v :- r.ReadUe8();
      chroma := chroma.(depthLuma := v);
      v :- r.ReadUe8();
      chroma := chroma.(depthChroma := v);
      v :- r.ReadBit();
      chroma := chroma.(bypass := v);
      v :- r.ReadBit();
      chroma := chroma.(matrixPresent := v);
      if chroma.matrixPresent != 0 {
        var maxI := 8;
        if chroma.format == 3 {
          maxI := 12;
        }
        var _ :- DecodeLists(r, maxI);
      }
      res := Ok(());
    }

    method DecodeChroma(r: Reader) returns (res: Result<()>)
      requires ChromaShaped(chroma)
      modifies this`chroma, r`offset
      ensures match ChromaAt(r.Bits(), old(r.offset), profile.idc, old(chroma))
              case Panic => res.Panic?
              case Ok((y, p)) => res.Ok? && chroma == y && r.offset == p
    {
      if HighProfile(profile.idc) {
        var v :- r.ReadUe8();
        chroma := chroma.(format := v);
        if chroma.format == 3 {
          v :- r.ReadBit();
          chroma := chroma.(separatePlane := v);
        } else {
          chroma := chroma.(separatePlane := 0);
        }
        var _ :- DecodeDepths(r);
      } else {
        if profile.idc == 183 {
          chroma := chroma.(format := 0);
        } else {
          chroma := chroma.(format := 1);
        }
        chroma := chroma.(separatePlane := 0, depthLuma := 0, depthChroma := 0);
      }
      res := Ok(());
    }

    method DecodeCycle(r: Reader) returns (res: Result<()>)
      requires |poc.offsets| == 256
      modifies this`poc, r`offset
      ensures match CycleAt(r.Bits(), old(r.offset), old(poc))
              case Panic => res.Panic?
              case Ok((y, p)) => res.Ok? && poc == y && r.offset == p
    {
      hide UAt, UeModAt, UeAt, BitsOf;
      ghost var s := r.Bits();
      var v :- r.ReadBit();
      poc := poc.(deltaZero := v);
      ghost var p := r.offset;
      v :- r.ReadSe();
      poc := poc.(offsetNonRef := v);
      v :- r.ReadSe();
      poc := poc.(offsetTopBottom := v);
      assert SesAt(s, p, 2) == SesAt(s, r.offset, 0);
      v :- r.ReadUe8();
      poc := poc.(cycle := v);
      ghost var p1, y := r.offset, poc;
      assert Zeroed(y.offsets, 0) == y.offsets;
      var i := 0;
      while i < poc.cycle
        invariant 0 <= i <= y.cycle <= 255
        invariant SesAt(s, p1, y.cycle) == SesAt(s, r.offset, y.cycle - i)
        invariant poc == y.(offsets := Zeroed(y.offsets, i))
      {
        v :- r.ReadSe();
        poc := poc.(offsets := poc.offsets[i := v]);
        ZeroedNext(y.offsets, i);
        i := i + 1;
      }
      res := Ok(());
    }

    method DecodePoc(r: Reader) returns (res: Result<()>)
      requires |poc.offsets| == 256
      modifies this`poc, r`offset
      ensures match PocAt(r.Bits(), old(r.offset), old(poc))
              case Panic => res.Panic?
              case Ok((y, p)) => res.Ok? && poc == y && r.offset == p
    {
      var v :- r.ReadUe8();
      poc := poc.(log2FrameNum := v);
      v :- r.ReadUe8();
      poc := poc.(pocType := v);
      if poc.pocType == 0 {
        v :- r.ReadUe8();
        poc := poc.(log2PocLsb := v);
      } else if poc.pocType == 1 {
        var _ :- DecodeCycle(r);
      }
      res := Ok(());
    }

    method DecodeFrame(r: Reader) returns (res: Result<()>)
      modifies this`frame, r`offset
      ensures match FrameAt(r.Bits(), old(r.offset), old(frame))
              case Panic => res.Panic?
              case Ok((y, p)) => res.Ok? && frame == y && r.offset == p
    {
      var v :- r.ReadUe8();
      frame := frame.(maxRefFrames := v);
      v :- r.ReadBit();
      frame := frame.(gaps := v);
      v :- r.ReadUe16();
      frame := frame.(widthMbs := v);
      v :- r.ReadUe16();
      frame := frame.(heightUnits := v);
      var _ :- DecodeScan(r);
      res := Ok(());
    }

    method DecodeScan(r: Reader) returns (res: Result<()>)
      modifies this`frame, r`offset
      ensures match ScanAt(r.Bits(), old(r.offset), old(frame))
              case Panic => res.Panic?
              case Ok((y, p)) => res.Ok? && frame == y && r.offset == p
    {
      var v :- r.ReadBit();
      frame := frame.(mbsOnly := v);
      if frame.mbsOnly == 0 {
        v :- r.ReadBit();
        frame := frame.(mbaff := v);
      }
      v :- r.ReadBit();
      frame := frame.(direct8x8 := v);
      res := Ok(());
    }

    method DecodeCrop(r: Reader) returns (res: Result<()>)
      modifies this`crop, r`offset
      ensures match CropAt(r.Bits(), old(r.offset), old(crop))
              case Panic => res.Panic?
              case Ok((y, p)) => res.Ok? && crop == y && r.offset == p
    {
      var v :- r.ReadBit();
      crop := crop.(flag := v);
      if crop.flag == 1 {
        v :- r.ReadUe16();
        crop := crop.(left := v);
        v :- r.ReadUe16();
        crop := crop.(right := v);
        v :- r.ReadUe16();
        crop := crop.(top := v);
        v :- r.ReadUe16();
        crop := crop.(bottom := v);
      }
      res := Ok(());
    }

    method DecodeFront(r: Reader) returns (res: Result<()>)
      requires Shaped(Value())
      modifies this`profile, this`chroma, r`offset
      ensures match FrontAt(r.Bits(), old(r.offset), old(Value()))
              case Panic => res.Panic?
              case Ok((y, p)) => res.Ok? && Value() == y && r.offset == p
    {
      var _ :- DecodeProfile(r);
      var _ :- DecodeChroma(r);
      res := Ok(());
    }

    method DecodeMiddle(r: Reader) returns (res: Result<()>)
      requires Shaped(Value())
      modifies this`poc, this`frame, r`offset
      ensures match MiddleAt(r.Bits(), old(r.offset), old(Value()))
              case Panic => res.Panic?
              case Ok((y, p)) => res.Ok? && Value() == y && r.offset == p
    {
      var _ :- DecodePoc(r);
      var _ :- DecodeFrame(r);
      res := Ok(());
    }

    method DecodeBack(r: Reader) returns (res: Result<()>)
      modifies this`crop, this`vuiPresent, r`offset
      ensures match BackAt(r.Bits(), old(r.offset), old(Value()))
              case Panic => res.Panic?
              case Ok((y, p)) => res.Ok? && Value() == y && r.offset == p
    {
      var _ :- DecodeCrop(r);
      var v :- r.ReadBit();
      vuiPresent := v;
      res := Ok(());
    }

    method DecodeBody(r: Reader) returns (res: Result<()>)
      requires Shaped(Value())
      modifies this, r`offset
      ensures match BodyAt(r.Bits(), old(r.offset), old(Value()))
              case Panic => res.Panic?
              case Ok((y, p)) => res.Ok? && Value() == y && r.offset == p
    {
      var _ :- DecodeFront(r);
      var _ :- DecodeMiddle(r);
      var _ :- DecodeBack(r);
      res := Ok(());
    }

    /** Decodes a NAL unit into this object; a Go panic ends in an error. The
        bit position of the VUI parameters is returned when they follow. */
    method Decode(data: seq<byte>) returns (err: Option<Error>, vui: Option<nat>)
      requires Shaped(Value())
      modifies this
      ensures match DecodeNal(data, old(Value()))
              case Failed(e) => err == Some(e)
              case Decoded(x, p) => err == None && Value() == x && vui == if x.vuiPresent == 1 then Some(p) else None
    {
      vui := None;
      var web := RemoveEmulationBytes(data);
      if |web| < 4 { return Some(NotEnough), None; }
      var r := new Reader(web);
      var head := DecodeUnitHeader(r);
      if head.Panic? { return Some(Panicked), None; }
      if unit.unitType == 14 || unit.unitType == 20 || unit.unitType == 21 { return Some(Unsupported), None; }
      if unit.unitType != 7 { return Some(NotSps), None; }
      var body := DecodeBody(r);
      if body.Panic? { return Some(Panicked), None; }
      err := None;
      if vuiPresent == 1 {
        vui := Some(r.offset);
      }
    }
  }

  /** A chroma group whose list i has its first n entries set to 0. */
  ghost function ScannedList(c: Chroma, i: nat, n: nat): (r: Chroma)
    requires i < 12 && ChromaShaped(c) && n <= 64
    ensures ChromaShaped(r)
  {
    c.(lists := c.lists[i := Zeroed(c.lists[i], n)])
  }

  lemma ZeroedNext(l: seq<int>, n: nat)
    requires n < |l|
    ensures Zeroed(l, n)[n := 0] == Zeroed(l, n + 1)
  {}
}
