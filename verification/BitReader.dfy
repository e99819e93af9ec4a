/** The bit reader of the server's parameter-set decoders. */
module BitReader {
  import opened Wrappers
  import opened PowersOfTwo
  import opened BitStrings

  /** The number spelled by the n bits of s at position p, bit by bit, and the
      position after them. */
  ghost function UAt(s: seq<bool>, p: nat, n: nat): Result<(nat, nat)>
    decreases n
  {
    if n == 0 then Ok((0, p))
    else
      match UAt(s, p, n - 1)
      case Panic => Panic
      case Ok((v, q)) => if q < |s| then Ok((2 * v + B(s[q]), q + 1)) else Panic
  }

  lemma {:induction false} UAtNum(s: seq<bool>, p: nat, n: nat)
    ensures p + n <= |s| ==> UAt(s, p, n) == Ok((Num(s[p..p + n]), p + n))
    ensures n > 0 && p + n > |s| ==> UAt(s, p, n).Panic?
    decreases n
  {
    if n == 0 {
    } else {
      UAtNum(s, p, n - 1);
      if p + n <= |s| {
        assert s[p..p + n][..n - 1] == s[p..p + n - 1];
      } else if n == 1 {
        assert UAt(s, p, 0) == Ok((0, p));
      }
    }
  }

  /** res + (1 << i) - 1 in 32-bit arithmetic, where 1 << 32 is 0. */
  function UeSum(res: nat, i: nat): nat {
    (res + Pow2(i) % 0x1_0000_0000 - 1) % 0x1_0000_0000
  }

  /** What remains of an Exp-Golomb code at position p after i zero bits: more
      zeros, up to 32 in all, one bit, and i bits. */
  ghost function UeFrom(s: seq<bool>, p: nat, i: nat): Result<(nat, nat)>
    requires i <= 32
    decreases 32 - i
  {
    if p >= |s| then Panic
    else if !s[p] && i < 32 then UeFrom(s, p + 1, i + 1)
    else
      match UAt(s, p + 1, i)
      case Panic => Panic
      case Ok((v, q)) => Ok((UeSum(v, i), q))
  }

  /** One Exp-Golomb code at position p. */
  ghost function UeAt(s: seq<bool>, p: nat): Result<(nat, nat)> {
    UeFrom(s, p, 0)
  }

  /** A code that is truncated to the unsigned type with m values. */
  ghost function UeModAt(s: seq<bool>, p: nat, m: int): (r: Result<(nat, nat)>)
    requires m > 0
    ensures r.Ok? ==> 0 <= r.value.0 < m
  {
    match UeAt(s, p)
    case Panic => Panic
    case Ok((v, q)) => Ok((v % m, q))
  }

  class Reader {
    var buf: seq<byte>
    var offset: nat

    constructor (buf: seq<byte>)
      ensures this.buf == buf && offset == 0
    {
      this.buf, offset := buf, 0;
    }

    ghost function Bits(): seq<bool>
      reads this
    {
      BitsOf(buf)
    }

    /** What a read of type T yields, and where it leaves the reader. */
    ghost predicate Reads(r: Result<nat>, spec: Result<(nat, nat)>)
      reads this
    {
      if spec.Ok? then r == Ok(spec.value.0) && offset == spec.value.1 else r == Panic
    }

    method ReadUint64(n0: int, max: int) returns (r: Result<nat>)
      requires max <= 64
      modifies this`offset
      ensures n0 <= 0 || n0 > max ==> r == Ok(0) && offset == old(offset)
      ensures 0 <= n0 <= max ==> Reads(r, UAt(Bits(), old(offset), n0))
    {
      hide Spelled, Or, ShiftUp, Pow2, Num, BitsOf, UAt;
      var n := n0;
      UAtNone(Bits(), offset);
      if n <= 0 || n > max { return Ok(0); }
      UAtNum(Bits(), offset, n);
      if (offset + n - 1) / 8 >= |buf| { return Panic; }
      var idx := offset / 8;
      var validBits := 8 - offset % 8;
      ghost var p0 := offset;
      offset := offset + n;
      var tmp: nat := 0;
      SpelledEnds(buf, p0, n);
      while n >= validBits
        invariant 0 <= n <= n0 && 1 <= validBits <= 8 && p0 + n0 <= 8 * |buf| && offset == p0 + n0
        invariant n > 0 ==> idx == (p0 + n0 - n) / 8 && validBits == 8 - (p0 + n0 - n) % 8
        invariant n == 0 ==> validBits == 8
        invariant tmp == Spelled(buf, p0, p0 + n0 - n, n)
      {
        n := n - validBits;
        TakeByte(buf, p0, p0 + n0 - n - validBits, validBits, n);
        tmp := Or(tmp, ShiftUp(buf[idx] % Pow2(validBits), n));
        idx := idx + 1;
        validBits := 8;
      }
      if n > 0 {
        TakeChunk(buf, p0, p0 + n0 - n, validBits, n, 0);
        ChunkAtEnd(buf[idx], validBits, n);
        tmp := Or(tmp, (buf[idx] / Pow2(validBits - n)) % Pow2(n));
      }
      r := Ok(tmp);
    }

    method ReadBit() returns (r: Result<nat>)
      modifies this`offset
      ensures Reads(r, UAt(Bits(), old(offset), 1))
    {
      UAtNum(Bits(), offset, 1);
      if offset / 8 >= |buf| { return Panic; }
      var tmp := (buf[offset / 8] / Pow2(7 - offset % 8)) % 2;
      ghost var s := Bits()[offset..offset + 1];
      BitAt(buf, offset);
      assert s[..0] == [] && s[0] == (Bit(buf, offset) == 1);
      offset := offset + 1;
      r := Ok(tmp);
    }

    /** Moves on like reading n bits, and panics like it. */
    method Skip(n: int) returns (r: Result<()>)
      modifies this`offset
      ensures n <= 0 ==> r == Ok(()) && offset == old(offset)
      ensures n > 0 ==> match UAt(Bits(), old(offset), n)
                        case Ok((_, p)) => r == Ok(()) && offset == p
                        case Panic => r == Panic && offset == old(offset)
    {
      hide UAt, Num, BitsOf, Pow2;
      if n <= 0 { return Ok(()); }
      UAtNum(Bits(), offset, n);
      InBytes(offset + n - 1, |buf|);
      if (offset + n - 1) / 8 >= |buf| { return Panic; }
      offset := offset + n;
      return Ok(());
    }

    /** Reads ahead in a copy. */
    method Peek(n: int) returns (r: Result<nat>)
      ensures n <= 0 || n > 64 ==> r == Ok(0)
      ensures 0 <= n <= 64 ==> r == match UAt(Bits(), offset, n) case Ok((v, _)) => Ok(v) case Panic => Panic
    {
      hide UAt, BitsOf;
      var clone := new Reader(buf);
      clone.offset := offset;
      r := clone.ReadUint64(n, 64);
    }

    /** How many bits can still be read. */
    method BitsLeft() returns (n: int)
      ensures forall k: nat {:trigger UAt(Bits(), offset, k)} :: k > 0 ==> (UAt(Bits(), offset, k).Ok? <==> k <= n)
    {
      n := 8 * |buf| - offset;
      forall k: nat | k > 0 ensures UAt(Bits(), offset, k).Ok? <==> k <= n {
        UAtNum(Bits(), offset, k);
      }
    }

    /** Counts zero bits up to the first one bit, but at most 32. */
    method SkipZeros() returns (r: Result<nat>)
      modifies this`offset
      ensures r.Panic? ==> UeAt(Bits(), old(offset)).Panic?
      ensures r.Ok? ==> 0 <= r.value <= 32 && 0 < offset <= |Bits()| &&
                        UeAt(Bits(), old(offset)) == UeFrom(Bits(), offset - 1, r.value) &&
                        (Bits()[offset - 1] || r.value == 32)
    {
      ghost var s, p := Bits(), offset;
      var i := 0;
      while true
        invariant 0 <= i <= 32 && offset == p + i
        invariant UeAt(s, p) == UeFrom(s, p + i, i)
        decreases 32 - i
      {
        OneBit(s, p + i);
        var bit :- ReadBit();
        if !(bit == 0 && i < 32) {
          break;
        }
        i := i + 1;
      }
      r := Ok(i);
    }

    method ReadUe() returns (r: Result<nat>)
      modifies this`offset
      ensures Reads(r, UeAt(Bits(), old(offset)))
    {
      var i :- SkipZeros();
      var res :- ReadUint64(i, 32);
      r := Ok(UeSum(res, i));
    }

    method ReadUe8() returns (r: Result<nat>)
      modifies this`offset
      ensures Reads(r, UeModAt(Bits(), old(offset), 0x100))
    {
      var v :- ReadUe();
      r := Ok(v % 0x100);
    }

    method ReadUe16() returns (r: Result<nat>)
      modifies this`offset
      ensures Reads(r, UeModAt(Bits(), old(offset), 0x10000))
    {
      var v :- ReadUe();
      r := Ok(v % 0x10000);
    }

    /** The value is computed from the still unset result, not from the code. */
    method ReadSe() returns (r: Result<nat>)
      modifies this`offset
      ensures match UeAt(Bits(), old(offset))
              case Ok((_, p)) => r == Ok(0) && offset == p
              case Panic => r == Panic
    {
      var res := 0;
      var ui32 :- ReadUe();
      if ui32 % 2 != 0 {
        res := (res + 1) / 2;
      } else {
        res := -res / 2;
      }
      r := Ok(res);
    }
  }

  lemma InBytes(p: nat, len: nat)
    ensures p / 8 >= len <==> p >= 8 * len
  {
  }

  lemma UAtNone(s: seq<bool>, p: nat)
    ensures UAt(s, p, 0) == Ok((0, p))
  {
  }

  lemma OneBit(s: seq<bool>, p: nat)
    ensures UAt(s, p, 1) == if p < |s| then Ok((B(s[p]), p + 1)) else Panic
  {
    assert UAt(s, p, 0) == Ok((0, p));
  }

  /** The n bits at position p of one byte whose last v bits start there. */
  function Chunk(b: byte, v: nat, n: nat): (r: int)
    requires n <= v
    ensures 0 <= r < Pow2(n)
  {
    (b / Pow2(v - n)) % Pow2(n)
  }

  /** The bits from p0 up to p, with room for rest more. */
  ghost function Spelled(buf: seq<byte>, p0: nat, p: nat, rest: nat): nat
    requires p0 <= p <= 8 * |buf|
  {
    ShiftUp(Num(BitsOf(buf)[p0..p]), rest)
  }

  lemma SpelledEnds(buf: seq<byte>, p0: nat, n: nat)
    requires p0 + n <= 8 * |buf|
    ensures |BitsOf(buf)| == 8 * |buf| && Spelled(buf, p0, p0, n) == 0
    ensures Spelled(buf, p0, p0 + n, 0) == Num(BitsOf(buf)[p0..p0 + n])
  {
    ShiftUpSum(0, 0, n);
    assert BitsOf(buf)[p0..p0] == [];
  }

  lemma ChunkAtEnd(b: byte, v: nat, n: nat)
    requires 1 <= n <= v
    ensures Pow2(v - n) > 0 && Pow2(n) > 0 && ShiftUp(Chunk(b, v, n), 0) == (b / Pow2(v - n)) % Pow2(n)
  {
  }

  /** The chunk of n bits of one byte extends the number read so far. */
  lemma TakeChunk(buf: seq<byte>, p0: nat, p: nat, v: nat, n: nat, rest: nat)
    requires p0 <= p && 1 <= n <= v <= 8 && p + n + rest <= 8 * |buf| && p % 8 == 8 - v
    ensures Or(Spelled(buf, p0, p, n + rest), ShiftUp(Chunk(buf[p / 8], v, n), rest)) == Spelled(buf, p0, p + n, rest)
  {
    var s, chunk := BitsOf(buf), Chunk(buf[p / 8], v, n);
    assert Num(s[p..p + n]) == chunk by { ByteBits(buf, p, v, n); }
    NumSlices(s, p0, p, n);
    OrScaled(Num(s[p0..p]), chunk, n, rest);
  }

  lemma TakeByte(buf: seq<byte>, p0: nat, p: nat, v: nat, rest: nat)
    requires p0 <= p && 1 <= v <= 8 && p + v + rest <= 8 * |buf| && p % 8 == 8 - v
    ensures Or(Spelled(buf, p0, p, v + rest), ShiftUp(buf[p / 8] % Pow2(v), rest)) == Spelled(buf, p0, p + v, rest)
  {
    TakeChunk(buf, p0, p, v, v, rest);
    assert Pow2(0) == 1;
  }

  lemma NumSlices(s: seq<bool>, p0: nat, p: nat, n: nat)
    requires p0 <= p && p + n <= |s|
    ensures Num(s[p0..p + n]) == ShiftUp(Num(s[p0..p]), n) + Num(s[p..p + n])
  {
    NumConcat(s[p0..p], s[p..p + n]);
    assert s[p0..p] + s[p..p + n] == s[p0..p + n];
  }

  lemma OrScaled(a: nat, c: nat, n: nat, rest: nat)
    requires c < Pow2(n)
    ensures Or(ShiftUp(a, n + rest), ShiftUp(c, rest)) == ShiftUp(ShiftUp(a, n) + c, rest)
  {
    ShiftUpBelow(c, n, rest);
    OrDisjoint(a, ShiftUp(c, rest), n + rest);
    ShiftUpTwice(a, n, rest);
    ShiftUpSum(ShiftUp(a, n), c, rest);
  }
}
