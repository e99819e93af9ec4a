/** Byte strings: numbers stored big end first, and concatenation. */
module ByteStrings {
  import opened BitStrings
  import opened Modular
  import opened PowersOfTwo

  /** The 16-bit number at position p. */
  function Read2(s: seq<byte>, p: nat): (n: nat)
    requires p + 1 < |s|
    ensures n < 0x1_0000
  {
    s[p] as int * 256 + s[p + 1]
  }

  /** Four bytes, big end first; higher bits are lost. */
  function Bytes4(n: int): (r: seq<byte>)
    ensures |r| == 4
  {
    [n / 0x100_0000 % 256, n / 0x1_0000 % 256, n / 0x100 % 256, n % 256]
  }

  function Read4(s: seq<byte>, i: nat): nat
    requires i + 4 <= |s|
  {
    s[i] as int * 0x100_0000 + s[i + 1] as int * 0x1_0000 + s[i + 2] as int * 0x100 + s[i + 3] as int
  }

  lemma Bytes4RoundTrip(n: int)
    ensures Read4(Bytes4(n), 0) == n % 0x1_0000_0000
  {
    var q1 := n / 0x100;
    var q2 := q1 / 0x100;
    var q3 := q2 / 0x100;
    DivDiv(n, 0x100, 0x100);
    DivDiv(n, 0x1_0000, 0x100);
    var q4 := q3 / 0x100;
    DivModUnique(n, 0x1_0000_0000, q4, q3 % 0x100 * 0x100_0000 + q2 % 0x100 * 0x1_0000 + q1 % 0x100 * 0x100 + n % 0x100);
  }

  lemma ReadAt(before: seq<byte>, n: int, after: seq<byte>)
    ensures Read4(before + Bytes4(n) + after, |before|) == n % 0x1_0000_0000
  {
    Bytes4RoundTrip(n);
  }

  function Concat(parts: seq<seq<byte>>): seq<byte> {
    if parts == [] then [] else Concat(parts[..|parts| - 1]) + parts[|parts| - 1]
  }

  lemma ConcatNone()
    ensures Concat([]) == []
  {
  }

  lemma ConcatOne(part: seq<byte>)
    ensures Concat([part]) == part
  {
    assert [part][..0] == [];
  }

  lemma ConcatStep(parts: seq<seq<byte>>, part: seq<byte>)
    ensures Concat(parts + [part]) == Concat(parts) + part
  {
    assert (parts + [part])[..|parts|] == parts;
  }

  /** Numbers are read as the bits they are stored in, most significant first. */
  lemma ReadBits(s: seq<byte>)
    ensures |s| == 2 ==> Read2(s, 0) == Num(BitsOf(s))
    ensures |s| == 4 ==> Read4(s, 0) == Num(BitsOf(s))
  {
    hide Num, BitsOf, ShiftUp;
    if |s| == 2 {
      TwoBytes(s[0], s[1]);
      assert s == [s[0], s[1]];
    } else if |s| == 4 {
      TwoBytes(s[0], s[1]);
      TwoBytes(s[2], s[3]);
      BitsOfConcat([s[0], s[1]], [s[2], s[3]]);
      NumConcat(BitsOf([s[0], s[1]]), BitsOf([s[2], s[3]]));
      assert s == [s[0], s[1]] + [s[2], s[3]];
      Shifted(s[0] as int * 0x100 + s[1]);
    }
  }

  lemma Shifted(v: int)
    ensures ShiftUp(v, 8) == 0x100 * v && ShiftUp(v, 16) == 0x1_0000 * v
  {
    ShiftedByte(v);
    ShiftedByte(ShiftUp(v, 8));
    ShiftUpTwice(v, 8, 8);
  }

  lemma ShiftedByte(v: int)
    ensures ShiftUp(v, 8) == 0x100 * v
  {
    assert ShiftUp(v, 1) == 2 * v;
    assert ShiftUp(v, 2) == 4 * v;
    assert ShiftUp(v, 3) == 8 * v;
    assert ShiftUp(v, 4) == 16 * v;
    assert ShiftUp(v, 5) == 32 * v;
    assert ShiftUp(v, 6) == 64 * v;
    assert ShiftUp(v, 7) == 128 * v;
  }

  lemma TwoBytes(a: byte, b: byte)
    ensures Num(BitsOf([a, b])) == a as int * 0x100 + b
  {
    hide Num, BitsOf, ShiftUp;
    OneByte(a);
    OneByte(b);
    BitsOfConcat([a], [b]);
    NumConcat(BitsOf([a]), BitsOf([b]));
    assert [a, b] == [a] + [b];
    Shifted(a);
  }

  lemma OneByte(a: byte)
    ensures Num(BitsOf([a])) == a
  {
    Pow2Table();
    NumU(8, a);
    assert [a][1..] == [] && U(8, a) + BitsOf([]) == U(8, a);
  }
}
