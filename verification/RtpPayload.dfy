/** The RTP payload formats of RFC 6184, as a sender prints them. */
module RtpPayload {
  import opened BitStrings

  /** A unit with its 16-bit size in front (figure 7 of RFC 6184). */
  function Sized(u: seq<byte>): seq<byte>
    requires |u| < 0x1_0000
  {
    [|u| / 256, |u| % 256] + u
  }

  ghost predicate WellSized(units: seq<seq<byte>>) {
    forall k :: 0 <= k < |units| ==> 1 <= |units[k]| < 0x1_0000
  }

  ghost function Units(units: seq<seq<byte>>): seq<byte>
    requires WellSized(units)
  {
    if units == [] then [] else Sized(units[0]) + Units(units[1..])
  }

  lemma NoUnits()
    ensures Units([]) == []
  {
  }

  lemma UnitsStep(units: seq<seq<byte>>)
    requires WellSized(units) && units != []
    ensures Units(units) == Sized(units[0]) + Units(units[1..])
    ensures |Units(units)| >= 3
    ensures Units(units[1..]) == [] <==> units[1..] == []
  {
    if units[1..] != [] { assert |Units(units[1..])| >= |Sized(units[1])|; }
  }

  /** A single-time aggregation packet (section 5.7.1 of RFC 6184). */
  ghost function StapA(header: byte, units: seq<seq<byte>>): seq<byte>
    requires WellSized(units)
  {
    [header] + Units(units)
  }

  /** The same with a decoding order number in front of the units. */
  ghost function StapB(header: byte, don: nat, units: seq<seq<byte>>): seq<byte>
    requires don < 0x1_0000 && WellSized(units)
  {
    [header, don / 256, don % 256] + Units(units)
  }

  lemma {:induction false} UnitsConcat(a: seq<seq<byte>>, b: seq<seq<byte>>)
    requires WellSized(a) && WellSized(b) && WellSized(a + b)
    ensures Units(a + b) == Units(a) + Units(b)
  {
    if a == [] {
      assert a + b == b;
    } else {
      assert (a + b)[1..] == a[1..] + b;
      UnitsConcat(a[1..], b);
    }
  }

  /** One fragment of a unit (section 5.8 of RFC 6184): the indicator keeps the
      first three bits of the unit's header, and the second header has the start
      and end bits and the type. */
  function FuA(header: byte, start: bool, end: bool, piece: seq<byte>): seq<byte> {
    [header / 32 * 32 + 28, (if start then 128 else 0) + (if end then 64 else 0) + header % 32] + piece
  }

  /** The same with a decoding order number behind the second header. */
  function FuB(header: byte, start: bool, end: bool, don: nat, piece: seq<byte>): seq<byte>
    requires don < 0x1_0000
  {
    [header / 32 * 32 + 29, (if start then 128 else 0) + (if end then 64 else 0) + header % 32, don / 256, don % 256] + piece
  }

  /** A fragment of either kind. */
  ghost predicate IsFragment(p: seq<byte>, header: byte, start: bool, end: bool, piece: seq<byte>) {
    p == FuA(header, start, end, piece) || exists don: nat :: don < 0x1_0000 && p == FuB(header, start, end, don, piece)
  }
}
