/** The player's side of the WSP text protocol. */
module WspPlayer {
  import opened Wrappers
  import opened Text
  import opened Wsp

  /** White space for JavaScript's trim and for \s. */
  predicate IsJsSpace(c: char) {
    var n := c as int;
    || 9 <= n <= 13 || n == 0x20 || n == 0xA0 || n == 0x1680 || 0x2000 <= n <= 0x200A
    || n == 0x2028 || n == 0x2029 || n == 0x202F || n == 0x205F || n == 0x3000 || n == 0xFEFF
  }

  /** What . does not match in a regular expression. */
  predicate EndsLine(c: char) {
    c == '\n' || c == '\r' || c as int == 0x2028 || c as int == 0x2029
  }

  // ---- Requests

  predicate HasKey(fs: Fields, k: string) {
    exists i :: 0 <= i < |fs| && fs[i].0 == k
  }

  predicate Keyed(fs: Fields) {
    forall i, j :: 0 <= i < j < |fs| ==> fs[i].0 != fs[j].0
  }

  /** The fields with a sequence number, if they had none. */
  ghost predicate WithSeq(fs: Fields, seq0: nat, gs: Fields, seq1: nat) {
    if exists i :: 0 <= i < |fs| && fs[i].0 == "seq" && fs[i].1 != "" then gs == fs && seq1 == seq0
    else if HasKey(fs, "seq") then
      && seq1 == seq0 + 1
      && exists i :: 0 <= i < |fs| && fs[i].0 == "seq" && gs == fs[i := ("seq", Decimal(seq1))]
    else seq1 == seq0 + 1 && gs == fs + [("seq", Decimal(seq1))]
  }

  class WspProtocol {
    var seqNumber: nat

    constructor ()
      ensures seqNumber == 0
    {
      seqNumber := 0;
    }

    method Build(cmd: string, data0: Fields, payload: string) returns (text: string, data: Fields)
      requires Keyed(data0)
      modifies this
      ensures WithSeq(data0, old(seqNumber), data, seqNumber)
      ensures text == Message(WSP_PROTO + " " + cmd, data, payload)
    {
      data := AddSeq(data0);
      var dataStr := "";
      for i := 0 to |data|
        invariant dataStr == Printed(data[..i])
      {
        assert data[..i + 1][..i] == data[..i];
        dataStr := dataStr + (data[i].0 + ": " + data[i].1) + CRLF;
      }
      assert data[..|data|] == data;
      text := WSP_PROTO + " " + cmd + CRLF + dataStr + CRLF + payload;
    }

    method AddSeq(data0: Fields) returns (data: Fields)
      requires Keyed(data0)
      modifies this
      ensures WithSeq(data0, old(seqNumber), data, seqNumber)
    {
      for i := 0 to |data0|
        invariant forall j :: 0 <= j < i ==> data0[j].0 != "seq"
        invariant seqNumber == old(seqNumber)
      {
        if data0[i].0 == "seq" {
          if data0[i].1 != "" { return data0; }
          seqNumber := seqNumber + 1;
          return data0[i := ("seq", Decimal(seqNumber))];
        }
      }
      seqNumber := seqNumber + 1;
      return data0 + [("seq", Decimal(seqNumber))];
    }
  }

  // ---- Responses

  datatype Response = Response(code: nat, msg: string, data: map<string, string>, payload: string)

  function SpaceEnd(s: string, p: nat): (q: nat)
    requires p <= |s|
    ensures p <= q <= |s|
    decreases |s| - p
  {
    if p < |s| && IsJsSpace(s[p]) then SpaceEnd(s, p + 1) else p
  }

  function DigitEnd(s: string, p: nat): (q: nat)
    requires p <= |s|
    ensures p <= q <= |s| && forall k :: p <= k < q ==> IsDigit(s[k])
    decreases |s| - p
  {
    if p < |s| && IsDigit(s[p]) then DigitEnd(s, p + 1) else p
  }

  function LineEnd(s: string, p: nat): (q: nat)
    requires p <= |s|
    ensures p <= q <= |s|
    decreases |s| - p
  {
    if p < |s| && !EndsLine(s[p]) then LineEnd(s, p + 1) else p
  }

  /** The last position from p on, down to more than low, where .+ matches. */
  function Backtrack(s: string, low: nat, p: nat): (q: nat)
    requires low <= p <= |s|
    ensures low <= q <= p && (q > low ==> q < |s|)
  {
    if p == low || (p < |s| && !EndsLine(s[p])) then p else Backtrack(s, low, p - 1)
  }

  /** The status line at the start of s: protocol and version, whose dot is any
      character, white space, a number, white space, and the rest of the line. */
  function MatchAt(s: string): Option<(nat, string)> {
    if |s| < 7 || s[..5] != "WSP/1" || EndsLine(s[5]) || s[6] != '1' then None
    else
      var q := SpaceEnd(s, 7);
      var d := DigitEnd(s, q);
      var e := SpaceEnd(s, d);
      if q == 7 || d == q || e == d then None
      else
        var m := Backtrack(s, d, e);
        if m == d then None
        else
          assert forall k :: 0 <= k < |s[q..d]| ==> s[q..d][k] == s[q + k];
          Some((ParseDecimal(s[q..d]), s[m..LineEnd(s, m)]))
  }

  /** The leftmost match. */
  function Match(s: string): Option<(nat, string)> {
    if MatchAt(s).Some? || s == "" then MatchAt(s) else Match(s[1..])
  }

  function Before(s: string, c: char): string {
    if IndexOf(s, c) < 0 then s else s[..IndexOf(s, c)]
  }

  /** One assignment to the data object; a string assigned to __proto__ is lost. */
  function Assign(data: map<string, string>, k: string, v: string): map<string, string> {
    if k == "__proto__" then data else data[k := v]
  }

  /** The fields of the header lines up to an empty one; a line without a colon
      throws. */
  ghost function DataOf(lines: seq<string>, data: map<string, string>): Result<map<string, string>> {
    if lines == [] || lines[0] == "" then Ok(data)
    else
      var i := IndexOf(lines[0], ':');
      if i < 0 then Panic
      else
        var k, v := Trim(lines[0][..i], IsJsSpace), Trim(Before(lines[0][i + 1..], ':'), IsJsSpace);
        DataOf(lines[1..], Assign(data, k, v))
  }

  ghost function Parse(data: string): Result<Option<Response>> {
    var payIdx := BlankLine(data);
    BlankLineFits(data);
    var lines := SplitLines(if payIdx < 0 then "" else data[..payIdx]);
    var hdr := Match(lines[0]);
    if hdr.None? then Ok(None)
    else
      match DataOf(lines[1..], map[])
      case Panic => Panic
      case Ok(fields) =>
        var payload := data[payIdx + 4..];
        Ok(Some(Response(hdr.value.0, hdr.value.1, fields, payload)))
  }

  method ParseResponse(data: string) returns (r: Result<Option<Response>>)
    ensures r == Parse(data)
  {
    var payIdx := BlankLine(data);
    BlankLineFits(data);
    var lines := SplitLines(if payIdx < 0 then "" else data[..payIdx]);
    var first := lines[0];
    lines := lines[1..];
    var hdr := Match(first);
    if hdr.None? { return Ok(None); }
    assert payIdx >= 0;
    var fields: map<string, string> := map[];
    ghost var all := lines;
    while lines != []
      invariant DataOf(all, map[]) == DataOf(lines, fields)
      decreases |lines|
    {
      var line := lines[0];
      if line == "" { break; }
      lines := lines[1..];
      var i := IndexOf(line, ':');
      if i < 0 { return Panic; }
      fields := Assign(fields, Trim(line[..i], IsJsSpace), Trim(Before(line[i + 1..], ':'), IsJsSpace));
    }
    return Ok(Some(Response(hdr.value.0, hdr.value.1, fields, data[payIdx + 4..])));
  }
}
