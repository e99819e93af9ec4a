/** The server's side of the WSP text protocol. */
module Wsp {
  import opened Text
  import opened Scanner

  const WSP_PROTO := "WSP/1.1"

  /** Header fields in the order in which they are printed. */
  type Fields = seq<(string, string)>

  function Line(f: (string, string)): string {
    f.0 + ": " + f.1
  }

  function LinesOf(fs: Fields): seq<string> {
    if fs == [] then [] else [Line(fs[0])] + LinesOf(fs[1..])
  }

  function Printed(fs: Fields): string {
    if fs == [] then "" else Printed(fs[..|fs| - 1]) + Line(fs[|fs| - 1]) + CRLF
  }

  /** A first line, the fields, a blank line and the body. */
  function Message(first: string, fs: Fields, body: string): string {
    first + CRLF + Printed(fs) + CRLF + body
  }

  ghost function MapOf(fs: Fields): map<string, string> {
    if fs == [] then map[] else MapOf(fs[..|fs| - 1])[fs[|fs| - 1].0 := fs[|fs| - 1].1]
  }

  datatype Request = Request(cmd: string, header: map<string, string>, body: string)

  datatype Decoded =
    | Accepted(request: Request)
    | MissingBlankLine
    | BadFirstLine
    | BadProto(proto: string)
    | BadCommand(cmd: string)

  predicate ValidCmd(cmd: string) {
    cmd in ["INIT", "JOIN", "WRAP", "GET_INFO", "SWITCH"]
  }

  /** The header lines of s, added to the fields in m. */
  ghost function Headers(s: string, m: map<string, string>): map<string, string>
    decreases |s|
  {
    ScanShrinks(s, '\n', IsSpace);
    var l := ScanLine(s);
    var p := ScanColonPair(l.token);
    var m' := if p.found then m[p.key := p.value] else m;
    if l.more then Headers(l.advance, m') else m'
  }

  ghost function Decode(input: string): Decoded {
    var index := BlankLine(input);
    if index < 0 then MissingBlankLine
    else
      BlankLineFits(input);
      var l := ScanLine(input[..index]);
      var p := ScanPair(l.token, ' ', IsSpace);
      if !l.more then BadFirstLine
      else if p.key != WSP_PROTO then BadProto(p.key)
      else if !ValidCmd(p.value) then BadCommand(p.value)
      else Accepted(Request(p.value, if p.found then Headers(l.advance, map[]) else map[], input[index + 4..]))
  }

  lemma {:induction false} BlankLineFits(s: string)
    ensures BlankLine(s) >= 0 ==> BlankLine(s) + 4 <= |s|
  {
    if |s| >= 4 && s[..4] != "\r\n\r\n" { BlankLineFits(s[1..]); }
  }

  method DecodeStringRequest(input: string) returns (r: Decoded)
    ensures r == Decode(input)
  {
    var index := BlankLine(input);
    if index < 0 { return MissingBlankLine; }
    BlankLineFits(input);
    var body := input[index + 4..];
    var header: map<string, string> := map[];
    var l := ScanLine(input[..index]);
    if !l.more { return BadFirstLine; }
    var p := ScanPair(l.token, ' ', IsSpace);
    if p.key != WSP_PROTO { return BadProto(p.key); }
    if !ValidCmd(p.value) { return BadCommand(p.value); }
    var tailing, ok := l.advance, p.found;
    while ok
      invariant Decode(input) == Accepted(Request(p.value, if ok then Headers(tailing, header) else header, body))
      decreases ok, |tailing|
    {
      ScanShrinks(tailing, '\n', IsSpace);
      l := ScanLine(tailing);
      tailing, ok := l.advance, l.more;
      var field := ScanColonPair(l.token);
      if field.found {
        header := header[field.key := field.value];
      }
    }
    return Accepted(Request(p.value, header, body));
  }

  /** The fields are those of the map, each once. */
  ghost predicate Lists(fs: Fields, m: map<string, string>) {
    && (forall i :: 0 <= i < |fs| ==> fs[i].0 in m && m[fs[i].0] == fs[i].1)
    && (forall k :: k in m ==> (k, m[k]) in fs)
    && (forall i, j :: 0 <= i < j < |fs| ==> fs[i].0 != fs[j].0)
  }

  lemma ListsOneMore(fs: Fields, m: map<string, string>, k: string, v: string)
    requires Lists(fs, m) && k !in m
    ensures Lists(fs + [(k, v)], m[k := v])
  {
    var gs, n := fs + [(k, v)], m[k := v];
    forall j | j in n ensures (j, n[j]) in gs {
      if j == k {
        assert gs[|fs|] == (k, v);
      } else {
        assert (j, m[j]) in fs;
      }
    }
  }

  lemma ListsNothing(m: map<string, string>)
    requires Lists([], m)
    ensures m == map[]
  {
    assert m.Keys == {};
  }

  lemma ListsOneLess(fs: Fields, m: map<string, string>)
    requires Lists(fs, m) && fs != []
    ensures Lists(fs[..|fs| - 1], m - {fs[|fs| - 1].0})
    ensures fs[|fs| - 1].0 in m && m[fs[|fs| - 1].0] == fs[|fs| - 1].1
  {
    var last, rest := fs[|fs| - 1], fs[..|fs| - 1];
    assert fs == rest + [last];
    forall j | j in m && j != last.0 ensures (j, m[j]) in rest {
      assert (j, m[j]) in fs;
    }
  }

  lemma {:induction false} ListsMapOf(fs: Fields, m: map<string, string>)
    requires Lists(fs, m)
    ensures MapOf(fs) == m
    decreases |fs|
  {
    hide Lists;
    if fs == [] {
      ListsNothing(m);
      assert m.Keys == {};
    } else {
      var k := fs[|fs| - 1].0;
      var rest := fs[..|fs| - 1];
      ListsOneLess(fs, m);
      ListsMapOf(rest, m - {k});
      assert (m - {k})[k := m[k]] == m;
    }
  }

  function StatusLine(statusCode: nat, statusText: string): string {
    WSP_PROTO + " " + Decimal(statusCode) + " " + statusText
  }

  lemma NothingPrinted()
    ensures Lists([], map[]) && Printed([]) == ""
  {
  }

  lemma PrintedStep(buf: string, fs: Fields, k: string, v: string)
    ensures buf + Printed(fs) + k + ": " + v + CRLF == buf + Printed(fs + [(k, v)])
  {
    assert (fs + [(k, v)])[..|fs|] == fs;
    assert buf + Printed(fs) + k + ": " + v + CRLF == buf + (Printed(fs) + (k + ": " + v) + CRLF);
  }

  lemma RestStep(m: map<string, string>, done: map<string, string>, todo: map<string, string>, k: string)
    requires k in todo && done.Keys !! todo.Keys && done + todo == m
    ensures done[k := todo[k]].Keys !! (todo - {k}).Keys && done[k := todo[k]] + (todo - {k}) == m
  {
    var n := done[k := todo[k]] + (todo - {k});
    assert forall j :: j in n <==> j in m;
    assert forall j :: j in m ==> n[j] == m[j];
  }

  /** The fields are printed in whatever order the iteration has. */
  method WriteFields(buf0: string, m: map<string, string>) returns (buf: string, ghost order: Fields)
    ensures Lists(order, m) && buf == buf0 + Printed(order)
  {
    hide Lists, Printed;
    buf, order := buf0, [];
    var todo := m;
    ghost var done: map<string, string> := map[];
    NothingPrinted();
    assert buf0 == buf0 + Printed(order);
    while todo != map[]
      invariant Lists(order, done) && done.Keys !! todo.Keys && done + todo == m
      invariant buf == buf0 + Printed(order)
      decreases |todo|
    {
      var k :| k in todo;
      var v := todo[k];
      ListsOneMore(order, done, k, v);
      RestStep(m, done, todo, k);
      PrintedStep(buf0, order, k, v);
      buf := buf + k;
      buf := buf + ": ";
      buf := buf + v;
      buf := buf + CRLF;
      order, done := order + [(k, v)], done[k := v];
      todo := todo - {k};
    }
    assert done == m;
  }

  /** The sequence field of the request takes the place of any that is given. */
  method ResponseTo(req: Request, buf0: string, statusCode: nat, statusText: string, header0: map<string, string>,
                    payload: string)
    returns (buf: string, header: map<string, string>, ghost order: Fields)
    ensures header == header0["seq" := if "seq" in req.header then req.header["seq"] else ""]
    ensures Lists(order, header) && buf == buf0 + Message(StatusLine(statusCode, statusText), order, payload)
  {
    hide Lists, Printed;
    var first := WSP_PROTO + " " + Decimal(statusCode) + " " + statusText + CRLF;
    header := header0["seq" := if "seq" in req.header then req.header["seq"] else ""];
    buf, order := WriteFields(buf0 + first, header);
    buf := buf + CRLF;
    if |payload| > 0 {
      buf := buf + payload;
    }
    assert buf == buf0 + first + Printed(order) + CRLF + payload;
  }
}
