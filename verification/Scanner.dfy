/** The tokenizer under the server's text protocols. */
module Scanner {
  import opened Text

  /** What is left, the first token, and whether there is more. */
  datatype Scanned = Scanned(advance: string, token: string, more: bool)

  function Scan(s: string, delim: char, f: char -> bool): Scanned {
    var i := IndexOf(s, delim);
    if i < 0 then Scanned("", Trim(s, f), false)
    else Scanned(Trim(s[i + 1..], f), Trim(s[..i], f), true)
  }

  datatype Pair = Pair(key: string, value: string, found: bool)

  function ScanPair(s: string, delim: char, f: char -> bool): Pair {
    var i := IndexOf(s, delim);
    if i < 0 then Pair(s, "", false)
    else Pair(Trim(s[..i], f), Trim(s[i + 1..], f), true)
  }

  /** White space, or a quote. */
  predicate IsSpaceOrQuote(c: char) {
    IsSpace(c) || c == '"'
  }

  function ScanLine(s: string): Scanned {
    Scan(s, '\n', IsSpace)
  }

  function ScanSemicolon(s: string): Scanned {
    Scan(s, ';', IsSpace)
  }

  function ScanColonPair(s: string): Pair {
    ScanPair(s, ':', IsSpaceOrQuote)
  }

  function ScanEqualPair(s: string): Pair {
    ScanPair(s, '=', IsSpaceOrQuote)
  }

  lemma {:induction false} TrimLonger(s: string, f: char -> bool)
    ensures |Trim(s, f)| <= |s|
  {
  }

  /** Each scan leaves less behind, so that scanning ends. */
  lemma ScanShrinks(s: string, delim: char, f: char -> bool)
    ensures Scan(s, delim, f).more ==> |Scan(s, delim, f).advance| < |s|
  {
    var i := IndexOf(s, delim);
    if i >= 0 { TrimLonger(s[i + 1..], f); }
  }
}
