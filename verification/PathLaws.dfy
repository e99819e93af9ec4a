/** What a canonical path is, told by the rules of path cleaning and with the
    letters written out. */
module PathLaws {
  import opened Text
  import opened CanonicalPath

  // ---- Letters and white space around a path

  /** The same text but for the case of ASCII letters. */
  ghost predicate SameButCase(a: string, b: string) {
    |a| == |b| && forall k :: 0 <= k < |a| ==> SameLetter(a[k], b[k])
  }

  predicate SameLetter(c: char, d: char) {
    || c == d
    || ('A' <= c <= 'Z' && d as int == c as int + 32)
    || ('A' <= d <= 'Z' && c as int == d as int + 32)
  }

  lemma LettersTrim(a: string, b: string)
    requires SameButCase(a, b)
    ensures SameButCase(TrimSpace(a), TrimSpace(b))
  {
    LettersTrimLeft(a, b);
    LettersTrimRight(TrimLeft(a, IsSpace), TrimLeft(b, IsSpace));
  }

  lemma {:induction false} LettersTrimLeft(a: string, b: string)
    requires SameButCase(a, b)
    ensures SameButCase(TrimLeft(a, IsSpace), TrimLeft(b, IsSpace))
  {
    if a == "" {
    } else {
      assert SameLetter(a[0], b[0]);
      LettersTrimLeft(a[1..], b[1..]);
    }
  }

  lemma {:induction false} LettersTrimRight(a: string, b: string)
    requires SameButCase(a, b)
    ensures SameButCase(TrimRight(a, IsSpace), TrimRight(b, IsSpace))
  {
    if a == "" {
    } else {
      var n := |a| - 1;
      assert SameLetter(a[n], b[n]);
      LettersTrimRight(a[..n], b[..n]);
    }
  }

  lemma LettersLower(a: string, b: string)
    requires SameButCase(a, b)
    ensures ToLower(a) == ToLower(b)
  {
    LowerIs(a);
    LowerIs(b);
    forall k | 0 <= k < |a| ensures ToLower(a)[k] == ToLower(b)[k] {
      assert SameLetter(a[k], b[k]);
    }
  }

  /** Paths that differ only in the case of letters have one canonical form. */
  lemma CaseBlind(p: string, q: string)
    requires SameButCase(p, q)
    ensures Canonical(p) == Canonical(q)
  {
    hide TrimSpace, ToLower, Clean;
    LettersTrim(p, q);
    LettersLower(TrimSpace(p), TrimSpace(q));
  }

  /** There is no capital letter in it. */
  lemma NoCapitals(p: string)
    ensures forall c :: c in Canonical(p) ==> !('A' <= c <= 'Z')
  {
    hide Canonical, LowerChar;
    var es, tail := CanonicalForm(p);
    JoinEnds(es);
    var r := Canonical(p);
    assert Join([""]) == "/" && Join([]) == "";
    forall c | c in r ensures !('A' <= c <= 'Z') {
      var k :| 0 <= k < |r| && r[k] == c;
      if k < |Join(es)| {
        assert Join(es)[k] == c;
        LowerIsLow(c);
      }
    }
  }

  lemma LowerIsLow(c: char)
    requires LowerChar(c) == c
    ensures !('A' <= c <= 'Z')
  {}

  /** White space around a path does not matter. */
  lemma SpaceBlind(a: string, p: string, b: string)
    requires forall c :: c in a || c in b ==> IsSpace(c)
    ensures Canonical(a + p + b) == Canonical(p)
  {
    hide ToLower, Clean, TrimLeft, TrimRight, IsSpace;
    TrimFront(a, p + b);
    assert a + p + b == a + (p + b);
    TrimBack(p, b);
  }

  lemma {:induction false} TrimFront(a: string, s: string)
    requires forall c :: c in a ==> IsSpace(c)
    ensures TrimLeft(a + s, IsSpace) == TrimLeft(s, IsSpace)
  {
    if a == "" {
      assert a + s == s;
    } else {
      assert (a + s)[0] == a[0] && (a + s)[1..] == a[1..] + s;
      TrimFront(a[1..], s);
    }
  }

  lemma {:induction false} TrimBack(p: string, b: string)
    requires forall c :: c in b ==> IsSpace(c)
    ensures Trim(p + b, IsSpace) == Trim(p, IsSpace)
  {
    if b == "" {
      assert p + b == p;
    } else {
      var n := |b| - 1;
      TrimOneBack(p + b[..n], b[n]);
      assert p + b == (p + b[..n]) + [b[n]];
      TrimBack(p, b[..n]);
    }
  }

  lemma {:induction false} TrimOneBack(s: string, c: char)
    requires IsSpace(c)
    ensures Trim(s + [c], IsSpace) == Trim(s, IsSpace)
  {
    if s == "" {
      assert s + [c] == [c] && [c][1..] == "";
    } else if IsSpace(s[0]) {
      assert (s + [c])[1..] == s[1..] + [c];
      TrimOneBack(s[1..], c);
    } else {
      assert (s + [c])[..|s|] == s;
    }
  }

  // ---- The rules of path cleaning

  lemma {:induction false} SplitConcat(a: string, b: string)
    ensures Split(a + "/" + b) == Split(a) + Split(b)
  {
    var s := a + "/" + b;
    if a == "" {
      assert s[1..] == b;
      assert [""] + Split(b) == Split("") + Split(b);
    } else {
      assert s[0] == a[0] && s[1..] == a[1..] + "/" + b;
      SplitConcat(a[1..], b);
      var x, y := Split(a[1..]), Split(b);
      assert a[0] == '/' ==> [""] + (x + y) == ([""] + x) + y;
      assert (x + y)[0] == x[0] && (x + y)[1..] == x[1..] + y;
      assert [[a[0]] + x[0]] + (x[1..] + y) == ([[a[0]] + x[0]] + x[1..]) + y;
    }
  }

  /** What is left of the parts so far is all that later parts work on. */
  lemma {:induction false} ElementsSame(x: seq<string>, y: seq<string>, z: seq<string>)
    requires Elements(x) == Elements(y)
    ensures Elements(x + z) == Elements(y + z)
  {
    if z == [] {
      assert x + z == x && y + z == y;
    } else {
      hide Elements;
      var n := |z| - 1;
      ElementsSame(x, y, z[..n]);
      ElementsNext(x + z[..n], z[n]);
      ElementsNext(y + z[..n], z[n]);
      assert x + z[..n] + [z[n]] == x + z && y + z[..n] + [z[n]] == y + z;
    }
  }

  lemma ElementsNext(x: seq<string>, e: string)
    ensures e == "" || e == "." ==> Elements(x + [e]) == Elements(x)
    ensures e != "" && e != "." && e != ".." ==> Elements(x + [e]) == Elements(x) + [e]
    ensures e == ".." ==> Elements(x + [e]) == if Elements(x) == [] then [] else Elements(x)[..|Elements(x)| - 1]
  {
    assert (x + [e])[..|x|] == x;
  }

  /** The elements left of a path, with or without a slash in front. */
  ghost function Left(s: string): seq<string> {
    Elements(Split(s))
  }

  lemma LeftRooted(s: string)
    requires s != "" && s[0] == '/'
    ensures Left(s) == Elements(Split(s[1..]))
  {
    NoElements();
    assert Split("") == [""];
    hide Split, Elements;
    SplitConcat("", s[1..]);
    assert s == "" + "/" + s[1..];
    ElementsNext([], "");
    assert [] + [""] == [""];
    ElementsSame([""], [], Split(s[1..]));
    assert [] + Split(s[1..]) == Split(s[1..]);
  }

  /** A part between a and b may go if it leaves what there was before it. */
  lemma Between(a: string, part: string, b: string)
    requires Elements(Split(a) + Split(part)) == Elements(Split(a))
    ensures Left(a + "/" + part + "/" + b) == Left(a + "/" + b)
  {
    hide Split, Elements;
    SplitConcat(a, part + "/" + b);
    SplitConcat(part, b);
    SplitConcat(a, b);
    assert a + "/" + part + "/" + b == a + "/" + (part + "/" + b);
    assert Split(a) + (Split(part) + Split(b)) == (Split(a) + Split(part)) + Split(b);
    ElementsSame(Split(a) + Split(part), Split(a), Split(b));
  }

  lemma PartOfOne(part: string)
    requires '/' !in part
    ensures Split(part) == [part]
  {
    SplitJoin(part, [], []);
    assert part + Join([]) + Join([]) == part && [part] + [] + [] == [part];
  }

  /** An empty part, a ".", and a ".." with the element in front of it, change
      nothing; nor does a ".." at the root. */
  lemma PartsThatGo(a: string, e: string, b: string)
    requires Normal(e)
    ensures Left(a + "/" + "" + "/" + b) == Left(a + "/" + b)
    ensures Left(a + "/" + "." + "/" + b) == Left(a + "/" + b)
    ensures Left(a + "/" + (e + "/..") + "/" + b) == Left(a + "/" + b)
    ensures Left("" + "/" + ".." + "/" + b) == Left("" + "/" + b)
  {
    hide Left, Elements, Split;
    PartOfOne("");
    PartOfOne(".");
    PartOfOne("..");
    PartOfOne(e);
    ElementsNext(Split(a), "");
    Between(a, "", b);
    ElementsNext(Split(a), ".");
    Between(a, ".", b);
    SplitConcat(e, "..");
    assert e + "/" + ".." == e + "/..";
    ElementsNext(Split(a), e);
    ElementsNext(Split(a) + [e], "..");
    assert Split(a) + ([e] + [".."]) == Split(a) + [e] + [".."];
    Between(a, e + "/..", b);
    NoElements();
    ElementsNext([""], "..");
    Between("", "..", b);
  }

  // ---- The rules for canonical paths

  /** Rooted, and not to be trimmed. */
  predicate Plain(s: string) {
    s != "" && s[0] == '/' && !IsSpace(s[|s| - 1])
  }

  lemma {:induction false} LowerConcat(a: string, b: string)
    ensures ToLower(a + b) == ToLower(a) + ToLower(b)
  {
    if a == "" {
      assert a + b == b;
    } else {
      assert (a + b)[1..] == a[1..] + b;
      LowerConcat(a[1..], b);
    }
  }

  /** A plain path has the form of what is left of it, with a slash behind it
      exactly if it has one itself. */
  lemma PlainForm(s: string)
    requires Plain(s)
    ensures Canonical(s) == Join(Left(ToLower(s))) + if s[|s| - 1] == '/' || Left(ToLower(s)) == [] then "/" else ""
  {
    hide TrimSpace, ToLower, Split, Elements, Normal, Clean, Canonical, Join, IsSpace;
    TrimOfRooted(s);
    LowerIs(s);
    assert Rooted(s) == ToLower(s);
    LeftRooted(ToLower(s));
    var q := ToLower(s);
    assert q[|q| - 1] == '/' <==> s[|s| - 1] == '/';
    SplitParts(q[1..]);
    ElementsNormal(Split(q[1..]));
    CanonicalIs(s);
    CleanOf(q, Left(q));
    JoinTail();
    assert Join(Left(q)) + "" == Join(Left(q)) && "" + "/" == "/";
  }

  /** Plain paths with the same end and the same elements left are one path. */
  lemma SameLeft(s: string, t: string)
    requires Plain(s) && Plain(t) && Left(ToLower(s)) == Left(ToLower(t))
    requires s[|s| - 1] == '/' <==> t[|t| - 1] == '/'
    ensures Canonical(s) == Canonical(t)
  {
    hide Left, ToLower, Canonical, IsSpace;
    PlainForm(s);
    PlainForm(t);
  }

  /** The rules of path cleaning, for any front and rear of a path: several
      slashes are one; a "." goes; a ".." goes with the element in front of it,
      or alone at the root. */
  lemma CleaningRules(a: string, e: string, b: string)
    requires (a == "" || a[0] == '/') && (b == "" || !IsSpace(b[|b| - 1]))
    requires e != "" && e != "." && e != ".." && '/' !in e
    ensures Canonical(a + "//" + b) == Canonical(a + "/" + b)
    ensures Canonical(a + "/./" + b) == Canonical(a + "/" + b)
    ensures Canonical(a + "/" + e + "/../" + b) == Canonical(a + "/" + b)
    ensures Canonical("/../" + b) == Canonical("/" + b)
  {
    hide Canonical, ToLower, Left, IsSpace;
    var x, y, z := ToLower(a), ToLower(e), ToLower(b);
    NormalLower(e);
    PartsThatGo(x, y, z);
    LowerPath(a, "", b);
    LowerPath(a, ".", b);
    LowerPath(a, e + "/..", b);
    LowerPath("", "..", b);
    LowerSigns();
    LowerConcat(e, "/..");
    SamePlain(a, "", b);
    SamePlain(a, ".", b);
    SamePlain(a, e + "/..", b);
    SamePlain("", "..", b);
    assert a + "/" + "" + "/" + b == a + "//" + b;
    assert a + "/" + "." + "/" + b == a + "/./" + b;
    assert a + "/" + (e + "/..") + "/" + b == a + "/" + e + "/../" + b;
    assert "" + "/" + ".." + "/" + b == "/../" + b && "" + "/" + b == "/" + b;
  }

  lemma LowerSigns()
    ensures ToLower("") == "" && ToLower(".") == "." && ToLower("..") == ".." && ToLower("/..") == "/.." && ToLower("/") == "/"
  {
    LowerIs(".");
    LowerIs("..");
    LowerIs("/..");
    LowerIs("/");
  }

  lemma NormalLower(e: string)
    requires Normal(e)
    ensures Normal(ToLower(e))
  {
    LowerIs(e);
    var l := ToLower(e);
    LowerDots(e);
    forall k | 0 <= k < |l| ensures l[k] != '/' {
      assert e[k] in e && l[k] == LowerChar(e[k]);
    }
  }

  lemma LowerDots(e: string)
    ensures ToLower(e) == "." ==> e == "."
    ensures ToLower(e) == ".." ==> e == ".."
  {
    LowerIs(e);
    forall k | 0 <= k < |e| ensures ToLower(e)[k] == '.' ==> e[k] == '.' {
    }
  }

  lemma LowerPath(a: string, part: string, b: string)
    ensures ToLower(a + "/" + part + "/" + b) == ToLower(a) + "/" + ToLower(part) + "/" + ToLower(b)
    ensures ToLower(a + "/" + b) == ToLower(a) + "/" + ToLower(b)
  {
    LowerSigns();
    LowerConcat(a + "/" + part + "/", b);
    LowerConcat(a + "/" + part, "/");
    LowerConcat(a + "/", part);
    LowerConcat(a, "/");
    LowerConcat(a + "/", b);
  }

  lemma SamePlain(a: string, part: string, b: string)
    requires (a == "" || a[0] == '/') && (b == "" || !IsSpace(b[|b| - 1]))
    requires Left(ToLower(a + "/" + part + "/" + b)) == Left(ToLower(a + "/" + b))
    ensures Canonical(a + "/" + part + "/" + b) == Canonical(a + "/" + b)
  {
    hide Canonical, Left, ToLower, IsSpace;
    NoSpace();
    SameLeft(a + "/" + part + "/" + b, a + "/" + b);
  }

  /** A slash in front of a path that has none changes nothing. */
  lemma FrontSlash(p: string)
    requires p == "" || (p[0] != '/' && !IsSpace(p[0]) && !IsSpace(p[|p| - 1]))
    ensures Canonical("/" + p) == Canonical(p)
  {
    hide Clean, IsSpace;
    TrimTrimmed(p, IsSpace);
    TrimTrimmed("/" + p, IsSpace);
    LowerIs(p);
    LowerConcat("/", p);
    LowerSigns();
    assert !IsSpace('/') by { NoSpace(); }
    if p == "" { RootStays(); }
  }

  lemma NoSpace()
    ensures !IsSpace('/')
  {}

  lemma RootStays()
    ensures Canonical("/") == "/"
  {
    CanonicalOfForm([], [""]);
    JoinTail();
  }

  /** A slash behind a path is kept, unless nothing else is left. */
  lemma RearSlash(s: string)
    requires s != "" && s[0] == '/' && s[|s| - 1] != '/' && !IsSpace(s[|s| - 1])
    ensures Canonical(s + "/") == if Canonical(s) == "/" then "/" else Canonical(s) + "/"
  {
    hide Canonical, ToLower, Left, IsSpace, Join;
    NoSpace();
    PlainForm(s);
    PlainForm(s + "/");
    LowerConcat(s, "/");
    LowerSigns();
    LeftBehind(ToLower(s));
    JoinOfNone(Left(ToLower(s)));
    assert Join(Left(ToLower(s))) + "" == Join(Left(ToLower(s)));
  }

  lemma JoinOfNone(es: seq<string>)
    ensures es == [] ==> Join(es) == ""
    ensures es != [] ==> Join(es) != "" && (Join(es) == "/" ==> es[0] == "")
  {
    if es != [] { assert |Join(es)| == 1 + |es[0]| + |Join(es[1..])|; }
  }

  lemma LeftBehind(q: string)
    ensures Left(q + "/") == Left(q)
    ensures forall k :: 0 <= k < |Left(q)| ==> Left(q)[k] != ""
  {
    hide Split, Elements;
    SplitConcat(q, "");
    assert q + "/" + "" == q + "/";
    PartOfOne("");
    ElementsNext(Split(q), "");
    SplitParts(q);
    ElementsNormal(Split(q));
  }

  /** A path that is clean, without capitals and not to be trimmed stays as it is. */
  lemma CleanStays(es: seq<string>, slash: bool)
    requires forall k :: 0 <= k < |es| ==> es[k] != "" && es[k] != "." && es[k] != ".." && '/' !in es[k]
    requires forall k, c :: 0 <= k < |es| && c in es[k] ==> !('A' <= c <= 'Z')
    requires es == [] ==> slash
    requires !slash ==> !IsSpace(es[|es| - 1][|es[|es| - 1]| - 1])
    ensures var r := Join(es) + if slash then "/" else ""; Canonical(r) == r
  {
    hide Canonical, Join, IsSpace;
    var tail := if slash then [""] else [];
    JoinTail();
    assert AllLower(es) by {
      forall k, i | 0 <= k < |es| && 0 <= i < |es[k]| ensures LowerChar(es[k][i]) == es[k][i] {
        assert es[k][i] in es[k];
      }
    }
    NoSpace();
    if !slash {
      SpaceAtEnd(es);
      assert Join(es) + "" == Join(es);
    }
    CanonicalOfForm(es, tail);
  }
}
