/** Stream paths and route patterns in their canonical form. */
module CanonicalPath {
  import opened Text

  function TrimSpace(s: string): string {
    Trim(s, IsSpace)
  }

  function LowerChar(c: char): char {
    if 'A' <= c <= 'Z' then c - 'A' + 'a' else c
  }

  function ToLower(s: string): (r: string) {
    if s == "" then "" else [LowerChar(s[0])] + ToLower(s[1..])
  }

  /** The parts between the slashes. */
  function Split(s: string): (r: seq<string>)
    ensures r != []
  {
    if s == "" then [""]
    else
      var r := Split(s[1..]);
      if s[0] == '/' then [""] + r else [[s[0]] + r[0]] + r[1..]
  }

  /** The elements of a rooted path: nothing for an empty part and for ".", and
      one element less for "..". */
  function Elements(parts: seq<string>): seq<string> {
    if parts == [] then []
    else
      var before := Elements(parts[..|parts| - 1]);
      var last := parts[|parts| - 1];
      if last == "" || last == "." then before
      else if last != ".." then before + [last]
      else if before == [] then []
      else before[..|before| - 1]
  }

  function Join(elements: seq<string>): string {
    if elements == [] then "" else "/" + elements[0] + Join(elements[1..])
  }

  /** The shortest path equivalent to the rooted path s. */
  function Clean(s: string): string
    requires s != "" && s[0] == '/'
  {
    var r := Join(Elements(Split(s[1..])));
    if r == "" then "/" else r
  }

  function Canonical(p0: string): string {
    var p := ToLower(TrimSpace(p0));
    if p == "" then "/"
    else
      var q := if p[0] != '/' then "/" + p else p;
      var np := Clean(q);
      if q[|q| - 1] == '/' && np != "/" then np + "/" else np
  }

  /** An element of a clean path. */
  predicate Normal(e: string) {
    e != "" && e != "." && e != ".." && '/' !in e
  }

  predicate AllNormal(es: seq<string>) {
    forall k :: 0 <= k < |es| ==> Normal(es[k])
  }

  predicate IsLower(s: string) {
    forall k :: 0 <= k < |s| ==> LowerChar(s[k]) == s[k]
  }

  predicate AllLower(es: seq<string>) {
    forall k :: 0 <= k < |es| ==> IsLower(es[k])
  }

  lemma {:induction false} LowerIs(s: string)
    ensures IsLower(ToLower(s)) && |ToLower(s)| == |s|
    ensures IsLower(s) ==> ToLower(s) == s
    ensures forall k :: 0 <= k < |s| ==> ToLower(s)[k] == LowerChar(s[k])
  {
    if s == "" {
    } else {
      LowerIs(s[1..]);
    }
  }

  lemma {:induction false} SplitParts(s: string)
    ensures forall k :: 0 <= k < |Split(s)| ==> '/' !in Split(s)[k]
    ensures IsLower(s) ==> AllLower(Split(s))
  {
    if s == "" {
    } else {
      SplitParts(s[1..]);
      assert IsLower(s) ==> IsLower(s[1..]);
    }
  }

  lemma {:induction false} ElementsNormal(parts: seq<string>)
    requires forall k :: 0 <= k < |parts| ==> '/' !in parts[k]
    ensures AllNormal(Elements(parts))
    ensures AllLower(parts) ==> AllLower(Elements(parts))
  {
    if parts == [] {
    } else {
      ElementsNormal(parts[..|parts| - 1]);
    }
  }

  lemma SplitStep(s: string)
    requires s != ""
    ensures s[0] == '/' ==> Split(s) == [""] + Split(s[1..])
    ensures s[0] != '/' ==> Split(s) == [[s[0]] + Split(s[1..])[0]] + Split(s[1..])[1..]
  {
  }

  /** A path made of normal elements reads back as those elements. */
  lemma {:induction false} SplitJoin(e: string, es: seq<string>, tail: seq<string>)
    requires '/' !in e && AllNormal(es) && tail in [[], [""]]
    ensures Split(e + Join(es) + Join(tail)) == [e] + es + tail
    decreases |es|, |e|
  {
    hide Split;
    var s := e + Join(es) + Join(tail);
    if e != "" {
      SplitJoin(e[1..], es, tail);
      assert s[1..] == e[1..] + Join(es) + Join(tail);
      SplitStep(s);
      assert s[0] == e[0] && [e[0]] + e[1..] == e;
      assert ([e[1..]] + es + tail)[1..] == es + tail;
    } else if es != [] {
      SplitJoin(es[0], es[1..], tail);
      assert s[1..] == es[0] + Join(es[1..]) + Join(tail);
      SplitStep(s);
      assert [es[0]] + es[1..] == es;
    } else {
      SplitOfNone();
      assert e + Join(es) == "";
      if tail == [""] {
        assert s == "/" && s[1..] == "";
        SplitStep(s);
      }
    }
  }

  lemma SplitOfNone()
    ensures Split("") == [""]
  {
  }

  lemma {:induction false} JoinSplit(s: string)
    ensures Join(Split(s)) == "/" + s
  {
    if s == "" {
    } else {
      JoinSplit(s[1..]);
      var r := Split(s[1..]);
      SplitStep(s);
      assert s == [s[0]] + s[1..];
      JoinHeads(r, s[0], s[1..]);
    }
  }

  lemma JoinHeads(r: seq<string>, c: char, s: string)
    requires r != [] && Join(r) == "/" + s
    ensures Join([""] + r) == "/" + "/" + s
    ensures Join([[c] + r[0]] + r[1..]) == "/" + ([c] + s)
  {
    var t := Join(r[1..]);
    CutSlash(s, r[0], t);
    JoinHead("", r);
    JoinHead([c] + r[0], r[1..]);
    MoveFirst(c, r[0], t);
    assert "/" + "" == "/";
  }

  lemma JoinHead(e: string, es: seq<string>)
    ensures Join([e] + es) == "/" + e + Join(es)
  {
    assert ([e] + es)[1..] == es;
  }

  lemma CutSlash(s: string, a: string, t: string)
    requires "/" + s == "/" + a + t
    ensures s == a + t
  {
    assert ("/" + s)[1..] == s && ("/" + a + t)[1..] == a + t;
  }

  lemma MoveFirst(c: char, a: string, t: string)
    ensures "/" + ([c] + a) + t == "/" + ([c] + (a + t))
  {
  }

  lemma {:induction false} JoinLast(es: seq<string>)
    requires es != []
    ensures Join(es) == Join(es[..|es| - 1]) + "/" + es[|es| - 1]
  {
    if |es| <= 1 {
    } else {
      JoinLast(es[1..]);
      assert es[1..][..|es| - 2] == es[..|es| - 1][1..];
    }
  }

  lemma {:induction false} CleanShorter(parts: seq<string>)
    ensures |Join(Elements(parts))| <= |Join(parts)|
  {
    if parts == [] {
    } else {
      var before := Elements(parts[..|parts| - 1]);
      CleanShorter(parts[..|parts| - 1]);
      JoinLast(parts);
      if Elements(parts) != [] && Elements(parts) != before { JoinLast(Elements(parts)); }
      if before != [] { JoinLast(before); }
    }
  }

  lemma {:induction false} ElementsOfNormal(es: seq<string>, tail: seq<string>)
    requires AllNormal(es) && tail in [[], [""]]
    ensures Elements(es + tail) == es
    decreases |es| + |tail|
  {
    if tail == [""] {
      ElementsOfNormal(es, []);
      assert (es + tail)[..|es + tail| - 1] == es + [];
    } else if es != [] {
      assert es + tail == es;
      ElementsOfNormal(es[..|es| - 1], []);
      assert es[..|es| - 1] + [] == es[..|es| - 1];
    }
  }

  lemma ElementAt(e: string, rest: string, k: int)
    requires Normal(e)
    ensures 0 < k <= |e| ==> ("/" + e + rest)[k] != '/'
  {
    if 0 < k <= |e| { assert ("/" + e + rest)[k] == e[k - 1] && e[k - 1] in e; }
  }

  lemma {:induction false} JoinEnds(es: seq<string>)
    requires AllNormal(es)
    ensures AllLower(es) ==> IsLower(Join(es))
    ensures es != [] ==> Join(es) != "" && Join(es)[0] == '/' && Join(es)[|Join(es)| - 1] != '/'
  {
    if es == [] {
    } else {
      JoinEnds(es[1..]);
      assert es[0] != "" && es[0][|es[0]| - 1] in es[0];
      assert AllLower(es) ==> AllLower(es[1..]);
    }
  }

  lemma {:induction false} JoinSlashes(es: seq<string>)
    requires AllNormal(es)
    ensures forall k :: 0 <= k && k + 1 < |Join(es)| && Join(es)[k] == '/' ==> Join(es)[k + 1] != '/'
  {
    if es == [] {
    } else {
      var rest := Join(es[1..]);
      JoinSlashes(es[1..]);
      JoinEnds(es);
      var s := Join(es);
      assert s == "/" + es[0] + rest;
      forall k | 0 <= k && k + 1 < |s| && s[k] == '/' ensures s[k + 1] != '/' {
        if k == 0 {
          assert s[1] == es[0][0];
        } else if k > |es[0]| {
          assert s[k] == rest[k - 1 - |es[0]|] && s[k + 1] == rest[k - |es[0]|];
        } else {
          ElementAt(es[0], rest, k);
        }
      }
    }
  }

  /** The trimmed path, in lower case and with a slash in front. */
  function Rooted(p: string): (q: string)
    ensures q != "" && q[0] == '/'
  {
    var t := ToLower(TrimSpace(p));
    if t == "" || t[0] != '/' then "/" + t else t
  }

  /** What is left of a path once it is cleaned. */
  function PathElements(p: string): seq<string> {
    Elements(Split(Rooted(p)[1..]))
  }

  lemma NoElements()
    ensures Elements(Split("")) == []
  {
    assert Elements([]) == [];
  }

  /** A canonical path is lower-case normal elements behind slashes, with one
      more slash at its end if the given one had it there. */
  lemma CanonicalForm(p: string) returns (es: seq<string>, tail: seq<string>)
    ensures AllNormal(es) && AllLower(es) && tail in [[], [""]] && (es == [] ==> tail == [""])
    ensures Canonical(p) == Join(es) + Join(tail)
    ensures es == PathElements(p) && (es != [] ==> (tail == [""] <==> Rooted(p)[|Rooted(p)| - 1] == '/'))
  {
    hide TrimSpace, ToLower, Split, Elements, Normal, Clean, Canonical, Rooted, Join;
    CanonicalIs(p);
    var q := Rooted(p);
    SplitParts(q[1..]);
    es := Elements(Split(q[1..]));
    ElementsNormal(Split(q[1..]));
    CleanOf(q, es);
    tail := if es == [] || q[|q| - 1] == '/' then [""] else [];
    JoinTail();
    assert Join(es) + "" == Join(es) && "" + "/" == "/";
  }

  lemma JoinTail()
    ensures Join([]) == "" && Join([""]) == "/"
  {
  }

  lemma CanonicalIs(p: string)
    ensures var q := Rooted(p);
            Canonical(p) == (if q[|q| - 1] == '/' && Clean(q) != "/" then Clean(q) + "/" else Clean(q)) && IsLower(q[1..])
  {
    hide TrimSpace, ToLower, Split, Elements;
    LowerIs(TrimSpace(p));
    NoElements();
  }

  lemma CleanOf(q: string, es: seq<string>)
    requires q != "" && q[0] == '/' && es == Elements(Split(q[1..])) && AllNormal(es)
    ensures Clean(q) == if es == [] then "/" else Join(es)
    ensures es != [] ==> Clean(q) != "/"
  {
    hide Elements, Split;
    JoinEnds(es);
  }

  /** A canonical path starts with a slash and never has two in a row. */
  lemma SingleSlashes(p: string)
    ensures var r := Canonical(p); r != "" && r[0] == '/'
    ensures var r := Canonical(p); forall k :: 0 <= k && k + 1 < |r| && r[k] == '/' ==> r[k + 1] != '/'
  {
    var es, tail := CanonicalForm(p);
    JoinEnds(es);
    JoinSlashes(es);
    var r := Canonical(p);
    assert r == Join(es) + Join(tail);
    forall k | 0 <= k && k + 1 < |r| && r[k] == '/' ensures r[k + 1] != '/' {
      if k + 1 == |Join(es)| { assert false; }
    }
  }

  lemma TrimOfRooted(s: string)
    requires s != "" && s[0] == '/'
    ensures !IsSpace(s[|s| - 1]) ==> TrimSpace(s) == s
    ensures IsSpace(s[|s| - 1]) ==> |TrimSpace(s)| < |s|
    ensures TrimSpace(s) != "" && TrimSpace(s)[0] == '/'
  {
    TrimRightKeeps(s, IsSpace);
  }

  lemma SpaceGoes(r: string)
    requires r != "" && r[0] == '/' && IsSpace(r[|r| - 1])
    ensures Canonical(r) != r
  {
    hide TrimSpace, ToLower, Split, Elements;
    TrimOfRooted(r);
    LowerIs(TrimSpace(r));
    var q := ToLower(TrimSpace(r));
    JoinSplit(q[1..]);
    CleanShorter(Split(q[1..]));
  }

  lemma CanonicalOfForm(es: seq<string>, tail: seq<string>)
    requires AllNormal(es) && AllLower(es) && tail in [[], [""]] && (es == [] ==> tail == [""])
    requires var r := Join(es) + Join(tail); !IsSpace(r[|r| - 1])
    ensures var r := Join(es) + Join(tail); Canonical(r) == r
  {
    hide TrimSpace, ToLower, Split, Elements, Normal, Clean, Join;
    var r := Join(es) + Join(tail);
    FormEnds(es, tail);
    TrimOfRooted(r);
    LowerIs(r);
    PartsOfForm(es, tail);
    CleanOf(r, es);
    assert Join(es) + "" == Join(es);
  }

  lemma FormEnds(es: seq<string>, tail: seq<string>)
    requires AllNormal(es) && AllLower(es) && tail in [[], [""]] && (es == [] ==> tail == [""])
    ensures
      var r := Join(es) + Join(tail);
      && Join(tail) == (if tail == [] then "" else "/") && (es == [] ==> r == "/")
      && r != "" && r[0] == '/' && IsLower(r) && (es != [] ==> (r[|r| - 1] == '/' <==> tail == [""]))
  {
    hide Normal;
    assert Join([""]) == "/" && Join([]) == "";
    JoinEnds(es);
    var r := Join(es) + Join(tail);
    assert IsLower(r);
  }

  lemma PartsOfForm(es: seq<string>, tail: seq<string>)
    requires AllNormal(es) && tail in [[], [""]] && (es == [] ==> tail == [""])
    ensures var r := Join(es) + Join(tail); r != "" && Elements(Split(r[1..])) == es
  {
    hide TrimSpace, ToLower, Split, Elements;
    var r := Join(es) + Join(tail);
    assert Join([""]) == "/";
    if es != [] {
      SplitJoin(es[0], es[1..], tail);
      assert r[1..] == es[0] + Join(es[1..]) + Join(tail);
      assert [es[0]] + es[1..] + tail == es + tail;
      ElementsOfNormal(es, tail);
    } else {
      assert r[1..] == "";
      SplitOfNone();
      ElementsOfNormal([], [""]);
      assert [] + [""] == [""];
    }
  }

  /** The last element that is left ends in white space, with no slash behind
      it. Since paths are trimmed, parts behind it must have been cleaned away. */
  predicate SpaceLeft(p: string) {
    var q, es := Rooted(p), PathElements(p);
    q[|q| - 1] != '/' && es != [] && es[|es| - 1] != "" && IsSpace(es[|es| - 1][|es[|es| - 1]| - 1])
  }

  lemma SpaceAtEnd(es: seq<string>)
    requires AllNormal(es) && es != []
    ensures var e, r := es[|es| - 1], Join(es); e != "" && r != "" && r[|r| - 1] == e[|e| - 1]
  {
    JoinLast(es);
  }

  /** The server makes a path canonical more than once. That changes nothing iff
      no white space is left at the end. */
  lemma CanonicalTwice(p: string)
    ensures Canonical(Canonical(p)) == Canonical(p) <==> !SpaceLeft(p)
  {
    hide TrimSpace, ToLower, Split, Elements, Rooted, PathElements, Canonical;
    SingleSlashes(p);
    var es, tail := CanonicalForm(p);
    var r := Canonical(p);
    if es == [] || tail == [""] {
      assert Join([""]) == "/";
    } else {
      SpaceAtEnd(es);
      assert Join(es) + "" == Join(es);
    }
    if IsSpace(r[|r| - 1]) {
      SpaceGoes(r);
    } else {
      CanonicalOfForm(es, tail);
    }
  }

  lemma SplitExample()
    ensures Split("a /.") == ["a ", "."]
  {
    hide Split;
    SplitOfNone();
    SplitStep(".");
    SplitStep("/.");
    SplitStep(" /.");
    SplitStep("a /.");
    assert "."[1..] == "" && "/."[1..] == "." && " /."[1..] == "/." && "a /."[1..] == " /." ;
    var none: string := "";
    assert [none][1..] == [] && ['.'] + none == ".";
    assert Split(".") == ["."] && Split("/.") == ["", "."];
    assert ["", "."][1..] == ["."] && [' '] + none == " ";
    assert Split(" /.") == [" ", "."];
    assert [" ", "."][1..] == ["."] && ['a'] + " " == "a ";
    assert Split("a /.") == ["a ", "."];
  }

  lemma ElementsExample()
    ensures Elements(["a ", "."]) == ["a "]
  {
    assert ["a ", "."][..1] == ["a "] && ["a "][..0] == [];
  }

  /** White space survives the trimming in front of a part like ".". */
  lemma CanonicalTwiceDiffers()
    ensures Canonical("/a /.") == "/a " && Canonical(Canonical("/a /.")) != Canonical("/a /.")
  {
    hide TrimSpace, ToLower, Split, Elements;
    var q := "/a /.";
    TrimOfRooted(q);
    LowerIs(q);
    SplitExample();
    assert q[1..] == "a /.";
    ElementsExample();
    assert Join(["a "]) == "/a ";
    SpaceGoes("/a ");
  }
}
