/** The routes of the server: a lookup by longest prefix, and a journal of what
    changed since the table was last flushed. */
module RouteTable {
  import opened Wrappers
  import opened CanonicalPath
  import opened PathLaws

  /** What a route leads to. */
  datatype Target = Target(url: string, keepAlive: bool)

  /** A copy of a route. */
  datatype RouteCopy = RouteCopy(pattern: string, target: Target)

  class Route {
    var pattern: string
    var url: string
    var keepAlive: bool

    constructor (pattern: string, url: string, keepAlive: bool)
      ensures this.pattern == pattern && this.url == url && this.keepAlive == keepAlive
    {
      this.pattern, this.url, this.keepAlive := pattern, url, keepAlive;
    }

    function To(): Target
      reads this
    {
      Target(url, keepAlive)
    }

    /** The pattern becomes canonical even when the address is no good. */
    method Init(parses: string -> bool) returns (ok: bool)
      modifies this`pattern
      ensures pattern == Canonical(old(pattern)) && ok == parses(url)
    {
      pattern := Canonical(pattern);
      ok := parses(url);
    }

    method CopyFrom(src: Route)
      modifies this`url, this`keepAlive
      ensures To() == old(src.To())
    {
      url, keepAlive := src.url, src.keepAlive;
    }
  }

  // ---- Matching

  /** A pattern with a slash at its end stands for all paths below it. */
  predicate PathMatch(pattern: string, path: string) {
    if pattern == "" then false
    else if pattern[|pattern| - 1] != '/' then pattern == path
    else pattern <= path
  }

  /** The longest of the patterns that match. */
  ghost predicate Longest(k: string, patterns: set<string>, path: string) {
    k in patterns && PathMatch(k, path) && forall j :: j in patterns && PathMatch(j, path) ==> |j| <= |k|
  }

  lemma OneLongest(j: string, k: string, patterns: set<string>, path: string)
    requires Longest(j, patterns, path) && Longest(k, patterns, path)
    ensures j == k
  {
    assert j == path[..|j|] && k == path[..|k|];
  }

  /** The address of a prefix match: what the pattern left over goes behind the
      route's address. */
  function Joined(url: string, pattern: string, path: string): string
    requires url != "" && pattern != "" && |pattern| <= |path|
  {
    if url[|url| - 1] == '/' then url + path[|pattern|..] else url + path[|pattern| - 1..]
  }

  function WithoutSlash(url: string): string {
    if url != "" && url[|url| - 1] == '/' then url[..|url| - 1] else url
  }

  /** There is exactly one slash at the join. */
  lemma OneSlash(url: string, pattern: string, p: string)
    requires url != "" && pattern != "" && pattern[|pattern| - 1] == '/' && pattern <= Canonical(p)
    ensures Joined(url, pattern, Canonical(p)) == WithoutSlash(url) + "/" + Canonical(p)[|pattern|..]
    ensures |pattern| < |Canonical(p)| ==> Canonical(p)[|pattern|] != '/'
  {
    hide Canonical;
    SingleSlashes(p);
    var path := Canonical(p);
    assert path[|pattern| - 1] == pattern[|pattern| - 1];
    assert path[|pattern| - 1..] == "/" + path[|pattern|..];
    if url[|url| - 1] == '/' {
      assert url == WithoutSlash(url) + "/";
    }
  }

  /** What a table with these patterns and targets answers. */
  ghost predicate Answers(t: map<string, Target>, p: string, r: Result<Option<RouteCopy>>) {
    var path := Canonical(p);
    if path == "" || path[|path| - 1] == '/' then r == Ok(None)
    else if path in t then r == Ok(Some(RouteCopy(path, t[path])))
    else if !exists k :: Longest(k, t.Keys, path) then r == Ok(None)
    else
      var k :| Longest(k, t.Keys, path);
      if t[k].url == "" then r == Panic
      else r == Ok(Some(RouteCopy(path, t[k].(url := Joined(t[k].url, k, path)))))
  }

  /** A pattern that ends in a slash and prefixes the path. */
  predicate Leads(k: string, path: string) {
    |k| <= |path| && path[..|k|] == k && |k| > 0 && k[|k| - 1] == '/'
  }

  /** The answer in full: none for a path that ends in a slash; the route of that
      very path; or that of the longest pattern that leads to it, with the rest
      of the path behind exactly one slash; or none. */
  lemma MatchMeans(t: map<string, Target>, p: string, r: Result<Option<RouteCopy>>)
    requires Answers(t, p, r)
    ensures
      var c := Canonical(p);
      && c != ""
      && (c[|c| - 1] == '/' ==> r == Ok(None))
      && (c[|c| - 1] != '/' && c in t ==> r == Ok(Some(RouteCopy(c, t[c]))))
      && (c[|c| - 1] != '/' && c !in t && (forall k :: k in t ==> !Leads(k, c)) ==> r == Ok(None))
      && (c[|c| - 1] != '/' && c !in t ==> forall k :: k in t && Leads(k, c) && LongestLead(k, t, c) ==>
            r == if t[k].url == "" then Panic else Ok(Some(RouteCopy(c, Target(Forwarded(t[k].url, c[|k|..]), t[k].keepAlive)))))
  {
    hide Canonical;
    var c := Canonical(p);
    SingleSlashes(p);
    if c[|c| - 1] != '/' && c !in t {
      forall k | k in t ensures PathMatch(k, c) <==> Leads(k, c) {
      }
      forall k | k in t && Leads(k, c) && LongestLead(k, t, c)
        ensures r == if t[k].url == "" then Panic
                     else Ok(Some(RouteCopy(c, Target(Forwarded(t[k].url, c[|k|..]), t[k].keepAlive))))
      {
        assert Longest(k, t.Keys, c);
        forall j | Longest(j, t.Keys, c) ensures j == k {
          OneLongest(j, k, t.Keys, c);
        }
        if t[k].url != "" { OneSlash(t[k].url, k, p); }
      }
    }
  }

  predicate LongestLead(k: string, t: map<string, Target>, path: string) {
    forall j :: j in t && Leads(j, path) ==> |j| <= |k|
  }

  /** The rest of a path behind an address, with one slash between them. */
  function Forwarded(url: string, rest: string): string
    requires url != ""
  {
    if url[|url| - 1] == '/' then url + rest else url + "/" + rest
  }

  /** Requests that differ only in the case of letters get the same answer. */
  lemma MatchCaseBlind(t: map<string, Target>, p: string, q: string, r: Result<Option<RouteCopy>>)
    requires SameButCase(p, q)
    ensures Answers(t, p, r) <==> Answers(t, q, r)
  {
    hide Canonical;
    CaseBlind(p, q);
  }

  // ---- Lists of routes

  ghost function Patterns(rs: seq<Route>): set<string>
    reads rs`pattern
  {
    set r | r in rs :: r.pattern
  }

  ghost predicate Distinct(rs: seq<Route>)
    reads rs`pattern
  {
    forall i, j :: 0 <= i < j < |rs| ==> rs[i].pattern != rs[j].pattern
  }

  /** The targets of the listed routes, a later one in place of an earlier one. */
  ghost function Targets(rs: seq<Route>): map<string, Target>
    reads rs
  {
    if rs == [] then map[] else Targets(rs[..|rs| - 1])[rs[|rs| - 1].pattern := rs[|rs| - 1].To()]
  }

  lemma {:induction false} TargetsAt(rs: seq<Route>)
    ensures Targets(rs).Keys == Patterns(rs)
    ensures Distinct(rs) ==> forall r :: r in rs ==> r.pattern in Targets(rs) && Targets(rs)[r.pattern] == r.To()
  {
    if rs == [] {
    } else {
      var before, last := rs[..|rs| - 1], rs[|rs| - 1];
      TargetsAt(before);
      assert rs == before + [last];
    }
  }

  lemma PatternsAdd(rs: seq<Route>, r: Route)
    ensures Patterns(rs + [r]) == Patterns(rs) + {r.pattern}
    ensures Distinct(rs + [r]) <==> Distinct(rs) && r.pattern !in Patterns(rs)
  {
    assert (rs + [r])[|rs|] == r;
    assert forall i :: 0 <= i < |rs| ==> (rs + [r])[i] == rs[i];
  }

  lemma PatternThere(rs: seq<Route>, p: string)
    requires exists x :: x in rs && x.pattern == p
    ensures Patterns(rs) + {p} == Patterns(rs)
  {
  }

  /** The list without the first route of that pattern. */
  method DropPattern(rs: seq<Route>, pattern: string) returns (r: seq<Route>)
    requires Distinct(rs)
    ensures forall x :: x in r <==> x in rs && x.pattern != pattern
    ensures Distinct(r) && Patterns(r) == Patterns(rs) - {pattern}
  {
    for i := 0 to |rs|
      invariant forall j :: 0 <= j < i ==> rs[j].pattern != pattern
    {
      if rs[i].pattern == pattern {
        r := rs[..i] + rs[i + 1..];
        return;
      }
    }
    r := rs;
  }

  method HasPattern(rs: seq<Route>, pattern: string) returns (r: bool)
    ensures r <==> exists x :: x in rs && x.pattern == pattern
  {
    for i := 0 to |rs|
      invariant forall j :: 0 <= j < i ==> rs[j].pattern != pattern
    {
      if rs[i].pattern == pattern { return true; }
    }
    return false;
  }

  // ---- The journal

  /** Saved patterns are in the table and removed ones are not, and the rest of
      the table is what the provider holds otherwise. */
  ghost predicate Journal(t: map<string, Target>, flushed: map<string, Target>, saved: set<string>, removed: set<string>) {
    && saved <= t.Keys && removed !! t.Keys
    && (forall k :: k in t && k !in saved ==> k in flushed && flushed[k] == t[k])
    && flushed.Keys - t.Keys <= removed
  }

  lemma JournalKept(t: map<string, Target>, flushed: map<string, Target>, saved: set<string>, removed: set<string>, p: string)
    requires Journal(t, flushed, saved, removed) && p in t
    ensures p !in removed && removed - {p} == removed
  {
  }

  lemma JournalDel(t: map<string, Target>, flushed: map<string, Target>, saved: set<string>, removed: set<string>, p: string)
    requires Journal(t, flushed, saved, removed)
    ensures Journal(t - {p}, flushed, saved - {p}, removed + {p})
  {
  }

  lemma JournalSave(t: map<string, Target>, flushed: map<string, Target>, saved: set<string>, removed: set<string>,
                    p: string, to: Target)
    requires Journal(t, flushed, saved, removed)
    ensures Journal(t[p := to], flushed, saved + {p}, removed - {p})
  {
  }

  /** The saves and removes of a journal turn what the provider holds into the
      table. */
  lemma JournalTurns(t: map<string, Target>, flushed: map<string, Target>, saved: set<string>, removed: set<string>,
                     saves: map<string, Target>)
    requires Journal(t, flushed, saved, removed)
    requires saves.Keys == saved && forall k :: k in saves ==> saves[k] == t[k]
    ensures (flushed - removed) + saves == t
  {
    var u := (flushed - removed) + saves;
    assert forall k :: k in u <==> k in t;
    assert forall k :: k in t ==> u[k] == t[k];
  }

  // ---- The map and the lists

  ghost function ViewOf(m: map<string, Route>): map<string, Target>
    reads m.Values
  {
    map k | k in m :: m[k].To()
  }

  /** The listed routes are routes of the map, and none is listed twice. */
  ghost predicate Held(m: map<string, Route>, rs: seq<Route>)
    reads rs`pattern
  {
    Distinct(rs) && forall r :: r in rs ==> r.pattern in m && m[r.pattern] == r
  }

  /** All routes of the map are listed. */
  ghost predicate Lists(m: map<string, Route>, rs: seq<Route>)
    reads m.Values`pattern, rs`pattern
  {
    Held(m, rs) && forall k :: k in m ==> m[k].pattern == k && m[k] in rs
  }

  lemma ListsHeld(m: map<string, Route>, rs: seq<Route>)
    requires Lists(m, rs)
    ensures Held(m, rs) && forall k :: k in m ==> m[k].pattern == k
  {
  }

  lemma HeldDistinct(m: map<string, Route>, rs: seq<Route>)
    requires Held(m, rs)
    ensures Distinct(rs)
  {
  }

  lemma KeysListed(m: map<string, Route>, rs: seq<Route>)
    requires forall k :: k in m ==> m[k].pattern == k && m[k] in rs
    ensures m.Keys <= Patterns(rs)
  {
  }

  lemma ViewKeys(m: map<string, Route>)
    ensures ViewOf(m).Keys == m.Keys
  {
  }

  lemma WithoutOne(m: map<string, Route>, rs: seq<Route>, rest: seq<Route>, p: string)
    requires Held(m, rs) && Distinct(rest) && forall x :: x in rest <==> x in rs && x.pattern != p
    ensures Held(m - {p}, rest) && (Lists(m, rs) ==> Lists(m - {p}, rest))
  {
  }

  lemma WithOne(m: map<string, Route>, rs: seq<Route>, r: Route)
    requires Held(m, rs)
    requires r.pattern in m ==> m[r.pattern] == r && r !in rs
    ensures Held(m[r.pattern := r], rs + [r]) && (Lists(m, rs) ==> Lists(m[r.pattern := r], rs + [r]))
    ensures r.pattern in m ==> m[r.pattern := r] == m
  {
    hide Distinct;
    PatternsAdd(rs, r);
  }

  lemma ViewWithout(m: map<string, Route>, p: string)
    ensures ViewOf(m - {p}) == ViewOf(m) - {p}
  {
  }

  lemma ViewWith(m: map<string, Route>, r: Route)
    ensures ViewOf(m[r.pattern := r]) == ViewOf(m)[r.pattern := r.To()]
  {
    var m' := m[r.pattern := r];
    assert forall k :: k in m' <==> k == r.pattern || k in m;
    assert forall k :: k in m' ==> ViewOf(m')[k] == m'[k].To();
  }

  /** A table while it is loaded, where a later route takes the place of an
      earlier one in the map, but not on the list. */
  ghost predicate Loads(m: map<string, Route>, rs: seq<Route>)
    reads m.Values, rs
  {
    && ViewOf(m) == Targets(rs)
    && (forall k :: k in m ==> m[k].pattern == k && m[k] in rs)
    && (Distinct(rs) ==> Held(m, rs))
  }

  lemma LoadsNone()
    ensures Loads(map[], [])
  {
  }

  lemma LoadsListed(m: map<string, Route>, rs: seq<Route>, x: Route)
    requires Loads(m, rs) && x !in rs
    ensures x !in m.Values
  {
  }

  lemma LoadsOne(m: map<string, Route>, rs: seq<Route>, x: Route)
    requires Loads(m, rs) && x !in rs
    ensures Loads(m[x.pattern := x], rs + [x])
  {
    hide Distinct, Patterns;
    ViewWith(m, x);
    assert (rs + [x])[..|rs|] == rs;
    PatternsAdd(rs, x);
    if Distinct(rs + [x]) {
      KeysListed(m, rs);
      WithOne(m, rs, x);
    }
  }

  lemma LoadsIsValid(m: map<string, Route>, rs: seq<Route>, t: map<string, Target>)
    requires Loads(m, rs) && t == ViewOf(m)
    ensures (Lists(m, rs) <==> Distinct(rs)) && t == Targets(rs)
    ensures Held(m, []) && Distinct([]) && Journal(t, t, Patterns([]), Patterns([]))
  {
  }

  // ---- The table

  class Table {
    const parses: string -> bool   // whether url.Parse accepts an address
    var m: map<string, Route>
    var l: seq<Route>
    var saves: seq<Route>
    var removes: seq<Route>
    ghost var flushed: map<string, Target>   // what the provider holds

    /** The patterns and targets of the table. */
    ghost function View(): map<string, Target>
      reads this`m, m.Values
    {
      ViewOf(m)
    }

    ghost predicate Valid()
      reads this, m.Values, l, saves, removes
    {
      && Lists(m, l) && Held(m, saves) && Distinct(removes)
      && Journal(View(), flushed, Patterns(saves), Patterns(removes))
    }

    constructor (parses: string -> bool)
      ensures Valid() && m == map[] && flushed == map[] && this.parses == parses
    {
      this.parses := parses;
      m, l, saves, removes, flushed := map[], [], [], [], map[];
    }

    /** Starts over with what the provider loads, or with nothing when it fails;
        routes whose address does not parse are skipped. */
    method Reset(loaded: Option<seq<Route>>) returns (r: Result<()>)
      requires loaded.Some? ==> forall i, j :: 0 <= i < j < |loaded.value| ==> loaded.value[i] != loaded.value[j]
      modifies this, (if loaded.Some? then loaded.value else [])`pattern
      ensures r == if loaded.Some? then Ok(()) else Panic
      ensures saves == removes == [] && flushed == View()
      ensures loaded.None? ==> Valid() && m == map[]
      ensures loaded.Some? ==> l == Parsed(loaded.value) && View() == Targets(l) && (Valid() <==> Distinct(l))
      ensures loaded.Some? ==> forall x :: x in loaded.value ==> x.pattern == Canonical(old(x.pattern))
    {
      hide Canonical, Loads, ViewOf, Targets;
      m, l, saves, removes, flushed := map[], [], [], [], map[];
      LoadsNone();
      r := if loaded.Some? then Ok(()) else Panic;
      if loaded.Some? {
        LoadAll(loaded.value);
      }
      flushed := View();
      LoadsIsValid(m, l, flushed);
    }

    method LoadAll(routes: seq<Route>)
      requires forall i, j :: 0 <= i < j < |routes| ==> routes[i] != routes[j]
      requires l == [] && Loads(m, l)
      modifies this`m, this`l, routes`pattern
      ensures l == Parsed(routes) && Loads(m, l)
      ensures forall x :: x in routes ==> x.pattern == Canonical(old(x.pattern))
    {
      hide Canonical, Loads;
      for i := 0 to |routes|
        invariant l == Parsed(routes[..i]) && Loads(m, l)
        invariant forall x :: x in l ==> x in routes[..i]
        invariant forall j :: 0 <= j < i ==> routes[j].pattern == Canonical(old(routes[j].pattern))
        invariant forall j :: i <= j < |routes| ==> routes[j].pattern == old(routes[j].pattern)
      {
        assert routes[i] !in l;
        assert routes[..i + 1][..i] == routes[..i];
        Load(routes[i]);
      }
      assert routes[..|routes|] == routes;
    }

    method Load(x: Route)
      requires Loads(m, l) && x !in l
      modifies this`m, this`l, x`pattern
      ensures Loads(m, l) && l == old(l) + if parses(x.url) then [x] else []
      ensures x.pattern == Canonical(old(x.pattern))
    {
      hide Canonical, Loads;
      LoadsListed(m, l, x);
      var ok := x.Init(parses);
      if ok {
        LoadsOne(m, l, x);
        m := m[x.pattern := x];
        l := l + [x];
      }
    }

    ghost function Parsed(rs: seq<Route>): seq<Route>
      reads rs`url
    {
      if rs == [] then []
      else Parsed(rs[..|rs| - 1]) + if parses(rs[|rs| - 1].url) then [rs[|rs| - 1]] else []
    }

    /** Those whose address parses, in order and each as often as it is listed. */
    lemma {:induction false} ParsedAre(rs: seq<Route>)
      ensures multiset(Parsed(rs)) <= multiset(rs)
      ensures forall r: Route :: multiset(rs)[r] == multiset(Parsed(rs))[r] + if parses(r.url) then 0 else multiset(rs)[r]
    {
      if rs == [] {
      } else {
        ParsedAre(rs[..|rs| - 1]);
        assert rs == rs[..|rs| - 1] + [rs[|rs| - 1]];
      }
    }

    method Del(pattern0: string)
      requires Valid()
      modifies this`m, this`l, this`saves, this`removes
      ensures Valid() && View() == old(View()) - {Canonical(pattern0)}
    {
      hide Canonical, Journal, Distinct, Patterns, Lists, Held;
      var pattern := Canonical(pattern0);
      if pattern in m { Remove(pattern); }
    }

    method Remove(pattern: string)
      requires Valid() && pattern in m
      modifies this`m, this`l, this`saves, this`removes
      ensures Valid() && View() == old(View()) - {pattern}
    {
      hide Journal, Distinct, Patterns, Lists, Held, ViewOf;
      var r := m[pattern];
      ListsHeld(m, l);
      HeldDistinct(m, l);
      HeldDistinct(m, saves);
      JournalDel(View(), flushed, Patterns(saves), Patterns(removes), pattern);
      ViewKeys(m);
      JournalKept(View(), flushed, Patterns(saves), Patterns(removes), pattern);
      ViewWithout(m, pattern);
      PatternsAdd(removes, r);
      var l' := DropPattern(l, r.pattern);
      WithoutOne(m, l, l', pattern);
      var saves' := DropPattern(saves, r.pattern);
      WithoutOne(m, saves, saves', pattern);
      Install(m - {pattern}, l', saves', removes + [r]);
    }

    method Install(m': map<string, Route>, l': seq<Route>, saves': seq<Route>, removes': seq<Route>)
      requires Lists(m', l') && Held(m', saves') && Distinct(removes')
      requires Journal(ViewOf(m'), flushed, Patterns(saves'), Patterns(removes'))
      modifies this`m, this`l, this`saves, this`removes
      ensures Valid() && View() == old(ViewOf(m'))
      ensures m == m' && l == l' && saves == saves' && removes == removes'
    {
      hide Journal, Distinct, Patterns, Lists, Held, ViewOf;
      m, l, saves, removes := m', l', saves', removes';
    }

    /** A saved route is in the table from then on, not a copy of it; an update
        goes to the route that is there already. */
    method Save(newr: Route) returns (ok: bool)
      requires Valid()
      requires newr in l || newr in removes ==> Canonical(newr.pattern) == newr.pattern
      modifies this`m, this`l, this`saves, this`removes, newr`pattern, m.Values`url, m.Values`keepAlive
      ensures Valid() && ok == parses(newr.url)
      ensures newr.pattern == Canonical(old(newr.pattern))
      ensures View() == if ok then old(View())[newr.pattern := old(newr.To())] else old(View())
    {
      hide Canonical;
      assert newr in saves ==> newr in l;
      ok := newr.Init(parses);
      SameLists(newr);
      if !ok { return false; }
      if newr.pattern in m { Update(newr); } else { Insert(newr); }
    }

    twostate lemma SameLists(newr: Route)
      requires old(Valid()) && unchanged(this)
      requires newr in l || newr in removes ==> unchanged(newr)
      requires forall r: Route :: r in l || r in removes ==> r == newr || unchanged(r)
      ensures Valid() && View() == old(View())
    {
      hide Journal;
      assert forall r: Route :: r in l || r in saves || r in removes ==> unchanged(r);
    }

    method Update(newr: Route)
      requires Valid() && newr.pattern in m
      modifies this`m, this`l, this`saves, this`removes, m.Values`url, m.Values`keepAlive
      ensures Valid() && View() == old(View())[newr.pattern := old(newr.To())] && newr.url == old(newr.url)
    {
      hide Journal, Distinct, Patterns, Held;
      var r := m[newr.pattern];
      assert r.pattern == newr.pattern;
      Overwrite(r, newr);
      var listed := HasPattern(saves, r.pattern);
      if listed {
        PatternThere(saves, r.pattern);
        Install(m, l, saves, removes);
      } else {
        WithOne(m, saves, r);
        PatternsAdd(saves, r);
        Install(m, l, saves + [r], removes);
      }
    }

    /** The new target in the route that is there, before it is put on a list. */
    method Overwrite(r: Route, newr: Route)
      requires Valid() && r.pattern in m && m[r.pattern] == r
      modifies r`url, r`keepAlive
      ensures Lists(m, l) && Held(m, saves) && Distinct(removes)
      ensures Journal(View(), flushed, Patterns(saves) + {r.pattern}, Patterns(removes))
      ensures View() == old(View())[r.pattern := old(newr.To())] && newr.url == old(newr.url)
    {
      hide Journal, Distinct, Patterns, Held;
      JournalSave(View(), flushed, Patterns(saves), Patterns(removes), r.pattern, newr.To());
      JournalKept(View(), flushed, Patterns(saves), Patterns(removes), r.pattern);
      r.CopyFrom(newr);
      assert View() == old(View())[r.pattern := old(newr.To())];
    }

    method Insert(newr: Route)
      requires Valid() && newr.pattern !in m
      modifies this`m, this`l, this`saves, this`removes
      ensures Valid() && View() == old(View())[newr.pattern := newr.To()]
    {
      hide Journal, Distinct, Patterns, Lists, Held, ViewOf;
      ListsHeld(m, l);
      JournalSave(View(), flushed, Patterns(saves), Patterns(removes), newr.pattern, newr.To());
      WithOne(m, l, newr);
      WithOne(m, saves, newr);
      PatternsAdd(saves, newr);
      ViewWith(m, newr);
      var removes' := DropPattern(removes, newr.pattern);
      Install(m[newr.pattern := newr], l + [newr], saves + [newr], removes');
    }

    /** works says whether the provider takes the changes. */
    method Flush(works: bool) returns (ok: bool)
      requires Valid()
      modifies this`saves, this`removes, this`flushed
      ensures Valid() && ok == (works || old(saves + removes) == [])
      ensures ok ==> flushed == View() && saves == removes == []
      ensures !ok ==> saves == old(saves) && removes == old(removes) && flushed == old(flushed)
    {
      if |saves| + |removes| == 0 {
        assert Patterns(saves) == {} && Patterns(removes) == {};
        assert flushed == View();
        return true;
      }
      if !works { return false; }
      saves, removes, flushed := [], [], View();
      return true;
    }

    method Match(path0: string) returns (r: Result<Option<RouteCopy>>)
      requires Valid()
      ensures Answers(View(), path0, r)
    {
      SingleSlashes(path0);
      var path := Canonical(path0);
      if path[|path| - 1] == '/' { return Ok(None); }
      if path in m { return Ok(Some(RouteCopy(path, m[path].To()))); }
      var n := 0;
      var best: Option<Route> := None;
      var todo := m.Keys;
      while todo != {}
        invariant todo <= m.Keys
        invariant best.None? ==> forall j :: j in m.Keys - todo ==> !PathMatch(j, path)
        invariant best.Some? ==> best.value.pattern in m && m[best.value.pattern] == best.value
        invariant best.Some? ==> n == |best.value.pattern| && Longest(best.value.pattern, m.Keys - todo, path)
      {
        var k :| k in todo;
        if PathMatch(k, path) && (best.None? || |k| > n) {
          n := |k|;
          best := Some(m[k]);
        }
        todo := todo - {k};
      }
      assert m.Keys - {} == m.Keys == View().Keys;
      if best.None? { return Ok(None); }
      var found := best.value;
      assert Longest(found.pattern, View().Keys, path);
      forall k | Longest(k, View().Keys, path) ensures k == found.pattern {
        OneLongest(k, found.pattern, View().Keys, path);
      }
      if found.url == "" { return Panic; }
      return Ok(Some(RouteCopy(path, Target(Joined(found.url, found.pattern, path), found.keepAlive))));
    }
  }

  /** What the provider holds, without what was removed and with what was saved
      since, is the table; and the list has the routes of the table once each. */
  lemma JournalRebuilds(t: Table)
    requires t.Valid()
    ensures (t.flushed - Patterns(t.removes)) + Targets(t.saves) == t.View()
    ensures Targets(t.l) == t.View() && Distinct(t.l)
    ensures Patterns(t.saves) <= t.View().Keys && Patterns(t.removes) !! t.View().Keys
    ensures Distinct(t.saves) && Distinct(t.removes)
  {
    TargetsAt(t.saves);
    JournalTurns(t.View(), t.flushed, Patterns(t.saves), Patterns(t.removes), Targets(t.saves));
    TargetsAt(t.l);
  }
}
