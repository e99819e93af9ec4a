/** What the remuxer does with slices and times, in plain terms. */
module RemuxLaws {
  import opened Wrappers
  import opened BitStrings
  import opened ByteStrings
  import opened NaluAssembler
  import opened Remuxer

  // ---- Order

  /** The elements of one time, in order. */
  function OfTime<T>(q: seq<T>, time: T -> int, t: int): seq<T> {
    if q == [] then []
    else OfTime(q[..|q| - 1], time, t) + if time(q[|q| - 1]) == t then [q[|q| - 1]] else []
  }

  /** Elements of one time stay in the order in which they came. */
  lemma {:induction false} SortStable<T>(q: seq<T>, time: T -> int, t: int)
    ensures OfTime(Sort(q, time), time, t) == OfTime(q, time, t)
  {
    if q == [] {
    } else {
      var n := |q| - 1;
      SortStable(q[..n], time, t);
      SortOrders(q[..n], time);
      InsertStable(Sort(q[..n], time), q[n], time, t);
    }
  }

  lemma {:induction false} InsertStable<T>(q: seq<T>, x: T, time: T -> int, t: int)
    requires Sorted(q, time)
    ensures OfTime(Insert(q, x, time), time, t) == OfTime(q, time, t) + if time(x) == t then [x] else []
  {
    if q == [] || time(q[|q| - 1]) <= time(x) {
      assert (q + [x])[..|q|] == q;
    } else {
      var n := |q| - 1;
      InsertStable(q[..n], x, time, t);
      var r := Insert(q[..n], x, time);
      assert (r + [q[n]])[..|r|] == r;
    }
  }

  lemma {:induction false} QueuedAre(us: seq<Unit>)
    ensures |QueuedOf(us)| == |us|
    ensures forall i :: 0 <= i < |us| ==> QueuedOf(us)[i] == Queued(us[i], us[i].nalu.pts, us[i].nalu.dts)
  {
    if us == [] {
    } else {
      QueuedAre(us[..|us| - 1]);
    }
  }

  // ---- Slices of one picture

  /** A unit as it stands behind another one: a start code of four bytes, its
      header and its data. */
  ghost function FromStartCode(u: Unit): seq<byte> {
    [0, 0, 0, 1] + u.nalu.GetData()[4..]
  }

  lemma BehindIs(u: Unit, unit: seq<byte>, dts: int, pts: int)
    requires StandsFor(u.nalu, unit, dts, pts)
    ensures FromStartCode(u) == [0, 0, 0, 1] + unit
  {
    hide Nalu.GetData, Bytes4;
    assert (Bytes4(|unit|) + unit)[4..] == unit;
  }

  ghost function AllBehind(us: seq<Unit>): seq<byte> {
    if us == [] then [] else AllBehind(us[..|us| - 1]) + FromStartCode(us[|us| - 1])
  }

  /** Units of one time become the first one with the others behind it. */
  lemma {:induction false} OnePicture(us: seq<Unit>)
    requires us != [] && forall i :: 0 <= i < |us| ==> us[i].nalu.dts == us[0].nalu.dts
    ensures Merged(us) == [us[0].(nalu := us[0].nalu.(data := us[0].nalu.data + AllBehind(us[1..])))]
  {
    hide Nalu.GetData;
    var n := |us| - 1;
    if n == 0 {
      assert us[..0] == [] && us[1..] == [] && Merged(us[..0]) == [];
      assert us[0].nalu.data + [] == us[0].nalu.data;
    } else {
      OnePicture(us[..n]);
      var front := us[..n][1..];
      assert us[1..][..n - 1] == front && us[1..][n - 1] == us[n];
      assert AllBehind(us[1..]) == AllBehind(front) + FromStartCode(us[n]);
      assert us[0].nalu.data + (AllBehind(front) + FromStartCode(us[n])) == us[0].nalu.data + AllBehind(front) + FromStartCode(us[n]);
      assert us[..n][0] == us[0] && us[n].nalu.dts == us[0].nalu.dts;
    }
  }

  lemma {:induction false} LastTime(us: seq<Unit>)
    requires us != []
    ensures Merged(us) != [] && Merged(us)[|Merged(us)| - 1].nalu.dts == us[|us| - 1].nalu.dts
  {
    hide Nalu.GetData;
  }

  lemma MergedStep(us: seq<Unit>, x: Unit)
    ensures
      var r := Merged(us);
      Merged(us + [x]) == if r != [] && r[|r| - 1].nalu.dts == x.nalu.dts then r[..|r| - 1] + [Appended(r[|r| - 1], x)]
                          else r + [x]
  {
    hide Appended;
    assert (us + [x])[..|us|] == us;
  }

  /** Units of different times are not mixed. */
  lemma {:induction false} PicturesApart(a: seq<Unit>, b: seq<Unit>)
    requires a != [] && b != [] && a[|a| - 1].nalu.dts != b[0].nalu.dts
    ensures Merged(a + b) == Merged(a) + Merged(b)
    decreases |b|
  {
    hide Appended, Nalu.GetData, Merged;
    var n, x := |b| - 1, b[|b| - 1];
    LastTime(a);
    MergedStep(a + b[..n], x);
    MergedStep(b[..n], x);
    assert a + b[..n] + [x] == a + b && b[..n] + [x] == b;
    if n == 0 {
      assert a + b[..0] == a && b[..0] == [];
      NothingMerged();
      assert [] + [x] == [x];
    } else {
      PicturesApart(a, b[..n]);
      LastTime(b[..n]);
      Spread(Merged(a), Merged(b[..n]), x);
    }
  }

  lemma NothingMerged()
    ensures Merged([]) == []
  {
  }

  lemma Spread(p: seq<Unit>, q: seq<Unit>, x: Unit)
    requires q != []
    ensures
      var r := p + q;
      && r[|r| - 1] == q[|q| - 1] && r + [x] == p + (q + [x])
      && forall y :: r[..|r| - 1] + [y] == p + (q[..|q| - 1] + [y])
  {
  }

  // ---- Times

  /** Less than 600 ms apart, rounded, means less than 599.5 ms, or just that
      much too early. */
  lemma NearIs(delta: int)
    ensures IsNear(delta) <==> -53955 <= delta < 53955
  {
  }

  /** The first sample of a fragment, when another one was expected at a time
      other than 0: one that is near is moved there, and its presentation with
      it, but not to before its decoding; one that is late stays; one from the
      past is skipped. */
  lemma FirstTaken(x: Queued, next: int, init: int)
    requires next != 0
    ensures
      var due := if x.pts <= x.dts then x.pts - init else x.dts - init;
      var moved := x.pts - init - (due - next);
      Plan([x], Some(next), init) ==
        if due - next < -53955 then []
        else if due - next >= 53955 then [Taken(x.unit, x.pts - init, due)]
        else [Taken(x.unit, if moved >= next then moved else next, next)]
  {
    NearIs((if x.pts <= x.dts then x.pts else x.dts) - init - next);
    PlanOne(x, Some(next), init);
  }

  /** With nothing expected it is taken at its own time. */
  lemma FirstOfAll(x: Queued, next: Option<int>, init: int)
    requires next == None || next == Some(0)
    ensures Plan([x], next, init) == [Taken(x.unit, x.pts - init, if x.pts <= x.dts then x.pts - init else x.dts - init)]
  {
    PlanOne(x, next, init);
  }

  lemma PlanOne(x: Queued, next: Option<int>, init: int)
    ensures Plan([x], next, init) == if First(x, next, init).Some? then [First(x, next, init).value] else []
  {
    assert [x][..0] == [] && Plan([], next, init) == [];
  }

  /** A sample behind the first one taken is taken, at its own time, iff it is not
      due before the one in front of it. */
  lemma LaterTaken(q: seq<Queued>, x: Queued, next: Option<int>, init: int)
    requires Plan(q, next, init) != []
    ensures
      var ts := Plan(q, next, init);
      var due := if x.pts <= x.dts then x.pts - init else x.dts - init;
      Plan(q + [x], next, init) == if due < ts[|ts| - 1].dts then ts else ts + [Taken(x.unit, x.pts - init, due)]
  {
    hide First;
    assert (q + [x])[..|q|] == q;
  }

  /** A sample behind skipped ones only is the first one. */
  lemma SkippedOnly(q: seq<Queued>, x: Queued, next: Option<int>, init: int)
    requires Plan(q, next, init) == []
    ensures Plan(q + [x], next, init) == Plan([x], next, init)
  {
    hide First;
    assert (q + [x])[..|q|] == q;
    PlanOne(x, next, init);
  }
}
