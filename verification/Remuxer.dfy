/** The player's H.264 remuxer: from NAL units with time stamps to the samples
    of a fragment. */
module Remuxer {
  import opened Wrappers
  import opened BitStrings
  import opened ByteStrings
  import opened JsNumber
  import opened Modular
  import opened NaluAssembler
  import opened Mp4
  import opened Mp4Reader

  /** A unit, and whether it belongs to a keyframe. */
  datatype Unit = Unit(nalu: Nalu, key: bool)

  datatype Queued = Queued(unit: Unit, pts: int, dts: int)

  function Sum<T>(q: seq<T>, size: T -> nat): nat {
    if q == [] then 0 else Sum(q[..|q| - 1], size) + size(q[|q| - 1])
  }

  function UnitSize(u: Unit): nat {
    u.nalu.GetSize()
  }

  function QueuedSize(x: Queued): nat {
    x.unit.nalu.GetSize()
  }

  function SizeOfAll(q: seq<Queued>): nat {
    Sum(q, QueuedSize)
  }

  function SizeOfUnits(us: seq<Unit>): nat {
    Sum(us, UnitSize)
  }

  lemma {:induction false} SizeOfAllHead(q: seq<Queued>)
    requires q != []
    ensures SizeOfAll(q) == q[0].unit.nalu.GetSize() + SizeOfAll(q[1..])
  {
    if |q| <= 1 {
    } else {
      SizeOfAllHead(q[..|q| - 1]);
      assert q[1..][..|q| - 2] == q[..|q| - 1][1..];
    }
  }

  function QueuedOf(us: seq<Unit>): seq<Queued> {
    if us == [] then []
    else
      var u := us[|us| - 1];
      QueuedOf(us[..|us| - 1]) + [Queued(u, u.nalu.pts, u.nalu.dts)]
  }

  // ---- Sorting

  /** x goes behind everything that is not later. */
  function Insert<T>(q: seq<T>, x: T, time: T -> int): seq<T> {
    if q == [] || time(q[|q| - 1]) <= time(x) then q + [x]
    else Insert(q[..|q| - 1], x, time) + [q[|q| - 1]]
  }

  /** JavaScript's sort by time, which is stable. */
  function Sort<T>(q: seq<T>, time: T -> int): seq<T> {
    if q == [] then [] else Insert(Sort(q[..|q| - 1], time), q[|q| - 1], time)
  }

  predicate Sorted<T>(q: seq<T>, time: T -> int) {
    forall i, j :: 0 <= i < j < |q| ==> time(q[i]) <= time(q[j])
  }

  lemma {:induction false} InsertKeeps<T>(q: seq<T>, x: T, time: T -> int, size: T -> nat)
    ensures Sum(Insert(q, x, time), size) == Sum(q, size) + size(x)
    ensures multiset(Insert(q, x, time)) == multiset(q) + multiset{x}
  {
    var r := Insert(q, x, time);
    if q == [] || time(q[|q| - 1]) <= time(x) {
      assert r[..|q|] == q;
    } else {
      var rest, last := q[..|q| - 1], q[|q| - 1];
      InsertKeeps(rest, x, time, size);
      assert r[..|r| - 1] == Insert(rest, x, time);
      assert q == rest + [last];
    }
  }

  lemma {:induction false} InsertOrders<T>(q: seq<T>, x: T, time: T -> int)
    requires Sorted(q, time)
    ensures Sorted(Insert(q, x, time), time)
    ensures forall i :: 0 <= i < |Insert(q, x, time)| ==> Insert(q, x, time)[i] in q + [x]
  {
    if q == [] || time(q[|q| - 1]) <= time(x) {
    } else {
      var rest, last := q[..|q| - 1], q[|q| - 1];
      InsertOrders(rest, x, time);
      var s := Insert(rest, x, time);
      forall i | 0 <= i < |s| ensures time(s[i]) <= time(last) && s[i] in q + [x] {
        assert s[i] in rest + [x];
      }
    }
  }

  /** Nothing gets lost or is made up, whatever the sizes. */
  lemma {:induction false} SortKeeps<T>(q: seq<T>, time: T -> int, size: T -> nat)
    ensures Sum(Sort(q, time), size) == Sum(q, size)
    ensures multiset(Sort(q, time)) == multiset(q) && |Sort(q, time)| == |q|
  {
    hide Insert;
    if q == [] {
    } else {
      SortKeeps(q[..|q| - 1], time, size);
      InsertKeeps(Sort(q[..|q| - 1], time), q[|q| - 1], time, size);
      assert q == q[..|q| - 1] + [q[|q| - 1]];
      assert |multiset(Sort(q, time))| == |multiset(q)|;
    }
  }

  lemma {:induction false} SortOrders<T>(q: seq<T>, time: T -> int)
    ensures Sorted(Sort(q, time), time)
  {
    hide Insert;
    if q == [] {
    } else {
      SortOrders(q[..|q| - 1], time);
      InsertOrders(Sort(q[..|q| - 1], time), q[|q| - 1], time);
    }
  }

  function UnitTime(u: Unit): int {
    u.nalu.dts
  }

  function QueuedTime(x: Queued): int {
    x.dts
  }

  function SortUnits(us: seq<Unit>): seq<Unit> {
    Sort(us, UnitTime)
  }

  function SortQueued(q: seq<Queued>): seq<Queued> {
    Sort(q, QueuedTime)
  }

  lemma SortSizes(us: seq<Unit>, q: seq<Queued>)
    ensures SizeOfUnits(SortUnits(us)) == SizeOfUnits(us)
    ensures SizeOfAll(SortQueued(q)) == SizeOfAll(q) && |SortQueued(q)| == |q|
  {
    SortKeeps(us, UnitTime, UnitSize);
    SortKeeps(q, QueuedTime, QueuedSize);
  }

  predicate InOrder(q: seq<Queued>) {
    Sorted(q, QueuedTime)
  }

  // ---- Slices of one picture

  /** A later slice behind an earlier one, with a start code instead of its length. */
  function Appended(a: Unit, b: Unit): Unit {
    a.(nalu := a.nalu.(data := a.nalu.data + ([0, 0, 0, 1] + b.nalu.GetData()[4..])))
  }

  /** Units of one time, which are neighbours once sorted, become one. */
  function Merged(us: seq<Unit>): seq<Unit> {
    if us == [] then []
    else
      var r, x := Merged(us[..|us| - 1]), us[|us| - 1];
      if r != [] && r[|r| - 1].nalu.dts == x.nalu.dts then r[|r| - 1 := Appended(r[|r| - 1], x)] else r + [x]
  }

  lemma AppendedSize(a: Unit, b: Unit)
    ensures Appended(a, b).nalu.GetSize() == a.nalu.GetSize() + b.nalu.GetSize()
  {
    assert |b.nalu.GetData()[4..]| == 1 + |b.nalu.data|;
  }

  /** Merging loses nothing of the size. */
  lemma {:induction false} MergedSize(us: seq<Unit>)
    ensures SizeOfUnits(Merged(us)) == SizeOfUnits(us)
  {
    hide Appended, Nalu.GetSize;
    if us == [] {
    } else {
      var r, x := Merged(us[..|us| - 1]), us[|us| - 1];
      MergedSize(us[..|us| - 1]);
      if r != [] && r[|r| - 1].nalu.dts == x.nalu.dts {
        AppendedSize(r[|r| - 1], x);
        LastReplaced(r, Appended(r[|r| - 1], x));
      } else {
        assert (r + [x])[..|r|] == r;
      }
    }
  }

  lemma LastReplaced(r: seq<Unit>, y: Unit)
    requires r != []
    ensures SizeOfUnits(r[|r| - 1 := y]) == SizeOfUnits(r) - r[|r| - 1].nalu.GetSize() + y.nalu.GetSize()
  {
    var m := r[|r| - 1 := y];
    assert m[..|m| - 1] == r[..|r| - 1];
  }

  // ---- Which samples are taken, and at what times

  datatype Taken = Taken(unit: Unit, pts: int, dts: int)

  function Min(a: int, b: int): int {
    if a <= b then a else b
  }

  function Max(a: int, b: int): int {
    if a >= b then a else b
  }

  /** Less than 600 ms, rounded to the nearest one, on a clock of 90 kHz. */
  predicate IsNear(delta: int) {
    -600 < (delta + 45) / 90 < 600
  }

  /** Undefined and 0 are the same in a condition. */
  predicate Truthy(t: Option<int>) {
    t.Some? && t.value != 0
  }

  /** The first sample, moved to where it was expected if that is not far;
      nothing if it is from the past. */
  function First(x: Queued, next: Option<int>, init: int): Option<Taken> {
    var pts := x.pts - init;
    var dts := Min(pts, x.dts - init);
    if Truthy(next) then
      var delta := dts - next.value;
      if IsNear(delta) then
        if delta != 0 then Some(Taken(x.unit, Max(pts - delta, next.value), next.value)) else Some(Taken(x.unit, pts, dts))
      else if delta < 0 then None
      else Some(Taken(x.unit, pts, dts))
    else Some(Taken(x.unit, pts, dts))
  }

  function Later(x: Queued, last: int, init: int): Option<Taken> {
    var pts := x.pts - init;
    var dts := Min(pts, x.dts - init);
    if dts - last < 0 then None else Some(Taken(x.unit, pts, dts))
  }

  function Next(x: Queued, done: seq<Taken>, next: Option<int>, init: int): Option<Taken> {
    if done == [] then First(x, next, init) else Later(x, done[|done| - 1].dts, init)
  }

  /** The samples that are taken from the front of the queue on. */
  function Plan(q: seq<Queued>, next: Option<int>, init: int): seq<Taken> {
    if q == [] then []
    else
      var done := Plan(q[..|q| - 1], next, init);
      var x := Next(q[|q| - 1], done, next, init);
      if x.Some? then done + [x.value] else done
  }

  /** Times never go back, and no sample is shown before it is decoded. */
  predicate Forward(ts: seq<Taken>) {
    && (forall i :: 0 < i < |ts| ==> ts[i - 1].dts <= ts[i].dts)
    && (forall i :: 0 <= i < |ts| ==> ts[i].dts <= ts[i].pts)
  }

  lemma {:induction false} PlanForward(q: seq<Queued>, next: Option<int>, init: int)
    ensures Forward(Plan(q, next, init))
  {
    if q == [] {
    } else {
      PlanForward(q[..|q| - 1], next, init);
    }
  }

  /** No sample of the queue is to be shown before it is decoded. */
  predicate Sane(q: seq<Queued>) {
    forall x :: x in q ==> x.dts <= x.pts
  }

  lemma FrontInOrder(q: seq<Queued>)
    requires q != [] && InOrder(q) && Sane(q)
    ensures InOrder(q[..|q| - 1]) && Sane(q[..|q| - 1]) && q[|q| - 1].dts <= q[|q| - 1].pts
    ensures |q| >= 2 ==> q[|q| - 2].dts <= q[|q| - 1].dts
  {
    assert q[|q| - 1] in q;
    assert forall y :: y in q[..|q| - 1] ==> y in q;
  }

  /** In a queue in order, where no sample is due before its decoding time and
      there is no expected time, every sample is taken. */
  lemma {:induction false} NothingSkipped(q: seq<Queued>, next: Option<int>, init: int)
    requires InOrder(q) && Sane(q) && !Truthy(next)
    ensures |Plan(q, next, init)| == |q|
    ensures forall i :: 0 <= i < |q| ==> Plan(q, next, init)[i] == Taken(q[i].unit, q[i].pts - init, q[i].dts - init)
  {
    if q == [] {
    } else {
      hide InOrder, Sane, Plan, LastDts;
      var n := |q| - 1;
      FrontInOrder(q);
      NothingSkipped(q[..n], next, init);
      PlanStep(q, n, next, init);
      assert q[..n + 1] == q;
    }
  }

  function Units(ts: seq<Taken>): seq<seq<byte>> {
    if ts == [] then [] else Units(ts[..|ts| - 1]) + [ts[|ts| - 1].unit.nalu.GetData()]
  }

  function TakenSize(ts: seq<Taken>): nat {
    if ts == [] then 0 else TakenSize(ts[..|ts| - 1]) + ts[|ts| - 1].unit.nalu.GetSize()
  }

  // ---- The samples of a fragment

  function SampleOf(t: Taken): Sample {
    Sample(t.unit.nalu.GetSize(), 0, t.pts - t.dts, if t.unit.key then 2 else 1, if t.unit.key then 0 else 1)
  }

  /** A sample lasts until the next one. */
  function SamplesOf(ts: seq<Taken>): (r: seq<Sample>)
    ensures |r| == |ts|
  {
    if ts == [] then []
    else
      var n := |ts| - 1;
      var before := SamplesOf(ts[..n]);
      (if n == 0 then before
       else before[n - 1 := before[n - 1].(duration := ts[n].dts - ts[n - 1].dts)]) + [SampleOf(ts[n])]
  }

  function DurationSum(ss: seq<Sample>): int {
    if ss == [] then 0 else DurationSum(ss[..|ss| - 1]) + ss[|ss| - 1].duration
  }

  function SampleSizeSum(ss: seq<Sample>): int {
    if ss == [] then 0 else SampleSizeSum(ss[..|ss| - 1]) + ss[|ss| - 1].size
  }

  lemma {:induction false} SamplesAt(ts: seq<Taken>, i: nat)
    requires i < |ts|
    ensures SamplesOf(ts)[i]
         == SampleOf(ts[i]).(duration := if i + 1 < |ts| then ts[i + 1].dts - ts[i].dts else 0)
    decreases |ts|
  {
    if i >= |ts| - 1 {
    } else {
      SamplesAt(ts[..|ts| - 1], i);
    }
  }

  /** All durations but the last add up to the time from first to last. */
  lemma {:induction false} DurationsAdd(ts: seq<Taken>, n: nat)
    requires 0 < n <= |ts|
    ensures DurationSum(SamplesOf(ts)[..n - 1]) == ts[n - 1].dts - ts[0].dts
  {
    if n <= 1 {
    } else {
      DurationsAdd(ts, n - 1);
      SamplesAt(ts, n - 2);
      assert SamplesOf(ts)[..n - 1][..n - 2] == SamplesOf(ts)[..n - 2];
    }
  }

  lemma DataSize(n: Nalu)
    ensures |n.GetData()| == n.GetSize()
  {
  }

  lemma {:induction false} UnitsAre(ts: seq<Taken>)
    ensures |Units(ts)| == |ts| && |Concat(Units(ts))| == TakenSize(ts)
    ensures forall i :: 0 <= i < |ts| ==> Units(ts)[i] == ts[i].unit.nalu.GetData()
  {
    hide Nalu.GetData, Nalu.GetSize;
    if ts == [] {
    } else {
      var n := |ts| - 1;
      UnitsAre(ts[..n]);
      assert Units(ts)[..n] == Units(ts[..n]);
      DataSize(ts[n].unit.nalu);
    }
  }

  lemma SomeBytes(ts: seq<Taken>)
    requires ts != []
    ensures TakenSize(ts) > 0
  {
  }

  lemma {:induction false} UnitSizeAt(ts: seq<Taken>, i: nat)
    requires i < |ts|
    ensures |Units(ts)| == |ts| && |Units(ts)[i]| == ts[i].unit.nalu.GetSize() <= TakenSize(ts)
  {
    UnitsAre(ts);
    ConcatLength(Units(ts), i + 1);
  }

  /** The sizes of the samples are those of the units. */
  lemma {:induction false} SizesMatch(ts: seq<Taken>, ss: seq<Sample>)
    requires |ss| == |ts| && forall i :: 0 <= i < |ts| ==> ss[i].size == ts[i].unit.nalu.GetSize()
    requires TakenSize(ts) < 0x1_0000_0000
    ensures SizesAre(ss, Units(ts))
  {
    UnitsAre(ts);
    forall i | 0 <= i < |ts| ensures ss[i].size == |Units(ts)[i]| && |Units(ts)[i]| < 0x1_0000_0000 {
      UnitSizeAt(ts, i);
    }
  }

  // ---- Averages and the next expected time

  /** The last hundred durations. */
  function PushDuration(ds: seq<int>, d: int): seq<int> {
    if |ds| + 1 > 100 then ds[1..] + [d] else ds + [d]
  }

  function DurationsAfter(ds: seq<int>, ts: seq<Taken>): seq<int> {
    if |ts| <= 1 then ds
    else PushDuration(DurationsAfter(ds, ts[..|ts| - 1]), ts[|ts| - 1].dts - ts[|ts| - 2].dts)
  }

  function TotalInt32(ds: seq<int>): int {
    if ds == [] then 0 else ToInt32(TotalInt32(ds[..|ds| - 1])) + ToInt32(ds[|ds| - 1])
  }

  function Truncated(a: int, b: int): int
    requires b > 0
  {
    if a >= 0 then a / b else -((-a) / b)
  }

  function Average(ds: seq<int>): int {
    ToInt32(Truncated(TotalInt32(ds), if ds == [] then 1 else |ds|))
  }

  /** The times between neighbouring samples. */
  ghost function Gaps(ts: seq<Taken>): (r: seq<int>)
    ensures |r| == if ts == [] then 0 else |ts| - 1
  {
    if |ts| <= 1 then [] else seq(|ts| - 1, i requires 0 <= i < |ts| - 1 => ts[i + 1].dts - ts[i].dts)
  }

  ghost function Recent(all: seq<int>): seq<int> {
    if |all| <= 100 then all else all[|all| - 100..]
  }

  /** The last hundred durations are kept. */
  lemma {:induction false} LastHundred(ds: seq<int>, ts: seq<Taken>)
    requires |ds| <= 100
    ensures DurationsAfter(ds, ts) == Recent(ds + Gaps(ts)) && |DurationsAfter(ds, ts)| <= 100
  {
    if |ts| <= 1 {
      assert ds + Gaps(ts) == ds;
    } else {
      var n := |ts| - 1;
      var d := ts[n].dts - ts[n - 1].dts;
      hide DurationsAfter, Gaps, PushDuration, Recent;
      LastHundred(ds, ts[..n]);
      GapsStep(ts);
      assert ds + Gaps(ts) == ds + Gaps(ts[..n]) + [d];
      DurationsStep(ds, ts);
      LastOneMore(ds + Gaps(ts[..n]), d);
    }
  }

  lemma GapsStep(ts: seq<Taken>)
    requires |ts| >= 2
    ensures Gaps(ts) == Gaps(ts[..|ts| - 1]) + [ts[|ts| - 1].dts - ts[|ts| - 2].dts]
  {
  }

  lemma DurationsStep(ds: seq<int>, ts: seq<Taken>)
    requires |ts| >= 2
    ensures DurationsAfter(ds, ts)
         == PushDuration(DurationsAfter(ds, ts[..|ts| - 1]), ts[|ts| - 1].dts - ts[|ts| - 2].dts)
  {
    hide PushDuration;
  }

  lemma LastOneMore(all: seq<int>, d: int)
    ensures PushDuration(Recent(all), d) == Recent(all + [d]) && |Recent(all + [d])| <= 100
  {
  }

  ghost function Total(ds: seq<int>): int {
    if ds == [] then 0 else ds[0] + Total(ds[1..])
  }

  lemma {:induction false} TotalLast(ds: seq<int>)
    requires ds != []
    ensures Total(ds) == Total(ds[..|ds| - 1]) + ds[|ds| - 1]
  {
    if |ds| > 1 {
      TotalLast(ds[1..]);
      assert ds[1..][..|ds| - 2] == ds[..|ds| - 1][1..];
    } else {
      assert ds[1..] == [] && ds[..0] == [];
    }
  }

  lemma {:induction false} TotalIsInt32(ds: seq<int>)
    requires (forall i :: 0 <= i < |ds| ==> ds[i] >= 0) && Total(ds) < 0x8000_0000
    ensures TotalInt32(ds) == Total(ds) >= 0
  {
    if ds == [] {
    } else {
      var front := ds[..|ds| - 1];
      TotalLast(ds);
      TotalNatural(front);
      TotalIsInt32(front);
    }
  }

  lemma {:induction false} TotalNatural(ds: seq<int>)
    requires forall i :: 0 <= i < |ds| ==> ds[i] >= 0
    ensures Total(ds) >= 0
  {
    if ds == [] {
    } else {
      TotalNatural(ds[1..]);
    }
  }

  /** The average is the mean, rounded down, while the total has 31 bits; of no
      durations it is 0. */
  lemma AverageIsMean(ds: seq<int>)
    requires (forall i :: 0 <= i < |ds| ==> ds[i] >= 0) && Total(ds) < 0x8000_0000
    ensures |ds| * Average(ds) <= Total(ds)
    ensures ds != [] ==> Total(ds) < |ds| * (Average(ds) + 1)
    ensures ds == [] ==> Average(ds) == 0
  {
    TotalIsInt32(ds);
    var n := if ds == [] then 1 else |ds|;
    MeanBounds(Total(ds), n);
  }

  lemma MeanBounds(t: int, n: int)
    requires n > 0 && 0 <= t < 0x8000_0000
    ensures 0 <= t / n <= t && n * (t / n) <= t < n * (t / n + 1)
  {
    Quotient(t, n, t / n, t % n);
  }

  lemma Quotient(t: int, n: int, q: int, r: int)
    requires n > 0 && t >= 0 && t == n * q + r && 0 <= r < n
    ensures 0 <= q <= t && n * q <= t < n * (q + 1)
  {
    MulAtLeast(n, q);
    if q > 0 { MulAtLeast(q, n); }
    assert n * (q + 1) == n * q + n;
  }

  /** The decoding time of the sample that was looked at last, taken or not. */
  function LastDts(q: seq<Queued>, next: Option<int>, init: int): int
    requires q != []
  {
    var x := q[|q| - 1];
    var t := Next(x, Plan(q[..|q| - 1], next, init), next, init);
    if t.Some? then t.value.dts else Min(x.pts - init, x.dts - init)
  }

  /** The next fragment is never expected too late: the time it is reckoned
      from is that of the last sample taken, or that of a skipped one before it. */
  lemma LastDtsNeverLate(q: seq<Queued>, next: Option<int>, init: int)
    requires q != [] && Plan(q, next, init) != []
    ensures
      var ts, front := Plan(q, next, init), Plan(q[..|q| - 1], next, init);
      var due := Min(q[|q| - 1].pts - init, q[|q| - 1].dts - init);
      && LastDts(q, next, init) <= ts[|ts| - 1].dts
      && (LastDts(q, next, init) == ts[|ts| - 1].dts <==> front == [] || front[|front| - 1].dts <= due)
      && (LastDts(q, next, init) < ts[|ts| - 1].dts ==> LastDts(q, next, init) == due && ts == front)
  {
  }

  predicate NearNext(x: Queued, next: int, init: int) {
    IsNear(x.dts - init - next)
  }

  /** When the last sample is too early, so are all: the first one that is near
      is moved to the expected time, and the others behind it are skipped. */
  lemma {:induction false} AllEarly(q: seq<Queued>, next: int, init: int)
    requires q != [] && InOrder(q) && Sane(q) && q[|q| - 1].dts - init < next && next != 0
    ensures var ts := Plan(q, Some(next), init);
            if NearNext(q[|q| - 1], next, init) then |ts| == 1 && ts[0].dts == next else ts == []
  {
    var front, x := q[..|q| - 1], q[|q| - 1];
    assert x in q;
    if front == [] {
      assert Plan(front, Some(next), init) == [];
    } else {
      assert front[|front| - 1].dts <= x.dts;
      assert forall y :: y in front ==> y in q;
      AllEarly(front, next, init);
    }
  }

  lemma {:induction false} LastTakenTime(q: seq<Queued>, next: Option<int>, init: int)
    requires q != [] && InOrder(q) && Sane(q)
    ensures var ts, due := Plan(q, next, init), q[|q| - 1].dts - init;
            ts != [] ==> ts[|ts| - 1].dts <= if Truthy(next) then Max(next.value, due) else due
  {
    var front, x := q[..|q| - 1], q[|q| - 1];
    assert x in q;
    if front == [] {
      assert Plan(front, next, init) == [];
    } else {
      assert front[|front| - 1].dts <= x.dts;
      assert forall y :: y in front ==> y in q;
      LastTakenTime(front, next, init);
    }
  }

  /** The last sample comes in front of the expected time, and the one before it
      is near that time. */
  predicate LastBehind(q: seq<Queued>, next: Option<int>, init: int) {
    |q| >= 2 && Truthy(next) && q[|q| - 1].dts - init < next.value && NearNext(q[|q| - 2], next.value, init)
  }

  /** For a queue as sorted, the fragments join up unless the last sample is
      behind. Then just one sample is taken, at the expected time, and the next
      one is expected too early by what the last one was too early. */
  lemma LastDtsJoins(q: seq<Queued>, next: Option<int>, init: int)
    requires q != [] && InOrder(q) && Sane(q)
    ensures var ts := Plan(q, next, init);
            && (ts != [] ==> (LastDts(q, next, init) == ts[|ts| - 1].dts <==> !LastBehind(q, next, init)))
            && (LastBehind(q, next, init) ==>
                  |ts| == 1 && ts[0].dts == next.value &&
                  ts[0].dts - LastDts(q, next, init) == next.value - (q[|q| - 1].dts - init) > 0)
  {
    hide Plan, LastDts, InOrder;
    var front, x := q[..|q| - 1], q[|q| - 1];
    assert x in q;
    if Plan(q, next, init) != [] { LastDtsNeverLate(q, next, init); }
    if front == [] {
      NoPlan(next, init);
    } else {
      FrontInOrder(q);
      LastTakenTime(front, next, init);
      if Truthy(next) && x.dts - init < next.value {
        AllEarly(front, next.value, init);
        AllEarly(q, next.value, init);
      }
    }
  }

  lemma NoPlan(next: Option<int>, init: int)
    ensures Plan([], next, init) == []
  {
  }

  /** Two samples half a second early: the second is skipped, and the fragment
      after them is expected 42000 ticks too early. */
  lemma LastSkipped(u: Unit)
    ensures var q, next := [Queued(u, 45000, 45000), Queued(u, 48000, 48000)], Some(90000);
            Plan(q, next, 0) == [Taken(u, 90000, 90000)] && LastDts(q, next, 0) == 48000
  {
    var q, next := [Queued(u, 45000, 45000), Queued(u, 48000, 48000)], Some(90000);
    assert q[..1] == [q[0]] && q[..1][..0] == [];
    assert Plan([], next, 0) == [];
    assert Plan(q[..1], next, 0) == [Taken(u, 90000, 90000)];
  }

  /** The samples of a fragment with the last duration filled in, and the first
      one marked as a place to start if need be. */
  function Finished(ss: seq<Sample>, lastDuration: int, mark: bool): (r: seq<Sample>)
    requires ss != []
    ensures |r| == |ss| && forall i :: 0 <= i < |ss| ==> r[i].size == ss[i].size && r[i].cts == ss[i].cts
    ensures forall i :: 0 <= i < |ss| - 1 ==> r[i].duration == ss[i].duration
    ensures r[|ss| - 1].duration == lastDuration
  {
    var timed := ss[|ss| - 1 := ss[|ss| - 1].(duration := lastDuration)];
    if mark then timed[0 := timed[0].(dependsOn := 2, isNonSync := 0)] else timed
  }

  lemma SumsOfNone()
    ensures SampleSizeSum([]) == 0 && SizeOfAll([]) == 0
  {
  }

  lemma {:induction false} SampleSizes(ts: seq<Taken>, ss: seq<Sample>)
    requires |ss| == |ts| && forall i :: 0 <= i < |ts| ==> ss[i].size == ts[i].unit.nalu.GetSize()
    ensures SampleSizeSum(ss) == TakenSize(ts)
    decreases |ts|
  {
    if ts == [] {
    } else {
      SampleSizes(ts[..|ts| - 1], ss[..|ss| - 1]);
    }
  }

  lemma {:induction false} SamplesSized(ts: seq<Taken>)
    ensures forall i :: 0 <= i < |ts| ==> SamplesOf(ts)[i].size == ts[i].unit.nalu.GetSize()
  {
    forall i | 0 <= i < |ts| ensures SamplesOf(ts)[i].size == ts[i].unit.nalu.GetSize() {
      SamplesAt(ts, i);
    }
  }

  lemma NoUnitsSize()
    ensures SizeOfUnits([]) == 0
  {
  }

  lemma OneMoreUnit(us: seq<Unit>, u: Unit)
    ensures SizeOfUnits(us + [u]) == SizeOfUnits(us) + u.nalu.GetSize()
  {
    assert (us + [u])[..|us|] == us;
  }

  // ---- The remuxer

  class H264Remuxer {
    const chrome: bool
    var readyToDecode: bool
    var initialized: bool
    var samples: seq<Queued>
    var gop: seq<Unit>
    var lastGopDts: int
    var initDts: int
    var firstDts: int
    var nextDts: Option<int>
    var lastDurations: seq<int>
    var lastSampleDuration: int
    var seqNumber: nat
    var trackLen: int
    var trackSamples: seq<Sample>

    /** The length of the track is the size of what is queued and what is out. */
    ghost predicate Valid()
      reads this
    {
      trackLen == SizeOfAll(samples) + SampleSizeSum(trackSamples) && |lastDurations| <= 100
    }

    constructor (chrome: bool)
      ensures Valid() && samples == [] && gop == [] && trackSamples == [] && nextDts == None && seqNumber == 1
    {
      this.chrome := chrome;
      readyToDecode, initialized, samples, gop, lastGopDts := false, false, [], [], -99999999999999;
      initDts, firstDts, nextDts, lastDurations, lastSampleDuration := 0, 0, None, [], 0;
      seqNumber, trackLen, trackSamples := 1, 0, [];
    }

    /** Keeps the units of one picture together until the next picture starts;
        keep says whether the parser wants the unit. No byte gets lost. */
    method Remux(unit: Unit, keep: bool)
      requires Valid()
      modifies this`samples, this`gop, this`lastGopDts, this`trackLen
      ensures Valid()
      ensures SizeOfAll(samples) + SizeOfUnits(gop)
           == old(SizeOfAll(samples) + SizeOfUnits(gop)) + if keep then unit.nalu.GetSize() else 0
      ensures gop == (if old(lastGopDts) < unit.nalu.dts then [] else old(gop)) + if keep then [unit] else []
      ensures old(lastGopDts) < unit.nalu.dts ==>
                samples == old(samples) + QueuedOf(Merged(SortUnits(old(gop)))) && lastGopDts == unit.nalu.dts
      ensures old(lastGopDts) >= unit.nalu.dts ==> samples == old(samples) && lastGopDts == old(lastGopDts)
    {
      hide SizeOfAll, SizeOfUnits, SortUnits, QueuedOf, Merged, SampleSizeSum;
      if lastGopDts < unit.nalu.dts {
        SortSizes(gop, []);
        MergedSize(SortUnits(gop));
        gop := Merged(SortUnits(gop));
        QueueAll();
        gop := [];
        lastGopDts := unit.nalu.dts;
        NoUnitsSize();
      }
      if keep {
        OneMoreUnit(gop, unit);
        gop := gop + [unit];
      }
    }

    method QueueAll()
      requires Valid()
      modifies this`samples, this`trackLen
      ensures Valid() && samples == old(samples) + QueuedOf(gop)
      ensures SizeOfAll(samples) == old(SizeOfAll(samples)) + SizeOfUnits(gop)
    {
      for i := 0 to |gop|
        invariant samples == old(samples) + QueuedOf(gop[..i])
        invariant trackLen == old(trackLen) + SizeOfUnits(gop[..i])
        invariant SizeOfAll(samples) == old(SizeOfAll(samples)) + SizeOfUnits(gop[..i])
      {
        var x := Queued(gop[i], gop[i].nalu.pts, gop[i].nalu.dts);
        assert gop[..i + 1][..i] == gop[..i];
        assert (samples + [x])[..|samples|] == samples;
        samples := samples + [x];
        trackLen := trackLen + gop[i].nalu.GetSize();
      }
      assert gop[..|gop|] == gop;
    }

    method Init(initDts0: Option<int>)
      requires samples != []
      modifies this`initDts, this`initialized
      ensures initialized && initDts <= samples[0].dts && (initDts0.Some? ==> initDts <= initDts0.value)
      ensures initDts == samples[0].dts || Some(initDts) == initDts0
    {
      initDts := if initDts0.Some? then Min(initDts0.value, samples[0].dts) else samples[0].dts;
      initialized := true;
    }

    /** After its samples were handed over. */
    method Flush()
      requires samples == [] && |lastDurations| <= 100
      modifies this`seqNumber, this`trackLen, this`trackSamples
      ensures Valid() && trackSamples == [] && seqNumber == old(seqNumber) + 1
    {
      seqNumber := seqNumber + 1;
      trackLen := 0;
      trackSamples := [];
    }

    /** The times of the sample behind those in done, if it is taken. */
    method Place(x: Queued, lastDts: Option<int>, ghost done: seq<Taken>) returns (t: Option<Taken>, dts: int)
      requires trackSamples == SamplesOf(done)
      requires lastDts == if done == [] then None else Some(done[|done| - 1].dts)
      modifies this`trackLen, this`lastDurations, this`firstDts, this`trackSamples
      ensures t == Next(x, done, nextDts, initDts) && (t.Some? ==> t.value.unit == x.unit)
      ensures dts == if t.Some? then t.value.dts else Min(x.pts - initDts, x.dts - initDts)
      ensures trackLen == old(trackLen) - if t.None? then x.unit.nalu.GetSize() else 0
      ensures firstDts == if t.Some? && done == [] then Max(0, dts) else old(firstDts)
      ensures t.None? ==> trackSamples == old(trackSamples) && lastDurations == old(lastDurations)
      ensures t.Some? ==> trackSamples + [SampleOf(t.value)] == SamplesOf(done + [t.value])
      ensures t.Some? ==> lastDurations == if done == [] then old(lastDurations)
                                           else PushDuration(old(lastDurations), dts - lastDts.value)
    {
      var pts := x.pts - initDts;
      dts := Min(pts, x.dts - initDts);
      if lastDts.Some? {
        var sampleDuration := dts - lastDts.value;
        if sampleDuration < 0 {
          trackLen := trackLen - x.unit.nalu.GetSize();
          return None, dts;
        }
        lastDurations := lastDurations + [sampleDuration];
        if |lastDurations| > 100 {
          assert lastDurations[1..] == PushDuration(old(lastDurations), sampleDuration);
          lastDurations := lastDurations[1..];
        }
        var n := |trackSamples| - 1;
        trackSamples := trackSamples[n := trackSamples[n].(duration := sampleDuration)];
      } else {
        if nextDts.Some? && nextDts.value != 0 {
          var delta := dts - nextDts.value;
          if IsNear(delta) {
            if delta != 0 {
              dts := nextDts.value;
              pts := Max(pts - delta, dts);
            }
          } else if delta < 0 {
            trackLen := trackLen - x.unit.nalu.GetSize();
            return None, dts;
          }
        }
        firstDts := Max(0, dts);
      }
      t := Some(Taken(x.unit, pts, dts));
      assert (done + [t.value])[..|done|] == done;
    }

    /** The loop over the queue, which fills the payload and the samples. */
    method TakeAll(payload: array<byte>, ghost q: seq<Queued>) returns (ghost ts: seq<Taken>, dts: int)
      requires samples == q != [] && trackSamples == [] && trackLen == payload.Length == SizeOfAll(q)
      requires |lastDurations| <= 100
      modifies payload, this`samples, this`trackLen, this`lastDurations, this`firstDts, this`trackSamples
      ensures ts == Plan(q, nextDts, initDts) && dts == LastDts(q, nextDts, initDts)
      ensures samples == [] && trackLen == TakenSize(ts) <= payload.Length && trackSamples == SamplesOf(ts)
      ensures payload[..trackLen] == Concat(Units(ts))
      ensures lastDurations == DurationsAfter(old(lastDurations), ts) && |lastDurations| <= 100
      ensures firstDts == if ts == [] then old(firstDts) else Max(0, ts[0].dts)
    {
      hide Plan, Next, SizeOfAll, TakenSize, Units, SamplesOf, DurationsAfter, SampleOf, LastDts, Concat;
      hide PushDuration, Min, Max;
      ghost var i := 0;
      var offset := 0;
      var lastDts: Option<int> := None;
      ts, dts := [], 0;
      Beginnings(q, nextDts, initDts, lastDurations);
      while samples != []
        invariant 0 <= i <= |q| && samples == q[i..] && ts == Plan(q[..i], nextDts, initDts)
        invariant lastDts == if ts == [] then None else Some(ts[|ts| - 1].dts)
        invariant trackLen == SizeOfAll(samples) + TakenSize(ts) <= payload.Length && offset == TakenSize(ts)
        invariant payload[..offset] == Concat(Units(ts))
        invariant trackSamples == SamplesOf(ts)
        invariant lastDurations == DurationsAfter(old(lastDurations), ts)
        invariant firstDts == if ts == [] then old(firstDts) else Max(0, ts[0].dts)
        invariant i > 0 ==> dts == LastDts(q[..i], nextDts, initDts)
        decreases |samples|
      {
        var sample := samples[0];
        SizeOfAllHead(samples);
        PlanStep(q, i, nextDts, initDts);
        samples := samples[1..];
        var t;
        t, dts := Place(sample, lastDts, ts);
        i := i + 1;
        if t.Some? {
          var unit := sample.unit.nalu;
          TakenStep(ts, t.value, old(lastDurations));
          trackSamples := trackSamples + [SampleOf(t.value)];
          Copy(payload, offset, unit.GetData());
          offset := offset + unit.GetSize();
          ts := ts + [t.value];
          lastDts := Some(dts);
        }
      }
      assert q[..i] == q;
      LastHundred(old(lastDurations), ts);
    }

    /** The payload of a fragment: the queued units in order of time, one behind
        the other, except those that are skipped. Its samples have the units'
        sizes, and all durations but the last are the times between them. */
    method GetPayload() returns (r: Option<seq<byte>>)
      requires Valid() && trackSamples == []
      modifies this
      ensures Valid()
      ensures !(readyToDecode && initialized && old(samples) != []) ==> r == None && unchanged(this)
      ensures readyToDecode && initialized && old(samples) != [] ==>
                && Handed(SortQueued(old(samples)), old(nextDts), old(firstDts), r)
                && Reckoned(SortQueued(old(samples)), old(nextDts), old(lastDurations), old(lastSampleDuration))
      ensures readyToDecode == old(readyToDecode) && initialized == old(initialized) && initDts == old(initDts)
      ensures gop == old(gop) && lastGopDts == old(lastGopDts) && seqNumber == old(seqNumber)
    {
      hide DurationsAfter, Plan, LastDts, SizeOfAll, TakenSize, SamplesOf, Average, SortQueued, Concat, Units, SampleSizeSum, Finished;
      if !readyToDecode || !initialized || samples == [] { return None; }
      SortSizes([], samples);
      SumsOfNone();
      samples := SortQueued(samples);
      var payload := new byte[trackLen](_ => 0);
      ghost var ts;
      var dts;
      ts, dts := TakeAll(payload, samples);
      SamplesSized(ts);
      if trackSamples == [] {
        SampleSizes(ts, []);
        return None;
      }
      FinishSamples(dts);
      SampleSizes(ts, trackSamples);
      return Some(payload[..trackLen]);
    }

    /** One turn of the player's only caller: what is queued becomes a fragment,
        and the track is ready for the next one. */
    method Feed(id: int) returns (r: Option<seq<byte>>)
      requires Valid() && trackSamples == []
      modifies this
      ensures Valid() && trackSamples == []
      ensures !(readyToDecode && initialized && old(samples) != []) ==> r == None && unchanged(this)
      ensures readyToDecode && initialized && old(samples) != [] ==>
                var ts := Plan(SortQueued(old(samples)), old(nextDts), initDts);
                && samples == [] && seqNumber == old(seqNumber) + (if ts == [] then 0 else 1)
                && r == (if ts == [] then None else Some(FragmentOf(ts, old(nextDts), old(seqNumber), id)))
                && Reckoned(SortQueued(old(samples)), old(nextDts), old(lastDurations), old(lastSampleDuration))
    {
      hide DurationsAfter, Average, Plan, SizeOfAll, SortQueued, Concat, Units, SampleSizeSum, Finished, SamplesOf, Fragment, LastDts;
      hide TakenSize, Truthy;
      ghost var q, next := SortQueued(samples), nextDts;
      var pay := GetPayload();
      if pay.Some? {
        UnitsAre(Plan(q, next, initDts));
        SomeBytes(Plan(q, next, initDts));
        if |pay.value| > 0 {
          r := Some(Fragment(seqNumber, id, trackSamples, firstDts, pay.value));
          Flush();
          return;
        }
      }
      r := None;
    }

    /** The fragment of these samples, with the durations and times reckoned for it. */
    ghost function FragmentOf(ts: seq<Taken>, next: Option<int>, sn: int, id: int): seq<byte>
      requires ts != []
      reads this
    {
      Fragment(sn, id, Finished(SamplesOf(ts), lastSampleDuration, !Truthy(next) || chrome), Max(0, ts[0].dts),
               Concat(Units(ts)))
    }

    /** What GetPayload leaves behind, for the queue in order. */
    ghost predicate Handed(q: seq<Queued>, next: Option<int>, first: int, r: Option<seq<byte>>)
      requires q != []
      reads this
    {
      var ts := Plan(q, next, initDts);
      && samples == [] && trackLen == TakenSize(ts)
      && (ts == [] ==> r == None && trackSamples == [] && firstDts == first)
      && (ts != [] ==>
            && r == Some(Concat(Units(ts))) && firstDts == Max(0, ts[0].dts)
            && trackSamples == Finished(SamplesOf(ts), lastSampleDuration, !Truthy(next) || chrome))
    }

    /** The durations and times it has reckoned. The last sample lasts as long as
        one on average, and a single one as long as the last one before. */
    ghost predicate Reckoned(q: seq<Queued>, next: Option<int>, durations: seq<int>, lastDuration: int)
      requires q != []
      reads this
    {
      var ts := Plan(q, next, initDts);
      && lastDurations == DurationsAfter(durations, ts)
      && lastSampleDuration == (if |ts| >= 2 then Average(lastDurations) else lastDuration)
      && nextDts == if ts == [] then next else Some(LastDts(q, next, initDts) + lastSampleDuration)
    }

    method FinishSamples(dts: int)
      requires trackSamples != []
      modifies this`trackSamples, this`lastSampleDuration, this`nextDts
      ensures lastSampleDuration == if |trackSamples| >= 2 then Average(lastDurations) else old(lastSampleDuration)
      ensures trackSamples == Finished(old(trackSamples), lastSampleDuration, !Truthy(old(nextDts)) || chrome)
      ensures nextDts == Some(dts + lastSampleDuration)
    {
      var avgDuration := Average(lastDurations);
      var n := |trackSamples| - 1;
      if |trackSamples| >= 2 {
        lastSampleDuration := avgDuration;
        trackSamples := trackSamples[n := trackSamples[n].(duration := avgDuration)];
      } else {
        trackSamples := trackSamples[n := trackSamples[n].(duration := lastSampleDuration)];
      }
      if !(nextDts.Some? && nextDts.value != 0) || chrome {
        trackSamples := trackSamples[0 := trackSamples[0].(dependsOn := 2, isNonSync := 0)];
      }
      nextDts := Some(dts + lastSampleDuration);
    }
  }

  // ---- Proof steps of the loops

  lemma {:induction false} Beginnings(q: seq<Queued>, next: Option<int>, init: int, ds: seq<int>)
    ensures q[..0] == [] && Plan(q[..0], next, init) == [] && q[0..] == q
    ensures TakenSize([]) == 0 && Concat(Units([])) == [] && SamplesOf([]) == [] && DurationsAfter(ds, []) == ds
    ensures SizeOfAll([]) == 0
  {
  }

  lemma {:induction false} PlanStep(q: seq<Queued>, i: nat, next: Option<int>, init: int)
    requires i < |q|
    ensures
      var done := Plan(q[..i], next, init);
      var t := Next(q[i], done, next, init);
      && Plan(q[..i + 1], next, init) == (if t.Some? then done + [t.value] else done)
      && LastDts(q[..i + 1], next, init) == if t.Some? then t.value.dts else Min(q[i].pts - init, q[i].dts - init)
  {
    assert q[..i + 1][..i] == q[..i];
  }

  lemma {:induction false} TakenStep(ts: seq<Taken>, t: Taken, ds: seq<int>)
    ensures TakenSize(ts + [t]) == TakenSize(ts) + t.unit.nalu.GetSize()
    ensures Concat(Units(ts + [t])) == Concat(Units(ts)) + t.unit.nalu.GetData()
    ensures |t.unit.nalu.GetData()| == t.unit.nalu.GetSize()
    ensures DurationsAfter(ds, ts + [t])
         == if ts == [] then ds else PushDuration(DurationsAfter(ds, ts), t.dts - ts[|ts| - 1].dts)
  {
    hide Nalu.GetData, Nalu.GetSize, PushDuration;
    DataSize(t.unit.nalu);
    assert (ts + [t])[..|ts|] == ts;
    ConcatStep(Units(ts), t.unit.nalu.GetData());
  }

  lemma {:induction false} SameDurations(a: seq<Sample>, b: seq<Sample>)
    requires |a| == |b| && forall i :: 0 <= i < |a| ==> a[i].duration == b[i].duration
    ensures DurationSum(a) == DurationSum(b)
    decreases |a|
  {
    if a == [] {
    } else {
      SameDurations(a[..|a| - 1], b[..|b| - 1]);
    }
  }

  /** The samples that GetPayload hands over with its payload describe it: their
      sizes add up to its length, all durations but the last add up to the time
      from the first to the last, and no sample is shown before it is decoded. */
  lemma {:induction false} SamplesDescribe(ts: seq<Taken>, lastDuration: int, mark: bool)
    requires ts != [] && Forward(ts)
    ensures
      var ss := Finished(SamplesOf(ts), lastDuration, mark);
      && SampleSizeSum(ss) == |Concat(Units(ts))|
      && DurationSum(ss[..|ss| - 1]) == ts[|ts| - 1].dts - ts[0].dts
      && forall i :: 0 <= i < |ss| ==> ss[i].cts == ts[i].pts - ts[i].dts && ts[i].pts - ts[i].dts >= 0
    ensures forall i :: 0 <= i < |ts| - 1 ==>
              Finished(SamplesOf(ts), lastDuration, mark)[i].duration == ts[i + 1].dts - ts[i].dts >= 0
  {
    hide Finished, SampleSizeSum, TakenSize, Concat, Units, SamplesOf, DurationSum;
    var ss := Finished(SamplesOf(ts), lastDuration, mark);
    SamplesSized(ts);
    SampleSizes(ts, ss);
    UnitsAre(ts);
    DurationsAdd(ts, |ts|);
    SameDurations(ss[..|ss| - 1], SamplesOf(ts)[..|ts| - 1]);
    forall i | 0 <= i < |ts|
      ensures SamplesOf(ts)[i] == SampleOf(ts[i]).(duration := if i + 1 < |ts| then ts[i + 1].dts - ts[i].dts else 0)
    {
      SamplesAt(ts, i);
    }
    forall i | 0 <= i < |ss| ensures ss[i].cts == ts[i].pts - ts[i].dts && ts[i].pts - ts[i].dts >= 0 {
      SamplesAt(ts, i);
      assert ss[i].cts == SamplesOf(ts)[i].cts && ts[i].dts <= ts[i].pts;
    }
  }

  /** And it finds the description of each: how long it lasts, its size, how much
      later it is shown, and whether it can be started from. */
  lemma {:induction false} EntriesDescribe(ts: seq<Taken>, lastDuration: int, mark: bool, sn: int, id: int, baseTime: int, i: nat)
    requires i < |ts|
    requires |Fragment(sn, id, Finished(SamplesOf(ts), lastDuration, mark), baseTime, Concat(Units(ts)))| < 0x1_0000_0000
    ensures
      var r := ReadFragment(Fragment(sn, id, Finished(SamplesOf(ts), lastDuration, mark), baseTime, Concat(Units(ts))));
      var start := ts[i].unit.key || (i == 0 && mark);
      && r.Some? && r.value.sn == sn % 0x1_0000_0000 && r.value.id == id % 0x1_0000_0000
      && r.value.baseTime == baseTime % 0x1_0000_0000 && r.value.data == Concat(Units(ts))
      && FullTable(r.value.trun, |ts|) && |r.value.sdtp| == 4 + |ts|
      && EntryIs(r.value.trun, i, if i + 1 < |ts| then ts[i + 1].dts - ts[i].dts else lastDuration,
                 |ts[i].unit.nalu.GetData()|, if start then 2 else 1, if start then 0 else 1, ts[i].pts - ts[i].dts)
      && r.value.sdtp[4 + i] == if start then 32 else 16
  {
    hide TakenSize, Concat, Units, SamplesOf, Fragment, TrunBody, SdtpBody, EntryIs, FullTable, ReadFragment;
    var ss := Finished(SamplesOf(ts), lastDuration, mark);
    SamplesAt(ts, i);
    DataSize(ts[i].unit.nalu);
    FragmentLength(sn, id, ss, baseTime, Concat(Units(ts)));
    FragmentReads(sn, id, ss, baseTime, Concat(Units(ts)));
    TableReads(ss, 84 + |ss|);
    SampleReads(ss, 84 + |ss|, i);
    DependenciesRead(ss, i);
  }

  /** Whoever reads the fragment made from them finds each unit in its place,
      with its length in front. */
  lemma {:induction false} UnitsInPlace(ts: seq<Taken>, lastDuration: int, mark: bool, sn: int, id: int,
                                        baseTime: int, i: nat)
    requires i < |ts|
    requires |Fragment(sn, id, Finished(SamplesOf(ts), lastDuration, mark), baseTime, Concat(Units(ts)))| < 0x1_0000_0000
    ensures
      var ss := Finished(SamplesOf(ts), lastDuration, mark);
      Finds(Fragment(sn, id, ss, baseTime, Concat(Units(ts))), TrunBody(ss, 84 + |ss|), i, ts[i].unit.nalu.GetData())
  {
    hide Finished, TakenSize, Concat, Units, SamplesOf, Fragment, TrunBody, Finds;
    var ss := Finished(SamplesOf(ts), lastDuration, mark);
    SamplesSized(ts);
    UnitsAre(ts);
    FragmentLength(sn, id, ss, baseTime, Concat(Units(ts)));
    SizesMatch(ts, ss);
    SamplesInPlace(sn, id, ss, baseTime, Units(ts), i);
  }
}
