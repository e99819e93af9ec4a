/** The stream itself: packets written, consumers joining, reading and leaving,
    and the stream closing, each as one step. */
module FanoutStream {
  import opened Wrappers
  import opened H264Cache
  import opened Fanout

  datatype Status = StreamOK | StreamClosed | StreamReplaced | StreamNoConsumer

  datatype Error = NoError | ErrStreamClosed | ErrStreamReplaced

  /** The table of status errors has three entries only. */
  function StatusError(status: Status): Result<Error> {
    match status
    case StreamOK => Ok(NoError)
    case StreamClosed => Ok(ErrStreamClosed)
    case StreamReplaced => Ok(ErrStreamReplaced)
    case StreamNoConsumer => Panic
  }

  lemma SnapshotLength(h: seq<Packet>, cacheGop: bool)
    ensures |Snapshot(h, cacheGop)| <= 2 + SinceKey(h)
  {
    hide Last, Pictures, IsKey;
    if KeyAt(h) >= 0 { PicturesLength(h[KeyAt(h)..]); }
  }

  /** The queue after a packet, in terms of the distance to the last keyframe. */
  ghost predicate Fits(n: nat, discarding: bool, w: seq<Packet>) {
    n <= MAX_Q_LEN + if discarding then MaxGap(w) else SinceKey(w)
  }

  lemma FitsStep(n: nat, discarding: bool, w: seq<Packet>, p: Packet, discards: bool)
    requires Fits(n, discarding, w)
    requires discards != discarding ==> IsKey(p)
    requires !discards && IsKey(p) ==> n <= MAX_Q_LEN
    ensures Fits(n + if discards then 0 else 1, discards, w + [p])
  {
    hide IsKey, KeyAt;
    GapStep(w, p);
  }

  /** What a consumer was given so far, and how its queue stands. */
  datatype Feed = Feed(joinedAt: nat, fromCache: bool, snapshot: seq<Packet>, later: seq<Packet>,
                       waiting: nat, discarding: bool)

  ghost function FeedOf(c: Consumption): Feed
    reads c`joinedAt, c`fromCache, c`snapshot, c`later, c`recvQueue, c`discarding
  {
    Feed(c.joinedAt, c.fromCache, c.snapshot, c.later, |c.recvQueue|, c.discarding)
  }

  /** A consumer was sent what the cache held when it joined, and packets
      written since; its queue fits. */
  ghost predicate Linked(f: Feed, w: seq<Packet>, cacheGop: bool) {
    && f.joinedAt + |f.later| <= |w|
    && f.later == w[f.joinedAt..f.joinedAt + |f.later|]
    && f.snapshot == (if f.fromCache then Snapshot(w[..f.joinedAt], cacheGop) else [])
    && f.waiting <= MAX_Q_LEN + MaxGap(w)
  }

  ghost predicate Live(f: Feed, w: seq<Packet>) {
    f.joinedAt + |f.later| == |w| && Fits(f.waiting, f.discarding, w)
  }

  lemma LinkedLater(f: Feed, w: seq<Packet>, cacheGop: bool, p: Packet)
    requires Linked(f, w, cacheGop)
    ensures Linked(f, w + [p], cacheGop)
  {
    hide Snapshot, SinceKey, MaxGap, IsKey;
    GapStep(w, p);
    assert (w + [p])[..f.joinedAt] == w[..f.joinedAt];
  }

  lemma LinkedTook(f: Feed, w: seq<Packet>, cacheGop: bool, p: Packet, discards: bool)
    requires Linked(f, w, cacheGop) && Live(f, w)
    requires discards != f.discarding ==> IsKey(p)
    requires !discards && IsKey(p) ==> f.waiting <= MAX_Q_LEN
    ensures
      var g := f.(later := f.later + [p], waiting := f.waiting + if discards then 0 else 1, discarding := discards);
      Linked(g, w + [p], cacheGop) && Live(g, w + [p])
  {
    hide Snapshot, SinceKey, MaxGap, IsKey;
    GapStep(w, p);
    FitsStep(f.waiting, f.discarding, w, p, discards);
    assert (w + [p])[..f.joinedAt] == w[..f.joinedAt];
  }

  lemma LinkedFirst(f: Feed, w: seq<Packet>, cacheGop: bool)
    requires f.joinedAt == |w| && f.later == [] && !f.discarding && f.waiting == |f.snapshot|
    requires f.snapshot == (if f.fromCache then Snapshot(w, cacheGop) else [])
    ensures Linked(f, w, cacheGop) && Live(f, w)
  {
    hide Snapshot, SinceKey, MaxGap;
    assert w[..|w|] == w;
    SnapshotLength(w, cacheGop);
    SinceGap(w);
  }

  lemma SinceGap(w: seq<Packet>)
    ensures SinceKey(w) <= MaxGap(w)
  {
    if w == [] { assert KeyAt([]) < 0; }
  }

  lemma SnapshotOfNone(cacheGop: bool)
    ensures Snapshot([], cacheGop) == []
  {
  }

  class Stream {
    const cache: Cache
    const consumptions: Consumptions
    var status: Status
    var size: nat
    var seed: nat
    ghost var written: seq<Packet>         // all packets the stream took
    ghost var joins: nat
    ghost var started: set<Consumption>    // all consumers there ever were

    ghost predicate Valid()
      reads this, cache, consumptions, consumptions.m.Values, started
    {
      Shape() && AllLinked() && AllLive() && (joins < MAX_CONSUMER_SEQUENCE ==> Numbered())
    }

    ghost predicate Shape()
      reads this, cache, consumptions, consumptions.m.Values
    {
      && cache.Valid() && consumptions.Valid() && consumptions.m.Values <= started
      && cache.seen == (if status == StreamOK then written else [])
      && status != StreamNoConsumer && seed < MAX_CONSUMER_SEQUENCE
    }

    ghost predicate AllLinked()
      reads this`written, this`started
      reads started`recvQueue, started`discarding, started`inBytes, started`outBytes, started`snapshot, started`later,
            started`kept, started`popped, started`failed, started`finished, started`joinedAt, started`fromCache
    {
      forall c :: c in started ==> c.Valid() && Linked(FeedOf(c), written, cache.cacheGop)
    }

    ghost predicate AllLive()
      reads this`written, consumptions
      reads consumptions.m.Values`joinedAt, consumptions.m.Values`fromCache, consumptions.m.Values`snapshot,
            consumptions.m.Values`later, consumptions.m.Values`recvQueue, consumptions.m.Values`discarding
    {
      forall k :: k in consumptions.m ==> Live(FeedOf(consumptions.m[k]), written)
    }

    /** As long as sequence numbers are not used twice, consumers are counted
        right, and those that left are closed. */
    ghost predicate Numbered()
      reads this`seed, this`joins, this`started, consumptions, started`closed
    {
      && seed == joins && consumptions.count == |consumptions.m|
      && (forall k :: k in consumptions.m ==> Sequence(k) <= joins && Type(k) == 0)
      && (forall c :: c in started && !c.closed ==> c.cid in consumptions.m && consumptions.m[c.cid] == c)
    }

    constructor (cacheGop: bool)
      ensures Valid() && fresh(cache) && fresh(consumptions)
      ensures status == StreamOK && written == [] && started == {} && joins == 0 && cache.cacheGop == cacheGop
    {
      cache := new Cache(cacheGop);
      consumptions := new Consumptions();
      status, size, seed, written, joins, started := StreamOK, 0, 0, [], 0, {};
    }

    /** What a packet does to the consumers, once the queues have it. */
    twostate lemma WriteLinks(p: Packet)
      requires old(AllLinked()) && old(AllLive()) && written == old(written) + [p] && unchanged(this`started)
      requires consumptions.Valid() && unchanged(consumptions) && consumptions.m.Values <= old(started)
      requires forall k :: k in consumptions.m ==> k in old(consumptions.m) && consumptions.m[k].Took(p)
      requires forall c :: c in started && c !in consumptions.m.Values ==> unchanged(c)
      ensures AllLinked() && AllLive()
    {
      hide Linked, Live, Consumption.Valid, IsKey;
      forall c | c in started
        ensures c.Valid() && Linked(FeedOf(c), written, cache.cacheGop)
        ensures c in consumptions.m.Values ==> Live(FeedOf(c), written)
      {
        if c in consumptions.m.Values {
          assert c.Took(p);
          ghost var f := old(FeedOf(c));
          LinkedTook(f, old(written), cache.cacheGop, p, c.discarding);
          assert FeedOf(c) == f.(later := f.later + [p], discarding := c.discarding,
                                  waiting := f.waiting + if c.discarding then 0 else 1);
        } else {
          assert FeedOf(c) == old(FeedOf(c));
          LinkedLater(FeedOf(c), old(written), cache.cacheGop, p);
        }
      }
    }

    twostate lemma WriteNumbers(p: Packet)
      requires old(Numbered()) && unchanged(this`seed, this`joins, this`started, consumptions)
      requires consumptions.m.Values <= old(started)
      requires forall k :: k in consumptions.m ==> k in old(consumptions.m) && consumptions.m[k].Took(p)
      requires forall c :: c in started && c !in consumptions.m.Values ==> unchanged(c)
      ensures Numbered()
    {
    }

    twostate lemma WriteKeeps(p: Packet)
      requires old(AllLinked()) && old(AllLive()) && (joins < MAX_CONSUMER_SEQUENCE ==> old(Numbered()))
      requires written == old(written) + [p] && unchanged(this`started, this`seed, this`joins)
      requires consumptions.Valid() && unchanged(consumptions) && consumptions.m.Values <= old(started)
      requires forall k :: k in consumptions.m ==> k in old(consumptions.m) && consumptions.m[k].Took(p)
      requires forall c :: c in started && c !in consumptions.m.Values ==> unchanged(c)
      ensures AllLinked() && AllLive() && (joins < MAX_CONSUMER_SEQUENCE ==> Numbered())
    {
      hide AllLinked, AllLive, Numbered, Consumption.Valid;
      WriteLinks(p);
      if joins < MAX_CONSUMER_SEQUENCE { WriteNumbers(p); }
    }

    method WriteRtpPacket(packet: Packet) returns (r: Result<Error>)
      requires Valid()
      modifies this`size, this`written, cache, consumptions.m.Values
      ensures Valid()
      ensures status == StreamClosed ==> r == Ok(ErrStreamClosed)
      ensures status == StreamReplaced ==> r == Ok(ErrStreamReplaced)
      ensures status == StreamOK ==> r == if Kind(packet).Ok? then Ok(NoError) else Panic
      ensures r == Ok(NoError) ==> written == old(written) + [packet]
      ensures r == Ok(NoError) ==> forall k :: k in consumptions.m ==> consumptions.m[k].Took(packet)
      ensures r != Ok(NoError) ==> written == old(written)
      ensures size == old(size) + if status == StreamOK then packet.Size() else 0
    {
      hide AllLinked, AllLive, Numbered, Consumption.Valid, Cache.Valid, IsKey, Kind;
      if status != StreamOK { return StatusError(status); }
      size := size + packet.Size();
      var keyframe := cache.CachePack(packet);
      if keyframe.Panic? { return Panic; }
      consumptions.SendToAll(packet, keyframe.value);
      written := written + [packet];
      WriteKeeps(packet);
      return Ok(NoError);
    }

    /** A stream that is closed once stays as it is. */
    method Close(status0: Status)
      requires Valid()
      modifies this`status, cache, consumptions, consumptions.m.Values`closed
      ensures Valid()
      ensures old(status) == StreamOK ==>
                status == (if status0 == StreamReplaced then StreamReplaced else StreamClosed)
      ensures old(status) == StreamOK ==> consumptions.m == map[] && consumptions.count == 0
      ensures old(status) == StreamOK && joins < MAX_CONSUMER_SEQUENCE ==> forall c :: c in started ==> c.closed
      ensures old(status) != StreamOK ==>
                unchanged(this) && unchanged(cache) && unchanged(consumptions) && unchanged(consumptions.m.Values)
    {
      hide AllLinked, AllLive, Numbered, Consumption.Valid, Cache.Valid;
      if status != StreamOK { return; }
      status := if status0 != StreamReplaced then StreamClosed else status0;
      consumptions.RemoveAndCloseAll();
      cache.Reset();
      NobodyLive();
      if joins < MAX_CONSUMER_SEQUENCE { CloseNumbers(); }
    }

    lemma NobodyLive()
      requires consumptions.m == map[]
      ensures AllLive()
    {
    }

    lemma Numbers()
      requires Numbered()
      ensures seed == joins && forall k :: k in consumptions.m ==> Sequence(k) <= joins
    {
    }

    lemma StartedValid(c: Consumption)
      requires AllLinked() && c in started
      ensures c.Valid()
    {
    }

    twostate lemma CloseNumbers()
      requires old(Numbered()) && unchanged(this`seed, this`joins, this`started)
      requires old(consumptions.m.Values) <= started && consumptions.m == map[] && consumptions.count == 0
      requires forall k :: k in old(consumptions.m) ==> old(consumptions.m)[k].closed
      requires forall x :: x in started && old(x.closed) ==> x.closed
      ensures Numbered() && forall c :: c in started ==> c.closed
    {
    }

    /** Joining is possible at any time; the status of the stream is not looked at. */
    method StartConsume(useGopCache: bool) returns (cid: CID, ghost c: Consumption)
      requires Valid()
      modifies this`seed, this`joins, this`started, consumptions
      ensures Valid() && fresh(c) && started == old(started) + {c} && joins == old(joins) + 1
      ensures c.cid == cid && consumptions.m == old(consumptions.m)[cid := c]
      ensures c.joinedAt == |written| && c.later == c.popped == [] && !c.finished && !c.closed
      ensures c.fromCache == (useGopCache && status == StreamOK)
      ensures consumptions.count == old(consumptions.count) + 1
      ensures joins < MAX_CONSUMER_SEQUENCE ==> cid !in old(consumptions.m)
    {
      hide AllLinked, AllLive, Numbered, Consumption.Valid, Snapshot, Cache.Valid, Linked, Live;
      var c0: Consumption;
      if joins < MAX_CONSUMER_SEQUENCE { Numbers(); }
      cid, seed, c0 := Joining(useGopCache);
      consumptions.Add(c0);
      joins, started := joins + 1, started + {c0};
      LinkedFirst(FeedOf(c0), written, cache.cacheGop);
      JoinKeeps(c0);
      if joins < MAX_CONSUMER_SEQUENCE { JoinNumbers(c0); }
      c := c0;
    }

    twostate lemma JoinKeeps(new c: Consumption)
      requires old(AllLinked()) && old(AllLive()) && unchanged(this`written) && started == old(started) + {c}
      requires old(consumptions.m.Values) <= old(started) && consumptions.m == old(consumptions.m)[c.cid := c]
      requires c.Valid() && Linked(FeedOf(c), written, cache.cacheGop) && Live(FeedOf(c), written)
      requires forall x :: x in old(started) ==> unchanged(x)
      ensures AllLinked() && AllLive()
    {
      hide Consumption.Valid, Linked, Live;
      forall x | x in old(started) ensures x.Valid() && Linked(FeedOf(x), written, cache.cacheGop) {
        assert old(x.Valid() && Linked(FeedOf(x), written, cache.cacheGop)) && unchanged(x);
      }
      forall k | k in consumptions.m ensures Live(FeedOf(consumptions.m[k]), written) {
        if k != c.cid {
          assert consumptions.m[k] == old(consumptions.m)[k] && consumptions.m[k] in old(started);
          assert old(Live(FeedOf(consumptions.m[k]), written));
        }
      }
    }

    twostate lemma JoinNumbers(new c: Consumption)
      requires old(Numbered()) && joins == seed == old(joins) + 1 && started == old(started) + {c}
      requires old(consumptions.m.Values) <= old(started) && consumptions.m == old(consumptions.m)[c.cid := c]
      requires consumptions.count == old(consumptions.count) + 1
      requires c.cid !in old(consumptions.m) && Sequence(c.cid) == joins && Type(c.cid) == 0
      requires forall x :: x in old(started) ==> unchanged(x)
      ensures Numbered()
    {
    }

    twostate lemma LeaveLives()
      requires old(AllLive()) && unchanged(this`written) && old(consumptions.m.Values) <= old(started)
      requires forall k :: k in consumptions.m ==> k in old(consumptions.m) && old(consumptions.m)[k] == consumptions.m[k]
      requires forall x :: x in old(started) ==> FeedOf(x) == old(FeedOf(x))
      ensures AllLive()
    {
      hide Live;
    }

    twostate lemma LeaveNumbers(cid: CID)
      requires old(Numbered()) && unchanged(this`seed, this`joins, this`started)
      requires old(consumptions.m.Values) <= started && consumptions.m == old(consumptions.m) - {cid}
      requires consumptions.count == old(consumptions.count) - if cid in old(consumptions.m) then 1 else 0
      requires cid in old(consumptions.m) ==> old(consumptions.m)[cid].closed
      requires forall x :: x in started && old(x.closed) ==> x.closed
      ensures Numbered()
    {
      if cid in old(consumptions.m) {
        assert old(consumptions.m).Keys == consumptions.m.Keys + {cid};
      } else {
        assert old(consumptions.m) == consumptions.m;
      }
    }

    /** A consumer that has the cached packets, if it wants them. */
    method Joining(useGopCache: bool) returns (cid: CID, seed': nat, c: Consumption)
      requires Valid()
      ensures 1 <= seed' < MAX_CONSUMER_SEQUENCE && Sequence(cid) == seed' && Type(cid) == 0
      ensures seed + 1 < MAX_CONSUMER_SEQUENCE ==> seed' == seed + 1
      ensures fresh(c) && c.cid == cid && c.Valid() && !c.closed && !c.finished && c.popped == []
      ensures FeedOf(c).joinedAt == |written| && FeedOf(c).later == [] && !FeedOf(c).discarding
      ensures FeedOf(c).fromCache == (useGopCache && status == StreamOK) && FeedOf(c).waiting == |FeedOf(c).snapshot|
      ensures FeedOf(c).snapshot == (if FeedOf(c).fromCache then Snapshot(written, cache.cacheGop) else [])
    {
      hide AllLinked, AllLive, Numbered, Consumption.Valid, Snapshot;
      cid, seed' := NewCID(RTPPacket, seed);
      c := new Consumption(cid);
      SnapshotOfNone(cache.cacheGop);
      if useGopCache {
        var _ := c.SendGop(cache);
      }
      c.joinedAt, c.fromCache := |written|, useGopCache && status == StreamOK;
    }

    method StopConsume(cid: CID)
      requires Valid()
      modifies consumptions, consumptions.m.Values`closed
      ensures Valid() && consumptions.m == old(consumptions.m) - {cid}
      ensures cid in old(consumptions.m) ==> old(consumptions.m)[cid].closed
      ensures cid !in old(consumptions.m) ==> unchanged(consumptions)
    {
      hide AllLinked, AllLive, Numbered, Consumption.Valid, Cache.Valid, Consumptions.Valid;
      var c := consumptions.Remove(cid);
      if c.None? {
        assert consumptions.m == old(consumptions.m);
        return;
      }
      c.value.Close();
      assert AllLinked();
      LeaveLives();
      if joins < MAX_CONSUMER_SEQUENCE { LeaveNumbers(cid); }
    }

    /** One turn of a consumer's routine: it waits, or hands over the next
        packet, or ends, which it does when it finds the consumer closed or the
        consumer panics. */
    method ConsumeTurn(c: Consumption, fails: bool)
      requires Valid() && c in started && !c.finished
      modifies consumptions, c, consumptions.m.Values`closed
      ensures Valid()
      ensures !old(c.closed) && old(c.recvQueue) == [] ==> unchanged(c) && unchanged(consumptions)
      ensures !old(c.closed) && old(c.recvQueue) != [] ==> c.popped == old(c.popped) + [old(c.recvQueue)[0]]
      ensures !old(c.closed) && !fails ==> !c.finished && unchanged(consumptions)
      ensures old(c.closed) || (fails && old(c.recvQueue) != []) ==> c.finished && c.cid !in consumptions.m
    {
      hide AllLinked, AllLive, Numbered, Consumption.Valid, Cache.Valid;
      if !c.closed {
        if c.recvQueue == [] { return; }
        PopPacket(c, fails);
        if !fails { return; }
      }
      StopConsume(c.cid);
      FinishRoutine(c);
    }

    method PopPacket(c: Consumption, fails: bool)
      requires Valid() && c in started && !c.finished && c.recvQueue != []
      modifies c`recvQueue, c`popped, c`outBytes, c`failed
      ensures Valid() && c.popped == old(c.popped) + [old(c.recvQueue)[0]]
    {
      hide AllLinked, AllLive, Numbered, Consumption.Valid, Cache.Valid, MaxGap;
      StartedValid(c);
      var _ := c.Pop(fails);
      Shrinks(c);
    }

    method FinishRoutine(c: Consumption)
      requires Valid() && c in started && c.cid !in consumptions.m
      modifies c`recvQueue, c`finished
      ensures Valid() && c.finished
    {
      hide AllLinked, AllLive, Numbered, Consumption.Valid, Cache.Valid;
      StartedValid(c);
      c.Finish();
      Shrinks(c);
    }

    twostate lemma Shrinks(c: Consumption)
      requires old(AllLinked()) && old(AllLive()) && c in started && old(consumptions.m.Values) <= started
      requires unchanged(this`written, this`started, consumptions) && c.Valid() && |c.recvQueue| <= old(|c.recvQueue|)
      requires unchanged(c`joinedAt, c`fromCache, c`snapshot, c`later, c`discarding)
      requires forall x :: x in started && x != c ==> unchanged(x)
      ensures AllLinked() && AllLive()
    {
      hide Consumption.Valid, Snapshot, SinceKey, MaxGap;
      assert Linked(FeedOf(c), written, cache.cacheGop) && (old(Live(FeedOf(c), written)) ==> Live(FeedOf(c), written));
      forall x | x in started && x != c ensures FeedOf(x) == old(FeedOf(x)) && x.Valid() {
      }
    }
  }

  /** Every consumer of an open stream that is still reading was sent the cache
      contents of the moment it joined, followed by all packets since except for
      runs that each begin at a keyframe and end just before one, or now; what
      it has not read yet is queued, in order. */
  lemma WholeGopsOnly(s: Stream, c: Consumption)
    requires s.Valid() && c in s.consumptions.m.Values
    ensures c.joinedAt <= |s.written| && WholeGops(s.written[c.joinedAt..], c.kept)
    ensures
      c.popped + c.recvQueue
      == (if c.fromCache then Snapshot(s.written[..c.joinedAt], s.cache.cacheGop) else [])
         + Kept(s.written[c.joinedAt..], c.kept)
  {
    hide Snapshot, MaxGap, SinceKey, IsKey, WholeGops, Kept, Stream.Numbered, Cache.Valid;
    assert Linked(FeedOf(c), s.written, s.cache.cacheGop) && Live(FeedOf(c), s.written) && c.Valid() && !c.finished;
    assert s.written[c.joinedAt..|s.written|] == s.written[c.joinedAt..];
  }

  /** The count is the number of consumers, as long as no identifier was given
      out twice. */
  lemma CountIsRight(s: Stream)
    requires s.Valid() && s.joins < MAX_CONSUMER_SEQUENCE
    ensures s.consumptions.count == |s.consumptions.m|
  {
  }

  /** A consumer that left, or whose routine ended, read a prefix of that. */
  lemma PrefixRead(s: Stream, c: Consumption)
    requires s.Valid() && c in s.started
    ensures c.joinedAt + |c.later| <= |s.written|
    ensures
      var w := s.written[c.joinedAt..c.joinedAt + |c.later|];
      && WholeGops(w, c.kept)
      && c.popped <= (if c.fromCache then Snapshot(s.written[..c.joinedAt], s.cache.cacheGop) else []) + Kept(w, c.kept)
  {
    hide Snapshot, MaxGap, SinceKey, IsKey, WholeGops, Kept, Stream.Numbered, Cache.Valid;
    assert Linked(FeedOf(c), s.written, s.cache.cacheGop) && c.Valid();
  }

  /** When of any g packets in a row one is a keyframe, no queue is ever longer
      than the limit and g, however slowly it is read. */
  lemma QueueBound(s: Stream, c: Consumption, g: nat)
    requires s.Valid() && c in s.started && Spaced(s.written, g)
    ensures |c.recvQueue| <= MAX_Q_LEN + g
  {
    SpacedGap(s.written, g);
    assert Linked(FeedOf(c), s.written, s.cache.cacheGop);
  }
}
