/** One stream feeding many consumers: each consumer's queue starts or stops
    dropping only at a keyframe. */
module Fanout {
  import opened Wrappers
  import opened H264Cache

  const MAX_Q_LEN := 1000
  const MAX_CONSUMER_SEQUENCE := 0x3fff_ffff

  // ---- Consumer identifiers

  datatype PacketType = RTPPacket | FLVPacket {
    function Number(): nat {
      if RTPPacket? then 0 else 1
    }
  }

  /** A 2-bit type in front of a 30-bit sequence number. */
  type CID = c: nat | c < 0x1_0000_0000

  function Type(id: CID): nat {
    id / 0x4000_0000 % 4
  }

  function Sequence(id: CID): nat {
    id % 0x4000_0000
  }

  method NewCID(packetType: PacketType, seed0: nat) returns (id: CID, seed: nat)
    requires seed0 < MAX_CONSUMER_SEQUENCE
    ensures Type(id) == packetType.Number() && Sequence(id) == seed
    ensures 1 <= seed < MAX_CONSUMER_SEQUENCE
    ensures seed == if seed0 + 1 < 0x3fff_ffff then seed0 + 1 else 1
    ensures id == seed + if packetType == RTPPacket then 0 else 0x4000_0000
  {
    seed := (seed0 + 1) % 0x1_0000_0000;
    var localid := seed;
    if localid >= MAX_CONSUMER_SEQUENCE {
      localid := 1;
      seed := localid;
    }
    id := packetType.Number() * 0x4000_0000 + localid % 0x4000_0000;
  }

  // ---- Runs of packets

  /** The packets of w that were kept. */
  ghost function Kept(w: seq<Packet>, kept: seq<bool>): seq<Packet>
    requires |kept| == |w|
  {
    if w == [] then []
    else Kept(w[..|w| - 1], kept[..|w| - 1]) + if kept[|w| - 1] then [w[|w| - 1]] else []
  }

  /** What was dropped is made of runs that each begin at a keyframe and end
      just before one, or at the end. */
  ghost predicate WholeGops(w: seq<Packet>, kept: seq<bool>) {
    && |kept| == |w|
    && forall i :: 0 <= i < |w| && !IsKey(w[i]) ==> kept[i] == (i == 0 || kept[i - 1])
  }

  lemma KeptStep(w: seq<Packet>, kept: seq<bool>, p: Packet, keep: bool)
    requires |kept| == |w|
    ensures Kept(w + [p], kept + [keep]) == Kept(w, kept) + if keep then [p] else []
  {
    assert (w + [p])[..|w|] == w && (kept + [keep])[..|w|] == kept;
  }

  lemma SameLength(w: seq<Packet>, kept: seq<bool>)
    requires WholeGops(w, kept)
    ensures |kept| == |w|
  {
  }

  lemma WholeGopsStep(w: seq<Packet>, kept: seq<bool>, p: Packet, keep: bool)
    requires WholeGops(w, kept)
    requires IsKey(p) || keep == (kept == [] || kept[|kept| - 1])
    ensures WholeGops(w + [p], kept + [keep])
  {
    forall i | 0 <= i < |w + [p]| && !IsKey((w + [p])[i])
      ensures (kept + [keep])[i] == (i == 0 || (kept + [keep])[i - 1])
    {
      if i < |w| { assert !IsKey(w[i]) && kept[i] == (i == 0 || kept[i - 1]); }
    }
  }

  /** The packets from a keyframe up to the next one share one fate, and all
      packets in front of the first keyframe are kept. */
  lemma {:induction false} OneFate(w: seq<Packet>, kept: seq<bool>, i: int, j: nat)
    requires WholeGops(w, kept) && -1 <= i <= j < |w|
    requires forall k :: i < k <= j ==> !IsKey(w[k])
    ensures kept[j] == (i < 0 || kept[i])
    decreases j
  {
    hide IsKey;
    if i >= j {
    } else {
      assert !IsKey(w[j]);
      assert kept[j] == (j == 0 || kept[j - 1]);
      if j == 0 {
      } else {
        OneFate(w, kept, i, j - 1);
      }
    }
  }

  /** How many packets there are from the last keyframe on, or in all. */
  ghost function SinceKey(w: seq<Packet>): nat {
    if KeyAt(w) < 0 then |w| else |w| - KeyAt(w)
  }

  /** The longest distance between neighbouring keyframes, the start and the
      end counting as keyframes. */
  ghost function MaxGap(w: seq<Packet>): nat {
    if w == [] then 0
    else if SinceKey(w) >= MaxGap(w[..|w| - 1]) then SinceKey(w)
    else MaxGap(w[..|w| - 1])
  }

  lemma GapStep(w: seq<Packet>, p: Packet)
    ensures SinceKey(w + [p]) == if IsKey(p) then 1 else SinceKey(w) + 1
    ensures MaxGap(w) <= MaxGap(w + [p]) && SinceKey(w + [p]) <= MaxGap(w + [p])
  {
    hide IsKey;
    KeyStep(w, p);
    assert (w + [p])[..|w|] == w;
  }

  /** Of any g packets in a row behind a first one, one is a keyframe. */
  ghost predicate Spaced(w: seq<Packet>, g: nat) {
    forall i :: 0 <= i && i + g < |w| ==> KeyWithin(w, i, g)
  }

  ghost predicate KeyWithin(w: seq<Packet>, i: nat, g: nat)
    requires i + g < |w|
  {
    exists k :: i < k <= i + g && IsKey(w[k])
  }

  lemma {:induction false} SpacedGap(w: seq<Packet>, g: nat)
    requires Spaced(w, g)
    ensures MaxGap(w) <= g
  {
    hide IsKey;
    if w == [] {
    } else {
      var v := w[..|w| - 1];
      forall i | 0 <= i && i + g < |v| ensures KeyWithin(v, i, g) {
        assert KeyWithin(w, i, g);
        var k :| i < k <= i + g && IsKey(w[k]);
        assert v[k] == w[k];
      }
      SpacedGap(v, g);
      var i := if KeyAt(w) < 0 then 0 else KeyAt(w);
      if i + g < |w| {
        assert KeyWithin(w, i, g);
        var k :| i < k <= i + g && IsKey(w[k]);
        KeyAtLast(w, k);
      }
    }
  }

  // ---- One consumer

  class Consumption {
    const cid: CID
    var recvQueue: seq<Packet>
    var closed: bool
    var discarding: bool
    var inBytes: nat
    var outBytes: nat
    ghost var snapshot: seq<Packet>   // sent when it joined
    ghost var later: seq<Packet>      // written to the stream since
    ghost var kept: seq<bool>         // which of those were not dropped
    ghost var popped: seq<Packet>
    ghost var joinedAt: nat           // how many packets the stream had then
    ghost var fromCache: bool         // whether it was given the cache then
    ghost var failed: bool            // the consumer panicked on the last one popped
    ghost var finished: bool          // its routine has ended

    /** All packets that were sent to this consumer. */
    ghost function Sent(): seq<Packet>
      requires |kept| == |later|
      reads this`snapshot, this`later, this`kept
    {
      snapshot + Kept(later, kept)
    }

    ghost predicate Valid()
      reads this`recvQueue, this`discarding, this`inBytes, this`outBytes, this`snapshot, this`later, this`kept,
            this`popped, this`failed, this`finished
    {
      && WholeGops(later, kept)
      && discarding == (kept != [] && !kept[|kept| - 1])
      && inBytes == TotalSize(Sent())
      && (!failed ==> outBytes == TotalSize(popped))
      && (if finished then recvQueue == [] && popped <= Sent() else popped + recvQueue == Sent())
    }

    /** The consumer was sent the packet, or dropped it. */
    twostate predicate Took(pack: Packet)
      reads this
    {
      && later == old(later) + [pack] && kept == old(kept) + [!discarding]
      && recvQueue == old(recvQueue) + (if discarding then [] else [pack])
      && (!IsKey(pack) ==> discarding == old(discarding))
      && (IsKey(pack) ==> (discarding <==> |old(recvQueue)| >= if old(discarding) then 1000 else 1001))
      && unchanged(this`snapshot, this`popped, this`closed, this`finished, this`failed, this`joinedAt, this`fromCache)
    }

    constructor (cid: CID)
      ensures Valid() && this.cid == cid && recvQueue == snapshot == later == popped == []
      ensures !closed && !discarding && !finished && joinedAt == 0 && !fromCache
    {
      this.cid := cid;
      recvQueue, closed, discarding, inBytes, outBytes := [], false, false, 0, 0;
      snapshot, later, kept, popped := [], [], [], [];
      joinedAt, fromCache, failed, finished := 0, false, false, false;
      new;
      assert Kept([], []) == [] && TotalSize([]) == 0;
    }

    method Close()
      requires Valid()
      modifies this`closed
      ensures Valid() && closed
    {
      if closed { return; }
      closed := true;
    }

    /** Dropping starts at a keyframe that finds too long a queue, and ends at
        one that finds a short queue. */
    method Switch(keyframe: bool)
      modifies this`discarding
      ensures discarding == if !keyframe then old(discarding)
                            else |recvQueue| >= if old(discarding) then MAX_Q_LEN else MAX_Q_LEN + 1
    {
      if keyframe {
        var n := |recvQueue|;
        if discarding && n < MAX_Q_LEN {
          discarding := false;
        } else if !discarding && n > MAX_Q_LEN {
          discarding := true;
        }
      }
    }

    method Send(pack: Packet, keyframe: bool)
      requires Valid() && !finished && keyframe == IsKey(pack)
      modifies this
      ensures Valid() && Took(pack)
    {
      hide IsKey, TotalSize, Kept, WholeGops;
      Switch(keyframe);
      SameLength(later, kept);
      WholeGopsStep(later, kept, pack, !discarding);
      KeptStep(later, kept, pack, !discarding);
      ghost var before := Sent();
      later, kept := later + [pack], kept + [!discarding];
      if !discarding {
        recvQueue := recvQueue + [pack];
        inBytes := inBytes + pack.Size();
        TotalSizeStep(before, pack);
        assert Sent() == before + [pack];
        assert popped + recvQueue == Sent();
      } else {
        assert Sent() == before;
      }
    }

    method SendGop(cache: Cache) returns (bytes: nat)
      requires Valid() && cache.Valid() && recvQueue == snapshot == later == popped == [] && !finished
      modifies this`recvQueue, this`inBytes, this`snapshot
      ensures Valid() && recvQueue == snapshot == Snapshot(cache.seen, cache.cacheGop)
      ensures bytes == TotalSize(snapshot)
    {
      hide Snapshot, TotalSize;
      assert Kept([], []) == [];
      assert Sent() == [];
      TotalSizeNone();
      recvQueue, bytes := cache.PushTo(recvQueue);
      assert recvQueue == Snapshot(cache.seen, cache.cacheGop);
      snapshot := recvQueue;
      assert Sent() == snapshot;
      assert popped + recvQueue == Sent();
      inBytes := inBytes + bytes;
      assert Sent() == snapshot;
    }

    /** One turn of the consumer's routine on a waiting packet; fails says
        whether the consumer panics on it. */
    method Pop(fails: bool) returns (pack: Packet)
      requires Valid() && !finished && recvQueue != []
      modifies this`recvQueue, this`popped, this`outBytes, this`failed
      ensures Valid()
      ensures pack == old(recvQueue[0]) && recvQueue == old(recvQueue[1..]) && popped == old(popped) + [pack]
    {
      hide TotalSize, WholeGops, Kept;
      pack := recvQueue[0];
      assert popped + recvQueue == (popped + [pack]) + recvQueue[1..];
      recvQueue := recvQueue[1..];
      TotalSizeStep(popped, pack);
      popped := popped + [pack];
      if fails {
        failed := true;
      } else {
        outBytes := outBytes + pack.Size();
      }
    }

    /** The end of the consumer's routine. */
    method Finish()
      requires Valid()
      modifies this`recvQueue, this`finished
      ensures Valid() && finished
    {
      recvQueue, finished := [], true;
    }
  }

  // ---- All consumers of a stream

  class Consumptions {
    var m: map<CID, Consumption>
    var count: int

    ghost predicate Valid()
      reads this, m.Values
    {
      forall k :: k in m ==> m[k].cid == k && m[k].Valid() && !m[k].closed && !m[k].finished
    }

    constructor ()
      ensures m == map[] && count == 0
    {
      m, count := map[], 0;
    }

    method SendToAll(p: Packet, keyframe: bool)
      requires Valid() && keyframe == IsKey(p)
      modifies m.Values
      ensures Valid() && forall k :: k in m ==> m[k].Took(p)
    {
      hide IsKey, Consumption.Valid;
      var todo := m.Keys;
      while todo != {}
        invariant todo <= m.Keys && Valid()
        invariant forall k :: k in m && k !in todo ==> m[k].Took(p)
        invariant forall k :: k in todo ==> unchanged(m[k])
      {
        var k :| k in todo;
        m[k].Send(p, keyframe);
        todo := todo - {k};
      }
    }

    method RemoveAndCloseAll()
      requires Valid()
      modifies this, m.Values`closed
      ensures m == map[] && count == 0
      ensures forall k :: k in old(m) ==> old(m)[k].closed && old(m)[k].Valid()
    {
      hide Consumption.Valid;
      ghost var all := m;
      while m != map[]
        modifies this`m, all.Values`closed
        invariant m.Keys <= all.Keys
        invariant forall k :: k in m ==> m[k] == all[k]
        invariant forall k :: k in all && k !in m ==> all[k].closed
        decreases |m|
      {
        var k :| k in m;
        var c := m[k];
        assert c.Valid();
        m := m - {k};
        c.Close();
      }
      count := 0;
    }

    /** A consumer with an identifier in use takes the place of the other one,
        and the count is one too high from then on. */
    method Add(c: Consumption)
      requires Valid() && c.Valid() && !c.closed && !c.finished
      modifies this
      ensures Valid() && m == old(m)[c.cid := c] && count == old(count) + 1
    {
      hide Consumption.Valid;
      m := m[c.cid := c];
      count := count + 1;
    }

    method Remove(cid: CID) returns (c: Option<Consumption>)
      requires Valid()
      modifies this
      ensures Valid() && m == old(m) - {cid}
      ensures c == if cid in old(m) then Some(old(m)[cid]) else None
      ensures count == old(count) - if cid in old(m) then 1 else 0
      ensures cid !in old(m) ==> unchanged(this)
      ensures c.Some? ==> c.value.Valid() && c.value !in m.Values
    {
      if cid in m {
        c := Some(m[cid]);
        m := m - {cid};
        count := count - 1;
      } else {
        c := None;
      }
    }
  }
}
