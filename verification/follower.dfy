/** A replica that catches up by a snapshot.  It draws new ids for the waiting messages, so it hands out the
    tags of the replica the snapshot came from only as far as it happens to draw the same ids. */
module Follower {
  import opened Bytes
  import opened Results
  import opened OrderedTree
  import opened Messages
  import opened Engine
  import opened WellFormed
  import opened Snapshots
  import opened RestoredManager
  import opened Restarts
  import opened StateMachine

  // ----- The tags of a batch -----

  /** Two runs of entries with the same messages are delivered alike exactly when they have the same ids. */
  lemma {:induction false} DeliveriesAgreeIff(a: Tree<Message>, b: Tree<Message>)
    requires Values(a) == Values(b)
    ensures Deliveries(a) == Deliveries(b) <==> WaitingIds(a) == WaitingIds(b)
    decreases |a|
  {
    hide KeyId, Deliveries, WaitingIds, Values;
    PeelEntries(a);
    PeelEntries(b);
    if a != [] {
      SameHeadSameTail(a[0].val, Values(a[1..]), b[0].val, Values(b[1..]));
      DeliveriesAgreeIff(a[1..], b[1..]);
      SameHeadSameTail(KeyId(a[0].key), WaitingIds(a[1..]), KeyId(b[0].key), WaitingIds(b[1..]));
      SameHeadSameTail((KeyId(a[0].key), a[0].val), Deliveries(a[1..]),
                       (KeyId(b[0].key), b[0].val), Deliveries(b[1..]));
    }
  }

  lemma PeelEntries(t: Tree<Message>)
    ensures t == [] ==> Values(t) == [] && Deliveries(t) == [] && WaitingIds(t) == []
    ensures t != [] ==>
              && Values(t) == [t[0].val] + Values(t[1..])
              && Deliveries(t) == [(KeyId(t[0].key), t[0].val)] + Deliveries(t[1..])
              && WaitingIds(t) == [KeyId(t[0].key)] + WaitingIds(t[1..])
  {
    hide KeyId;
  }

  lemma SameHeadSameTail<T>(x: T, xs: seq<T>, y: T, ys: seq<T>)
    ensures [x] + xs == [y] + ys <==> x == y && xs == ys
  {
    assert ([x] + xs)[0] == x && ([y] + ys)[0] == y;
    assert ([x] + xs)[1..] == xs && ([y] + ys)[1..] == ys;
  }

  /** The queue after a batch of consumes. */
  lemma {:induction false} ConsumeUpToDrains(s: Manager, q: Name, n: nat)
    requires q in s.queues && n <= |s.queues[q].main|
    ensures ConsumeUpTo(s, q, n).0.queues == s.queues[q := Drained(s.queues[q], n)]
    decreases n
  {
    hide Consume, TakeFirst, Drained;
    if n == 0 {
      DrainNone(s.queues[q]);
    } else {
      ConsumeTakes(s, q);
      ConsumeUpToDrains(Consume(s, q).0, q, n - 1);
      DrainFirst(s.queues[q], n);
    }
  }

  lemma DrainNone(q: QueueState)
    ensures Drained(q, 0) == q
  {
  }

  lemma ConsumeTakes(s: Manager, q: Name)
    requires q in s.queues && s.queues[q].main != []
    ensures Consume(s, q).0.queues == s.queues[q := TakeFirst(s.queues[q])]
    ensures Consume(s, q).1.Ok? && Consume(s, q).1.value.Some?
             && |TakeFirst(s.queues[q]).main| == |s.queues[q].main| - 1
  {
  }

  lemma {:induction false} DrainFirst(q: QueueState, n: nat)
    requires 0 < n <= |q.main|
    ensures |TakeFirst(q).main| >= n - 1 && Drained(q, n) == Drained(TakeFirst(q), n - 1)
    decreases n
  {
    hide Insert, KeyId;
    if n > 1 { DrainFirst(q, n - 1); }
  }

  lemma BatchAnswer(s: Manager, q: Name, n: nat, clock: Clock, gen: nat -> u64)
    requires q in s.queues
    ensures ApplyOp(s, ConsumeBatchOp(q, n), clock, gen).1 ==
            ConsumeBatchResp(Ok(Deliveries(s.queues[q].main[..AtMost(n, |s.queues[q].main|)])))
  {
    hide ConsumeUpTo, Deliveries;
    ConsumeBatchTakesTheFront(s, q, n);
  }

  lemma PrefixValues(t: Tree<Message>, k: nat)
    requires k <= |t|
    ensures Values(t[..k]) == Values(t)[..k] && WaitingIds(t[..k]) == WaitingIds(t)[..k]
  {
    hide KeyId;
  }

  /** For every batch size, leader and follower give the same answer to a batch of consumes exactly when the
      ids drawn for the messages it delivers are the ids they have at the leader. */
  lemma FollowerAgreesIff(s: Manager, t: Manager, draws: map<Name, Draws>, high: nat, q: Name, n: nat,
                          clock: Clock, gen: nat -> u64)
    requires ManagerOk(s) && t.queues == map[] && q in s.queues
    requires forall n | n in s.queues ::
               n in draws && Fits(ExportQueue(s.queues[n]), draws[n]) && DrawsBetween(draws[n], t.issued, high)
    ensures var f := Restore(t, Export(s), draws, high);
            var k := AtMost(n, |s.queues[q].main|);
            ApplyOp(s, ConsumeBatchOp(q, n), clock, gen).1 == ApplyOp(f, ConsumeBatchOp(q, n), clock, gen).1
            <==> draws[q].main[..k] == WaitingIds(s.queues[q].main)[..k]
  {
    var f := Restore(t, Export(s), draws, high);
    hide ApplyOp, Restore, Export, ManagerOk, WaitingIds, Deliveries, DrawsBetween;
    RestoredWaits(s, t, draws, high, q);
    var a, b := s.queues[q].main, f.queues[q].main;
    var k := AtMost(n, |a|);
    assert |Values(a)| == |Values(b)|;
    BatchAnswer(s, q, n, clock, gen);
    BatchAnswer(f, q, n, clock, gen);
    PrefixValues(a, k);
    PrefixValues(b, k);
    DeliveriesAgreeIff(a[..k], b[..k]);
  }

  // ----- The first tag on which they differ -----

  lemma AckAnswer(s: Manager, q: Name, id: u64, clock: Clock, gen: nat -> u64)
    requires q in s.queues
    ensures ApplyOp(s, AckOp(q, id), clock, gen).1 == AckResp(
              if Get(s.queues[q].inflight, Be64(id)).Some? then Ok(()) else Err(InvalidDeliveryTag(id)))
  {
    hide Get, Be64, Remove;
  }

  lemma DrainedHolds(q: QueueState, issued: nat, i: nat)
    requires QueueOk(q, issued) && i < |q.main|
    ensures Get(Drained(q, i + 1).inflight, Be64(KeyId(q.main[i].key))).Some?
    ensures Get(q.inflight, Be64(KeyId(q.main[i].key))) == None
  {
    DrainedOk(q, issued, i);
    var d := Drained(q, i);
    assert d.main[0] == q.main[i];
    hide KeyId, Be64, Get, Insert, LaneTreeOk, ScheduleOk;
    GetInsert(d.inflight, Be64(KeyId(d.main[0].key)), d.main[0].val, Be64(KeyId(d.main[0].key)));
    IdAbsent(q, issued, i);
  }

  lemma IdAbsent(q: QueueState, issued: nat, i: nat)
    requires QueueOk(q, issued) && i < |q.main|
    ensures Get(q.inflight, Be64(KeyId(q.main[i].key))) == None
  {
    hide KeyId, Be64;
  }

  lemma BatchThenAck(s: Manager, q: Name, n: nat, id: u64, clock: Clock, gen: nat -> u64)
    requires q in s.queues && n <= |s.queues[q].main|
    ensures var s' := ApplyOp(s, ConsumeBatchOp(q, n), clock, gen).0;
            ApplyOp(s', AckOp(q, id), clock, gen).1 == AckResp(
              if Get(Drained(s.queues[q], n).inflight, Be64(id)).Some? then Ok(()) else Err(InvalidDeliveryTag(id)))
  {
    hide Drained, ConsumeUpTo, Get, Be64, Ack;
    ConsumeUpToDrains(s, q, n);
    var s' := ApplyOp(s, ConsumeBatchOp(q, n), clock, gen).0;
    assert s' == ConsumeUpTo(s, q, n).0;
    hide ApplyOp;
    AckAnswer(s', q, id, clock, gen);
  }

  lemma IdNotDrawn(q1: QueueState, issued: nat, q2: QueueState, ids: seq<u64>, i: nat)
    requires QueueOk(q1, issued) && WaitingIds(q2.main) == ids && i < |q1.main| && i < |ids|
    requires ids[..i] == WaitingIds(q1.main)[..i] && ids[i] != KeyId(q1.main[i].key)
    ensures i < |q2.main| && forall k | 0 <= k < i + 1 :: KeyId(q2.main[k].key) != KeyId(q1.main[i].key)
  {
    hide KeyId, TagTreeOk, ScheduleOk, IdsApart;
    forall k | 0 <= k < i + 1
      ensures KeyId(q2.main[k].key) != KeyId(q1.main[i].key)
    {
      assert WaitingIds(q2.main)[k] == ids[k];
      if k < i { assert ids[..i][k] == WaitingIds(q1.main)[..i][k]; }
    }
  }

  /** The acknowledgement of the first delivery on which they differ, which the log carries by the tag of the
      leader, succeeds at the leader and fails at the follower. */
  lemma FollowerRefusesAck(s: Manager, t: Manager, draws: map<Name, Draws>, high: nat, q: Name, i: nat,
                           clock: Clock, gen: nat -> u64)
    requires ManagerOk(s) && t.queues == map[] && q in s.queues && i < |s.queues[q].main|
    requires forall n | n in s.queues ::
               n in draws && Fits(ExportQueue(s.queues[n]), draws[n]) && DrawsBetween(draws[n], t.issued, high)
    requires i < |draws[q].main| && draws[q].main[..i] == WaitingIds(s.queues[q].main)[..i]
    requires draws[q].main[i] != KeyId(s.queues[q].main[i].key)
    ensures var f, id := Restore(t, Export(s), draws, high), KeyId(s.queues[q].main[i].key);
            var s' := ApplyOp(s, ConsumeBatchOp(q, i + 1), clock, gen).0;
            var f' := ApplyOp(f, ConsumeBatchOp(q, i + 1), clock, gen).0;
            && ApplyOp(s', AckOp(q, id), clock, gen).1 == AckResp(Ok(()))
            && ApplyOp(f', AckOp(q, id), clock, gen).1 == AckResp(Err(InvalidDeliveryTag(id)))
  {
    var f := Restore(t, Export(s), draws, high);
    RestoredWaits(s, t, draws, high, q);
    var q1, q2, id := s.queues[q], f.queues[q], KeyId(s.queues[q].main[i].key);
    assert |Values(q1.main)| == |Values(q2.main)|;
    DrainedHolds(q1, s.issued, i);
    IdNotDrawn(q1, s.issued, q2, draws[q].main, i);
    assert Sorted(q2.inflight);
    hide Restore, Export, ManagerOk, KeyId, Be64, Get, Drained, ApplyOp, Sorted, DrawsBetween;
    DrainedKeeps(q2, i + 1, id);
    BatchThenAck(s, q, i + 1, id, clock, gen);
    BatchThenAck(f, q, i + 1, id, clock, gen);
  }
}
