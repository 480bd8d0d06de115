/** Restoring into a manager that is not empty.  A restore removes nothing first; this is exactly when the
    result is the snapshot all the same. */
module RestoreTarget {
  import opened Bytes
  import opened Results
  import opened OrderedTree
  import opened Messages
  import opened Engine
  import opened Runs
  import opened WellFormed
  import opened Snapshots

  // ----- Lists that are inserted under fresh ids -----

  lemma ListReplacedIff(t: Tree<Message>, low: nat, src: Tree<Message>, issued: nat, ids: seq<u64>)
    requires LaneTreeOk(t, low) && LaneTreeOk(src, issued) && |ids| == |src| && AscendingFrom(ids, low)
    ensures Values(InsertAll(t, Values(src), ids)) == Values(src) <==> t == []
  {
    InsertAllLength(t, low, Values(src), ids);
    assert |Values(InsertAll(t, Values(src), ids))| == |t| + |src|;
    if t == [] { LaneTreeRestored(src, issued, ids, low); }
  }

  lemma {:induction false} ScheduleAllLength(t: Tree<Message>, low: nat, ms: seq<Message>, ids: seq<u64>,
                                             clock: seq<millis>)
    requires ScheduleOk(t, low) && |ids| == |ms| == |clock| && AscendingFrom(ids, low)
    requires forall i | 0 <= i < |ms| :: ms[i].deliverAt.Some? && 0 <= ms[i].deliverAt.value
    ensures |ScheduleAll(t, ms, ids, clock)| == |t| + |ms|
    decreases |ms|
  {
    if ms != [] {
      AscendingTail(ids, low);
      ScheduleInsert(t, low, ms[0], ids[0]);
      hide ScheduleOk, EncodeScheduledKey, AscendingFrom;
      ScheduleAllLength(Insert(t, EncodeScheduledKey(ms[0].deliverAt.value, ids[0]), ms[0]), Bump(low, ids[0]),
                        ms[1..], ids[1..], clock[1..]);
    }
  }

  lemma ScheduleReplacedIff(t: Tree<Message>, low: nat, src: Tree<Message>, issued: nat, ids: seq<u64>,
                            clock: seq<millis>)
    requires ScheduleOk(t, low) && ScheduleOk(src, issued) && |ids| == |src| == |clock| && AscendingFrom(ids, low)
    ensures Values(ScheduleAll(t, Values(src), ids, clock)) == Values(src) <==> t == []
  {
    ScheduleInTime(src, issued);
    ScheduleAllLength(t, low, Values(src), ids, clock);
    assert |Values(ScheduleAll(t, Values(src), ids, clock))| == |t| + |src|;
    if t == [] { ScheduleRestored(src, issued, ids, clock, low); }
  }

  // ----- Deliveries that are written under their tags -----

  lemma {:induction false} PutAllSorted(t: Tree<Message>, ts: seq<(u64, Message)>)
    requires Sorted(t)
    ensures Sorted(PutAll(t, ts))
    decreases |ts|
  {
    hide Sorted, Insert;
    if ts != [] {
      InsertSorted(t, Be64(ts[0].0), ts[0].1);
      PutAllSorted(Insert(t, Be64(ts[0].0), ts[0].1), ts[1..]);
    }
  }

  /** A key that is not among the preserved tags keeps what it had. */
  lemma {:induction false} PutAllMisses(t: Tree<Message>, ts: seq<(u64, Message)>, k: Key)
    requires Sorted(t) && forall j | 0 <= j < |ts| :: Be64(ts[j].0) != k
    ensures Get(PutAll(t, ts), k) == Get(t, k)
    decreases |ts|
  {
    hide Sorted, Insert, Get, Be64;
    if ts != [] {
      InsertSorted(t, Be64(ts[0].0), ts[0].1);
      GetInsert(t, Be64(ts[0].0), ts[0].1, k);
      PutAllMisses(Insert(t, Be64(ts[0].0), ts[0].1), ts[1..], k);
    }
  }

  /** A key among the preserved tags is overwritten, whatever it had. */
  lemma {:induction false} PutAllHits(a: Tree<Message>, b: Tree<Message>, ts: seq<(u64, Message)>, k: Key)
    requires Sorted(a) && Sorted(b) && exists j :: 0 <= j < |ts| && Be64(ts[j].0) == k
    ensures Get(PutAll(a, ts), k) == Get(PutAll(b, ts), k)
    decreases |ts|
  {
    hide Sorted, Insert, Get, Be64;
    var k0, m := Be64(ts[0].0), ts[0].1;
    InsertSorted(a, k0, m);
    InsertSorted(b, k0, m);
    if exists j :: 0 <= j < |ts[1..]| && Be64(ts[1..][j].0) == k {
      PutAllHits(Insert(a, k0, m), Insert(b, k0, m), ts[1..], k);
    } else {
      assert forall j | 1 <= j < |ts| :: ts[j] == ts[1..][j - 1];
      GetInsert(a, k0, m, k);
      GetInsert(b, k0, m, k);
      PutAllMisses(Insert(a, k0, m), ts[1..], k);
      PutAllMisses(Insert(b, k0, m), ts[1..], k);
    }
  }

  /** The preserved tags are the keys of the exported tree. */
  lemma TagKeys(t: Tree<Message>, issued: nat, k: Key)
    requires TagTreeOk(t, issued)
    ensures Has(t, k) <==> exists j :: 0 <= j < |Tagged(t)| && Be64(Tagged(t)[j].0) == k
  {
    forall j | 0 <= j < |t|
      ensures Be64(Tagged(t)[j].0) == t[j].key
    {
      assert TagOk(t[j], issued);
      Be64Surjective(t[j].key);
    }
    hide Be64, Tagged;
    if j :| 0 <= j < |Tagged(t)| && Be64(Tagged(t)[j].0) == k { RankAt(t, j); }
    if Has(t, k) { assert Be64(Tagged(t)[Rank(t, k)].0) == k; }
  }

  ghost predicate TagsCovered(t: Tree<Message>, src: Tree<Message>) {
    forall i | 0 <= i < |t| :: Has(src, t[i].key)
  }

  lemma CoveredGet(t: Tree<Message>, low: nat, src: Tree<Message>, issued: nat, k: Key)
    requires TagTreeOk(t, low) && TagTreeOk(src, issued) && TagsCovered(t, src)
    ensures Get(PutAll(t, Tagged(src)), k) == Get(src, k)
  {
    TagKeys(src, issued, k);
    TagsRestored(src, issued);
    hide Tagged, PutAll, Be64, Sorted, TagOk;
    if Has(src, k) { PutAllHits(t, [], Tagged(src), k); } else { PutAllMisses(t, Tagged(src), k); }
  }

  lemma UncoveredGet(t: Tree<Message>, low: nat, src: Tree<Message>, issued: nat, i: nat)
    requires TagTreeOk(t, low) && TagTreeOk(src, issued) && i < |t| && !Has(src, t[i].key)
    ensures PutAll(t, Tagged(src)) != src
  {
    TagKeys(src, issued, t[i].key);
    RankAt(t, i);
    hide Tagged, PutAll, Be64, Sorted, TagOk;
    PutAllMisses(t, Tagged(src), t[i].key);
  }

  /** Writing the preserved deliveries gives the exported tree exactly when every tag that was there is one of
      them. */
  lemma DeliveriesReplacedIff(t: Tree<Message>, low: nat, src: Tree<Message>, issued: nat)
    requires TagTreeOk(t, low) && TagTreeOk(src, issued)
    ensures PutAll(t, Tagged(src)) == src <==> TagsCovered(t, src)
  {
    if TagsCovered(t, src) {
      forall k
        ensures Get(PutAll(t, Tagged(src)), k) == Get(src, k)
      {
        CoveredGet(t, low, src, issued, k);
      }
      PutAllSorted(t, Tagged(src));
      ExtensionalByGet(PutAll(t, Tagged(src)), src);
    } else {
      var i :| 0 <= i < |t| && !Has(src, t[i].key);
      UncoveredGet(t, low, src, issued, i);
    }
  }

  // ----- The whole queue -----

  /** Nothing waits, is scheduled or dead in the target, and every tag in flight there is preserved. */
  ghost predicate TargetClear(q: QueueState, src: QueueState) {
    q.main == [] && q.scheduled == [] && q.dlq == [] && TagsCovered(q.inflight, src.inflight)
  }

  /** What a restore into a queue that holds something leaves: each list is the exported one exactly when the
      target's was empty, the in-flight tree exactly when every tag there is among the preserved ones.  The
      policy is the exported one and the deduplication index stays. */
  lemma TargetMustBeEmpty(q: QueueState, low: nat, src: QueueState, issued: nat, d: Draws, high: nat)
    requires QueueOk(q, low) && QueueOk(src, issued) && Fits(ExportQueue(src), d) && DrawsBetween(d, low, high)
    ensures var q' := RestoreQueue(q, ExportQueue(src), d);
            && (Values(q'.main) == Values(src.main) <==> q.main == [])
            && (Values(q'.scheduled) == Values(src.scheduled) <==> q.scheduled == [])
            && (Values(q'.dlq) == Values(src.dlq) <==> q.dlq == [])
            && (q'.inflight == src.inflight <==> TagsCovered(q.inflight, src.inflight))
            && q'.policy == src.policy && q'.dedup == q.dedup
  {
    hide LaneTreeOk, ScheduleOk, TagTreeOk, IdsApart, AscendingFrom, InsertAll, ScheduleAll, PutAll, TagsCovered;
    ListReplacedIff(q.main, low, src.main, issued, d.main);
    ListReplacedIff(q.dlq, low, src.dlq, issued, d.dlq);
    ScheduleReplacedIff(q.scheduled, low, src.scheduled, issued, d.scheduled, d.clock);
    DeliveriesReplacedIff(q.inflight, low, src.inflight, issued);
  }

  lemma {:induction false} PutAllKeys(t: Tree<Message>, ts: seq<(u64, Message)>)
    requires forall i | 0 <= i < |t| :: |t[i].key| == 8
    ensures forall i | 0 <= i < |PutAll(t, ts)| :: |PutAll(t, ts)[i].key| == 8
    decreases |ts|
  {
    if ts != [] {
      var t' := Insert(t, Be64(ts[0].0), ts[0].1);
      forall i | 0 <= i < |t'|
        ensures |t'[i].key| == 8
      {
        InsertOrigin(t, Be64(ts[0].0), ts[0].1, i);
      }
      PutAllKeys(t', ts[1..]);
    }
  }

  lemma TaggedTells(a: Tree<Message>, b: Tree<Message>)
    requires forall i | 0 <= i < |a| :: |a[i].key| == 8
    requires forall i | 0 <= i < |b| :: |b[i].key| == 8
    ensures Tagged(a) == Tagged(b) <==> a == b
  {
    if Tagged(a) == Tagged(b) {
      assert |Tagged(a)| == |Tagged(b)|;
      forall i | 0 <= i < |a|
        ensures a[i] == b[i]
      {
        assert Tagged(a)[i] == Tagged(b)[i];
        Be64Surjective(a[i].key);
        Be64Surjective(b[i].key);
      }
    }
  }

  /** Exporting the restored queue again gives the snapshot exactly when the target was clear. */
  lemma QueueReplacedIff(q: QueueState, low: nat, src: QueueState, issued: nat, d: Draws, high: nat)
    requires QueueOk(q, low) && QueueOk(src, issued) && Fits(ExportQueue(src), d) && DrawsBetween(d, low, high)
    ensures ExportQueue(RestoreQueue(q, ExportQueue(src), d)) == ExportQueue(src) <==> TargetClear(q, src)
  {
    assert forall i | 0 <= i < |q.inflight| :: TagOk(q.inflight[i], low);
    assert forall i | 0 <= i < |src.inflight| :: TagOk(src.inflight[i], issued);
    PutAllKeys(q.inflight, Tagged(src.inflight));
    TaggedTells(PutAll(q.inflight, Tagged(src.inflight)), src.inflight);
    hide QueueOk, DrawsBetween, InsertAll, ScheduleAll, PutAll, TagsCovered, Tagged;
    TargetMustBeEmpty(q, low, src, issued, d, high);
  }

  // ----- Times of restored schedules -----

  lemma OtherSlot(t: i64, i: u64, u: i64, j: u64)
    requires i != j
    ensures EncodeScheduledKey(t, i) != EncodeScheduledKey(u, j)
  {
    ScheduledKeyRoundTrip(t, i);
    ScheduledKeyRoundTrip(u, j);
  }

  lemma {:induction false} SlotStays(t: Tree<Message>, ms: seq<Message>, ids: seq<u64>, clock: seq<millis>, time: i64,
                                     id: u64)
    requires Sorted(t) && |ids| == |ms| == |clock| && id !in ids
    ensures Get(ScheduleAll(t, ms, ids, clock), EncodeScheduledKey(time, id)) == Get(t, EncodeScheduledKey(time, id))
    decreases |ms|
  {
    hide EncodeScheduledKey, Insert, Get, SlotTime, Sorted;
    if ms != [] {
      var k := EncodeScheduledKey(SlotTime(ms[0], clock[0]), ids[0]);
      InsertSorted(t, k, ms[0]);
      GetInsert(t, k, ms[0], EncodeScheduledKey(time, id));
      OtherSlot(SlotTime(ms[0], clock[0]), ids[0], time, id);
      SlotStays(Insert(t, k, ms[0]), ms[1..], ids[1..], clock[1..], time, id);
    }
  }

  /** Whatever the target holds, each scheduled message of a snapshot is restored under its delivery time, or
      under the reading of the clock if it has none, and its new id. */
  lemma {:induction false} RestoredSlotIs(t: Tree<Message>, ms: seq<Message>, ids: seq<u64>, clock: seq<millis>,
                                          low: nat, j: nat)
    requires Sorted(t) && |ids| == |ms| == |clock| && AscendingFrom(ids, low) && j < |ms|
    ensures var time := if ms[j].deliverAt.Some? then ms[j].deliverAt.value else clock[j];
            Get(ScheduleAll(t, ms, ids, clock), EncodeScheduledKey(time, ids[j])) == Some(ms[j])
    decreases |ms|
  {
    hide EncodeScheduledKey, Insert, Get, Sorted;
    var k := EncodeScheduledKey(SlotTime(ms[0], clock[0]), ids[0]);
    InsertSorted(t, k, ms[0]);
    if j == 0 {
      GetInsert(t, k, ms[0], k);
      assert ids[0] !in ids[1..];
      SlotStays(Insert(t, k, ms[0]), ms[1..], ids[1..], clock[1..], SlotTime(ms[0], clock[0]), ids[0]);
    } else {
      RestoredSlotIs(Insert(t, k, ms[0]), ms[1..], ids[1..], clock[1..], low, j - 1);
    }
  }

  // ----- The engine invariant -----

  lemma {:induction false} ScheduleAllOk(t: Tree<Message>, low: nat, ms: seq<Message>, ids: seq<u64>,
                                         clock: seq<millis>)
    requires ScheduleOk(t, low) && |ids| == |ms| == |clock| && AscendingFrom(ids, low)
    requires forall i | 0 <= i < |ms| :: ms[i].deliverAt.Some? && 0 <= ms[i].deliverAt.value
    ensures ScheduleOk(ScheduleAll(t, ms, ids, clock), BumpAll(low, ids))
    decreases |ms|
  {
    if ms != [] {
      AscendingTail(ids, low);
      ScheduleInsert(t, low, ms[0], ids[0]);
      hide ScheduleOk, EncodeScheduledKey, AscendingFrom;
      ScheduleAllOk(Insert(t, EncodeScheduledKey(ms[0].deliverAt.value, ids[0]), ms[0]), Bump(low, ids[0]),
                    ms[1..], ids[1..], clock[1..]);
    }
  }

  /** The lists of a restored queue are in order, whatever the target held. */
  lemma RestoredListsOk(q: QueueState, low: nat, src: QueueState, issued: nat, d: Draws, high: nat)
    requires QueueOk(q, low) && QueueOk(src, issued) && Fits(ExportQueue(src), d) && DrawsBetween(d, low, high)
    ensures var q' := RestoreQueue(q, ExportQueue(src), d);
            LaneTreeOk(q'.main, high) && ScheduleOk(q'.scheduled, high) && LaneTreeOk(q'.dlq, high) && Sorted(q'.dedup)
  {
    ScheduleInTime(src.scheduled, issued);
    hide LaneTreeOk, ScheduleOk, TagTreeOk, IdsApart, AscendingFrom, InsertAll, ScheduleAll, PutAll, BumpAll;
    var q' := RestoreQueue(q, ExportQueue(src), d);
    LaneTreeInsertAll(q.main, low, Values(src.main), d.main);
    LaneTreeInsertAll(q.dlq, low, Values(src.dlq), d.dlq);
    ScheduleAllOk(q.scheduled, low, Values(src.scheduled), d.scheduled, d.clock);
    BumpAllBelow(low, d.main, high);
    BumpAllBelow(low, d.dlq, high);
    BumpAllBelow(low, d.scheduled, high);
    TreesOkMonotone(q'.main, BumpAll(low, d.main), high);
    TreesOkMonotone(q'.dlq, BumpAll(low, d.dlq), high);
    TreesOkMonotone(q'.scheduled, BumpAll(low, d.scheduled), high);
  }

  lemma PutAllPresent(t: Tree<Message>, ts: seq<(u64, Message)>, k: Key)
    requires Sorted(t)
    ensures Has(PutAll(t, ts), k) <==> Has(t, k) || exists j :: 0 <= j < |ts| && Be64(ts[j].0) == k
  {
    if exists j :: 0 <= j < |ts| && Be64(ts[j].0) == k {
      PutAllWrites(t, ts, k);
    } else {
      PutAllMisses(t, ts, k);
    }
  }

  lemma {:induction false} PutAllWrites(t: Tree<Message>, ts: seq<(u64, Message)>, k: Key)
    requires Sorted(t) && exists j :: 0 <= j < |ts| && Be64(ts[j].0) == k
    ensures Has(PutAll(t, ts), k)
    decreases |ts|
  {
    hide Sorted, Insert, Be64;
    var k0, m := Be64(ts[0].0), ts[0].1;
    InsertSorted(t, k0, m);
    if exists j :: 0 <= j < |ts[1..]| && Be64(ts[1..][j].0) == k {
      PutAllWrites(Insert(t, k0, m), ts[1..], k);
    } else {
      assert forall j | 1 <= j < |ts| :: ts[j] == ts[1..][j - 1];
      GetInsert(t, k0, m, k);
      PutAllMisses(Insert(t, k0, m), ts[1..], k);
    }
  }

  lemma {:induction false} PutAllOk(t: Tree<Message>, ts: seq<(u64, Message)>, high: nat)
    requires TagTreeOk(t, high) && forall j | 0 <= j < |ts| :: ts[j].0 < high
    ensures TagTreeOk(PutAll(t, ts), high)
    decreases |ts|
  {
    hide TagTreeOk, Insert, Be64;
    if ts != [] {
      TagTreeInsert(t, high, ts[0].0, ts[0].1);
      PutAllOk(Insert(t, Be64(ts[0].0), ts[0].1), ts[1..], high);
    }
  }

  lemma PresentTagIsIssued(t: Tree<Message>, high: nat, tag: u64)
    requires TagTreeOk(t, high) && Has(t, Be64(tag))
    ensures tag < high
  {
    Be64RoundTrip(tag);
    assert TagOk(t[Rank(t, Be64(tag))], high);
  }

  lemma TagTreeMonotone(t: Tree<Message>, low: nat, high: nat)
    requires TagTreeOk(t, low) && low <= high
    ensures TagTreeOk(t, high)
  {
  }

  /** The written tags are issued exactly when the preserved ones are. */
  lemma PutAllOkIff(t: Tree<Message>, low: nat, ts: seq<(u64, Message)>, high: nat)
    requires TagTreeOk(t, low) && low <= high
    ensures TagTreeOk(PutAll(t, ts), high) <==> forall j | 0 <= j < |ts| :: ts[j].0 < high
  {
    TagTreeMonotone(t, low, high);
    assert Sorted(t);
    hide TagTreeOk, PutAll, Be64, Sorted;
    if forall j | 0 <= j < |ts| :: ts[j].0 < high { PutAllOk(t, ts, high); }
    if TagTreeOk(PutAll(t, ts), high) {
      forall j | 0 <= j < |ts|
        ensures ts[j].0 < high
      {
        PutAllPresent(t, ts, Be64(ts[j].0));
        PresentTagIsIssued(PutAll(t, ts), high, ts[j].0);
      }
    }
  }

  /** No message waiting in the target has the number of a preserved tag. */
  ghost predicate WaitingClear(q: QueueState, snap: QueueSnapshot) {
    forall i, j | 0 <= i < |q.main| && 0 <= j < |snap.inflight| :: KeyId(q.main[i].key) != snap.inflight[j].0
  }

  /** An id is free of the restored deliveries if it is free of the target's and of the preserved ones. */
  lemma FreeOfTags(t: Tree<Message>, ts: seq<(u64, Message)>, id: u64)
    requires Sorted(t) && !Has(t, Be64(id)) && forall j | 0 <= j < |ts| :: ts[j].0 != id
    ensures !Has(PutAll(t, ts), Be64(id))
  {
    PutAllPresent(t, ts, Be64(id));
    hide PutAll, Be64, Has;
    forall j | 0 <= j < |ts|
      ensures Be64(ts[j].0) != Be64(id)
    {
      Be64Order(ts[j].0, id);
    }
  }

  lemma ClearIsApart(q: QueueState, low: nat, src: QueueState, d: Draws, high: nat, i: nat)
    requires QueueOk(q, low) && Fits(ExportQueue(src), d) && DrawsBetween(d, low, high)
    requires TagsClear(ExportQueue(src), d, high) && WaitingClear(q, ExportQueue(src))
    requires i < |RestoreQueue(q, ExportQueue(src), d).main|
    ensures var q' := RestoreQueue(q, ExportQueue(src), d); !Has(q'.inflight, Be64(KeyId(q'.main[i].key)))
  {
    var q' := RestoreQueue(q, ExportQueue(src), d);
    var id := KeyId(q'.main[i].key);
    InsertAllIds(q.main, low, Values(src.main), d.main, i);
    if id in d.main { UnissuedTagAbsent(q.inflight, low, id); }
    hide KeyId, Be64, InsertAll, PutAll, LaneTreeOk, ScheduleOk, TagTreeOk, Has;
    assert Sorted(q.inflight) by { TagTreeSorted(q.inflight, low); }
    FreeOfTags(q.inflight, Tagged(src.inflight), id);
  }

  lemma TagTreeSorted(t: Tree<Message>, low: nat)
    requires TagTreeOk(t, low)
    ensures Sorted(t)
  {
  }

  lemma UnclearIsNotApart(q: QueueState, low: nat, src: QueueState, d: Draws, high: nat, id: u64, j: nat)
    returns (i: nat)
    requires QueueOk(q, low) && Fits(ExportQueue(src), d) && DrawsBetween(d, low, high)
    requires j < |src.inflight| && Tagged(src.inflight)[j].0 == id
    requires id in d.main || exists x :: 0 <= x < |q.main| && KeyId(q.main[x].key) == id
    ensures var q' := RestoreQueue(q, ExportQueue(src), d);
            && i < |q'.main| && KeyId(q'.main[i].key) == id && Has(q'.inflight, Be64(id)) && Sorted(q'.inflight)
  {
    TagTreeSorted(q.inflight, low);
    PutAllSorted(q.inflight, Tagged(src.inflight));
    PutAllPresent(q.inflight, Tagged(src.inflight), Be64(id));
    hide KeyId, Be64, InsertAll, PutAll, LaneTreeOk, ScheduleOk, TagTreeOk, Has, IdsApart;
    if id in d.main {
      var y :| 0 <= y < |d.main| && d.main[y] == id;
      i := InsertAllHoldsId(q.main, low, Values(src.main), d.main, y);
    } else {
      var x :| 0 <= x < |q.main| && KeyId(q.main[x].key) == id;
      i := InsertAllKeepsId(q.main, low, Values(src.main), d.main, x);
    }
  }

  lemma ClearIsOk(q: QueueState, low: nat, src: QueueState, issued: nat, d: Draws, high: nat)
    requires QueueOk(q, low) && QueueOk(src, issued) && Fits(ExportQueue(src), d) && DrawsBetween(d, low, high)
    requires TagsClear(ExportQueue(src), d, high) && WaitingClear(q, ExportQueue(src))
    ensures QueueOk(RestoreQueue(q, ExportQueue(src), d), high)
  {
    var q' := RestoreQueue(q, ExportQueue(src), d);
    RestoredListsOk(q, low, src, issued, d, high);
    PutAllOkIff(q.inflight, low, Tagged(src.inflight), high);
    forall i | 0 <= i < |q'.main|
      ensures !Has(q'.inflight, Be64(KeyId(q'.main[i].key)))
    {
      ClearIsApart(q, low, src, d, high, i);
    }
    hide InsertAll, PutAll, LaneTreeOk, ScheduleOk, TagTreeOk, Has, KeyId, Be64, Tagged;
  }

  lemma OkIsClear(q: QueueState, low: nat, src: QueueState, issued: nat, d: Draws, high: nat)
    requires QueueOk(q, low) && QueueOk(src, issued) && Fits(ExportQueue(src), d) && DrawsBetween(d, low, high)
    requires QueueOk(RestoreQueue(q, ExportQueue(src), d), high)
    ensures TagsClear(ExportQueue(src), d, high) && WaitingClear(q, ExportQueue(src))
  {
    var tags := Tagged(src.inflight);
    PutAllOkIff(q.inflight, low, tags, high);
    hide InsertAll, PutAll, LaneTreeOk, ScheduleOk, TagTreeOk, Has, KeyId, Be64, Sorted;
    forall i, j | 0 <= i < |d.main| && 0 <= j < |tags|
      ensures tags[j].0 != d.main[i]
    {
      if tags[j].0 == d.main[i] {
        var x := UnclearIsNotApart(q, low, src, d, high, d.main[i], j);
        assert false;
      }
    }
    forall i, j | 0 <= i < |q.main| && 0 <= j < |tags|
      ensures KeyId(q.main[i].key) != tags[j].0
    {
      if KeyId(q.main[i].key) == tags[j].0 {
        var x := UnclearIsNotApart(q, low, src, d, high, KeyId(q.main[i].key), j);
        assert false;
      }
    }
  }

  /** Restored into any queue, the result satisfies the engine invariant exactly when the new ids are clear of
      the preserved tags and no message waiting in the target has the number of one. */
  lemma LiveRestoreOkIff(q: QueueState, low: nat, src: QueueState, issued: nat, d: Draws, high: nat)
    requires QueueOk(q, low) && QueueOk(src, issued) && Fits(ExportQueue(src), d) && DrawsBetween(d, low, high)
    ensures QueueOk(RestoreQueue(q, ExportQueue(src), d), high)
            <==> TagsClear(ExportQueue(src), d, high) && WaitingClear(q, ExportQueue(src))
  {
    hide QueueOk, RestoreQueue, ExportQueue, TagsClear, WaitingClear, DrawsBetween;
    if QueueOk(RestoreQueue(q, ExportQueue(src), d), high) { OkIsClear(q, low, src, issued, d, high); }
    if TagsClear(ExportQueue(src), d, high) && WaitingClear(q, ExportQueue(src)) {
      ClearIsOk(q, low, src, issued, d, high);
    }
  }

  // ----- The whole manager -----

  /** A queue that the snapshot does not name survives the restore as it was. */
  lemma OthersSurviveRestore(t: Manager, snap: Snapshot, draws: map<Name, Draws>, high: nat, n: Name)
    requires forall n | n in snap :: n in draws && Fits(snap[n], draws[n])
    requires n in t.queues && n !in snap
    ensures n in Restore(t, snap, draws, high).queues && Restore(t, snap, draws, high).queues[n] == t.queues[n]
  {
    hide RestoreQueue, Recount;
  }

  ghost predicate ManagerClear(t: Manager, s: Manager) {
    forall n | n in t.queues :: n in s.queues && TargetClear(t.queues[n], s.queues[n])
  }

  lemma RestoredNames(t: Manager, snap: Snapshot, draws: map<Name, Draws>, high: nat)
    requires forall n | n in snap :: n in draws && Fits(snap[n], draws[n])
    ensures Restore(t, snap, draws, high).queues.Keys == t.queues.Keys + snap.Keys
    ensures forall n | n in snap ::
              Restore(t, snap, draws, high).queues[n] == RestoreQueue(QueueOrEmpty(t, n), snap[n], draws[n])
  {
    hide RestoreQueue, Recount, Fits;
  }

  lemma RestoredAt(s: Manager, t: Manager, draws: map<Name, Draws>, high: nat, n: Name)
    requires ManagerOk(s) && ManagerOk(t) && n in s.queues
    requires n in draws && Fits(ExportQueue(s.queues[n]), draws[n]) && DrawsBetween(draws[n], t.issued, high)
    ensures ExportQueue(RestoreQueue(QueueOrEmpty(t, n), ExportQueue(s.queues[n]),
             draws[n])) == ExportQueue(s.queues[n])
            <==> (n in t.queues ==> TargetClear(t.queues[n], s.queues[n]))
  {
    var q := QueueOrEmpty(t, n);
    assert QueueOk(q, t.issued) && QueueOk(s.queues[n], s.issued);
    assert n !in t.queues ==> TargetClear(q, s.queues[n]);
    hide QueueOk, DrawsBetween, RestoreQueue, TargetClear;
    QueueReplacedIff(q, t.issued, s.queues[n], s.issued, draws[n], high);
  }

  lemma ExportTells(a: Manager, b: Manager)
    ensures Export(a) == Export(b) <==>
            a.queues.Keys == b.queues.Keys && forall n | n in a.queues && n in b.queues ::
                                                ExportQueue(a.queues[n]) == ExportQueue(b.queues[n])
  {
    hide ExportQueue;
    if Export(a) == Export(b) {
      assert Export(a).Keys == a.queues.Keys && Export(b).Keys == b.queues.Keys;
      forall n | n in a.queues && n in b.queues
        ensures ExportQueue(a.queues[n]) == ExportQueue(b.queues[n])
      {
        assert Export(a)[n] == Export(b)[n];
      }
    }
  }

  /** Restoring a snapshot into any manager and exporting again gives the snapshot exactly when the manager
      holds no other queue and each of its queues was clear. */
  lemma RestoreReplacesIff(s: Manager, t: Manager, draws: map<Name, Draws>, high: nat)
    requires ManagerOk(s) && ManagerOk(t)
    requires forall n | n in s.queues ::
               n in draws && Fits(ExportQueue(s.queues[n]), draws[n]) && DrawsBetween(draws[n], t.issued, high)
    ensures Export(Restore(t, Export(s), draws, high)) == Export(s) <==> ManagerClear(t, s)
  {
    hide ManagerOk, Restore, DrawsBetween, TargetClear, ExportQueue, Fits, RestoreQueue, QueueOrEmpty;
    var f := Restore(t, Export(s), draws, high);
    RestoredNames(t, Export(s), draws, high);
    assert Export(s).Keys == s.queues.Keys;
    forall n | n in s.queues
      ensures ExportQueue(f.queues[n]) == ExportQueue(s.queues[n]) <==>
              (n in t.queues ==> TargetClear(t.queues[n], s.queues[n]))
    {
      assert Export(s)[n] == ExportQueue(s.queues[n]);
      RestoredAt(s, t, draws, high, n);
    }
    hide Export;
    ExportTells(f, s);
  }
}
