/** Snapshot export and restore.  Restoring draws new ids for the main, scheduled and dead-letter
    messages and keeps the delivery tags of those in flight. */
module Snapshots {
  import opened Bytes
  import opened Results
  import opened OrderedTree
  import opened Messages
  import opened Engine
  import opened Runs
  import opened WellFormed
  import opened DeliveryOrder
  import opened Draw

  datatype QueueSnapshot = QueueSnapshot(
    policy: RetentionPolicy,
    messages: seq<Message>,
    scheduled: seq<Message>,
    inflight: seq<(u64, Message)>,
    deadLetter: seq<Message>)

  type Snapshot = map<Name, QueueSnapshot>

  /** What the environment supplies while one queue is restored: the ids drawn for its main, scheduled and
      dead-letter messages, and the clock reading for each scheduled message, used if it has no time. */
  datatype Draws = Draws(main: seq<u64>, scheduled: seq<u64>, dlq: seq<u64>, clock: seq<millis>)

  function TagOf(k: Key): u64 {
    if |k| == 8 then FromBe64(k) else 0
  }

  function Tagged(t: Tree<Message>): (ts: seq<(u64, Message)>) {
    seq(|t|, i requires 0 <= i < |t| => (TagOf(t[i].key), t[i].val))
  }

  function ExportQueue(q: QueueState): QueueSnapshot {
    QueueSnapshot(q.policy, Values(q.main), Values(q.scheduled), Tagged(q.inflight), Values(q.dlq))
  }

  function Export(s: Manager): Snapshot {
    map n | n in s.queues :: ExportQueue(s.queues[n])
  }

  function SlotTime(m: Message, now: millis): i64 {
    if m.deliverAt.Some? then m.deliverAt.value else now
  }

  function ScheduleAll(t: Tree<Message>, ms: seq<Message>, ids: seq<u64>, clock: seq<millis>): Tree<Message>
    requires |ids| == |ms| == |clock|
    decreases |ms|
  {
    if ms == [] then t
    else
      ScheduleAll(Insert(t, EncodeScheduledKey(SlotTime(ms[0], clock[0]), ids[0]), ms[0]),
                  ms[1..], ids[1..], clock[1..])
  }

  function PutAll(t: Tree<Message>, ts: seq<(u64, Message)>): Tree<Message>
    decreases |ts|
  {
    if ts == [] then t else PutAll(Insert(t, Be64(ts[0].0), ts[0].1), ts[1..])
  }

  predicate Fits(snap: QueueSnapshot, d: Draws) {
    |d.main| == |snap.messages| && |d.scheduled| == |snap.scheduled| == |d.clock| && |d.dlq| == |snap.deadLetter|
  }

  /** Writes a snapshot into a queue: nothing that is there is removed first. */
  function RestoreQueue(q: QueueState, snap: QueueSnapshot, d: Draws): QueueState
    requires Fits(snap, d)
  {
    QueueState(
      snap.policy,
      InsertAll(q.main, snap.messages, d.main),
      PutAll(q.inflight, snap.inflight),
      ScheduleAll(q.scheduled, snap.scheduled, d.scheduled, d.clock),
      InsertAll(q.dlq, snap.deadLetter, d.dlq),
      q.dedup)
  }

  function QueueOrEmpty(s: Manager, n: Name): QueueState {
    if n in s.queues then s.queues[n] else EmptyQueue(DEFAULT_POLICY)
  }

  function RestoredQueues(s: Manager, snap: Snapshot, draws: map<Name, Draws>): map<Name, QueueState>
    requires forall n | n in snap :: n in draws && Fits(snap[n], draws[n])
  {
    map n | n in s.queues.Keys + snap.Keys ::
      if n in snap then RestoreQueue(QueueOrEmpty(s, n), snap[n], draws[n]) else s.queues[n]
  }

  ghost function Restore(s: Manager, snap: Snapshot, draws: map<Name, Draws>, issued: nat): Manager
    requires forall n | n in snap :: n in draws && Fits(snap[n], draws[n])
  {
    var queues := RestoredQueues(s, snap, draws);
    s.(queues := queues, issued := issued, currentBytes := Recount(queues))
  }

  // ----- A restored queue yields the same messages in the same order -----

  /** Enqueueing behind a delivery order that is nowhere lower appends. */
  lemma EnqueueLast(ready: seq<Message>, m: Message)
    requires forall i | 0 <= i < |ready| :: Lane(ready[i]) >= Lane(m)
    ensures Enqueue(ready, m) == ready + [m]
  {
    BetweenEverything(ready, Lane(m), 9);
    BetweenNothing(ready, 0, Lane(m) - 1);
  }

  lemma {:induction false} EnqueueAllInOrder(ready: seq<Message>, ms: seq<Message>)
    requires Descending(ready + ms)
    ensures EnqueueAll(ready, ms) == ready + ms
    decreases |ms|
  {
    if ms == [] {
      assert ready + ms == ready;
    } else {
      forall i | 0 <= i < |ready|
        ensures Lane(ready[i]) >= Lane(ms[0])
      {
        assert (ready + ms)[i] == ready[i] && (ready + ms)[|ready|] == ms[0];
      }
      EnqueueLast(ready, ms[0]);
      Shift(ready, ms);
      EnqueueAllInOrder(ready + [ms[0]], ms[1..]);
    }
  }

  /** Re-inserting an exported lane tree under fresh ids gives the same delivery order. */
  lemma LaneTreeRestored(t: Tree<Message>, issued: nat, ids: seq<u64>, low: nat)
    requires LaneTreeOk(t, issued) && |ids| == |t| && AscendingFrom(ids, low)
    ensures Values(InsertAll([], Values(t), ids)) == Values(t)
    ensures LaneTreeOk(InsertAll([], Values(t), ids), BumpAll(low, ids))
  {
    var empty: Tree<Message> := [];
    assert LaneTreeOk(empty, low);
    InsertAllIsEnqueueAll(empty, low, Values(t), ids);
    LaneTreeInsertAll(empty, low, Values(t), ids);
    LaneTreeDescending(t, issued);
    assert Values(empty) + Values(t) == Values(t);
    EnqueueAllInOrder(Values(empty), Values(t));
  }

  /** Messages under their keys, in order. */
  function Laid(ms: seq<Message>, ids: seq<u64>): (t: Tree<Message>)
    requires |ids| == |ms|
  {
    seq(|ms|, i requires 0 <= i < |ms| => Entry(EncodeKey(ms[i].priority, ids[i]), ms[i]))
  }

  /** Restoring messages in delivery order under ascending ids puts each behind the one before. */
  lemma {:induction false} RestoredLayout(ms: seq<Message>, ids: seq<u64>, low: nat)
    requires |ids| == |ms| && Descending(ms) && AscendingFrom(ids, low)
    ensures InsertAll([], ms, ids) == Laid(ms, ids)
    decreases |ms|
  {
    if ms != [] {
      var n := |ms| - 1;
      var ms', ids' := ms[..n], ids[..n];
      RestoredLayout(ms', ids', low);
      assert ms == ms' + [ms[n]] && ids == ids' + [ids[n]];
      InsertOneMore([], ms', ids', ms[n], ids[n]);
      LaidBehind(ms, ids, low, n);
    }
  }

  lemma LaidBehind(ms: seq<Message>, ids: seq<u64>, low: nat, n: nat)
    requires |ids| == |ms| == n + 1 && Descending(ms) && AscendingFrom(ids, low)
    ensures Insert(Laid(ms[..n], ids[..n]), EncodeKey(ms[n].priority, ids[n]), ms[n]) == Laid(ms, ids)
  {
    hide EncodeKey, Less;
    var t, k := Laid(ms[..n], ids[..n]), EncodeKey(ms[n].priority, ids[n]);
    forall i | 0 <= i < n
      ensures Less(t[i].key, k)
    {
      assert Lane(ms[i]) >= Lane(ms[n]) && ids[i] < ids[n];
      EncodeKeyOrder(ms[i].priority, ids[i], ms[n].priority, ids[n]);
    }
    assert Rank(t, k) == n;
    assert t[..n] == t && t[n..] == [];
  }

  ghost predicate InTime(ms: seq<Message>) {
    && (forall i | 0 <= i < |ms| :: ms[i].deliverAt.Some? && 0 <= ms[i].deliverAt.value)
    && (forall i, j | 0 <= i < j < |ms| :: ms[i].deliverAt.value <= ms[j].deliverAt.value)
  }

  lemma ScheduleInTime(t: Tree<Message>, issued: nat)
    requires ScheduleOk(t, issued)
    ensures InTime(Values(t))
  {
    assert forall i | 0 <= i < |t| :: SlotOk(t[i], issued);
    forall i, j | 0 <= i < j < |t|
      ensures Values(t)[i].deliverAt.value <= Values(t)[j].deliverAt.value
    {
      ScheduleOrder(t, issued, i, j);
    }
  }

  lemma ScheduleLast(waiting: seq<Message>, m: Message)
    requires m.deliverAt.Some?
    requires forall i | 0 <= i < |waiting| ::
               waiting[i].deliverAt.Some? && waiting[i].deliverAt.value <= m.deliverAt.value
    ensures Schedule(waiting, m) == waiting + [m]
  {
    DueEverything(waiting, m.deliverAt.value);
  }

  lemma Shift(a: seq<Message>, b: seq<Message>)
    requires b != []
    ensures (a + [b[0]]) + b[1..] == a + b
  {
  }

  lemma ScheduleOneMore(t: Tree<Message>, low: nat, m: Message, id: u64)
    requires ScheduleOk(t, low) && low <= id && m.deliverAt.Some? && 0 <= m.deliverAt.value
    requires forall i | 0 <= i < |t| :: t[i].val.deliverAt.Some? && t[i].val.deliverAt.value <= m.deliverAt.value
    ensures var t' := Insert(t, EncodeScheduledKey(m.deliverAt.value, id), m);
            Values(t') == Values(t) + [m] && ScheduleOk(t', Bump(low, id))
  {
    InsertIsSchedule(t, low, m, id);
    ScheduleInsert(t, low, m, id);
    ScheduleLast(Values(t), m);
  }

  lemma ScheduleFirst(t: Tree<Message>, low: nat, ms: seq<Message>, id: u64)
    requires ScheduleOk(t, low) && low <= id && ms != [] && InTime(Values(t) + ms)
    ensures ms[0].deliverAt.Some?
    ensures var t' := Insert(t, EncodeScheduledKey(ms[0].deliverAt.value, id), ms[0]);
            Values(t') + ms[1..] == Values(t) + ms && ScheduleOk(t', Bump(low, id))
  {
    var all := Values(t) + ms;
    assert all[|t|] == ms[0];
    assert forall i | 0 <= i < |t| :: all[i] == Values(t)[i];
    ScheduleOneMore(t, low, ms[0], id);
    Shift(Values(t), ms);
  }

  lemma AscendingTail(ids: seq<u64>, low: nat)
    requires AscendingFrom(ids, low) && ids != []
    ensures low <= ids[0] && AscendingFrom(ids[1..], Bump(low, ids[0]))
  {
  }

  lemma {:induction false} ScheduleAllInOrder(
      t: Tree<Message>, low: nat, ms: seq<Message>, ids: seq<u64>, clock: seq<millis>)
    requires ScheduleOk(t, low) && |ids| == |ms| == |clock| && AscendingFrom(ids, low) && InTime(Values(t) + ms)
    ensures Values(ScheduleAll(t, ms, ids, clock)) == Values(t) + ms
    ensures ScheduleOk(ScheduleAll(t, ms, ids, clock), BumpAll(low, ids))
    decreases |ms|
  {
    if ms == [] {
      assert Values(t) + ms == Values(t);
    } else {
      AscendingTail(ids, low);
      ScheduleFirst(t, low, ms, ids[0]);
      ScheduleAllInOrder(Insert(t, EncodeScheduledKey(ms[0].deliverAt.value, ids[0]), ms[0]),
                         Bump(low, ids[0]), ms[1..], ids[1..], clock[1..]);
    }
  }

  lemma ScheduleRestored(t: Tree<Message>, issued: nat, ids: seq<u64>, clock: seq<millis>, low: nat)
    requires ScheduleOk(t, issued) && |ids| == |t| == |clock| && AscendingFrom(ids, low)
    ensures Values(ScheduleAll([], Values(t), ids, clock)) == Values(t)
    ensures ScheduleOk(ScheduleAll([], Values(t), ids, clock), BumpAll(low, ids))
  {
    var empty: Tree<Message> := [];
    ScheduleInTime(t, issued);
    assert Values(empty) + Values(t) == Values(t);
    ScheduleAllInOrder(empty, low, Values(t), ids, clock);
  }

  lemma {:induction false} PutAllInOrder(done: Tree<Message>, rest: Tree<Message>, issued: nat)
    requires TagTreeOk(done + rest, issued)
    ensures PutAll(done, Tagged(rest)) == done + rest
    decreases |rest|
  {
    if rest == [] {
      assert done + rest == done;
    } else {
      var all, e := done + rest, rest[0];
      assert all[|done|] == e && TagOk(all[|done|], issued);
      Be64Surjective(e.key);
      forall i | 0 <= i < |done|
        ensures Less(done[i].key, e.key)
      {
        assert all[i] == done[i];
      }
      assert Sorted(done) by { assert forall i | 0 <= i < |done| :: all[i] == done[i]; }
      RankIsCut(done, e.key, |done|);
      assert Insert(done, Be64(TagOf(e.key)), e.val) == done + [e];
      assert Tagged(rest)[1..] == Tagged(rest[1..]);
      assert (done + [e]) + rest[1..] == all;
      PutAllInOrder(done + [e], rest[1..], issued);
    }
  }

  /** The preserved tags give back the in-flight tree itself. */
  lemma TagsRestored(t: Tree<Message>, issued: nat)
    requires TagTreeOk(t, issued)
    ensures PutAll([], Tagged(t)) == t
  {
    assert [] + t == t;
    PutAllInOrder([], t, issued);
  }

  /** The ids drawn for one queue were drawn in order between two positions of the generator. */
  ghost predicate DrawsBetween(d: Draws, low: nat, high: nat) {
    && low <= high
    && AscendingFrom(d.main, low) && AscendingFrom(d.scheduled, low) && AscendingFrom(d.dlq, low)
    && (forall i | 0 <= i < |d.main| :: d.main[i] < high)
    && (forall i | 0 <= i < |d.scheduled| :: d.scheduled[i] < high)
    && (forall i | 0 <= i < |d.dlq| :: d.dlq[i] < high)
  }

  /** Export and restore into an empty queue give back the policy, every message list in its order and the
      in-flight tree with its tags.  The deduplication index starts empty. */
  lemma QueueRoundTrip(q: QueueState, issued: nat, d: Draws, low: nat, high: nat)
    requires QueueOk(q, issued) && Fits(ExportQueue(q), d) && DrawsBetween(d, low, high)
    ensures var q' := RestoreQueue(EmptyQueue(DEFAULT_POLICY), ExportQueue(q), d);
            && q'.policy == q.policy
            && Values(q'.main) == Values(q.main)
            && q'.inflight == q.inflight
            && Values(q'.scheduled) == Values(q.scheduled)
            && Values(q'.dlq) == Values(q.dlq)
            && q'.dedup == []
            && LaneTreeOk(q'.main, high) && ScheduleOk(q'.scheduled, high) && LaneTreeOk(q'.dlq, high)
  {
    hide LaneTreeOk, ScheduleOk, TagTreeOk, IdsApart, AscendingFrom, InsertAll, ScheduleAll, PutAll, BumpAll;
    LaneTreeRestored(q.main, issued, d.main, low);
    LaneTreeRestored(q.dlq, issued, d.dlq, low);
    ScheduleRestored(q.scheduled, issued, d.scheduled, d.clock, low);
    TagsRestored(q.inflight, issued);
    BumpAllBelow(low, d.main, high);
    BumpAllBelow(low, d.dlq, high);
    BumpAllBelow(low, d.scheduled, high);
    var q' := RestoreQueue(EmptyQueue(DEFAULT_POLICY), ExportQueue(q), d);
    TreesOkMonotone(q'.main, BumpAll(low, d.main), high);
    TreesOkMonotone(q'.dlq, BumpAll(low, d.dlq), high);
    TreesOkMonotone(q'.scheduled, BumpAll(low, d.scheduled), high);
  }

  /** The generator of the restoring node has passed every preserved tag, and no id it drew for a main
      message is a preserved tag. */
  ghost predicate TagsClear(snap: QueueSnapshot, d: Draws, high: nat) {
    && (forall i | 0 <= i < |snap.inflight| :: snap.inflight[i].0 < high)
    && (forall i, j | 0 <= i < |snap.inflight| && 0 <= j < |d.main| :: snap.inflight[i].0 != d.main[j])
  }

  lemma {:induction false} InsertAllKeepsId(t: Tree<Message>, low: nat, ms: seq<Message>, ids: seq<u64>, j: nat)
    returns (i: nat)
    requires LaneTreeOk(t, low) && |ids| == |ms| && AscendingFrom(ids, low) && j < |t|
    ensures i < |InsertAll(t, ms, ids)| && KeyId(InsertAll(t, ms, ids)[i].key) == KeyId(t[j].key)
    decreases |ms|
  {
    i := j;
    hide EncodeKey, KeyId, Less;
    if ms != [] {
      var k := EncodeKey(ms[0].priority, ids[0]);
      FreshKeyAbsent(t, low, ms[0], ids[0]);
      RankSplits(t, k);
      InsertKeeps(t, k, ms[0], j);
      LaneTreeInsert(t, low, ms[0], ids[0]);
      i := InsertAllKeepsId(
        Insert(t, k, ms[0]), Bump(low, ids[0]), ms[1..], ids[1..], if j < Rank(t, k) then j else j + 1);
    }
  }

  lemma {:induction false} InsertAllHoldsId(t: Tree<Message>, low: nat, ms: seq<Message>, ids: seq<u64>, j: nat)
    returns (i: nat)
    requires LaneTreeOk(t, low) && |ids| == |ms| && AscendingFrom(ids, low) && j < |ids|
    ensures i < |InsertAll(t, ms, ids)| && KeyId(InsertAll(t, ms, ids)[i].key) == ids[j]
    decreases |ms|
  {
    var k := EncodeKey(ms[0].priority, ids[0]);
    LaneTreeInsert(t, low, ms[0], ids[0]);
    if j > 0 {
      i := InsertAllHoldsId(Insert(t, k, ms[0]), Bump(low, ids[0]), ms[1..], ids[1..], j - 1);
    } else {
      KeyIdRoundTrip(ms[0].priority, ids[0]);
      i := InsertAllKeepsId(Insert(t, k, ms[0]), Bump(low, ids[0]), ms[1..], ids[1..], Rank(t, k));
    }
  }

  lemma TagsBelow(t: Tree<Message>, issued: nat, high: nat)
    requires TagTreeOk(t, issued)
    ensures TagTreeOk(t, high) <==> forall i | 0 <= i < |t| :: Tagged(t)[i].0 < high
  {
    assert forall i | 0 <= i < |t| :: TagOk(t[i], issued) && Tagged(t)[i].0 == FromBe64(t[i].key);
    if TagTreeOk(t, high) {
      assert forall i | 0 <= i < |t| :: TagOk(t[i], high);
    }
  }

  /** The restored queue is well-formed exactly when the preserved tags are clear of the new ids. */
  lemma RestoredOkIff(q: QueueState, issued: nat, d: Draws, low: nat, high: nat)
    requires QueueOk(q, issued) && Fits(ExportQueue(q), d) && DrawsBetween(d, low, high)
    ensures QueueOk(RestoreQueue(EmptyQueue(DEFAULT_POLICY), ExportQueue(q), d), high)
            <==> TagsClear(ExportQueue(q), d, high)
  {
    var q' := RestoreQueue(EmptyQueue(DEFAULT_POLICY), ExportQueue(q), d);
    QueueRoundTrip(q, issued, d, low, high);
    TagsBelow(q.inflight, issued, high);
    assert QueueOk(q', high) <==> TagTreeOk(q.inflight, high) && IdsApart(q'.main, q.inflight);
    if TagsClear(ExportQueue(q), d, high) { ClearMeansApart(q, issued, d, low, high); }
    if IdsApart(q'.main, q.inflight) { ApartMeansClear(q, issued, d, low, high); }
  }

  lemma ClearMeansApart(q: QueueState, issued: nat, d: Draws, low: nat, high: nat)
    requires QueueOk(q, issued) && Fits(ExportQueue(q), d) && DrawsBetween(d, low, high)
    requires TagsClear(ExportQueue(q), d, high)
    ensures IdsApart(InsertAll([], Values(q.main), d.main), q.inflight)
  {
    var main := InsertAll([], Values(q.main), d.main);
    forall i | 0 <= i < |main|
      ensures !Has(q.inflight, Be64(KeyId(main[i].key)))
    {
      InsertAllIds([], low, Values(q.main), d.main, i);
      var id := KeyId(main[i].key);
      var j :| 0 <= j < |d.main| && d.main[j] == id;
      var r := Rank(q.inflight, Be64(id));
      if r < |q.inflight| {
        assert TagOk(q.inflight[r], issued) && ExportQueue(q).inflight[r].0 != d.main[j];
        Be64RoundTrip(id);
      }
    }
  }

  lemma ApartMeansClear(q: QueueState, issued: nat, d: Draws, low: nat, high: nat)
    requires QueueOk(q, issued) && Fits(ExportQueue(q), d) && DrawsBetween(d, low, high)
    requires IdsApart(InsertAll([], Values(q.main), d.main), q.inflight)
    ensures forall i, j | 0 <= i < |q.inflight| && 0 <= j < |d.main| :: ExportQueue(q).inflight[i].0 != d.main[j]
  {
    var main := InsertAll([], Values(q.main), d.main);
    forall i, j | 0 <= i < |q.inflight| && 0 <= j < |d.main|
      ensures ExportQueue(q).inflight[i].0 != d.main[j]
    {
      var k := InsertAllHoldsId([], low, Values(q.main), d.main, j);
      assert !Has(q.inflight, Be64(KeyId(main[k].key)));
      assert TagOk(q.inflight[i], issued);
      Be64Surjective(q.inflight[i].key);
      RankAt(q.inflight, i);
    }
  }

  // ----- What goes wrong when the conditions do not hold -----

  lemma {:induction false} InsertAllLength(t: Tree<Message>, low: nat, ms: seq<Message>, ids: seq<u64>)
    requires LaneTreeOk(t, low) && |ids| == |ms| && AscendingFrom(ids, low)
    ensures |InsertAll(t, ms, ids)| == |t| + |ms|
    decreases |ms|
  {
    if ms != [] {
      FreshKeyAbsent(t, low, ms[0], ids[0]);
      LaneTreeInsert(t, low, ms[0], ids[0]);
      InsertAllLength(Insert(t, EncodeKey(ms[0].priority, ids[0]), ms[0]), Bump(low, ids[0]), ms[1..], ids[1..]);
    }
  }

  /** A consume keeps every outstanding delivery exactly when the id of the first message is not one of
      the outstanding tags; otherwise the message under that tag is gone. */
  lemma ConsumeKeepsDeliveriesIff(q: QueueState)
    requires Sorted(q.inflight) && q.main != []
    ensures var k := Be64(KeyId(q.main[0].key));
            && (|TakeFirst(q).inflight| == |q.inflight| + 1 <==> !Has(q.inflight, k))
            && Get(TakeFirst(q).inflight, k) == Some(q.main[0].val)
  {
    GetInsert(q.inflight, Be64(KeyId(q.main[0].key)), q.main[0].val, Be64(KeyId(q.main[0].key)));
  }

  /** One message waits under an id and one is outstanding under a tag. */
  function ColliderQueue(waiting: Message, id: u64, outstanding: Message, tag: u64): QueueState {
    EmptyQueue(DEFAULT_POLICY).(
      main := [Entry(EncodeKey(waiting.priority, id), waiting)], inflight := [Entry(Be64(tag), outstanding)])
  }

  lemma ColliderQueueOk(waiting: Message, id: u64, outstanding: Message, tag: u64, issued: nat)
    requires tag != id && tag < issued && id < issued
    ensures QueueOk(ColliderQueue(waiting, id, outstanding, tag), issued)
    ensures Get(ColliderQueue(waiting, id, outstanding, tag).inflight, Be64(tag)) == Some(outstanding)
  {
    var q := ColliderQueue(waiting, id, outstanding, tag);
    KeyIdRoundTrip(waiting.priority, id);
    Be64RoundTrip(tag);
    Be64Order(tag, id);
    RankAt(q.inflight, 0);
  }

  /** If the restoring node draws the preserved tag itself as the id of the waiting message, the first
      consume after the restore replaces the outstanding delivery. */
  lemma RestoreCanLoseADelivery(waiting: Message, id: u64, outstanding: Message, tag: u64, d: Draws)
    requires tag != id && d == Draws([tag], [], [], [])
    ensures var snap := ExportQueue(ColliderQueue(waiting, id, outstanding, tag));
            && Fits(snap, d)
            && var q' := RestoreQueue(EmptyQueue(DEFAULT_POLICY), snap, d);
            && q'.main != [] && Get(q'.inflight, Be64(tag)) == Some(outstanding)
            && Get(TakeFirst(q').inflight, Be64(tag)) == Some(waiting) && |TakeFirst(q').inflight| == 1
  {
    var q := ColliderQueue(waiting, id, outstanding, tag);
    ColliderQueueOk(waiting, id, outstanding, tag, tag + id + 1);
    QueueRoundTrip(q, tag + id + 1, d, tag, tag + 1);
    var q' := RestoreQueue(EmptyQueue(DEFAULT_POLICY), ExportQueue(q), d);
    assert Values(q'.main)[0] == Values(q.main)[0] == waiting;
    InsertAllIds([], tag, Values(q.main), d.main, 0);
    ConsumeKeepsDeliveriesIff(q');
  }
}
