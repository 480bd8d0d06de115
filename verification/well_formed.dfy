/** What every operation keeps: trees in key order, keys that spell out the lane and id of their
    message, ids that are pairwise distinct and already issued. */
module WellFormed {
  import opened Bytes
  import opened Results
  import opened OrderedTree
  import opened Messages
  import opened Engine
  import opened Runs

  /** An entry of the main or dead-letter tree: inverted lane, then an issued id. */
  predicate EntryOk(e: Entry<Message>, issued: nat) {
    |e.key| == 9 && e.key[0] == 9 - Lane(e.val) && KeyId(e.key) < issued
  }

  predicate TagOk(e: Entry<Message>, issued: nat) {
    |e.key| == 8 && FromBe64(e.key) < issued
  }

  predicate SlotOk(e: Entry<Message>, issued: nat) {
    && |e.key| == 16
    && e.val.deliverAt == Some(ScheduledTime(e.key))
    && 0 <= ScheduledTime(e.key)
    && ScheduledId(e.key) < issued
  }

  ghost predicate LaneTreeOk(t: Tree<Message>, issued: nat) {
    && Sorted(t)
    && (forall i | 0 <= i < |t| :: EntryOk(t[i], issued))
    && (forall i, j | 0 <= i < j < |t| :: KeyId(t[i].key) != KeyId(t[j].key))
  }

  ghost predicate TagTreeOk(t: Tree<Message>, issued: nat) {
    Sorted(t) && forall i | 0 <= i < |t| :: TagOk(t[i], issued)
  }

  ghost predicate ScheduleOk(t: Tree<Message>, issued: nat) {
    Sorted(t) && forall i | 0 <= i < |t| :: SlotOk(t[i], issued)
  }

  /** No waiting message has the id of an outstanding delivery. */
  ghost predicate IdsApart(main: Tree<Message>, inflight: Tree<Message>) {
    forall i | 0 <= i < |main| :: !Has(inflight, Be64(KeyId(main[i].key)))
  }

  ghost predicate QueueOk(q: QueueState, issued: nat) {
    && LaneTreeOk(q.main, issued)
    && TagTreeOk(q.inflight, issued)
    && IdsApart(q.main, q.inflight)
    && ScheduleOk(q.scheduled, issued)
    && LaneTreeOk(q.dlq, issued)
    && Sorted(q.dedup)
  }

  ghost predicate ManagerOk(s: Manager) {
    forall n | n in s.queues :: QueueOk(s.queues[n], s.issued)
  }

  lemma QueueOkMonotone(q: QueueState, low: nat, high: nat)
    requires QueueOk(q, low) && low <= high
    ensures QueueOk(q, high)
  {
  }

  lemma TreesOkMonotone(t: Tree<Message>, low: nat, high: nat)
    requires low <= high
    ensures LaneTreeOk(t, low) ==> LaneTreeOk(t, high)
    ensures ScheduleOk(t, low) ==> ScheduleOk(t, high)
  {
  }

  // ----- Trees -----

  lemma FreshKeyAbsent(t: Tree<Message>, issued: nat, m: Message, id: u64)
    requires LaneTreeOk(t, issued) && issued <= id
    ensures !Has(t, EncodeKey(m.priority, id))
  {
    KeyIdRoundTrip(m.priority, id);
    assert forall i | 0 <= i < |t| :: EntryOk(t[i], issued);
  }

  lemma LaneTreeInsert(t: Tree<Message>, issued: nat, m: Message, id: u64)
    requires LaneTreeOk(t, issued) && issued <= id
    ensures LaneTreeOk(Insert(t, EncodeKey(m.priority, id), m), id + 1)
  {
    var k := EncodeKey(m.priority, id);
    FreshKeyAbsent(t, issued, m, id);
    KeyIdRoundTrip(m.priority, id);
    InsertSorted(t, k, m);
    InsertShape(t, k, m);
    hide EncodeKey, KeyId, Less, Insert, Rank, Has;
    assert forall i | 0 <= i < |t| :: EntryOk(t[i], issued);
  }

  lemma InsertShape(t: Tree<Message>, k: Key, m: Message)
    requires !Has(t, k)
    ensures var r, t' := Rank(t, k), Insert(t, k, m);
            && |t'| == |t| + 1
            && forall i | 0 <= i < |t'| :: t'[i] == if i < r then t[i] else if i == r then Entry(k, m) else t[i - 1]
  {
    hide Less;
  }

  lemma {:induction false} LaneTreeInsertAll(t: Tree<Message>, issued: nat, ms: seq<Message>, ids: seq<u64>)
    requires LaneTreeOk(t, issued) && |ids| == |ms| && AscendingFrom(ids, issued)
    ensures LaneTreeOk(InsertAll(t, ms, ids), BumpAll(issued, ids))
    ensures issued <= BumpAll(issued, ids)
    decreases |ms|
  {
    if ms != [] {
      LaneTreeInsert(t, issued, ms[0], ids[0]);
      LaneTreeInsertAll(Insert(t, EncodeKey(ms[0].priority, ids[0]), ms[0]), Bump(issued, ids[0]), ms[1..], ids[1..]);
    }
  }

  /** The ids after inserting a batch are old ids or ids of the batch. */
  lemma {:induction false} InsertAllIds(t: Tree<Message>, issued: nat, ms: seq<Message>, ids: seq<u64>, i: nat)
    requires LaneTreeOk(t, issued) && |ids| == |ms| && AscendingFrom(ids, issued)
    requires i < |InsertAll(t, ms, ids)|
    ensures var id := KeyId(InsertAll(t, ms, ids)[i].key);
            (exists j :: 0 <= j < |t| && KeyId(t[j].key) == id) || id in ids
    decreases |ms|
  {
    if ms != [] {
      var k := EncodeKey(ms[0].priority, ids[0]);
      LaneTreeInsert(t, issued, ms[0], ids[0]);
      var t' := Insert(t, k, ms[0]);
      InsertAllIds(t', Bump(issued, ids[0]), ms[1..], ids[1..], i);
      var id := KeyId(InsertAll(t, ms, ids)[i].key);
      if id !in ids[1..] {
        var j :| 0 <= j < |t'| && KeyId(t'[j].key) == id;
        InsertOrigin(t, k, ms[0], j);
        KeyIdRoundTrip(ms[0].priority, ids[0]);
      }
    }
  }

  lemma TagTreeInsert(t: Tree<Message>, issued: nat, tag: u64, m: Message)
    requires TagTreeOk(t, issued) && tag < issued
    ensures TagTreeOk(Insert(t, Be64(tag), m), issued)
  {
    InsertSorted(t, Be64(tag), m);
    Be64RoundTrip(tag);
    forall i | 0 <= i < |Insert(t, Be64(tag), m)|
      ensures TagOk(Insert(t, Be64(tag), m)[i], issued)
    {
      InsertOrigin(t, Be64(tag), m, i);
    }
  }

  lemma UnissuedTagAbsent(t: Tree<Message>, issued: nat, tag: u64)
    requires TagTreeOk(t, issued) && issued <= tag
    ensures !Has(t, Be64(tag))
  {
    Be64RoundTrip(tag);
    assert forall i | 0 <= i < |t| :: TagOk(t[i], issued);
  }

  lemma ScheduleInsert(t: Tree<Message>, issued: nat, m: Message, id: u64)
    requires ScheduleOk(t, issued) && issued <= id && m.deliverAt.Some? && 0 <= m.deliverAt.value
    ensures ScheduleOk(Insert(t, EncodeScheduledKey(m.deliverAt.value, id), m), id + 1)
    ensures !Has(t, EncodeScheduledKey(m.deliverAt.value, id))
  {
    var k := EncodeScheduledKey(m.deliverAt.value, id);
    ScheduledKeyRoundTrip(m.deliverAt.value, id);
    InsertSorted(t, k, m);
    forall i | 0 <= i < |Insert(t, k, m)|
      ensures SlotOk(Insert(t, k, m)[i], id + 1)
    {
      InsertOrigin(t, k, m, i);
    }
    assert forall i | 0 <= i < |t| :: SlotOk(t[i], issued);
  }

  lemma {:induction false} DropExpiredMember(t: Tree<Message>, now: millis, maxAge: i64, e: Entry<Message>)
    requires e in DropExpired(t, now, maxAge)
    ensures e in t
  {
    if t != [] && e in DropExpired(t[1..], now, maxAge) {
      DropExpiredMember(t[1..], now, maxAge, e);
      assert e in t[1..];
    }
  }

  lemma LaneTreeCons(e: Entry<Message>, rest: Tree<Message>, issued: nat)
    requires LaneTreeOk(rest, issued) && EntryOk(e, issued)
    requires forall i | 0 <= i < |rest| :: Less(e.key, rest[i].key) && KeyId(e.key) != KeyId(rest[i].key)
    ensures LaneTreeOk([e] + rest, issued)
  {
    var t := [e] + rest;
    assert forall i | 1 <= i < |t| :: t[i] == rest[i - 1];
  }

  lemma {:induction false} DropExpiredOk(t: Tree<Message>, now: millis, maxAge: i64, issued: nat)
    requires LaneTreeOk(t, issued)
    ensures LaneTreeOk(DropExpired(t, now, maxAge), issued)
  {
    if t != [] {
      var rest := DropExpired(t[1..], now, maxAge);
      DropExpiredOk(t[1..], now, maxAge, issued);
      if Expired(t[0].val, now, maxAge) {
        assert DropExpired(t, now, maxAge) == rest;
      } else {
        forall i | 0 <= i < |rest|
          ensures Less(t[0].key, rest[i].key) && KeyId(t[0].key) != KeyId(rest[i].key)
        {
          DropExpiredMember(t[1..], now, maxAge, rest[i]);
          var j :| 0 <= j < |t[1..]| && t[1..][j] == rest[i];
          assert t[j + 1] == rest[i];
        }
        LaneTreeCons(t[0], rest, issued);
      }
    }
  }

  lemma RetainedOk(q: QueueState, now: millis, issued: nat)
    requires LaneTreeOk(q.main, issued)
    ensures LaneTreeOk(Retained(q, now), issued)
    ensures forall i | 0 <= i < |Retained(q, now)| :: Retained(q, now)[i] in q.main
  {
    if q.policy.maxAgeSecs.Some? {
      var maxAge := MillisOf(q.policy.maxAgeSecs.value);
      var young := DropExpired(q.main, now, maxAge);
      DropExpiredOk(q.main, now, maxAge, issued);
      forall i | 0 <= i < |young|
        ensures young[i] in q.main
      {
        DropExpiredMember(q.main, now, maxAge, young[i]);
      }
    }
  }

  // ----- Operations -----

  lemma EnqueueOk(q: QueueState, issued: nat, m: Message, id: u64)
    requires QueueOk(q, issued) && issued <= id
    ensures QueueOk(EnqueueMain(q, m, id), id + 1)
  {
    var k := EncodeKey(m.priority, id);
    LaneTreeInsert(q.main, issued, m, id);
    UnissuedTagAbsent(q.inflight, issued, id);
    KeyIdRoundTrip(m.priority, id);
    forall i | 0 <= i < |Insert(q.main, k, m)|
      ensures !Has(q.inflight, Be64(KeyId(Insert(q.main, k, m)[i].key)))
    {
      InsertOrigin(q.main, k, m, i);
    }
  }

  lemma StoringOk(q: QueueState, issued: nat, m: Message, clock: Readings, id: u64)
    requires QueueOk(q, issued) && issued <= id
    ensures QueueOk(StoreMessage(q, m, clock, id), id + 1)
  {
    hide EncodeKey, EncodeScheduledKey, Less, EntryOk, SlotOk, TagOk, Has, IdsApart;
    QueueOkMonotone(q, issued, id + 1);
    if m.deliverAt.Some? && m.deliverAt.value > clock.due {
      ScheduleInsert(q.scheduled, issued, m, id);
    } else {
      EnqueueOk(q, issued, m, id);
    }
    if RecordsDedup(q, m) { InsertSorted(q.dedup, m.dedupKey.value, clock.record); }
  }

  /** Dropping the priority byte never overwrites an outstanding delivery. */
  lemma TakeFirstOk(q: QueueState, issued: nat)
    requires QueueOk(q, issued) && q.main != []
    ensures !Has(q.inflight, Be64(KeyId(q.main[0].key)))
    ensures QueueOk(TakeFirst(q), issued)
  {
    var tag := KeyId(q.main[0].key);
    assert EntryOk(q.main[0], issued);
    TagTreeInsert(q.inflight, issued, tag, q.main[0].val);
    forall i | 1 <= i < |q.main|
      ensures !Has(Insert(q.inflight, Be64(tag), q.main[0].val), Be64(KeyId(q.main[i].key)))
    {
      GetInsert(q.inflight, Be64(tag), q.main[0].val, Be64(KeyId(q.main[i].key)));
      Be64Order(tag, KeyId(q.main[i].key));
    }
  }

  lemma ReleaseOk(q: QueueState, issued: nat, tag: u64)
    requires QueueOk(q, issued)
    ensures QueueOk(q.(inflight := Remove(q.inflight, Be64(tag))), issued)
  {
    forall i | 0 <= i < |q.main|
      ensures !Has(Remove(q.inflight, Be64(tag)), Be64(KeyId(q.main[i].key)))
    {
      GetRemove(q.inflight, Be64(tag), Be64(KeyId(q.main[i].key)));
    }
  }

  lemma ReturnOk(q: QueueState, issued: nat, tag: u64, m: Message, id: u64)
    requires QueueOk(q, issued) && issued <= id
    ensures QueueOk(Return(q, tag, m, id), id + 1)
  {
    var q' := q.(inflight := Remove(q.inflight, Be64(tag)));
    ReleaseOk(q, issued, tag);
    if Exhausted(q.policy, Nacked(m)) {
      LaneTreeInsert(q.dlq, issued, Nacked(m), id);
    } else {
      EnqueueOk(q', issued, Nacked(m), id);
    }
  }

  lemma BatchApart(q: QueueState, issued: nat, ms: seq<Message>, ids: seq<u64>)
    requires QueueOk(q, issued) && |ids| == |ms| && AscendingFrom(ids, issued)
    ensures IdsApart(InsertAll(q.main, ms, ids), q.inflight)
  {
    forall i | 0 <= i < |InsertAll(q.main, ms, ids)|
      ensures !Has(q.inflight, Be64(KeyId(InsertAll(q.main, ms, ids)[i].key)))
    {
      InsertAllIds(q.main, issued, ms, ids, i);
      var id := KeyId(InsertAll(q.main, ms, ids)[i].key);
      if id in ids { UnissuedTagAbsent(q.inflight, issued, id); }
    }
  }

  lemma PromoteDueOk(q: QueueState, issued: nat, now: millis, ids: seq<u64>)
    requires QueueOk(q, issued) && |ids| == DueCount(q.scheduled, now) && AscendingFrom(ids, issued)
    ensures QueueOk(PromoteDue(q, now, ids), BumpAll(issued, ids)) && issued <= BumpAll(issued, ids)
  {
    var due := Values(q.scheduled[..DueCount(q.scheduled, now)]);
    LaneTreeInsertAll(q.main, issued, due, ids);
    BatchApart(q, issued, due, ids);
  }

  lemma RetentionOk(q: QueueState, now: millis, issued: nat)
    requires QueueOk(q, issued)
    ensures QueueOk(q.(main := Retained(q, now)), issued)
  {
    RetainedOk(q, now, issued);
    forall i | 0 <= i < |Retained(q, now)|
      ensures !Has(q.inflight, Be64(KeyId(Retained(q, now)[i].key)))
    {
      var j :| 0 <= j < |q.main| && q.main[j] == Retained(q, now)[i];
    }
  }

  lemma {:induction false} BumpAllBelow(issued: nat, ids: seq<u64>, high: nat)
    requires issued <= high && forall i | 0 <= i < |ids| :: ids[i] < high
    ensures BumpAll(issued, ids) <= high
    decreases |ids|
  {
    if ids != [] { BumpAllBelow(Bump(issued, ids[0]), ids[1..], high); }
  }

  lemma RecoverOk(q: QueueState, issued: nat, ids: seq<u64>, high: nat)
    requires QueueOk(q, issued) && |ids| == |q.inflight| && AscendingFrom(ids, issued)
    requires issued <= high && forall i | 0 <= i < |ids| :: ids[i] < high
    ensures QueueOk(Recover(q, ids), high)
  {
    LaneTreeInsertAll(q.main, issued, Values(q.inflight), ids);
    BumpAllBelow(issued, ids, high);
  }

  /** Every change keeps a queue well-formed. */
  lemma ChangeKeepsOk(q: QueueState, c: Change, low: nat, high: nat)
    requires QueueOk(q, low) && Legal(q, c) && DrawnBetween(c, low, high)
    ensures QueueOk(Apply(q, c), high)
  {
    match c
    case Unchanged => QueueOkMonotone(q, low, high);
    case Stores(m, clock, id) =>
      StoringOk(q, low, m, clock, id);
      QueueOkMonotone(Apply(q, c), id + 1, high);
    case Takes =>
      TakeFirstOk(q, low);
      QueueOkMonotone(Apply(q, c), low, high);
    case Releases(tag) =>
      ReleaseOk(q, low, tag);
      QueueOkMonotone(Apply(q, c), low, high);
    case Returns(tag, id) =>
      ReturnOk(q, low, tag, Get(q.inflight, Be64(tag)).value, id);
      QueueOkMonotone(Apply(q, c), id + 1, high);
    case Promotes(now, ids) =>
      PromoteDueOk(q, low, now, ids);
      BumpAllBelow(low, ids, high);
      QueueOkMonotone(Apply(q, c), BumpAll(low, ids), high);
    case Retains(now) =>
      RetentionOk(q, now, low);
      QueueOkMonotone(Apply(q, c), low, high);
    case Recovers(ids) => RecoverOk(q, low, ids, high);
  }

  /** One operation keeps the state well-formed. */
  lemma StepKeepsOk(s: Manager, e: Event)
    requires ManagerOk(s) && Admissible(s, e)
    ensures ManagerOk(Next(s, e)) && s.issued <= Next(s, e).issued
  {
    var s' := Next(s, e);
    EventSplits(s, e);
    forall n | n in s'.queues
      ensures QueueOk(s'.queues[n], s'.issued)
    {
      if n in s.queues { ChangeKeepsOk(s.queues[n], ChangeOf(s, e, n), s.issued, s'.issued); }
    }
  }

  /** Every state of every run from a well-formed state is well-formed. */
  lemma {:induction false} RunKeepsOk(ss: seq<Manager>, es: seq<Event>, n: nat)
    requires IsRun(ss, es) && ManagerOk(ss[0]) && n < |ss|
    ensures ManagerOk(ss[n]) && ss[0].issued <= ss[n].issued
  {
    if n > 0 {
      RunKeepsOk(ss, es, n - 1);
      assert Admissible(ss[n - 1], es[n - 1]);
      StepKeepsOk(ss[n - 1], es[n - 1]);
    }
  }

  lemma RunQueueOk(ss: seq<Manager>, es: seq<Event>, n: Name, i: nat)
    requires IsRun(ss, es) && ManagerOk(ss[0]) && i <= |es| && n in ss[i].queues
    ensures QueueOk(ss[i].queues[n], ss[i].issued)
  {
    RunKeepsOk(ss, es, i);
    hide IsRun, QueueOk;
  }
}
