/** First in, first out, seen from the tags: within a lane, every outstanding tag is older than every
    waiting id.  No operation and no restart ever breaks this. */
module LaneTags {
  import opened Bytes
  import opened OrderedTree
  import opened Messages
  import opened Engine
  import opened Runs
  import opened WellFormed
  import opened DeliveryOrder
  import opened Lanes

  /** The tag of every outstanding delivery is below the id of every waiting message of its lane. */
  ghost predicate Older(o: map<u64, Message>, main: Tree<Message>) {
    forall t, i | t in o && 0 <= i < |main| && Lane(o[t]) == Lane(main[i].val) :: t < KeyId(main[i].key)
  }

  ghost predicate LaneTagsBelow(q: QueueState) {
    Older(Outstanding(q.inflight), q.main)
  }

  lemma TagsIssued(t: Tree<Message>, issued: nat, tag: u64)
    requires TagTreeOk(t, issued) && tag in Outstanding(t)
    ensures tag < issued
  {
    Be64RoundTrip(tag);
    assert TagOk(t[Rank(t, Be64(tag))], issued);
  }

  /** Entries of a ready tree are old or carry a fresh id. */
  ghost predicate OldOrFresh(main: Tree<Message>, main': Tree<Message>, low: nat) {
    forall i | 0 <= i < |main'| :: main'[i] in main || low <= KeyId(main'[i].key)
  }

  lemma FreshKeepsOlder(inflight: Tree<Message>, main: Tree<Message>, main': Tree<Message>, low: nat)
    requires TagTreeOk(inflight, low) && Older(Outstanding(inflight), main) && OldOrFresh(main, main', low)
    ensures Older(Outstanding(inflight), main')
  {
    var o := Outstanding(inflight);
    hide Outstanding, TagTreeOk, KeyId;
    forall t, i | t in o && 0 <= i < |main'| && Lane(o[t]) == Lane(main'[i].val)
      ensures t < KeyId(main'[i].key)
    {
      TagsIssued(inflight, low, t);
    }
  }

  lemma InsertIsFresh(main: Tree<Message>, m: Message, id: u64, low: nat)
    requires low <= id
    ensures OldOrFresh(main, Insert(main, EncodeKey(m.priority, id), m), low)
  {
    KeyIdRoundTrip(m.priority, id);
    hide EncodeKey, KeyId;
    var k := EncodeKey(m.priority, id);
    forall i | 0 <= i < |Insert(main, k, m)|
      ensures Insert(main, k, m)[i] in main || low <= KeyId(Insert(main, k, m)[i].key)
    {
      InsertOrigin(main, k, m, i);
    }
  }

  lemma OldOrFreshChain(a: Tree<Message>, b: Tree<Message>, c: Tree<Message>, low: nat)
    requires OldOrFresh(a, b, low) && OldOrFresh(b, c, low)
    ensures OldOrFresh(a, c, low)
  {
    hide KeyId;
  }

  lemma {:induction false} InsertAllIsFresh(main: Tree<Message>, ms: seq<Message>, ids: seq<u64>, low: nat)
    requires |ids| == |ms| && AscendingFrom(ids, low)
    ensures OldOrFresh(main, InsertAll(main, ms, ids), low)
    decreases |ms|
  {
    if ms != [] {
      var main' := Insert(main, EncodeKey(ms[0].priority, ids[0]), ms[0]);
      InsertIsFresh(main, ms[0], ids[0], low);
      InsertAllIsFresh(main', ms[1..], ids[1..], low);
      hide OldOrFresh, Insert, EncodeKey;
      OldOrFreshChain(main, main', InsertAll(main', ms[1..], ids[1..]), low);
    }
  }

  lemma RetainedIsOld(q: QueueState, now: millis, low: nat)
    ensures OldOrFresh(q.main, Retained(q, now), low)
  {
    var kept := Retained(q, now);
    forall i | 0 <= i < |kept|
      ensures kept[i] in q.main
    {
      if q.policy.maxAgeSecs.Some? {
        DropExpiredMember(q.main, now, MillisOf(q.policy.maxAgeSecs.value), kept[i]);
      }
    }
  }

  lemma FewerStayOlder(o: map<u64, Message>, main: Tree<Message>, tag: u64)
    requires Older(o, main)
    ensures Older(o - {tag}, main)
  {
  }

  lemma TakingKeepsOlder(q: QueueState, low: nat)
    requires QueueOk(q, low) && LaneTagsBelow(q) && q.main != []
    ensures LaneTagsBelow(TakeFirst(q))
  {
    hide Outstanding, KeyId, Insert, Older, LaneTreeOk;
    OutstandingInsert(q.inflight, KeyId(q.main[0].key), q.main[0].val);
    FirstJoinsOlder(Outstanding(q.inflight), q.main, low);
  }

  /** The first waiting message is older than the rest of its lane. */
  lemma FirstJoinsOlder(o: map<u64, Message>, main: Tree<Message>, low: nat)
    requires LaneTreeOk(main, low) && main != [] && Older(o, main)
    ensures Older(o[KeyId(main[0].key) := main[0].val], main[1..])
  {
    hide KeyId, LaneTreeOk;
    var tag, rest := KeyId(main[0].key), main[1..];
    var o' := o[tag := main[0].val];
    forall t, i | t in o' && 0 <= i < |rest| && Lane(o'[t]) == Lane(rest[i].val)
      ensures t < KeyId(rest[i].key)
    {
      assert rest[i] == main[i + 1];
      LaneTreeOrder(main, low, 0, i + 1);
    }
  }

  lemma RemovingKeepsOlder(q: QueueState, tag: u64)
    requires Sorted(q.inflight) && LaneTagsBelow(q)
    ensures LaneTagsBelow(q.(inflight := Remove(q.inflight, Be64(tag))))
  {
    OutstandingRemove(q.inflight, tag);
    FewerStayOlder(Outstanding(q.inflight), q.main, tag);
  }

  lemma StoringKeepsOlder(q: QueueState, m: Message, clock: Readings, id: u64, low: nat)
    requires QueueOk(q, low) && LaneTagsBelow(q) && low <= id
    ensures LaneTagsBelow(StoreMessage(q, m, clock, id))
  {
    InsertIsFresh(q.main, m, id, low);
    FreshKeepsOlder(q.inflight, q.main, EnqueueMain(q, m, id).main, low);
    hide Older, Outstanding, Insert, QueueOk;
  }

  lemma ReturningKeepsOlder(q: QueueState, tag: u64, m: Message, id: u64, low: nat)
    requires QueueOk(q, low) && LaneTagsBelow(q) && low <= id
    ensures LaneTagsBelow(Return(q, tag, m, id))
  {
    hide Older, Outstanding, Insert, Remove, LaneTreeOk, IdsApart, ScheduleOk, TagOk, Has, EncodeKey, OldOrFresh;
    var q' := q.(inflight := Remove(q.inflight, Be64(tag)));
    RemovingKeepsOlder(q, tag);
    InsertIsFresh(q.main, Nacked(m), id, low);
    TagTreeRemove(q.inflight, low, tag);
    FreshKeepsOlder(q'.inflight, q'.main, EnqueueMain(q', Nacked(m), id).main, low);
  }

  lemma TagTreeRemove(t: Tree<Message>, issued: nat, tag: u64)
    requires TagTreeOk(t, issued)
    ensures TagTreeOk(Remove(t, Be64(tag)), issued)
  {
    hide Less, TagOk;
  }

  /** Every change of a queue keeps outstanding tags older than the waiting ids of their lane. */
  lemma ChangeKeepsLaneTags(q: QueueState, c: Change, low: nat, high: nat)
    requires QueueOk(q, low) && Legal(q, c) && DrawnBetween(c, low, high) && LaneTagsBelow(q)
    ensures LaneTagsBelow(Apply(q, c))
  {
    match c
    case Unchanged =>
    case Stores(m, clock, id) => StoringKeepsOlder(q, m, clock, id, low);
    case Takes => TakingKeepsOlder(q, low);
    case Releases(tag) => RemovingKeepsOlder(q, tag);
    case Returns(tag, id) => ReturningKeepsOlder(q, tag, Get(q.inflight, Be64(tag)).value, id, low);
    case Promotes(now, ids) =>
      var due := Values(q.scheduled[..DueCount(q.scheduled, now)]);
      InsertAllIsFresh(q.main, due, ids, low);
      FreshKeepsOlder(q.inflight, q.main, InsertAll(q.main, due, ids), low);
    case Retains(now) =>
      RetainedIsOld(q, now, low);
      FreshKeepsOlder(q.inflight, q.main, Retained(q, now), low);
    case Recovers(ids) => OutstandingEmpty();
  }

  ghost predicate AllLaneTagsBelow(s: Manager) {
    forall n | n in s.queues :: LaneTagsBelow(s.queues[n])
  }

  lemma StepKeepsLaneTags(s: Manager, e: Event)
    requires ManagerOk(s) && Admissible(s, e) && AllLaneTagsBelow(s)
    ensures AllLaneTagsBelow(Next(s, e))
  {
    EventSplits(s, e);
    OutstandingEmpty();
    var s' := Next(s, e);
    hide Next, ChangeOf, Apply, Legal, DrawnBetween, Enabled, FreshIds;
    forall n | n in s'.queues
      ensures LaneTagsBelow(s'.queues[n])
    {
      if n in s.queues { ChangeKeepsLaneTags(s.queues[n], ChangeOf(s, e, n), s.issued, s'.issued); }
    }
  }

  /** Over every run, restarts included, outstanding tags stay older than the waiting ids of their lane.
      A database without queues has the property, so every run from one has it throughout. */
  lemma {:induction false} RunKeepsLaneTags(ss: seq<Manager>, es: seq<Event>, i: nat)
    requires IsRun(ss, es) && ManagerOk(ss[0]) && AllLaneTagsBelow(ss[0]) && i < |ss|
    ensures AllLaneTagsBelow(ss[i])
  {
    hide ManagerOk, AllLaneTagsBelow, Next, Admissible;
    if i > 0 {
      RunKeepsLaneTags(ss, es, i - 1);
      RunKeepsOk(ss, es, i - 1);
      RunAt(ss, es, i - 1);
      StepKeepsLaneTags(ss[i - 1], es[i - 1]);
    }
  }
}
