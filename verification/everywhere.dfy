/** Properties that hold of every message in a tree, and how the tree operations carry them along. */
module Everywhere {
  import opened Bytes
  import opened Results
  import opened OrderedTree
  import opened Messages
  import opened Engine
  import opened Runs
  import opened WellFormed

  ghost predicate All(t: Tree<Message>, p: Message -> bool) {
    forall i | 0 <= i < |t| :: p(t[i].val)
  }

  ghost predicate AllOf(ms: seq<Message>, p: Message -> bool) {
    forall i | 0 <= i < |ms| :: p(ms[i])
  }

  lemma AllInsert(t: Tree<Message>, k: Key, m: Message, p: Message -> bool)
    requires All(t, p) && p(m)
    ensures All(Insert(t, k, m), p)
  {
    forall i | 0 <= i < |Insert(t, k, m)|
      ensures p(Insert(t, k, m)[i].val)
    {
      InsertOrigin(t, k, m, i);
    }
  }

  lemma AllRemove(t: Tree<Message>, k: Key, p: Message -> bool)
    requires All(t, p)
    ensures All(Remove(t, k), p)
  {
  }

  lemma AllGet(t: Tree<Message>, k: Key, p: Message -> bool)
    requires All(t, p) && Has(t, k)
    ensures p(Get(t, k).value)
  {
  }

  lemma {:induction false} AllInsertAll(t: Tree<Message>, ms: seq<Message>, ids: seq<u64>, p: Message -> bool)
    requires All(t, p) && AllOf(ms, p) && |ids| == |ms|
    ensures All(InsertAll(t, ms, ids), p)
    decreases |ms|
  {
    if ms != [] {
      AllInsert(t, EncodeKey(ms[0].priority, ids[0]), ms[0], p);
      AllInsertAll(Insert(t, EncodeKey(ms[0].priority, ids[0]), ms[0]), ms[1..], ids[1..], p);
    }
  }

  lemma AllRetained(q: QueueState, now: millis, issued: nat, p: Message -> bool)
    requires LaneTreeOk(q.main, issued) && All(q.main, p)
    ensures All(Retained(q, now), p)
  {
    RetainedOk(q, now, issued);
    forall i | 0 <= i < |Retained(q, now)|
      ensures p(Retained(q, now)[i].val)
    {
      var j :| 0 <= j < |q.main| && q.main[j] == Retained(q, now)[i];
    }
  }

  /** `p` holds of every message that waits, is in flight or is scheduled, and `d` of every dead letter. */
  ghost predicate Throughout(q: QueueState, p: Message -> bool, d: Message -> bool) {
    All(q.main, p) && All(q.inflight, p) && All(q.scheduled, p) && All(q.dlq, d)
  }

  lemma StoreThroughout(q: QueueState, m: Message, clock: Readings, id: u64, p: Message -> bool, d: Message -> bool)
    requires Throughout(q, p, d) && p(m)
    ensures Throughout(StoreMessage(q, m, clock, id), p, d)
  {
    if m.deliverAt.Some? {
      AllInsert(q.scheduled, EncodeScheduledKey(m.deliverAt.value, id), m, p);
    }
    AllInsert(q.main, EncodeKey(m.priority, id), m, p);
  }

  lemma TakeThroughout(q: QueueState, p: Message -> bool, d: Message -> bool)
    requires Throughout(q, p, d) && q.main != []
    ensures Throughout(TakeFirst(q), p, d)
  {
    AllInsert(q.inflight, Be64(KeyId(q.main[0].key)), q.main[0].val, p);
  }

  lemma ReturnThroughout(q: QueueState, tag: u64, m: Message, id: u64, p: Message -> bool, d: Message -> bool)
    requires Throughout(q.(inflight := Remove(q.inflight, Be64(tag))), p, d)
    requires if Exhausted(q.policy, Nacked(m)) then d(Nacked(m)) else p(Nacked(m))
    ensures Throughout(Return(q, tag, m, id), p, d)
  {
    if Exhausted(q.policy, Nacked(m)) {
      AllInsert(q.dlq, EncodeKey(m.priority, id), Nacked(m), d);
    } else {
      AllInsert(q.main, EncodeKey(m.priority, id), Nacked(m), p);
    }
  }

  /** Every change but a nack carries such a property along, given it of the message a publish stores. */
  lemma ChangeThroughout(q: QueueState, c: Change, issued: nat, p: Message -> bool, d: Message -> bool)
    requires QueueOk(q, issued) && Legal(q, c) && Throughout(q, p, d)
    requires c.Stores? ==> p(c.msg)
    requires !c.Returns?
    ensures Throughout(Apply(q, c), p, d)
  {
    match c
    case Stores(m, clock, id) => StoreThroughout(q, m, clock, id, p, d);
    case Takes => TakeThroughout(q, p, d);
    case Releases(tag) => AllRemove(q.inflight, Be64(tag), p);
    case Promotes(now, ids) =>
      AllInsertAll(q.main, Values(q.scheduled[..DueCount(q.scheduled, now)]), ids, p);
    case Retains(now) => AllRetained(q, now, issued, p);
    case Recovers(ids) => AllInsertAll(q.main, Values(q.inflight), ids, p);
    case _ =>
  }
}
