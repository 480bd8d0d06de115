/** Delivery tags are never reused: a tag is handed out at most once, and once settled it stays invalid. */
module Tags {
  import opened Bytes
  import opened Results
  import opened OrderedTree
  import opened Messages
  import opened Engine
  import opened Runs
  import opened WellFormed

  /** No message waiting in the queue carries this id. */
  ghost predicate NotWaiting(q: QueueState, tag: u64) {
    forall i | 0 <= i < |q.main| :: KeyId(q.main[i].key) != tag
  }

  /** The tag was drawn and cannot be delivered again. */
  ghost predicate Spent(s: Manager, n: Name, tag: u64) {
    n in s.queues && tag < s.issued && NotWaiting(s.queues[n], tag)
  }

  /** The tag was drawn and is neither waiting nor outstanding. */
  ghost predicate Retired(s: Manager, n: Name, tag: u64) {
    Spent(s, n, tag) && !Has(s.queues[n].inflight, Be64(tag))
  }

  lemma EnqueueNotWaiting(q: QueueState, m: Message, id: u64, tag: u64)
    requires NotWaiting(q, tag) && tag != id
    ensures NotWaiting(EnqueueMain(q, m, id), tag)
  {
    var k := EncodeKey(m.priority, id);
    KeyIdRoundTrip(m.priority, id);
    forall i | 0 <= i < |Insert(q.main, k, m)|
      ensures KeyId(Insert(q.main, k, m)[i].key) != tag
    {
      InsertOrigin(q.main, k, m, i);
    }
  }

  lemma BatchNotWaiting(q: QueueState, issued: nat, ms: seq<Message>, ids: seq<u64>, tag: u64)
    requires LaneTreeOk(q.main, issued) && |ids| == |ms| && AscendingFrom(ids, issued)
    requires NotWaiting(q, tag) && tag < issued
    ensures NotWaiting(q.(main := InsertAll(q.main, ms, ids)), tag)
  {
    forall i | 0 <= i < |InsertAll(q.main, ms, ids)|
      ensures KeyId(InsertAll(q.main, ms, ids)[i].key) != tag
    {
      InsertAllIds(q.main, issued, ms, ids, i);
    }
  }

  lemma ChangeNotWaiting(q: QueueState, c: Change, low: nat, high: nat, tag: u64)
    requires QueueOk(q, low) && Legal(q, c) && DrawnBetween(c, low, high)
    requires NotWaiting(q, tag) && tag < low
    ensures NotWaiting(Apply(q, c), tag)
  {
    match c
    case Stores(m, _, id) => EnqueueNotWaiting(q, m, id, tag);
    case Returns(t, id) =>
      var m := Get(q.inflight, Be64(t)).value;
      EnqueueNotWaiting(q.(inflight := Remove(q.inflight, Be64(t))), Nacked(m), id, tag);
    case Promotes(now, ids) =>
      BatchNotWaiting(q, low, Values(q.scheduled[..DueCount(q.scheduled, now)]), ids, tag);
    case Retains(now) => RetainedOk(q, now, low);
    case Recovers(ids) => BatchNotWaiting(q, low, Values(q.inflight), ids, tag);
    case _ =>
  }

  lemma ChangeKeepsAbsent(q: QueueState, c: Change, low: nat, high: nat, tag: u64)
    requires QueueOk(q, low) && Legal(q, c) && DrawnBetween(c, low, high)
    requires NotWaiting(q, tag) && !Has(q.inflight, Be64(tag))
    ensures !Has(Apply(q, c).inflight, Be64(tag))
  {
    match c
    case Takes =>
      GetInsert(q.inflight, Be64(KeyId(q.main[0].key)), q.main[0].val, Be64(tag));
      Be64Order(KeyId(q.main[0].key), tag);
    case Releases(t) => GetRemove(q.inflight, Be64(t), Be64(tag));
    case Returns(t, _) => GetRemove(q.inflight, Be64(t), Be64(tag));
    case _ =>
  }

  /** A spent tag stays spent under every operation, restarts included. */
  lemma SpentStays(s: Manager, e: Event, n: Name, tag: u64)
    requires ManagerOk(s) && Admissible(s, e) && Spent(s, n, tag)
    ensures Spent(Next(s, e), n, tag)
  {
    EventSplits(s, e);
    ChangeNotWaiting(s.queues[n], ChangeOf(s, e, n), s.issued, Next(s, e).issued, tag);
  }

  /** A retired tag stays retired under every operation, restarts included. */
  lemma RetiredStays(s: Manager, e: Event, n: Name, tag: u64)
    requires ManagerOk(s) && Admissible(s, e) && Retired(s, n, tag)
    ensures Retired(Next(s, e), n, tag)
  {
    SpentStays(s, e, n, tag);
    EventSplits(s, e);
    ChangeKeepsAbsent(s.queues[n], ChangeOf(s, e, n), s.issued, Next(s, e).issued, tag);
  }

  /** A delivery spends its tag, which was free before. */
  lemma DeliverySpends(s: Manager, n: Name)
    requires ManagerOk(s) && n in s.queues && s.queues[n].main != []
    ensures var tag := KeyId(s.queues[n].main[0].key);
            && !Has(s.queues[n].inflight, Be64(tag))
            && Get(Next(s, Consuming(n)).queues[n].inflight, Be64(tag)) == Some(s.queues[n].main[0].val)
            && Spent(Next(s, Consuming(n)), n, tag)
  {
    var q := s.queues[n];
    TakeFirstOk(q, s.issued);
    GetInsert(q.inflight, Be64(KeyId(q.main[0].key)), q.main[0].val, Be64(KeyId(q.main[0].key)));
    assert EntryOk(q.main[0], s.issued);
  }

  /** The tag is outstanding before the event and the event settles it. */
  ghost predicate Settles(s: Manager, e: Event, n: Name, tag: u64) {
    && n in s.queues && Has(s.queues[n].inflight, Be64(tag))
    && (e == Acking(n, tag) || (e.Nacking? && e.queue == n && e.tag == tag) || e.Reopening?)
  }

  lemma SettlingRetires(s: Manager, e: Event, n: Name, tag: u64)
    requires ManagerOk(s) && Admissible(s, e) && Settles(s, e, n, tag)
    ensures Retired(Next(s, e), n, tag)
  {
    var q := s.queues[n];
    assert Spent(s, n, tag) by {
      Be64RoundTrip(tag);
      assert TagOk(q.inflight[Rank(q.inflight, Be64(tag))], s.issued);
      forall i | 0 <= i < |q.main|
        ensures KeyId(q.main[i].key) != tag
      {
        assert !Has(q.inflight, Be64(KeyId(q.main[i].key)));
      }
    }
    SpentStays(s, e, n, tag);
    GetRemove(q.inflight, Be64(tag), Be64(tag));
  }

  lemma {:induction false} SpentForever(ss: seq<Manager>, es: seq<Event>, i: nat, j: nat, n: Name, tag: u64)
    requires IsRun(ss, es) && ManagerOk(ss[0]) && i <= j < |ss| && Spent(ss[i], n, tag)
    ensures Spent(ss[j], n, tag)
  {
    if i < j {
      SpentForever(ss, es, i, j - 1, n, tag);
      RunKeepsOk(ss, es, j - 1);
      assert Admissible(ss[j - 1], es[j - 1]);
      SpentStays(ss[j - 1], es[j - 1], n, tag);
    }
  }

  lemma {:induction false} RetiredForever(ss: seq<Manager>, es: seq<Event>, i: nat, j: nat, n: Name, tag: u64)
    requires IsRun(ss, es) && ManagerOk(ss[0]) && i <= j < |ss| && Retired(ss[i], n, tag)
    ensures Retired(ss[j], n, tag)
  {
    if i < j {
      RetiredForever(ss, es, i, j - 1, n, tag);
      RunKeepsOk(ss, es, j - 1);
      assert Admissible(ss[j - 1], es[j - 1]);
      RetiredStays(ss[j - 1], es[j - 1], n, tag);
    }
  }

  /** Event `i` of the run delivers a message of queue `n` under `tag`. */
  ghost predicate DeliversTag(ss: seq<Manager>, es: seq<Event>, i: nat, n: Name, tag: u64)
    requires IsRun(ss, es) && i < |es|
  {
    && es[i] == Consuming(n)
    && var r := ReplyTo(ss[i], es[i]);
    && r.delivered.Ok? && r.delivered.value.Some? && r.delivered.value.value.0 == tag
  }

  /** In every run, each tag of a queue is delivered at most once. */
  lemma TagDeliveredOnce(ss: seq<Manager>, es: seq<Event>, i: nat, j: nat, n: Name, tag: u64)
    requires IsRun(ss, es) && ManagerOk(ss[0]) && i < |es| && j < |es|
    requires DeliversTag(ss, es, i, n, tag) && DeliversTag(ss, es, j, n, tag)
    ensures i == j
  {
    if i != j {
      var a, b := if i < j then i else j, if i < j then j else i;
      RunKeepsOk(ss, es, a);
      DeliverySpends(ss[a], n);
      assert Admissible(ss[a], es[a]);
      SpentForever(ss, es, a + 1, b, n, tag);
    }
  }

  /** Once a tag has been acked, nacked or recovered, every later ack and nack of it fails. */
  lemma SettledTagStaysInvalid(ss: seq<Manager>, es: seq<Event>, i: nat, j: nat, n: Name, tag: u64, id: u64)
    requires IsRun(ss, es) && ManagerOk(ss[0]) && i < j < |ss|
    requires Settles(ss[i], es[i], n, tag)
    ensures Ack(ss[j], n, tag) == (ss[j], Err(InvalidDeliveryTag(tag)))
    ensures Nack(ss[j], n, tag, id).1 == Err(InvalidDeliveryTag(tag))
    ensures Nack(ss[j], n, tag, id).0.queues == ss[j].queues
  {
    RunKeepsOk(ss, es, i);
    assert Admissible(ss[i], es[i]);
    SettlingRetires(ss[i], es[i], n, tag);
    RetiredForever(ss, es, i + 1, j, n, tag);
  }
}
