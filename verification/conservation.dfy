/** Nothing is lost or duplicated: what a queue holds is what was stored in it, less what was acked
    and what retention dropped. */
module Conservation {
  import opened Bytes
  import opened Results
  import opened OrderedTree
  import opened Messages
  import opened Engine
  import opened Runs
  import opened WellFormed
  import opened DeliveryOrder
  import opened Retention

  /** Counts the copies of one message, whatever its delivery attempts. */
  function CopiesOf(x: Message): Message -> nat {
    (m: Message) => if Identity(m) == Identity(x) then 1 else 0
  }

  /** A weight that does not depend on the delivery attempts. */
  ghost predicate Steady(f: Message -> nat) {
    forall m :: f(Nacked(m)) == f(m)
  }

  /** The expired messages, and the delivery front that exceeds `max_messages`. */
  function Dropped(ms: seq<Message>, policy: RetentionPolicy, now: millis): seq<Message> {
    var young := if policy.maxAgeSecs.Some? then Younger(ms, now, MillisOf(policy.maxAgeSecs.value)) else ms;
    (if policy.maxAgeSecs.Some? then Outdated(ms, now, MillisOf(policy.maxAgeSecs.value)) else [])
    + (if policy.maxMessages.Some? && |young| > policy.maxMessages.value
       then young[..|young| - policy.maxMessages.value] else [])
  }

  function Outdated(ms: seq<Message>, now: millis, maxAge: i64): seq<Message> {
    if ms == [] then []
    else (if Expired(ms[0], now, maxAge) then [ms[0]] else []) + Outdated(ms[1..], now, maxAge)
  }

  // ----- Sums over trees -----

  lemma {:induction false} SumConcat(f: Message -> nat, a: seq<Message>, b: seq<Message>)
    ensures Sum(f, a + b) == Sum(f, a) + Sum(f, b)
    decreases |a|
  {
    if a == [] {
      assert a + b == b;
    } else {
      assert (a + b)[1..] == a[1..] + b;
      SumConcat(f, a[1..], b);
    }
  }

  lemma SumInsert(f: Message -> nat, t: Tree<Message>, k: Key, m: Message)
    requires !Has(t, k)
    ensures Sum(f, Values(Insert(t, k, m))) == Sum(f, Values(t)) + f(m)
  {
    var r, ms := Rank(t, k), Values(t);
    ValuesInsert(t, k, m);
    hide Insert, Rank, Has, Values;
    SumConcat(f, ms[..r] + [m], ms[r..]);
    SumConcat(f, ms[..r], [m]);
    assert ms == ms[..r] + ms[r..];
    SumConcat(f, ms[..r], ms[r..]);
  }

  lemma SumRemove(f: Message -> nat, t: Tree<Message>, k: Key)
    requires Has(t, k)
    ensures Sum(f, Values(t)) == Sum(f, Values(Remove(t, k))) + f(Get(t, k).value)
  {
    var r, ms := Rank(t, k), Values(t);
    ValuesRemove(t, k);
    assert ms == ms[..r] + [ms[r]] + ms[r + 1..];
    SumConcat(f, ms[..r] + [ms[r]], ms[r + 1..]);
    SumConcat(f, ms[..r], [ms[r]]);
    SumConcat(f, ms[..r], ms[r + 1..]);
  }

  lemma {:induction false} SumInsertAll(f: Message -> nat, t: Tree<Message>, issued: nat, ms: seq<Message>,
                                        ids: seq<u64>)
    requires LaneTreeOk(t, issued) && |ids| == |ms| && AscendingFrom(ids, issued)
    ensures Sum(f, Values(InsertAll(t, ms, ids))) == Sum(f, Values(t)) + Sum(f, ms)
    decreases |ms|
  {
    if ms != [] {
      var k := EncodeKey(ms[0].priority, ids[0]);
      FreshKeyAbsent(t, issued, ms[0], ids[0]);
      SumInsert(f, t, k, ms[0]);
      LaneTreeInsert(t, issued, ms[0], ids[0]);
      SumInsertAll(f, Insert(t, k, ms[0]), Bump(issued, ids[0]), ms[1..], ids[1..]);
    }
  }

  lemma {:induction false} SumSplitsByAge(f: Message -> nat, ms: seq<Message>, now: millis, maxAge: i64)
    ensures Sum(f, ms) == Sum(f, Younger(ms, now, maxAge)) + Sum(f, Outdated(ms, now, maxAge))
    decreases |ms|
  {
    if ms != [] {
      var young, stale := Younger(ms[1..], now, maxAge), Outdated(ms[1..], now, maxAge);
      SumSplitsByAge(f, ms[1..], now, maxAge);
      SumConcat(f, [ms[0]], young);
      SumConcat(f, [ms[0]], stale);
      assert [] + young == young && [] + stale == stale;
    }
  }

  lemma SumSplitsByRetention(f: Message -> nat, ms: seq<Message>, policy: RetentionPolicy, now: millis)
    ensures Sum(f, ms) == Sum(f, Survivors(ms, policy, now)) + Sum(f, Dropped(ms, policy, now))
  {
    var young := if policy.maxAgeSecs.Some? then Younger(ms, now, MillisOf(policy.maxAgeSecs.value)) else ms;
    var stale := if policy.maxAgeSecs.Some? then Outdated(ms, now, MillisOf(policy.maxAgeSecs.value)) else [];
    var cut := if policy.maxMessages.Some? && |young| > policy.maxMessages.value
               then |young| - policy.maxMessages.value else 0;
    if policy.maxAgeSecs.Some? { SumSplitsByAge(f, ms, now, MillisOf(policy.maxAgeSecs.value)); }
    assert young == young[..cut] + young[cut..];
    SumConcat(f, young[..cut], young[cut..]);
    SumConcat(f, stale, young[..cut]);
    assert Survivors(ms, policy, now) == young[cut..];
    assert Dropped(ms, policy, now) == stale + young[..cut];
  }

  // ----- One change -----

  function Gained(c: Change, f: Message -> nat): nat {
    if c.Stores? then f(c.msg) else 0
  }

  function Lost(q: QueueState, c: Change, f: Message -> nat): nat {
    match c
    case Releases(tag) =>
      var m := Get(q.inflight, Be64(tag));
      if m.Some? then f(m.value) else 0
    case Retains(now) => Sum(f, Dropped(Values(q.main), q.policy, now))
    case _ => 0
  }

  lemma StoringConserves(f: Message -> nat, q: QueueState, m: Message, clock: Readings, id: u64, issued: nat)
    requires QueueOk(q, issued) && issued <= id
    ensures Weight(StoreMessage(q, m, clock, id), f) == Weight(q, f) + f(m)
  {
    if m.deliverAt.Some? && m.deliverAt.value > clock.due {
      ScheduleInsert(q.scheduled, issued, m, id);
      SumInsert(f, q.scheduled, EncodeScheduledKey(m.deliverAt.value, id), m);
    } else {
      FreshKeyAbsent(q.main, issued, m, id);
      SumInsert(f, q.main, EncodeKey(m.priority, id), m);
    }
  }

  lemma TakingConserves(f: Message -> nat, q: QueueState, issued: nat)
    requires QueueOk(q, issued) && q.main != []
    ensures Weight(TakeFirst(q), f) == Weight(q, f)
  {
    TakeFirstOk(q, issued);
    SumInsert(f, q.inflight, Be64(KeyId(q.main[0].key)), q.main[0].val);
    ValuesCons(q.main);
    SumConcat(f, [q.main[0].val], Values(q.main[1..]));
  }

  lemma ReturningConserves(f: Message -> nat, q: QueueState, tag: u64, id: u64, issued: nat)
    requires QueueOk(q, issued) && issued <= id && Has(q.inflight, Be64(tag)) && Steady(f)
    ensures Weight(Return(q, tag, Get(q.inflight, Be64(tag)).value, id), f) == Weight(q, f)
  {
    var m := Get(q.inflight, Be64(tag)).value;
    assert f(Nacked(m)) == f(m);
    SumRemove(f, q.inflight, Be64(tag));
    FreshKeyAbsent(q.main, issued, Nacked(m), id);
    FreshKeyAbsent(q.dlq, issued, Nacked(m), id);
    SumInsert(f, q.main, EncodeKey(m.priority, id), Nacked(m));
    SumInsert(f, q.dlq, EncodeKey(m.priority, id), Nacked(m));
  }

  lemma RecoveringConserves(f: Message -> nat, q: QueueState, ids: seq<u64>, issued: nat)
    requires QueueOk(q, issued) && |ids| == |q.inflight| && AscendingFrom(ids, issued)
    ensures Weight(Recover(q, ids), f) == Weight(q, f)
  {
    hide InsertAll, LaneTreeOk, ScheduleOk, IdsApart, TagTreeOk, AscendingFrom;
    SumInsertAll(f, q.main, issued, Values(q.inflight), ids);
  }

  lemma PromotingConserves(f: Message -> nat, q: QueueState, now: millis, ids: seq<u64>, issued: nat)
    requires QueueOk(q, issued) && |ids| == DueCount(q.scheduled, now) && AscendingFrom(ids, issued)
    ensures Weight(PromoteDue(q, now, ids), f) == Weight(q, f)
  {
    hide InsertAll, Sum, LaneTreeOk, ScheduleOk, IdsApart, TagTreeOk, AscendingFrom;
    var n := DueCount(q.scheduled, now);
    SumInsertAll(f, q.main, issued, Values(q.scheduled[..n]), ids);
    assert q.scheduled == q.scheduled[..n] + q.scheduled[n..];
    ValuesConcat(q.scheduled[..n], q.scheduled[n..]);
    SumConcat(f, Values(q.scheduled[..n]), Values(q.scheduled[n..]));
  }

  /** Consume, nack, promotion and recovery conserve every steady weight; publishing adds its message;
      an ack and a retention pass remove exactly the messages they report on. */
  lemma ChangeConserves(f: Message -> nat, q: QueueState, c: Change, low: nat, high: nat)
    requires QueueOk(q, low) && Legal(q, c) && DrawnBetween(c, low, high) && Steady(f)
    ensures Weight(Apply(q, c), f) + Lost(q, c, f) == Weight(q, f) + Gained(c, f)
  {
    hide Insert, InsertAll, Remove, Sum, Be64, KeyId, AscendingFrom, QueueOk, Steady;
    match c
    case Unchanged =>
    case Stores(m, clock, id) => StoringConserves(f, q, m, clock, id, low);
    case Takes => TakingConserves(f, q, low);
    case Releases(tag) => SumRemove(f, q.inflight, Be64(tag));
    case Returns(tag, id) => ReturningConserves(f, q, tag, id, low);
    case Promotes(now, ids) => PromotingConserves(f, q, now, ids, low);
    case Retains(now) =>
      SumSplitsByRetention(f, Values(q.main), q.policy, now);
      RetainedIsSurvivors(q, now);
    case Recovers(ids) => RecoveringConserves(f, q, ids, low);
  }

  // ----- Whole runs -----

  /** The message an event stores in queue `n`, if the reply is Stored. */
  ghost function StoredBy(s: Manager, e: Event, n: Name): seq<Message>
    requires Enabled(s, e)
  {
    if e.Publishing? && e.queue == n && ReplyTo(s, e) == Published(Ok(Stored(e.msg.id))) then [e.msg] else []
  }

  /** The message outstanding under the tag of a successful ack on `n`. */
  ghost function AckedBy(s: Manager, e: Event, n: Name): seq<Message>
    requires Enabled(s, e)
  {
    if e.Acking? && e.queue == n && ReplyTo(s, e) == Settled(Ok(()))
    then [Get(s.queues[n].inflight, Be64(e.tag)).value] else []
  }

  /** The messages a retention pass on `n` drops. */
  ghost function DroppedBy(s: Manager, e: Event, n: Name): seq<Message> {
    if e.Retaining? && e.queue == n && n in s.queues
    then Dropped(Values(s.queues[n].main), s.queues[n].policy, e.now) else []
  }

  lemma LedgerOfChange(f: Message -> nat, s: Manager, e: Event, n: Name)
    requires Enabled(s, e) && n in s.queues
    ensures Sum(f, StoredBy(s, e, n)) == Gained(ChangeOf(s, e, n), f)
    ensures Sum(f, AckedBy(s, e, n)) + Sum(f, DroppedBy(s, e, n)) == Lost(s.queues[n], ChangeOf(s, e, n), f)
  {
  }

  ghost function StoredSoFar(ss: seq<Manager>, es: seq<Event>, n: Name, i: nat): seq<Message>
    requires IsRun(ss, es) && i <= |es|
  {
    if i == 0 then [] else StoredSoFar(ss, es, n, i - 1) + StoredBy(ss[i - 1], es[i - 1], n)
  }

  ghost function AckedSoFar(ss: seq<Manager>, es: seq<Event>, n: Name, i: nat): seq<Message>
    requires IsRun(ss, es) && i <= |es|
  {
    if i == 0 then [] else AckedSoFar(ss, es, n, i - 1) + AckedBy(ss[i - 1], es[i - 1], n)
  }

  ghost function DroppedSoFar(ss: seq<Manager>, es: seq<Event>, n: Name, i: nat): seq<Message>
    requires IsRun(ss, es) && i <= |es|
  {
    if i == 0 then [] else DroppedSoFar(ss, es, n, i - 1) + DroppedBy(ss[i - 1], es[i - 1], n)
  }

  /** Over a run every steady weight of a queue grows by what was stored and shrinks by what was acked
      and dropped. */
  lemma LedgerStart(f: Message -> nat, ss: seq<Manager>, es: seq<Event>, n: Name)
    requires IsRun(ss, es)
    ensures Sum(f, StoredSoFar(ss, es, n, 0)) == 0
    ensures Sum(f, AckedSoFar(ss, es, n, 0)) == 0
    ensures Sum(f, DroppedSoFar(ss, es, n, 0)) == 0
  {
  }

  lemma LedgerStep(f: Message -> nat, ss: seq<Manager>, es: seq<Event>, n: Name, i: nat)
    requires IsRun(ss, es) && i < |es| && Enabled(ss[i], es[i])
    ensures Sum(f, StoredSoFar(ss, es, n, i + 1)) ==
            Sum(f, StoredSoFar(ss, es, n, i)) + Sum(f, StoredBy(ss[i], es[i], n))
    ensures Sum(f, AckedSoFar(ss, es, n, i + 1)) == Sum(f, AckedSoFar(ss, es, n, i)) + Sum(f, AckedBy(ss[i], es[i], n))
    ensures Sum(f, DroppedSoFar(ss, es, n, i + 1)) ==
            Sum(f, DroppedSoFar(ss, es, n, i)) + Sum(f, DroppedBy(ss[i], es[i], n))
  {
    RunAt(ss, es, i);
    hide IsRun, Sum, StoredBy, AckedBy, DroppedBy, Enabled, Next, FreshIds;
    SumConcat(f, StoredSoFar(ss, es, n, i), StoredBy(ss[i], es[i], n));
    SumConcat(f, AckedSoFar(ss, es, n, i), AckedBy(ss[i], es[i], n));
    SumConcat(f, DroppedSoFar(ss, es, n, i), DroppedBy(ss[i], es[i], n));
  }

  lemma StepConserves(f: Message -> nat, ss: seq<Manager>, es: seq<Event>, n: Name, i: nat)
    requires IsRun(ss, es) && ManagerOk(ss[0]) && i < |es| && n in ss[i].queues && Steady(f)
    ensures n in ss[i + 1].queues && Enabled(ss[i], es[i])
    ensures Weight(ss[i + 1].queues[n], f) + Sum(f, AckedBy(ss[i], es[i], n)) + Sum(f, DroppedBy(ss[i], es[i], n))
            == Weight(ss[i].queues[n], f) + Sum(f, StoredBy(ss[i], es[i], n))
  {
    hide IsRun, Next, ChangeOf, Legal, Apply, DrawnBetween, QueueOk, ManagerOk, Steady, Sum, Weight;
    hide StoredBy, AckedBy, DroppedBy, Lost, Gained, FreshIds, Enabled;
    QueueStep(ss, es, n, i);
    RunQueueOk(ss, es, n, i);
    ChangeConserves(f, ss[i].queues[n], ChangeOf(ss[i], es[i], n), ss[i].issued, ss[i + 1].issued);
    LedgerOfChange(f, ss[i], es[i], n);
  }

  lemma {:induction false} RunConserves(f: Message -> nat, ss: seq<Manager>, es: seq<Event>, n: Name, i: nat)
    requires IsRun(ss, es) && ManagerOk(ss[0]) && n in ss[0].queues && i <= |es| && Steady(f)
    ensures n in ss[i].queues
    ensures Weight(ss[i].queues[n], f) + Sum(f, AckedSoFar(ss, es, n, i)) + Sum(f, DroppedSoFar(ss, es, n, i))
            == Weight(ss[0].queues[n], f) + Sum(f, StoredSoFar(ss, es, n, i))
  {
    hide IsRun, ManagerOk, Steady, Weight, Sum, StoredBy, AckedBy, DroppedBy, Enabled;
    hide StoredSoFar, AckedSoFar, DroppedSoFar;
    if i == 0 {
      LedgerStart(f, ss, es, n);
    } else {
      RunConserves(f, ss, es, n, i - 1);
      StepConserves(f, ss, es, n, i - 1);
      LedgerStep(f, ss, es, n, i - 1);
    }
  }

  /** In every run and for every message: the copies a queue holds, plus those acked, plus those dropped
      by retention, are the copies it held at the start plus the copies stored since. */
  lemma EveryMessageIsAccountedFor(ss: seq<Manager>, es: seq<Event>, n: Name, i: nat, x: Message)
    requires IsRun(ss, es) && ManagerOk(ss[0]) && n in ss[0].queues && i <= |es|
    ensures n in ss[i].queues
    ensures Weight(ss[i].queues[n], CopiesOf(x))
            + Sum(CopiesOf(x), AckedSoFar(ss, es, n, i)) + Sum(CopiesOf(x), DroppedSoFar(ss, es, n, i))
            == Weight(ss[0].queues[n], CopiesOf(x)) + Sum(CopiesOf(x), StoredSoFar(ss, es, n, i))
  {
    RunConserves(CopiesOf(x), ss, es, n, i);
  }
}
