/** Delivery attempts, the dead-letter queue and the end of redelivery. */
module DeadLetter {
  import opened Bytes
  import opened Results
  import opened OrderedTree
  import opened Messages
  import opened Engine
  import opened Runs
  import opened WellFormed
  import opened DeliveryOrder
  import opened Retention
  import opened Conservation
  import opened Everywhere
  import opened Dedup
  import opened Lanes

  // ----- What a nack does -----

  function OneMoreAttempt(m: Message): Message {
    m.(attempts := if m.attempts == TWO_32 - 1 then 0 else m.attempts + 1)
  }

  lemma ReturnByLane(q: QueueState, tag: u64, id: u64, issued: nat, m: Message, p: nat)
    requires QueueOk(q, issued) && issued <= id && p <= 9 && Get(q.inflight, Be64(tag)) == Some(m)
    ensures var q', m', limit := Return(q, tag, m, id), OneMoreAttempt(m), q.policy.maxDeliveryAttempts;
            var dead := limit.Some? && 0 < limit.value <= m'.attempts;
            && Outstanding(q'.inflight) == Outstanding(q.inflight) - {tag}
            && Between(Values(q'.main), p, p)
               == Between(Values(q.main), p, p) + (if !dead && p == Lane(m) then [m'] else [])
            && Between(Values(q'.dlq), p, p)
               == Between(Values(q.dlq), p, p) + (if dead && p == Lane(m) then [m'] else [])
  {
    hide QueueOk, Between, Enqueue, Outstanding, Insert, Remove, EncodeKey, Be64, Lane;
    assert LaneTreeOk(q.main, issued) && LaneTreeOk(q.dlq, issued) && Sorted(q.inflight) by { QueueParts(q, issued); }
    var m' := Nacked(m);
    SameLane(m);
    OutstandingRemove(q.inflight, tag);
    InsertIsEnqueue(q.main, issued, m', id);
    InsertIsEnqueue(q.dlq, issued, m', id);
    EnqueueInLane(Values(q.main), m', p);
    EnqueueInLane(Values(q.dlq), m', p);
  }

  lemma QueueParts(q: QueueState, issued: nat)
    requires QueueOk(q, issued)
    ensures LaneTreeOk(q.main, issued) && LaneTreeOk(q.dlq, issued) && Sorted(q.inflight)
  {
  }

  lemma SameLane(m: Message)
    ensures Lane(Nacked(m)) == Lane(m) && Nacked(m) == OneMoreAttempt(m)
  {
  }

  lemma ReturnKeepsRest(q: QueueState, tag: u64, m: Message, id: u64)
    ensures var q' := Return(q, tag, m, id);
            q'.scheduled == q.scheduled && q'.dedup == q.dedup && q'.policy == q.policy
  {
    hide Insert, Remove, EncodeKey, Be64;
  }

  /** A nack of an outstanding delivery ends the delivery and appends the message, one attempt higher, to the
      dead letters if a limit other than zero is set and now reached, and to its lane otherwise. */
  lemma NackIsExact(s: Manager, n: Name, tag: u64, id: u64, m: Message, p: nat)
    requires ManagerOk(s) && n in s.queues && s.issued <= id && p <= 9
    requires Get(s.queues[n].inflight, Be64(tag)) == Some(m)
    ensures var (s', r) := Nack(s, n, tag, id);
            var m' := OneMoreAttempt(m);
            var limit := s.queues[n].policy.maxDeliveryAttempts;
            var dead := limit.Some? && 0 < limit.value <= m'.attempts;
            && r == Ok(()) && n in s'.queues
            && var q, q' := s.queues[n], s'.queues[n];
            && Outstanding(q'.inflight) == Outstanding(q.inflight) - {tag}
            && Between(Values(q'.main), p, p)
               == Between(Values(q.main), p, p) + (if !dead && p == Lane(m) then [m'] else [])
            && Between(Values(q'.dlq), p, p)
               == Between(Values(q.dlq), p, p) + (if dead && p == Lane(m) then [m'] else [])
            && q'.scheduled == q.scheduled && q'.dedup == q.dedup && q'.policy == q.policy
            && s'.queues == s.queues[n := q'] && s'.currentBytes == s.currentBytes && s'.maxBytes == s.maxBytes
  {
    assert QueueOk(s.queues[n], s.issued);
    hide Return, Get, Be64, Between, QueueOk, Outstanding, Lane, Values, OneMoreAttempt;
    ReturnByLane(s.queues[n], tag, id, s.issued, m, p);
    ReturnKeepsRest(s.queues[n], tag, m, id);
  }

  // ----- Without a limit -----

  /** No limit is set, or zero, which counts as none. */
  predicate NoAttemptsLimit(policy: RetentionPolicy) {
    policy.maxDeliveryAttempts.None? || policy.maxDeliveryAttempts.value == 0
  }

  lemma ChangeKeepsDeadLetters(q: QueueState, c: Change)
    requires Legal(q, c) && NoAttemptsLimit(q.policy)
    ensures Apply(q, c).dlq == q.dlq && Apply(q, c).policy == q.policy
  {
    hide Insert, Remove, EncodeKey, EncodeScheduledKey, Be64, InsertAll, DueCount, Retained;
  }

  /** In every run a queue without a limit keeps its dead letters as they were: nothing is ever added. */
  lemma {:induction false} NoLimitNoDeadLetters(ss: seq<Manager>, es: seq<Event>, n: Name, i: nat)
    requires IsRun(ss, es) && i <= |es| && n in ss[0].queues && NoAttemptsLimit(ss[0].queues[n].policy)
    ensures n in ss[i].queues && ss[i].queues[n].policy == ss[0].queues[n].policy
    ensures ss[i].queues[n].dlq == ss[0].queues[n].dlq
  {
    hide IsRun, Next, Legal, Apply, DrawnBetween, FreshIds, ChangeOf;
    if i > 0 {
      NoLimitNoDeadLetters(ss, es, n, i - 1);
      QueueStep(ss, es, n, i - 1);
      ChangeKeepsDeadLetters(ss[i - 1].queues[n], ChangeOf(ss[i - 1], es[i - 1], n));
    }
  }

  // ----- Attempts stay below the limit -----

  function Below(max: u32): Message -> bool {
    (m: Message) => m.attempts < max
  }

  function AtLimit(max: u32): Message -> bool {
    (m: Message) => m.attempts == max
  }

  /** Messages in circulation have attempts left; dead letters have used exactly the limit. */
  ghost predicate AttemptsOk(q: QueueState, max: u32) {
    q.policy.maxDeliveryAttempts == Some(max) && max > 0 && Throughout(q, Below(max), AtLimit(max))
  }

  lemma ChangeKeepsAttempts(q: QueueState, c: Change, issued: nat, max: u32)
    requires QueueOk(q, issued) && Legal(q, c) && AttemptsOk(q, max)
    requires c.Stores? ==> c.msg.attempts == 0
    ensures AttemptsOk(Apply(q, c), max)
  {
    hide Remove, Insert, QueueOk, StoreMessage, PromoteDue, Retained, Recover, TakeFirst;
    IndexAfter(q, c);
    if c.Returns? {
      var m := Get(q.inflight, Be64(c.tag)).value;
      AllGet(q.inflight, Be64(c.tag), Below(max));
      AllRemove(q.inflight, Be64(c.tag), Below(max));
      assert Nacked(m).attempts == m.attempts + 1;
      ReturnThroughout(q, c.tag, m, c.id, Below(max), AtLimit(max));
    } else {
      ChangeThroughout(q, c, issued, Below(max), AtLimit(max));
    }
  }

  /** Messages are published to `n` with no attempts behind them. */
  ghost predicate PublishesFresh(es: seq<Event>, n: Name) {
    forall k | 0 <= k < |es| :: es[k].Publishing? && es[k].queue == n ==> es[k].msg.attempts == 0
  }

  /** In every run, messages in circulation have fewer attempts than the limit and dead letters exactly
      as many. */
  lemma {:induction false} RunKeepsAttempts(ss: seq<Manager>, es: seq<Event>, n: Name, i: nat, max: u32)
    requires IsRun(ss, es) && ManagerOk(ss[0]) && i <= |es| && PublishesFresh(es, n)
    requires n in ss[0].queues && AttemptsOk(ss[0].queues[n], max)
    ensures n in ss[i].queues && AttemptsOk(ss[i].queues[n], max)
  {
    hide IsRun, Next, Legal, Apply, DrawnBetween, QueueOk, ManagerOk, AttemptsOk, FreshIds;
    if i > 0 {
      RunKeepsAttempts(ss, es, n, i - 1, max);
      QueueStep(ss, es, n, i - 1);
      RunQueueOk(ss, es, n, i - 1);
      var s, e := ss[i - 1], es[i - 1];
      ChangeKeepsAttempts(s.queues[n], ChangeOf(s, e, n), s.issued, max);
    }
  }

  // ----- Termination of redelivery -----

  /** The deliveries a waiting message still has ahead of it. */
  function Ahead(max: u32): Message -> nat {
    (m: Message) => if m.attempts < max then max - m.attempts else 0
  }

  /** The deliveries an outstanding message still has ahead of it if it is nacked. */
  function AheadAfterNack(max: u32): Message -> nat {
    (m: Message) => if m.attempts + 1 < max then max - m.attempts - 1 else 0
  }

  function Remaining(q: QueueState, max: u32): nat {
    Sum(Ahead(max), Values(q.main)) + Sum(AheadAfterNack(max), Values(q.inflight))
  }

  /** The changes of a queue that is only drained. */
  ghost predicate Draining(c: Change) {
    !c.Stores? && !c.Promotes? && !c.Recovers?
  }

  lemma TakingDrains(q: QueueState, issued: nat, max: u32)
    requires QueueOk(q, issued) && q.main != [] && AttemptsOk(q, max)
    ensures Remaining(TakeFirst(q), max) + 1 == Remaining(q, max)
  {
    var m := q.main[0].val;
    TakeFirstOk(q, issued);
    SumInsert(AheadAfterNack(max), q.inflight, Be64(KeyId(q.main[0].key)), m);
    ValuesCons(q.main);
    SumConcat(Ahead(max), [m], Values(q.main[1..]));
    assert Below(max)(m);
  }

  lemma ReturningDrains(q: QueueState, tag: u64, id: u64, issued: nat, max: u32)
    requires QueueOk(q, issued) && issued <= id && Has(q.inflight, Be64(tag)) && AttemptsOk(q, max)
    ensures Remaining(Return(q, tag, Get(q.inflight, Be64(tag)).value, id), max) == Remaining(q, max)
  {
    var m := Get(q.inflight, Be64(tag)).value;
    AllGet(q.inflight, Be64(tag), Below(max));
    assert Nacked(m).attempts == m.attempts + 1;
    SumRemove(AheadAfterNack(max), q.inflight, Be64(tag));
    if Exhausted(q.policy, Nacked(m)) {
      assert AheadAfterNack(max)(m) == 0;
    } else {
      assert Ahead(max)(Nacked(m)) == AheadAfterNack(max)(m);
      FreshKeyAbsent(q.main, issued, Nacked(m), id);
      SumInsert(Ahead(max), q.main, EncodeKey(m.priority, id), Nacked(m));
    }
  }

  /** A delivery uses up exactly one of the remaining deliveries; nothing else adds one. */
  lemma ChangeDrains(q: QueueState, c: Change, low: nat, high: nat, max: u32)
    requires QueueOk(q, low) && Legal(q, c) && DrawnBetween(c, low, high) && AttemptsOk(q, max) && Draining(c)
    ensures c.Takes? ==> Remaining(Apply(q, c), max) + 1 == Remaining(q, max)
    ensures c.Returns? ==> Remaining(Apply(q, c), max) == Remaining(q, max)
    ensures Remaining(Apply(q, c), max) <= Remaining(q, max)
  {
    match c
    case Takes => TakingDrains(q, low, max);
    case Releases(tag) => SumRemove(AheadAfterNack(max), q.inflight, Be64(tag));
    case Returns(tag, id) => ReturningDrains(q, tag, id, low, max);
    case Retains(now) =>
      RetainedIsSurvivors(q, now);
      SumSplitsByRetention(Ahead(max), Values(q.main), q.policy, now);
    case _ =>
  }

  /** The event delivers a message from queue `n`. */
  ghost predicate DeliversFrom(s: Manager, e: Event, n: Name)
    requires Enabled(s, e)
  {
    e == Consuming(n) && ReplyTo(s, e).delivered.Ok? && ReplyTo(s, e).delivered.value.Some?
  }

  /** The deliveries from queue `n` among the first `i` events. */
  ghost function DeliveryCount(ss: seq<Manager>, es: seq<Event>, n: Name, i: nat): nat
    requires IsRun(ss, es) && i <= |es|
  {
    if i == 0 then 0
    else DeliveryCount(ss, es, n, i - 1) + if DeliversFrom(ss[i - 1], es[i - 1], n) then 1 else 0
  }

  /** The event neither publishes to the queue nor promotes its schedule, and is no restart. */
  ghost predicate DrainsOnly(e: Event, n: Name) {
    !e.Reopening? && (e.queue == n ==> !e.Publishing? && !e.Promoting?)
  }

  lemma DrainingEvent(s: Manager, e: Event, n: Name)
    requires Enabled(s, e) && n in s.queues && DrainsOnly(e, n)
    ensures Draining(ChangeOf(s, e, n))
    ensures DeliversFrom(s, e, n) ==> ChangeOf(s, e, n).Takes?
  {
    hide TakeFirst;
  }

  lemma StepDrains(ss: seq<Manager>, es: seq<Event>, n: Name, i: nat, max: u32)
    requires IsRun(ss, es) && ManagerOk(ss[0]) && i < |es| && DrainsOnly(es[i], n)
    requires n in ss[i].queues && AttemptsOk(ss[i].queues[n], max)
    ensures n in ss[i + 1].queues && AttemptsOk(ss[i + 1].queues[n], max) && Enabled(ss[i], es[i])
    ensures Remaining(ss[i + 1].queues[n], max) + (if DeliversFrom(ss[i], es[i], n) then 1 else 0)
            <= Remaining(ss[i].queues[n], max)
  {
    hide IsRun, Next, ChangeOf, ReplyTo, Legal, Apply, DrawnBetween, QueueOk, ManagerOk, AttemptsOk, Remaining;
    hide DrainsOnly, DeliversFrom, FreshIds, Enabled;
    QueueStep(ss, es, n, i);
    RunQueueOk(ss, es, n, i);
    DrainingEvent(ss[i], es[i], n);
    var c := ChangeOf(ss[i], es[i], n);
    ChangeKeepsAttempts(ss[i].queues[n], c, ss[i].issued, max);
    ChangeDrains(ss[i].queues[n], c, ss[i].issued, ss[i + 1].issued, max);
  }

  /** Without publishes, promotions and restarts, a queue delivers at most as often as its messages have
      attempts left, whatever is acked or nacked. */
  lemma {:induction false} DrainTerminates(ss: seq<Manager>, es: seq<Event>, n: Name, i: nat, max: u32)
    requires IsRun(ss, es) && ManagerOk(ss[0]) && i <= |es|
    requires n in ss[0].queues && AttemptsOk(ss[0].queues[n], max)
    requires forall k | 0 <= k < |es| :: DrainsOnly(es[k], n)
    ensures n in ss[i].queues && AttemptsOk(ss[i].queues[n], max)
    ensures DeliveryCount(ss, es, n, i) + Remaining(ss[i].queues[n], max) <= Remaining(ss[0].queues[n], max)
  {
    hide IsRun, ManagerOk, AttemptsOk, Remaining, DrainsOnly, DeliversFrom, Enabled;
    if i > 0 {
      DrainTerminates(ss, es, n, i - 1, max);
      StepDrains(ss, es, n, i - 1, max);
    }
  }
}
