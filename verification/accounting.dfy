/** The running byte counter against the recount it approximates. */
module Accounting {
  import opened Bytes
  import opened Results
  import opened OrderedTree
  import opened Messages
  import opened Engine
  import opened Runs
  import opened WellFormed
  import opened DeliveryOrder
  import opened Retention
  import opened Conservation

  function DedupKeys(q: QueueState): nat {
    |q.dedup|
  }

  function One(m: Message): nat { 1 }

  // ----- Sums over queues -----

  /** Any queue may be taken out of the sum first. */
  lemma {:induction false} TotalPick(queues: map<Name, QueueState>, g: QueueState -> nat, n: Name)
    requires n in queues
    ensures Total(queues, g) == g(queues[n]) + Total(queues - {n}, g)
    decreases queues.Keys
  {
    var k :| k in queues && Total(queues, g) == g(queues[k]) + Total(queues - {k}, g);
    if k != n {
      assert (queues - {k}).Keys < queues.Keys;
      TotalPick(queues - {k}, g, n);
      assert queues - {k} - {n} == queues - {n} - {k};
      assert (queues - {n}).Keys < queues.Keys;
      TotalPick(queues - {n}, g, k);
    }
  }

  lemma TotalUpdate(queues: map<Name, QueueState>, g: QueueState -> nat, n: Name, q: QueueState)
    ensures Total(queues[n := q], g) == Total(queues - {n}, g) + g(q)
    ensures n in queues ==> Total(queues[n := q], g) + g(queues[n]) == Total(queues, g) + g(q)
  {
    TotalPick(queues[n := q], g, n);
    assert queues[n := q] - {n} == queues - {n};
    if n in queues { TotalPick(queues, g, n); }
  }

  lemma {:induction false} TotalAgrees(a: map<Name, QueueState>, b: map<Name, QueueState>, g: QueueState -> nat)
    requires a.Keys == b.Keys && forall n | n in a :: g(a[n]) == g(b[n])
    ensures Total(a, g) == Total(b, g)
    decreases a.Keys
  {
    if a.Keys == {} {
      assert a == map[] && b == map[];
    } else {
      var n :| n in a;
      assert (a - {n}).Keys == (b - {n}).Keys && (a - {n}).Keys < a.Keys;
      TotalAgrees(a - {n}, b - {n}, g);
      TotalPick(a, g, n);
      TotalPick(b, g, n);
    }
  }

  lemma {:induction false} RecountSplits(queues: map<Name, QueueState>)
    ensures Recount(queues) == Total(queues, MessageBytes) + 8 * Total(queues, DedupKeys)
    decreases queues.Keys
  {
    if queues.Keys == {} {
      assert queues == map[];
    } else {
      var n :| n in queues;
      assert (queues - {n}).Keys < queues.Keys;
      TotalPick(queues, QueueBytes, n);
      TotalPick(queues, MessageBytes, n);
      TotalPick(queues, DedupKeys, n);
      RecountSplits(queues - {n});
    }
  }

  // ----- One change -----

  /** The event records a deduplication key that its queue did not know. */
  ghost predicate RecordsNewKey(q: QueueState, c: Change) {
    && c.Stores? && q.policy.dedupWindowSecs.Some? && c.msg.dedupKey.Some?
    && !Has(q.dedup, c.msg.dedupKey.value)
  }

  lemma ChangeBytes(q: QueueState, c: Change, low: nat, high: nat)
    requires QueueOk(q, low) && Legal(q, c) && DrawnBetween(c, low, high)
    ensures MessageBytes(Apply(q, c)) + Lost(q, c, EncodedLen) == MessageBytes(q) + Gained(c, EncodedLen)
    ensures DedupKeys(Apply(q, c)) == DedupKeys(q) + if RecordsNewKey(q, c) then 1 else 0
  {
    hide Apply, Legal, QueueOk, DrawnBetween, Lost, Gained, RecordsNewKey, Sum;
    ChangeConserves(EncodedLen, q, c, low, high);
    DedupKeysAfter(q, c);
  }

  lemma DedupKeysAfter(q: QueueState, c: Change)
    requires Legal(q, c)
    ensures DedupKeys(Apply(q, c)) == DedupKeys(q) + if RecordsNewKey(q, c) then 1 else 0
  {
    hide InsertAll, EncodeKey, EncodeScheduledKey, Retained, DueCount;
  }

  // ----- One event -----

  ghost predicate IsRecount(s: Manager, e: Event)
    requires Enabled(s, e)
  {
    e.Reopening? || (e.Retaining? && ReplyTo(s, e).counted.Ok? && ReplyTo(s, e).counted.value > 0)
  }

  ghost predicate NewKeyBy(s: Manager, e: Event)
    requires Enabled(s, e)
  {
    !e.Reopening? && e.queue in s.queues && RecordsNewKey(s.queues[e.queue], ChangeOf(s, e, e.queue))
  }

  /** The recount exceeds the counter by eight bytes for each of `pending` unrecounted keys. */
  ghost predicate CountOk(s: Manager, pending: nat) {
    Recount(s.queues) == s.currentBytes + 8 * pending && pending <= Total(s.queues, DedupKeys)
  }

  /** The counter is never below the bytes of the stored messages, nor below those of any one queue. */
  lemma CounterCoversMessages(s: Manager, pending: nat)
    requires CountOk(s, pending)
    ensures Total(s.queues, MessageBytes) <= s.currentBytes
    ensures forall n | n in s.queues :: MessageBytes(s.queues[n]) <= s.currentBytes
  {
    RecountSplits(s.queues);
    forall n | n in s.queues
      ensures MessageBytes(s.queues[n]) <= s.currentBytes
    {
      TotalPick(s.queues, MessageBytes, n);
    }
  }

  /** The saturating subtraction of an ack never saturates. */
  lemma AckNeverSaturates(s: Manager, pending: nat, n: Name, tag: u64)
    requires CountOk(s, pending) && n in s.queues && Has(s.queues[n].inflight, Be64(tag))
    ensures EncodedLen(Get(s.queues[n].inflight, Be64(tag)).value) <= s.currentBytes
  {
    CounterCoversMessages(s, pending);
    SumRemove(EncodedLen, s.queues[n].inflight, Be64(tag));
  }

  lemma NextQueues(s: Manager, e: Event)
    requires Admissible(s, e) && !e.Reopening?
    ensures e.queue in s.queues ==>
              Legal(s.queues[e.queue], ChangeOf(s, e, e.queue))
              && Next(s, e).queues == s.queues[e.queue := Apply(s.queues[e.queue], ChangeOf(s, e, e.queue))]
    ensures e.queue !in s.queues ==>
              Next(s, e) == if e.Declaring? then s.(queues := s.queues[e.queue := EmptyQueue(e.policy)]) else s
  {
    hide Next, ChangeOf, Apply, Legal, DrawnBetween, Enabled, FreshIds;
    if e.queue in s.queues {
      EventSplits(s, e);
      KnownNames(s, e);
      forall n | n in s.queues && n != e.queue
        ensures n in Next(s, e).queues && Next(s, e).queues[n] == s.queues[n]
      {
        OthersUntouched(s, e, n);
      }
    } else {
      UnknownQueue(s, e);
    }
  }

  lemma KnownNames(s: Manager, e: Event)
    requires Enabled(s, e) && !e.Reopening? && e.queue in s.queues
    ensures Next(s, e).queues.Keys == s.queues.Keys
  {
  }

  lemma UnknownQueue(s: Manager, e: Event)
    requires Admissible(s, e) && !e.Reopening? && e.queue !in s.queues
    ensures Next(s, e) == if e.Declaring? then s.(queues := s.queues[e.queue := EmptyQueue(e.policy)]) else s
  {
  }

  /** How one event moves the total of message bytes and of deduplication keys. */
  lemma NextTotals(s: Manager, e: Event)
    requires ManagerOk(s) && Admissible(s, e) && !e.Reopening? && e.queue in s.queues
    ensures var q, c, s' := s.queues[e.queue], ChangeOf(s, e, e.queue), Next(s, e);
            && Total(s'.queues, MessageBytes) + Lost(q, c, EncodedLen)
               == Total(s.queues, MessageBytes) + Gained(c, EncodedLen)
            && Total(s'.queues, DedupKeys) == Total(s.queues, DedupKeys) + if NewKeyBy(s, e) then 1 else 0
  {
    var q, c := s.queues[e.queue], ChangeOf(s, e, e.queue);
    NextQueues(s, e);
    ChangeIsLegal(s, e, e.queue);
    ChangeBytes(q, c, s.issued, Next(s, e).issued);
    TotalUpdate(s.queues, MessageBytes, e.queue, Apply(q, c));
    TotalUpdate(s.queues, DedupKeys, e.queue, Apply(q, c));
  }

  lemma ReopenedBytes(s: Manager, e: Event, n: Name)
    requires ManagerOk(s) && Admissible(s, e) && e.Reopening? && n in s.queues
    ensures n in Next(s, e).queues
    ensures MessageBytes(Next(s, e).queues[n]) == MessageBytes(s.queues[n])
    ensures DedupKeys(Next(s, e).queues[n]) == DedupKeys(s.queues[n])
  {
    hide Next, Legal, Apply, DrawnBetween, QueueOk, FreshIds, MessageBytes, DedupKeys;
    assert QueueOk(s.queues[n], s.issued);
    ChangeIsLegal(s, e, n);
    ChangeIsNext(s, e, n);
    ChangeBytes(s.queues[n], ChangeOf(s, e, n), s.issued, Next(s, e).issued);
  }

  lemma ReopenTotals(s: Manager, e: Event)
    requires ManagerOk(s) && Admissible(s, e) && e.Reopening?
    ensures Total(Next(s, e).queues, MessageBytes) == Total(s.queues, MessageBytes)
    ensures Total(Next(s, e).queues, DedupKeys) == Total(s.queues, DedupKeys)
    ensures Next(s, e).currentBytes == Recount(s.queues)
  {
    var s' := Next(s, e);
    assert s'.queues.Keys == s.queues.Keys && s'.currentBytes == Recount(s.queues);
    hide Next, Enabled, FreshIds, Recount, ManagerOk, Total, MessageBytes, DedupKeys;
    forall n | n in s.queues
      ensures MessageBytes(s'.queues[n]) == MessageBytes(s.queues[n])
      ensures DedupKeys(s'.queues[n]) == DedupKeys(s.queues[n])
    {
      ReopenedBytes(s, e, n);
    }
    TotalAgrees(s'.queues, s.queues, MessageBytes);
    TotalAgrees(s'.queues, s.queues, DedupKeys);
  }

  lemma DeclareTotals(s: Manager, n: Name, policy: RetentionPolicy)
    requires n !in s.queues
    ensures Total(s.queues[n := EmptyQueue(policy)], MessageBytes) == Total(s.queues, MessageBytes)
    ensures Total(s.queues[n := EmptyQueue(policy)], DedupKeys) == Total(s.queues, DedupKeys)
  {
    TotalUpdate(s.queues, MessageBytes, n, EmptyQueue(policy));
    TotalUpdate(s.queues, DedupKeys, n, EmptyQueue(policy));
    assert s.queues - {n} == s.queues;
  }

  /** How one event moves the counter itself. */
  lemma CounterStep(s: Manager, e: Event, pending: nat)
    requires ManagerOk(s) && Admissible(s, e) && CountOk(s, pending) && !IsRecount(s, e)
    requires e.queue in s.queues
    ensures Next(s, e).currentBytes + Lost(s.queues[e.queue], ChangeOf(s, e, e.queue), EncodedLen)
            == s.currentBytes + Gained(ChangeOf(s, e, e.queue), EncodedLen)
  {
    assert !e.Reopening?;
    hide Next, ChangeOf, Lost, Gained, IsRecount, CountOk, ManagerOk, FreshIds;
    if e.Acking? {
      CounterOfAck(s, e, pending);
    } else if e.Retaining? {
      CounterOfRetention(s, e);
    } else {
      CounterOfOther(s, e);
    }
  }

  lemma CounterOfAck(s: Manager, e: Event, pending: nat)
    requires Admissible(s, e) && CountOk(s, pending) && e.Acking? && e.queue in s.queues
    ensures Next(s, e).currentBytes + Lost(s.queues[e.queue], ChangeOf(s, e, e.queue), EncodedLen)
            == s.currentBytes + Gained(ChangeOf(s, e, e.queue), EncodedLen)
  {
    hide CountOk, Remove, Be64;
    if Has(s.queues[e.queue].inflight, Be64(e.tag)) { AckNeverSaturates(s, pending, e.queue, e.tag); }
  }

  lemma CounterOfRetention(s: Manager, e: Event)
    requires Admissible(s, e) && e.Retaining? && e.queue in s.queues && !IsRecount(s, e)
    ensures Next(s, e).currentBytes + Lost(s.queues[e.queue], ChangeOf(s, e, e.queue), EncodedLen)
            == s.currentBytes + Gained(ChangeOf(s, e, e.queue), EncodedLen)
  {
    var q := s.queues[e.queue];
    hide Recount;
    assert |Retained(q, e.now)| <= |q.main| by { RetainedIsFewer(q, e.now); }
    assert |Retained(q, e.now)| == |q.main|;
    hide Retained, Dropped;
    NothingDropped(q, e.now);
  }

  lemma RetainedIsFewer(q: QueueState, now: millis)
    ensures |Retained(q, now)| <= |q.main|
  {
  }

  lemma CounterOfOther(s: Manager, e: Event)
    requires Admissible(s, e) && !e.Acking? && !e.Retaining? && !e.Reopening? && e.queue in s.queues
    ensures Next(s, e).currentBytes + Lost(s.queues[e.queue], ChangeOf(s, e, e.queue), EncodedLen)
            == s.currentBytes + Gained(ChangeOf(s, e, e.queue), EncodedLen)
  {
    hide StoreMessage, TakeFirst, PromoteDue, Return, IsDuplicate, OverLimit;
  }

  lemma NothingDropped(q: QueueState, now: millis)
    requires |Retained(q, now)| == |q.main|
    ensures Sum(EncodedLen, Dropped(Values(q.main), q.policy, now)) == 0
  {
    SumSplitsByRetention(One, Values(q.main), q.policy, now);
    RetainedIsSurvivors(q, now);
    CountIsLength(Values(q.main));
    CountIsLength(Survivors(Values(q.main), q.policy, now));
    CountIsLength(Dropped(Values(q.main), q.policy, now));
  }

  lemma {:induction false} CountIsLength(ms: seq<Message>)
    ensures Sum(One, ms) == |ms|
  {
    if ms != [] { CountIsLength(ms[1..]); }
  }

  /** One event keeps the books: a recount clears the difference, a new key adds one to it. */
  lemma StepKeepsCount(s: Manager, e: Event, pending: nat)
    requires ManagerOk(s) && Admissible(s, e) && CountOk(s, pending)
    ensures CountOk(Next(s, e), if IsRecount(s, e) then 0 else pending + if NewKeyBy(s, e) then 1 else 0)
  {
    var s' := Next(s, e);
    RecountSplits(s.queues);
    RecountSplits(s'.queues);
    if e.Reopening? {
      ReopenTotals(s, e);
    } else if e.queue in s.queues {
      NextTotals(s, e);
      if !IsRecount(s, e) { CounterStep(s, e, pending); }
    } else {
      NextQueues(s, e);
      if e.Declaring? { DeclareTotals(s, e.queue, e.policy); }
    }
  }

  // ----- Whole runs -----

  /** The deduplication keys first recorded since the last recount, after `i` events. */
  ghost function PendingKeys(ss: seq<Manager>, es: seq<Event>, i: nat): nat
    requires IsRun(ss, es) && i <= |es|
  {
    if i == 0 || IsRecount(ss[i - 1], es[i - 1]) then 0
    else PendingKeys(ss, es, i - 1) + if NewKeyBy(ss[i - 1], es[i - 1]) then 1 else 0
  }

  /** From a state whose counter is exact, the recount of every later state exceeds the counter by exactly
      eight bytes for each deduplication key first recorded since the last recount. */
  lemma {:induction false} CounterLagsByNewKeys(ss: seq<Manager>, es: seq<Event>, i: nat)
    requires IsRun(ss, es) && ManagerOk(ss[0]) && Recount(ss[0].queues) == ss[0].currentBytes && i <= |es|
    ensures CountOk(ss[i], PendingKeys(ss, es, i))
    ensures Recount(ss[i].queues) == ss[i].currentBytes + 8 * PendingKeys(ss, es, i)
  {
    if i > 0 {
      CounterLagsByNewKeys(ss, es, i - 1);
      RunKeepsOk(ss, es, i - 1);
      assert Admissible(ss[i - 1], es[i - 1]);
      StepKeepsCount(ss[i - 1], es[i - 1], PendingKeys(ss, es, i - 1));
    }
  }

  lemma GainWithinLimit(s: Manager, e: Event, max: nat)
    requires Enabled(s, e) && !e.Reopening? && e.queue in s.queues && s.maxBytes == Some(max)
    ensures var gain := Gained(ChangeOf(s, e, e.queue), EncodedLen);
            gain == 0 || s.currentBytes + gain <= max
  {
  }

  lemma StepKeepsLimit(s: Manager, e: Event, pending: nat, max: nat)
    requires ManagerOk(s) && Admissible(s, e) && CountOk(s, pending)
    requires s.maxBytes == Some(max) && (e.Reopening? ==> e.limit == Some(max))
    requires Total(s.queues, MessageBytes) <= max
    ensures Next(s, e).maxBytes == Some(max) && Total(Next(s, e).queues, MessageBytes) <= max
  {
    CounterCoversMessages(s, pending);
    NextLimit(s, e);
    if e.Reopening? {
      ReopenTotals(s, e);
    } else if e.queue in s.queues {
      NextTotals(s, e);
      GainWithinLimit(s, e, max);
    } else {
      NextQueues(s, e);
      if e.Declaring? { DeclareTotals(s, e.queue, e.policy); }
    }
  }

  /** Under a byte limit the stored messages never exceed it once they are within it. */
  lemma {:induction false} LimitHolds(ss: seq<Manager>, es: seq<Event>, i: nat, max: nat)
    requires IsRun(ss, es) && ManagerOk(ss[0]) && Recount(ss[0].queues) == ss[0].currentBytes && i <= |es|
    requires ss[0].maxBytes == Some(max) && forall k | 0 <= k < |es| :: es[k].Reopening? ==> es[k].limit == Some(max)
    requires Total(ss[0].queues, MessageBytes) <= max
    ensures ss[i].maxBytes == Some(max) && Total(ss[i].queues, MessageBytes) <= max
  {
    hide IsRun, ManagerOk, Recount, Total, Next, FreshIds, Enabled, CountOk, PendingKeys;
    if i > 0 {
      RunAt(ss, es, i - 1);
      LimitHolds(ss, es, i - 1, max);
      CounterLagsByNewKeys(ss, es, i - 1);
      RunKeepsOk(ss, es, i - 1);
      StepKeepsLimit(ss[i - 1], es[i - 1], PendingKeys(ss, es, i - 1), max);
    }
  }
}
