/** `delivery_attempts` counts nacks: in a queue whose messages carry distinct identifiers, the counter of
    every message is the number of times it was nacked, and a dead letter is never delivered again. */
module NackHistory {
  import opened Bytes
  import opened Results
  import opened OrderedTree
  import opened Messages
  import opened Engine
  import opened Runs
  import opened WellFormed
  import opened Conservation
  import opened Everywhere
  import opened DeadLetter

  function WithId(u: nat): Message -> nat {
    (m: Message) => if m.id == u then 1 else 0
  }

  function OtherThan(u: nat): Message -> bool {
    (m: Message) => m.id != u
  }

  /** The event nacks, successfully, a message of queue `n` with identifier `u`. */
  ghost predicate NacksMessage(s: Manager, e: Event, n: Name, u: nat) {
    && e.Nacking? && e.queue == n && n in s.queues && Has(s.queues[n].inflight, Be64(e.tag))
    && Get(s.queues[n].inflight, Be64(e.tag)).value.id == u
  }

  ghost function NackCount(ss: seq<Manager>, es: seq<Event>, n: Name, u: nat, i: nat): nat
    requires IsRun(ss, es) && i <= |es|
  {
    if i == 0 then 0
    else NackCount(ss, es, n, u, i - 1) + if NacksMessage(ss[i - 1], es[i - 1], n, u) then 1 else 0
  }

  ghost function Counted(ss: seq<Manager>, es: seq<Event>, n: Name, i: nat): Message -> bool
    requires IsRun(ss, es) && i <= |es|
  {
    (m: Message) => m.attempts == NackCount(ss, es, n, m.id, i)
  }

  /** A queue that starts empty with a limit on attempts, and publishes of fresh messages with pairwise
      distinct identifiers. */
  ghost predicate FreshStart(ss: seq<Manager>, es: seq<Event>, n: Name, max: u32)
    requires IsRun(ss, es)
  {
    && ManagerOk(ss[0]) && PublishesFresh(es, n) && max > 0
    && n in ss[0].queues && ss[0].queues[n] == EmptyQueue(ss[0].queues[n].policy)
    && ss[0].queues[n].policy.maxDeliveryAttempts == Some(max)
    && forall u :: Sum(WithId(u), StoredSoFar(ss, es, n, |es|)) <= 1
  }

  lemma {:induction false} StoredGrows(ss: seq<Manager>, es: seq<Event>, n: Name, i: nat, j: nat, f: Message -> nat)
    requires IsRun(ss, es) && i <= j <= |es|
    ensures Sum(f, StoredSoFar(ss, es, n, i)) <= Sum(f, StoredSoFar(ss, es, n, j))
  {
    hide IsRun, Next, ReplyTo, FreshIds, StoredBy, Sum;
    if i < j {
      StoredGrows(ss, es, n, i, j - 1, f);
      RunAt(ss, es, j - 1);
      SumConcat(f, StoredSoFar(ss, es, n, j - 1), StoredBy(ss[j - 1], es[j - 1], n));
    }
  }

  /** Conservation leaves at most one copy of a message in its queue, and none before it is stored. */
  lemma OneCopy(ss: seq<Manager>, es: seq<Event>, n: Name, i: nat, u: nat, max: u32)
    requires IsRun(ss, es) && FreshStart(ss, es, n, max) && i <= |es|
    ensures n in ss[i].queues && Weight(ss[i].queues[n], WithId(u)) <= 1
    ensures Weight(ss[i].queues[n], WithId(u)) <= Sum(WithId(u), StoredSoFar(ss, es, n, i))
  {
    RunConserves(WithId(u), ss, es, n, i);
    StoredGrows(ss, es, n, i, |es|, WithId(u));
  }

  lemma {:induction false} SumZero(u: nat, ms: seq<Message>)
    requires Sum(WithId(u), ms) == 0
    ensures AllOf(ms, OtherThan(u))
  {
    if ms != [] {
      SumZero(u, ms[1..]);
      assert forall i | 1 <= i < |ms| :: ms[i] == ms[1..][i - 1];
    }
  }

  lemma WeightZero(q: QueueState, u: nat)
    requires Weight(q, WithId(u)) == 0
    ensures Throughout(q, OtherThan(u), OtherThan(u))
  {
    SumZero(u, Values(q.main));
    SumZero(u, Values(q.inflight));
    SumZero(u, Values(q.scheduled));
    SumZero(u, Values(q.dlq));
  }

  lemma ThroughoutImplies(q: QueueState, p: Message -> bool, o: Message -> bool, p': Message -> bool)
    requires Throughout(q, p, p) && Throughout(q, o, o) && forall m :: p(m) && o(m) ==> p'(m)
    ensures Throughout(q, p', p')
  {
  }

  /** No other message of the queue has the identifier of one that is outstanding. */
  lemma OthersDiffer(q: QueueState, tag: u64)
    requires Has(q.inflight, Be64(tag)) && Weight(q, WithId(Get(q.inflight, Be64(tag)).value.id)) <= 1
    ensures var u := Get(q.inflight, Be64(tag)).value.id;
            Throughout(q.(inflight := Remove(q.inflight, Be64(tag))), OtherThan(u), OtherThan(u))
  {
    var u := Get(q.inflight, Be64(tag)).value.id;
    SumRemove(WithId(u), q.inflight, Be64(tag));
    WeightZero(q.(inflight := Remove(q.inflight, Be64(tag))), u);
  }

  lemma CountsAfterNack(ss: seq<Manager>, es: seq<Event>, n: Name, i: nat, u: nat)
    requires IsRun(ss, es) && i < |es| && NacksMessage(ss[i], es[i], n, u)
    ensures forall m :: Counted(ss, es, n, i)(m) && OtherThan(u)(m) ==> Counted(ss, es, n, i + 1)(m)
    ensures NackCount(ss, es, n, u, i + 1) == NackCount(ss, es, n, u, i) + 1
  {
  }

  /** Nacking leaves the counts of all other messages right, and the count of the nacked one too. */
  lemma NackStep(ss: seq<Manager>, es: seq<Event>, n: Name, i: nat, max: u32)
    requires IsRun(ss, es) && FreshStart(ss, es, n, max) && i < |es|
    requires n in ss[i].queues && AttemptsOk(ss[i].queues[n], max)
    requires es[i].Nacking? && es[i].queue == n && Has(ss[i].queues[n].inflight, Be64(es[i].tag))
    requires Throughout(ss[i].queues[n], Counted(ss, es, n, i), Counted(ss, es, n, i))
    ensures var m := Get(ss[i].queues[n].inflight, Be64(es[i].tag)).value;
            Throughout(Return(ss[i].queues[n], es[i].tag, m, es[i].id),
                       Counted(ss, es, n, i + 1), Counted(ss, es, n, i + 1))
  {
    var q, tag := ss[i].queues[n], es[i].tag;
    var m := Get(q.inflight, Be64(tag)).value;
    var q' := q.(inflight := Remove(q.inflight, Be64(tag)));
    var before, after := Counted(ss, es, n, i), Counted(ss, es, n, i + 1);
    assert Throughout(q', after, after) by {
      OneCopy(ss, es, n, i, m.id, max);
      OthersDiffer(q, tag);
      AllRemove(q.inflight, Be64(tag), before);
      CountsAfterNack(ss, es, n, i, m.id);
      ThroughoutImplies(q', before, OtherThan(m.id), after);
    }
    assert after(Nacked(m)) by {
      AllGet(q.inflight, Be64(tag), before);
      AllGet(q.inflight, Be64(tag), Below(max));
      CountsAfterNack(ss, es, n, i, m.id);
      assert Nacked(m).attempts == m.attempts + 1;
    }
    ReturnThroughout(q, tag, m, es[i].id, after, after);
  }

  lemma OtherStep(ss: seq<Manager>, es: seq<Event>, n: Name, i: nat, max: u32)
    requires IsRun(ss, es) && FreshStart(ss, es, n, max) && i < |es|
    requires n in ss[i].queues && QueueOk(ss[i].queues[n], ss[i].issued)
    requires Enabled(ss[i], es[i]) && Legal(ss[i].queues[n], ChangeOf(ss[i], es[i], n))
    requires !ChangeOf(ss[i], es[i], n).Returns?
    requires Throughout(ss[i].queues[n], Counted(ss, es, n, i), Counted(ss, es, n, i))
    requires forall u :: Sum(WithId(u), StoredSoFar(ss, es, n, i)) == 0 ==> NackCount(ss, es, n, u, i) == 0
    ensures Throughout(Apply(ss[i].queues[n], ChangeOf(ss[i], es[i], n)),
                       Counted(ss, es, n, i + 1), Counted(ss, es, n, i + 1))
  {
    var q, c := ss[i].queues[n], ChangeOf(ss[i], es[i], n);
    var before, after := Counted(ss, es, n, i), Counted(ss, es, n, i + 1);
    if c.Stores? {
      var u := c.msg.id;
      StoredGrows(ss, es, n, i + 1, |es|, WithId(u));
      SumConcat(WithId(u), StoredSoFar(ss, es, n, i), [c.msg]);
      assert NackCount(ss, es, n, u, i) == 0;
    }
    ChangeThroughout(q, c, ss[i].issued, before, before);
    assert forall u :: !NacksMessage(ss[i], es[i], n, u);
    ThroughoutImplies(Apply(q, c), before, before, after);
  }

  lemma UnstoredStep(ss: seq<Manager>, es: seq<Event>, n: Name, i: nat, max: u32, u: nat)
    requires IsRun(ss, es) && FreshStart(ss, es, n, max) && i < |es|
    requires Sum(WithId(u), StoredSoFar(ss, es, n, i)) == 0 ==> NackCount(ss, es, n, u, i) == 0
    requires Sum(WithId(u), StoredSoFar(ss, es, n, i + 1)) == 0
    ensures NackCount(ss, es, n, u, i + 1) == 0
  {
    StoredGrows(ss, es, n, i, i + 1, WithId(u));
    if NacksMessage(ss[i], es[i], n, u) {
      OneCopy(ss, es, n, i, u, max);
      SumRemove(WithId(u), ss[i].queues[n].inflight, Be64(es[i].tag));
    }
  }

  /** In every state of such a run, the attempts of every message of the queue are its nacks so far. */
  lemma {:induction false} AttemptsCountNacks(ss: seq<Manager>, es: seq<Event>, n: Name, i: nat, max: u32)
    requires IsRun(ss, es) && FreshStart(ss, es, n, max) && i <= |es|
    ensures n in ss[i].queues && Throughout(ss[i].queues[n], Counted(ss, es, n, i), Counted(ss, es, n, i))
    ensures forall u :: Sum(WithId(u), StoredSoFar(ss, es, n, i)) == 0 ==> NackCount(ss, es, n, u, i) == 0
  {
    if i > 0 {
      AttemptsCountNacks(ss, es, n, i - 1, max);
      RunKeepsOk(ss, es, i - 1);
      RunKeepsAttempts(ss, es, n, i - 1, max);
      var s, e := ss[i - 1], es[i - 1];
      assert Admissible(s, e);
      ChangeIsLegal(s, e, n);
      ChangeIsNext(s, e, n);
      if ChangeOf(s, e, n).Returns? { NackStep(ss, es, n, i - 1, max); } else { OtherStep(ss, es, n, i - 1, max); }
      forall u | Sum(WithId(u), StoredSoFar(ss, es, n, i)) == 0
        ensures NackCount(ss, es, n, u, i) == 0
      {
        UnstoredStep(ss, es, n, i - 1, max, u);
      }
    }
  }

  /** Every dead letter was nacked exactly as often as the policy allows. */
  lemma DeadLettersWereNackedToTheLimit(ss: seq<Manager>, es: seq<Event>, n: Name, i: nat, max: u32, d: nat)
    requires IsRun(ss, es) && FreshStart(ss, es, n, max) && i <= |es|
    requires n in ss[i].queues && d < |ss[i].queues[n].dlq|
    ensures NackCount(ss, es, n, ss[i].queues[n].dlq[d].val.id, i) == max
  {
    AttemptsCountNacks(ss, es, n, i, max);
    RunKeepsAttempts(ss, es, n, i, max);
    assert Counted(ss, es, n, i)(ss[i].queues[n].dlq[d].val) && AtLimit(max)(ss[i].queues[n].dlq[d].val);
  }

  // ----- Dead letters stay dead -----

  lemma DeadLetterStays(q: QueueState, c: Change, low: nat, high: nat, e: Entry<Message>)
    requires QueueOk(q, low) && Legal(q, c) && DrawnBetween(c, low, high) && e in q.dlq
    ensures e in Apply(q, c).dlq
  {
    if c.Returns? && Exhausted(q.policy, Nacked(Get(q.inflight, Be64(c.tag)).value)) {
      var m := Nacked(Get(q.inflight, Be64(c.tag)).value);
      FreshKeyAbsent(q.dlq, low, m, c.id);
      RankSplits(q.dlq, EncodeKey(m.priority, c.id));
      var j :| 0 <= j < |q.dlq| && q.dlq[j] == e;
      InsertKeeps(q.dlq, EncodeKey(m.priority, c.id), m, j);
    }
  }

  lemma {:induction false} DeadLetterRemains(ss: seq<Manager>, es: seq<Event>, n: Name, i: nat, j: nat,
                                             e: Entry<Message>)
    requires IsRun(ss, es) && ManagerOk(ss[0]) && i <= j <= |es| && n in ss[i].queues && e in ss[i].queues[n].dlq
    ensures n in ss[j].queues && e in ss[j].queues[n].dlq
  {
    hide IsRun, Next, ChangeOf, Legal, Apply, DrawnBetween, QueueOk, ManagerOk, FreshIds;
    if i < j {
      DeadLetterRemains(ss, es, n, i, j - 1, e);
      QueueStep(ss, es, n, j - 1);
      RunQueueOk(ss, es, n, j - 1);
      var s, ev := ss[j - 1], es[j - 1];
      DeadLetterStays(s.queues[n], ChangeOf(s, ev, n), s.issued, Next(s, ev).issued, e);
    }
  }

  lemma {:induction false} SumMember(f: Message -> nat, ms: seq<Message>, i: nat)
    requires i < |ms|
    ensures f(ms[i]) <= Sum(f, ms)
  {
    if i > 0 { SumMember(f, ms[1..], i - 1); }
  }

  /** Once a message is a dead letter, no later consume delivers it. */
  lemma DeadLetterIsNeverDelivered(ss: seq<Manager>, es: seq<Event>, n: Name, i: nat, j: nat, max: u32, d: nat)
    requires IsRun(ss, es) && FreshStart(ss, es, n, max) && i <= j < |es|
    requires n in ss[i].queues && d < |ss[i].queues[n].dlq| && es[j] == Consuming(n)
    ensures var r := ReplyTo(ss[j], es[j]);
            r.delivered.Ok?
                && (r.delivered.value.Some? ==> r.delivered.value.value.1.id != ss[i].queues[n].dlq[d].val.id)
  {
    var e := ss[i].queues[n].dlq[d];
    var u := e.val.id;
    DeadLetterRemains(ss, es, n, i, j, e);
    var q := ss[j].queues[n];
    OneCopy(ss, es, n, j, u, max);
    var k :| 0 <= k < |q.dlq| && q.dlq[k] == e;
    SumMember(WithId(u), Values(q.dlq), k);
    if q.main != [] { SumMember(WithId(u), Values(q.main), 0); }
  }
}
