/** Scheduled delivery: promotion is exact, and nothing is delivered early. */
module Scheduling {
  import opened Bytes
  import opened Results
  import opened OrderedTree
  import opened Messages
  import opened Engine
  import opened Runs
  import opened WellFormed
  import opened DeliveryOrder
  import opened Everywhere
  import opened Lanes

  /** Promotion moves all and only the messages due by `now`, appends them to their lanes in order of
      delivery time and then of publication, leaves the rest scheduled, and reports their number. */
  lemma PromotionIsExact(s: Manager, n: Name, now: millis, ids: seq<u64>, p: nat)
    requires ManagerOk(s) && n in s.queues && Admissible(s, Promoting(n, now, ids)) && p <= 9
    ensures var q, (s', r) := s.queues[n], Promote(s, n, now, ids);
            var due := DueBy(Values(q.scheduled), now);
            && r == Ok(|due|)
            && Values(s'.queues[n].scheduled) == NotDueBy(Values(q.scheduled), now)
            && Between(Values(s'.queues[n].main), p, p) == Between(Values(q.main), p, p) + Between(due, p, p)
            && s'.queues[n] == q.(main := s'.queues[n].main, scheduled := s'.queues[n].scheduled)
  {
    var q := s.queues[n];
    assert QueueOk(q, s.issued);
    PromotingImplements(q, now, ids, s.issued);
    AppendAllByLane(LanesOf(Values(q.main)), DueBy(Values(q.scheduled), now), p);
    var q' := PromoteDue(q, now, ids);
    assert LanesOf(Values(q'.main))[p] == Between(Values(q'.main), p, p);
  }

  function DueAt(t: millis): Message -> bool {
    (m: Message) => m.deliverAt.None? || m.deliverAt.value <= t
  }

  /** Everything that has left the schedule, or never was in it, is due. */
  ghost predicate NotEarly(q: QueueState, t: millis) {
    All(q.main, DueAt(t)) && All(q.inflight, DueAt(t)) && All(q.dlq, DueAt(t))
  }

  lemma PromotedAreDue(q: QueueState, issued: nat, now: millis, t: millis)
    requires ScheduleOk(q.scheduled, issued) && now <= t
    ensures AllOf(Values(q.scheduled[..DueCount(q.scheduled, now)]), DueAt(t))
  {
    forall i | 0 <= i < DueCount(q.scheduled, now)
      ensures DueAt(t)(q.scheduled[i].val)
    {
      assert SlotOk(q.scheduled[i], issued);
    }
  }

  /** The clock readings of a change lie between two bounds. */
  ghost predicate ChangeReadsWithin(c: Change, low: millis, high: millis) {
    && low <= high
    && (c.Stores? ==> low <= c.clock.due <= high)
    && (c.Promotes? ==> low <= c.now <= high)
  }

  lemma StoreNotEarly(q: QueueState, m: Message, clock: Readings, id: u64, t: millis)
    requires NotEarly(q, t) && clock.due <= t
    ensures NotEarly(StoreMessage(q, m, clock, id), t)
  {
    if !(m.deliverAt.Some? && m.deliverAt.value > clock.due) {
      AllInsert(q.main, EncodeKey(m.priority, id), m, DueAt(t));
    }
  }

  lemma ReturnNotEarly(q: QueueState, tag: u64, id: u64, t: millis)
    requires NotEarly(q, t) && Has(q.inflight, Be64(tag))
    ensures NotEarly(Return(q, tag, Get(q.inflight, Be64(tag)).value, id), t)
  {
    var m := Get(q.inflight, Be64(tag)).value;
    AllGet(q.inflight, Be64(tag), DueAt(t));
    AllRemove(q.inflight, Be64(tag), DueAt(t));
    AllInsert(q.main, EncodeKey(m.priority, id), Nacked(m), DueAt(t));
    AllInsert(q.dlq, EncodeKey(m.priority, id), Nacked(m), DueAt(t));
  }

  lemma ChangeNotEarly(q: QueueState, c: Change, issued: nat, low: millis, high: millis)
    requires QueueOk(q, issued) && Legal(q, c) && NotEarly(q, low) && ChangeReadsWithin(c, low, high)
    ensures NotEarly(Apply(q, c), high)
  {
    assert NotEarly(q, high);
    match c
    case Stores(m, clock, id) => StoreNotEarly(q, m, clock, id, high);
    case Takes => AllInsert(q.inflight, Be64(KeyId(q.main[0].key)), q.main[0].val, DueAt(high));
    case Releases(tag) => AllRemove(q.inflight, Be64(tag), DueAt(high));
    case Returns(tag, id) => ReturnNotEarly(q, tag, id, high);
    case Promotes(now, ids) =>
      PromotedAreDue(q, issued, now, high);
      AllInsertAll(q.main, Values(q.scheduled[..DueCount(q.scheduled, now)]), ids, DueAt(high));
    case Retains(now) => AllRetained(q, now, issued, DueAt(high));
    case Recovers(ids) => AllInsertAll(q.main, Values(q.inflight), ids, DueAt(high));
    case _ =>
  }

  /** In every run with a non-decreasing clock, no message outside the schedule is ahead of its time. */
  lemma {:induction false} NeverEarly(ss: seq<Manager>, es: seq<Event>, ts: seq<millis>, n: Name, i: nat)
    requires IsRun(ss, es) && Timed(es, ts) && ManagerOk(ss[0]) && i <= |es|
    requires n in ss[0].queues && NotEarly(ss[0].queues[n], ts[0])
    ensures n in ss[i].queues && NotEarly(ss[i].queues[n], ts[i])
  {
    hide IsRun, Next, Legal, Apply, DrawnBetween, QueueOk, ManagerOk, NotEarly, FreshIds;
    if i > 0 {
      NeverEarly(ss, es, ts, n, i - 1);
      QueueStep(ss, es, n, i - 1);
      RunQueueOk(ss, es, n, i - 1);
      var s, e := ss[i - 1], es[i - 1];
      assert ReadsWithin(e, ts[i - 1], ts[i - 1 + 1]);
      ChangeNotEarly(s.queues[n], ChangeOf(s, e, n), s.issued, ts[i - 1], ts[i]);
    }
  }

  /** Every delivered message has no delivery time or one that has passed. */
  lemma DeliveriesAreDue(ss: seq<Manager>, es: seq<Event>, ts: seq<millis>, n: Name, i: nat)
    requires IsRun(ss, es) && Timed(es, ts) && ManagerOk(ss[0]) && i < |es| && es[i] == Consuming(n)
    requires n in ss[0].queues && NotEarly(ss[0].queues[n], ts[0])
    ensures var r := ReplyTo(ss[i], es[i]);
            r.delivered.Ok? && (r.delivered.value.Some? ==> DueAt(ts[i])(r.delivered.value.value.1))
  {
    NeverEarly(ss, es, ts, n, i);
  }
}
