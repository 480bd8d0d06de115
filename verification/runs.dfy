/** Runs of the engine: finite sequences of operations and restarts, with everything the
    environment supplies (ids, clock readings) recorded in the events. */
module Runs {
  import opened Bytes
  import opened Results
  import opened OrderedTree
  import opened Messages
  import opened Engine

  datatype Event =
    | Declaring(queue: Name, policy: RetentionPolicy)
    | Publishing(queue: Name, msg: Message, clock: Readings, id: u64)
    | Consuming(queue: Name)
    | Acking(queue: Name, tag: u64)
    | Nacking(queue: Name, tag: u64, id: u64)
    | Promoting(queue: Name, now: millis, ids: seq<u64>)
    | Retaining(queue: Name, now: millis)
    | Reopening(limit: Option<nat>, drawn: map<Name, seq<u64>>, issued: nat)

  datatype Reply =
    | Declared(declared: Result<(), PelicanError>)
    | Published(published: Outcome)
    | Delivered(delivered: Delivery)
    | Settled(settled: Result<(), PelicanError>)
    | Counted(counted: Result<nat, PelicanError>)
    | Reopened

  ghost predicate AscendingFrom(ids: seq<u64>, low: nat) {
    && (forall i | 0 <= i < |ids| :: low <= ids[i])
    && (forall i, j | 0 <= i < j < |ids| :: ids[i] < ids[j])
  }

  /** As many ids are supplied as the operation draws. */
  ghost predicate Enabled(s: Manager, e: Event) {
    match e
    case Promoting(q, now, ids) => q in s.queues ==> |ids| == DueCount(s.queues[q].scheduled, now)
    case Reopening(_, drawn, _) => forall n | n in s.queues :: n in drawn && |drawn[n]| == |s.queues[n].inflight|
    case _ => true
  }

  /** No id is drawn for two queues. */
  ghost predicate DrawnApart(drawn: map<Name, seq<u64>>) {
    forall n, m | n in drawn && m in drawn && n != m :: NoneShared(drawn[n], drawn[m])
  }

  ghost predicate NoneShared(a: seq<u64>, b: seq<u64>) {
    forall i | 0 <= i < |a| :: a[i] !in b
  }

  /** The generator never repeats: every id drawn is above all ids drawn before it. */
  ghost predicate FreshIds(s: Manager, e: Event) {
    match e
    case Publishing(_, _, _, id) => s.issued <= id
    case Nacking(_, _, id) => s.issued <= id
    case Promoting(_, _, ids) => AscendingFrom(ids, s.issued)
    case Reopening(_, drawn, issued) =>
      && s.issued <= issued && DrawnApart(drawn)
      && (forall n | n in drawn :: AscendingFrom(drawn[n], s.issued))
      && (forall n, i | n in drawn && 0 <= i < |drawn[n]| :: drawn[n][i] < issued)
    case _ => true
  }

  ghost predicate Admissible(s: Manager, e: Event) {
    Enabled(s, e) && FreshIds(s, e)
  }

  ghost function Next(s: Manager, e: Event): Manager
    requires Enabled(s, e)
  {
    match e
    case Declaring(q, policy) => Declare(s, q, policy).0
    case Publishing(q, m, clock, id) => Publish(s, q, m, clock, id).0
    case Consuming(q) => Consume(s, q).0
    case Acking(q, tag) => Ack(s, q, tag).0
    case Nacking(q, tag, id) => Nack(s, q, tag, id).0
    case Promoting(q, now, ids) => Promote(s, q, now, ids).0
    case Retaining(q, now) => ApplyRetention(s, q, now).0
    case Reopening(limit, drawn, issued) => Reopen(s, limit, drawn, issued)
  }

  ghost function ReplyTo(s: Manager, e: Event): Reply
    requires Enabled(s, e)
  {
    match e
    case Declaring(q, policy) => Declared(Declare(s, q, policy).1)
    case Publishing(q, m, clock, id) => Published(Publish(s, q, m, clock, id).1)
    case Consuming(q) => Delivered(Consume(s, q).1)
    case Acking(q, tag) => Settled(Ack(s, q, tag).1)
    case Nacking(q, tag, id) => Settled(Nack(s, q, tag, id).1)
    case Promoting(q, now, ids) => Counted(Promote(s, q, now, ids).1)
    case Retaining(q, now) => Counted(ApplyRetention(s, q, now).1)
    case Reopening(_, _, _) => Reopened
  }

  /** `ss[i]` is the state before event `i`; the last state is the one the run ends in. */
  ghost predicate IsRun(ss: seq<Manager>, es: seq<Event>) {
    && |ss| == |es| + 1
    && forall i | 0 <= i < |es| :: Admissible(ss[i], es[i]) && ss[i + 1] == Next(ss[i], es[i])
  }

  /** One step of a run. */
  lemma RunAt(ss: seq<Manager>, es: seq<Event>, i: nat)
    requires IsRun(ss, es) && i < |es|
    ensures |ss| == |es| + 1 && Admissible(ss[i], es[i]) && ss[i + 1] == Next(ss[i], es[i])
  {
    hide Admissible, Next;
  }

  /** The clock readings of an event lie, in program order, between two bounds. */
  ghost predicate ReadsWithin(e: Event, low: millis, high: millis) {
    match e
    case Publishing(_, _, clock, _) => low <= clock.check <= clock.due <= clock.record <= high
    case Promoting(_, now, _) => low <= now <= high
    case Retaining(_, now) => low <= now <= high
    case _ => low <= high
  }

  /** A non-decreasing clock: event `i` reads it between `ts[i]` and `ts[i + 1]`. */
  ghost predicate Timed(es: seq<Event>, ts: seq<millis>) {
    && |ts| == |es| + 1
    && (forall i | 0 <= i < |es| :: ReadsWithin(es[i], ts[i], ts[i + 1]))
    && (forall i, j | 0 <= i <= j < |ts| :: ts[i] <= ts[j])
  }

  // ----- The share of one queue in an event -----

  /** What an event does to one queue. */
  datatype Change =
    | Unchanged
    | Stores(msg: Message, clock: Readings, id: u64)
    | Takes
    | Releases(tag: u64)
    | Returns(tag: u64, id: u64)
    | Promotes(now: millis, ids: seq<u64>)
    | Retains(now: millis)
    | Recovers(ids: seq<u64>)

  ghost predicate Legal(q: QueueState, c: Change) {
    match c
    case Takes => q.main != []
    case Releases(tag) => Has(q.inflight, Be64(tag))
    case Returns(tag, _) => Has(q.inflight, Be64(tag))
    case Promotes(now, ids) => |ids| == DueCount(q.scheduled, now)
    case Recovers(ids) => |ids| == |q.inflight|
    case _ => true
  }

  ghost function Apply(q: QueueState, c: Change): QueueState
    requires Legal(q, c)
  {
    match c
    case Unchanged => q
    case Stores(m, clock, id) => StoreMessage(q, m, clock, id)
    case Takes => TakeFirst(q)
    case Releases(tag) => q.(inflight := Remove(q.inflight, Be64(tag)))
    case Returns(tag, id) => Return(q, tag, Get(q.inflight, Be64(tag)).value, id)
    case Promotes(now, ids) => PromoteDue(q, now, ids)
    case Retains(now) => q.(main := Retained(q, now))
    case Recovers(ids) => Recover(q, ids)
  }

  /** The ids of a change were drawn between two positions of the generator. */
  ghost predicate DrawnBetween(c: Change, low: nat, high: nat) {
    && low <= high
    && match c
       case Stores(_, _, id) => low <= id < high
       case Returns(_, id) => low <= id < high
       case Promotes(_, ids) => AscendingFrom(ids, low) && forall i | 0 <= i < |ids| :: ids[i] < high
       case Recovers(ids) => AscendingFrom(ids, low) && forall i | 0 <= i < |ids| :: ids[i] < high
       case _ => true
  }

  ghost function ChangeOf(s: Manager, e: Event, n: Name): Change
    requires Enabled(s, e) && n in s.queues
  {
    if e.Reopening? then Recovers(e.drawn[n])
    else if e.queue != n then Unchanged
    else match e
      case Publishing(_, m, clock, id) =>
        if ReplyTo(s, e) == Published(Ok(Stored(m.id))) then Stores(m, clock, id) else Unchanged
      case Consuming(_) => if s.queues[n].main == [] then Unchanged else Takes
      case Acking(_, tag) => if Has(s.queues[n].inflight, Be64(tag)) then Releases(tag) else Unchanged
      case Nacking(_, tag, id) => if Has(s.queues[n].inflight, Be64(tag)) then Returns(tag, id) else Unchanged
      case Promoting(_, now, ids) => Promotes(now, ids)
      case Retaining(_, now) => Retains(now)
      case _ => Unchanged
  }

  lemma {:induction false} BumpAllBounds(low: nat, ids: seq<u64>)
    ensures low <= BumpAll(low, ids)
    ensures forall i | 0 <= i < |ids| :: ids[i] < BumpAll(low, ids)
    decreases |ids|
  {
    if ids != [] {
      BumpAllBounds(Bump(low, ids[0]), ids[1..]);
      assert forall i | 1 <= i < |ids| :: ids[i] == ids[1..][i - 1];
    }
  }

  lemma IssuedGrows(s: Manager, e: Event)
    requires Admissible(s, e)
    ensures s.issued <= Next(s, e).issued
  {
    if e.Promoting? { BumpAllBounds(s.issued, e.ids); }
  }

  lemma ChangeIsLegal(s: Manager, e: Event, n: Name)
    requires Admissible(s, e) && n in s.queues
    ensures Legal(s.queues[n], ChangeOf(s, e, n))
    ensures DrawnBetween(ChangeOf(s, e, n), s.issued, Next(s, e).issued)
  {
    IssuedGrows(s, e);
    if e.Promoting? { BumpAllBounds(s.issued, e.ids); }
  }

  lemma ChangeIsNext(s: Manager, e: Event, n: Name)
    requires Admissible(s, e) && n in s.queues && Legal(s.queues[n], ChangeOf(s, e, n))
    ensures n in Next(s, e).queues
    ensures Next(s, e).queues[n] == Apply(s.queues[n], ChangeOf(s, e, n))
  {
    hide Rank, Insert, Remove, Be64, EncodeKey, StoreMessage, TakeFirst, Return, PromoteDue, Retained, Recover;
    hide IsDuplicate, OverLimit, DueCount, BumpAll, Recount, FreshIds;
  }

  /** An event acts on each queue by its own change, and only a declaration adds a queue. */
  lemma EventSplits(s: Manager, e: Event)
    requires Admissible(s, e)
    ensures s.issued <= Next(s, e).issued
    ensures forall n | n in s.queues :: n in Next(s, e).queues && Legal(s.queues[n], ChangeOf(s, e, n))
    ensures forall n | n in s.queues :: Next(s, e).queues[n] == Apply(s.queues[n], ChangeOf(s, e, n))
    ensures forall n | n in s.queues :: DrawnBetween(ChangeOf(s, e, n), s.issued, Next(s, e).issued)
    ensures forall n | n in Next(s, e).queues && n !in s.queues ::
              e.Declaring? && e.queue == n && Next(s, e).queues[n] == EmptyQueue(e.policy)
  {
    IssuedGrows(s, e);
    forall n | n in s.queues
      ensures n in Next(s, e).queues && Legal(s.queues[n], ChangeOf(s, e, n))
      ensures Next(s, e).queues[n] == Apply(s.queues[n], ChangeOf(s, e, n))
      ensures DrawnBetween(ChangeOf(s, e, n), s.issued, Next(s, e).issued)
    {
      ChangeIsLegal(s, e, n);
      ChangeIsNext(s, e, n);
    }
    OnlyDeclarationsAdd(s, e);
  }

  lemma OnlyDeclarationsAdd(s: Manager, e: Event)
    requires Admissible(s, e)
    ensures forall n | n in Next(s, e).queues && n !in s.queues ::
              e.Declaring? && e.queue == n && Next(s, e).queues[n] == EmptyQueue(e.policy)
  {
  }

  /** An operation on one queue leaves every other queue as it was. */
  lemma OthersUntouched(s: Manager, e: Event, n: Name)
    requires Admissible(s, e) && n in s.queues && !e.Reopening? && e.queue != n
    ensures n in Next(s, e).queues && Next(s, e).queues[n] == s.queues[n]
  {
    EventSplits(s, e);
  }

  lemma NextLimit(s: Manager, e: Event)
    requires Enabled(s, e)
    ensures Next(s, e).maxBytes == if e.Reopening? then e.limit else s.maxBytes
  {
  }

  /** One step of a run, as it acts on one queue. */
  lemma QueueStep(ss: seq<Manager>, es: seq<Event>, n: Name, i: nat)
    requires IsRun(ss, es) && i < |es| && n in ss[i].queues
    ensures |ss| == |es| + 1 && Admissible(ss[i], es[i]) && ss[i + 1] == Next(ss[i], es[i]) && n in ss[i + 1].queues
    ensures var q, c := ss[i].queues[n], ChangeOf(ss[i], es[i], n);
            Legal(q, c) && ss[i + 1].queues[n] == Apply(q, c) && DrawnBetween(c, ss[i].issued, ss[i + 1].issued)
  {
    RunAt(ss, es, i);
    hide IsRun, Admissible, Next, ChangeOf, Legal, Apply, DrawnBetween;
    ChangeIsLegal(ss[i], es[i], n);
    ChangeIsNext(ss[i], es[i], n);
  }

  /** A queue that no event of a run names is, throughout the run, exactly what it was. */
  lemma {:induction false} UntouchedOverRuns(ss: seq<Manager>, es: seq<Event>, n: Name, i: nat)
    requires IsRun(ss, es) && i <= |es| && n in ss[0].queues
    requires forall k | 0 <= k < |es| :: !es[k].Reopening? && es[k].queue != n
    ensures n in ss[i].queues && ss[i].queues[n] == ss[0].queues[n]
  {
    hide IsRun, Next, Admissible;
    if i > 0 {
      UntouchedOverRuns(ss, es, n, i - 1);
      RunAt(ss, es, i - 1);
      OthersUntouched(ss[i - 1], es[i - 1], n);
    }
  }
}
