/** The simple queue that the byte-keyed trees implement: ten first-in-first-out lanes, the outstanding
    deliveries by tag, a schedule in time order and dead-letter lanes.  No key and no id occurs in it. */
module Lanes {
  import opened Bytes
  import opened Results
  import opened OrderedTree
  import opened Messages
  import opened Engine
  import opened Runs
  import opened WellFormed
  import opened DeliveryOrder
  import opened Retention

  type LaneList = ls: seq<seq<Message>> | |ls| == 10 witness [[], [], [], [], [], [], [], [], [], []]

  datatype LaneQueue = LaneQueue(
    policy: RetentionPolicy,
    lanes: LaneList,
    outstanding: map<u64, Message>,
    schedule: seq<Message>,
    dead: LaneList)

  function Append(ls: LaneList, m: Message): LaneList {
    ls[Lane(m) := ls[Lane(m)] + [m]]
  }

  function AppendAll(ls: LaneList, ms: seq<Message>): LaneList
    decreases |ms|
  {
    if ms == [] then ls else AppendAll(Append(ls, ms[0]), ms[1..])
  }

  /** The index of the highest lane below `p` that holds a message, or -1. */
  function HighestBelow(ls: LaneList, p: nat): (c: int)
    requires p <= 10
    ensures -1 <= c < p
    ensures c >= 0 ==> ls[c] != []
    ensures forall i | c < i < p :: ls[i] == []
  {
    if p == 0 then -1 else if ls[p - 1] != [] then p - 1 else HighestBelow(ls, p - 1)
  }

  function Highest(ls: LaneList): int {
    HighestBelow(ls, 10)
  }

  function Pop(ls: LaneList): LaneList
    requires Highest(ls) >= 0
  {
    ls[Highest(ls) := ls[Highest(ls)][1..]]
  }

  /** All lanes below `p`, highest first. */
  function Flatten(ls: LaneList, p: nat): seq<Message>
    requires p <= 10
  {
    if p == 0 then [] else ls[p - 1] + Flatten(ls, p - 1)
  }

  function LanesOf(ms: seq<Message>): LaneList {
    seq(10, p => Between(ms, p, p))
  }

  ghost function Least(tags: set<u64>): (t: u64)
    requires tags != {}
    ensures t in tags && forall u | u in tags :: t <= u
  {
    var t :| t in tags;
    if tags == {t} then t
    else
      var rest := Least(tags - {t});
      assert forall u | u in tags :: u == t || u in tags - {t};
      if t <= rest then t else rest
  }

  ghost function InTagOrder(o: map<u64, Message>): seq<Message>
    decreases o.Keys
  {
    if o.Keys == {} then []
    else
      var t := Least(o.Keys);
      assert (o - {t}).Keys == o.Keys - {t};
      [o[t]] + InTagOrder(o - {t})
  }

  // ----- The lane machine -----

  /** The message of a publish does not fit under the byte limit. */
  ghost predicate NoRoom(s: Manager, e: Event) {
    && e.Publishing? && s.maxBytes.Some?
    && s.currentBytes + EncodedLen(e.msg) > s.maxBytes.value
  }

  /** A publish is stored if there is room and refused if not, unless its deduplication key makes it a
      duplicate. */
  ghost predicate AllowsPublish(a: LaneQueue, full: bool, m: Message, r: Reply) {
    && r.Published?
    && (r.published != Ok(Deduplicated) ==>
          if full then r.published.Err? && r.published.error.StorageLimitExceeded?
          else r.published == Ok(Stored(m.id)))
    && (r.published == Ok(Deduplicated) ==>
          m.dedupKey.Some? && a.policy.dedupWindowSecs.Some? && a.policy.dedupWindowSecs.value > 0)
  }

  /** The replies the lane machine permits to an event on queue `n`, with or without room for its message. */
  ghost predicate Allows(a: LaneQueue, n: Name, full: bool, e: Event, r: Reply) {
    e.Reopening? || e.queue != n ||
    match e
    case Declaring(_, _) => r == Declared(Err(QueueAlreadyExists(n)))
    case Publishing(_, m, _, _) => AllowsPublish(a, full, m, r)
    case Consuming(_) =>
      && r.Delivered? && r.delivered.Ok?
      && (r.delivered.value.None? <==> Highest(a.lanes) < 0)
      && (r.delivered.value.Some? ==>
            && r.delivered.value.value.0 !in a.outstanding
            && r.delivered.value.value.1 == a.lanes[Highest(a.lanes)][0])
    case Acking(_, tag) => r == Settled(if tag in a.outstanding then Ok(()) else Err(InvalidDeliveryTag(tag)))
    case Nacking(_, tag, _) => r == Settled(if tag in a.outstanding then Ok(()) else Err(InvalidDeliveryTag(tag)))
    case Promoting(_, now, _) => r == Counted(Ok(|DueBy(a.schedule, now)|))
    case Retaining(_, now) =>
      && r.Counted? && r.counted.Ok?
      && r.counted.value == |Flatten(a.lanes, 10)| - |Survivors(Flatten(a.lanes, 10), a.policy, now)|
  }

  /** The attempts have reached a limit that is set and not zero. */
  predicate Spends(limit: Option<u32>, attempts: u32) {
    limit.Some? && 0 < limit.value <= attempts
  }

  ghost function LaneNext(a: LaneQueue, n: Name, full: bool, e: Event, r: Reply): LaneQueue
    requires Allows(a, n, full, e, r)
  {
    if e.Reopening? then a.(lanes := AppendAll(a.lanes, InTagOrder(a.outstanding)), outstanding := map[])
    else if e.queue != n then a
    else
      match e
      case Declaring(_, _) => a
      case Publishing(_, m, clock, _) =>
        if r != Published(Ok(Stored(m.id))) then a
        else if m.deliverAt.Some? && m.deliverAt.value > clock.due then a.(schedule := Schedule(a.schedule, m))
        else a.(lanes := Append(a.lanes, m))
      case Consuming(_) =>
        if r.delivered.value.None? then a
        else
          var (tag, m) := r.delivered.value.value;
          a.(lanes := Pop(a.lanes), outstanding := a.outstanding[tag := m])
      case Acking(_, tag) => a.(outstanding := a.outstanding - {tag})
      case Nacking(_, tag, _) =>
        if tag !in a.outstanding then a
        else
          var m := Nacked(a.outstanding[tag]);
          var a' := a.(outstanding := a.outstanding - {tag});
          if Spends(a.policy.maxDeliveryAttempts, m.attempts) then a'.(dead := Append(a.dead, m))
          else a'.(lanes := Append(a.lanes, m))
      case Promoting(_, now, _) =>
        a.(lanes := AppendAll(a.lanes, DueBy(a.schedule, now)), schedule := NotDueBy(a.schedule, now))
      case Retaining(_, now) => a.(lanes := LanesOf(Survivors(Flatten(a.lanes, 10), a.policy, now)))
  }

  // ----- Abstraction -----

  ghost function Outstanding(t: Tree<Message>): map<u64, Message> {
    map tag: u64 | 0 <= tag < 0x1_0000_0000_0000_0000 && Has(t, Be64(tag)) :: Get(t, Be64(tag)).value
  }

  ghost function Abstract(q: QueueState): LaneQueue {
    LaneQueue(q.policy, LanesOf(Values(q.main)), Outstanding(q.inflight), Values(q.scheduled), LanesOf(Values(q.dlq)))
  }

  // ----- Lanes of a delivery order -----

  lemma BetweenOne(m: Message, p: nat)
    ensures Between([m], p, p) == if p == Lane(m) then [m] else []
  {
    assert [m][1..] == [];
  }

  lemma EnqueueInLane(ready: seq<Message>, m: Message, p: nat)
    requires p <= 9
    ensures Between(Enqueue(ready, m), p, p) == Between(ready, p, p) + if p == Lane(m) then [m] else []
  {
    hide Between, Lane;
    var above, below := Between(ready, Lane(m), 9), Between(ready, 0, Lane(m) - 1);
    BetweenConcat(above + [m], below, p, p);
    BetweenConcat(above, [m], p, p);
    BetweenTwice(ready, Lane(m), 9, p);
    BetweenTwice(ready, 0, Lane(m) - 1, p);
    BetweenOne(m, p);
  }

  lemma EnqueueAppends(ready: seq<Message>, m: Message)
    ensures LanesOf(Enqueue(ready, m)) == Append(LanesOf(ready), m)
  {
    forall p | 0 <= p < 10
      ensures LanesOf(Enqueue(ready, m))[p] == Append(LanesOf(ready), m)[p]
    {
      EnqueueInLane(ready, m, p);
    }
  }

  /** Filtering twice keeps the lanes that pass both filters. */
  lemma {:induction false} BetweenTwice(ms: seq<Message>, low: int, high: int, p: int)
    ensures Between(Between(ms, low, high), p, p) == if low <= p <= high then Between(ms, p, p) else []
    decreases |ms|
  {
    if ms != [] {
      var head := if low <= Lane(ms[0]) <= high then [ms[0]] else [];
      BetweenTwice(ms[1..], low, high, p);
      BetweenConcat(head, Between(ms[1..], low, high), p, p);
    }
  }

  lemma {:induction false} EnqueueAllAppends(ready: seq<Message>, ms: seq<Message>)
    ensures LanesOf(EnqueueAll(ready, ms)) == AppendAll(LanesOf(ready), ms)
    decreases |ms|
  {
    if ms != [] {
      EnqueueAppends(ready, ms[0]);
      EnqueueAllAppends(Enqueue(ready, ms[0]), ms[1..]);
    }
  }

  /** Appending a batch appends to each lane the part of the batch that belongs there. */
  lemma {:induction false} AppendAllByLane(ls: LaneList, ms: seq<Message>, p: nat)
    requires p < 10
    ensures AppendAll(ls, ms)[p] == ls[p] + Between(ms, p, p)
    decreases |ms|
  {
    if ms != [] { AppendAllByLane(Append(ls, ms[0]), ms[1..], p); }
  }

  lemma HighestIs(ls: LaneList, c: nat)
    requires c < 10 && ls[c] != [] && forall p | c < p < 10 :: ls[p] == []
    ensures Highest(ls) == c
  {
    assert ls[c] != [];
  }

  /** The front of a descending delivery order is the head of the highest lane. */
  lemma FrontIsHighest(ms: seq<Message>)
    requires Descending(ms)
    ensures Highest(LanesOf(ms)) == if ms == [] then -1 else Lane(ms[0])
    ensures ms != [] ==> LanesOf(ms)[Lane(ms[0])][0] == ms[0] && LanesOf(ms[1..]) == Pop(LanesOf(ms))
  {
    if ms != [] {
      var c, ls, ls' := Lane(ms[0]), LanesOf(ms), LanesOf(ms[1..]);
      forall p | 0 <= p < 10
        ensures ls[p] == (if p == c then [ms[0]] else []) + ls'[p]
        ensures p > c ==> ls[p] == []
      {
        if p > c { BetweenNothing(ms, p, p); }
      }
      HighestIs(ls, c);
      assert ls[c] == [ms[0]] + ls'[c];
      assert forall p | 0 <= p < 10 :: ls'[p] == Pop(ls)[p];
    }
  }

  /** A descending delivery order is its lanes, one after the other. */
  lemma FlattenLanes(ms: seq<Message>)
    requires Descending(ms)
    ensures Flatten(LanesOf(ms), 10) == ms
  {
    FlattenBelow(ms, 10);
    BetweenEverything(ms, 0, 9);
  }

  lemma {:induction false} FlattenBelow(ms: seq<Message>, p: nat)
    requires Descending(ms) && p <= 10
    ensures Flatten(LanesOf(ms), p) == Between(ms, 0, p - 1)
  {
    if p == 0 {
      BetweenNothing(ms, 0, -1);
    } else {
      FlattenBelow(ms, p - 1);
      PeelLane(ms, p - 1);
    }
  }

  lemma {:induction false} PeelLane(ms: seq<Message>, p: nat)
    requires Descending(ms) && p <= 9
    ensures Between(ms, 0, p) == Between(ms, p, p) + Between(ms, 0, p - 1)
    decreases |ms|
  {
    if ms != [] {
      PeelLane(ms[1..], p);
      if Lane(ms[0]) < p { BetweenNothing(ms[1..], p, p); }
    }
  }

  // ----- Outstanding deliveries -----

  lemma OutstandingIs(t: Tree<Message>, o: map<u64, Message>)
    requires forall u: u64 :: Get(t, Be64(u)) == if u in o then Some(o[u]) else None
    ensures Outstanding(t) == o
  {
    var o' := Outstanding(t);
    forall u: u64
      ensures u in o' <==> u in o
      ensures u in o' ==> o'[u] == o[u]
    {
      assert Get(t, Be64(u)) == if u in o then Some(o[u]) else None;
    }
  }

  lemma OutstandingGet(t: Tree<Message>, u: u64)
    ensures Get(t, Be64(u)) == if u in Outstanding(t) then Some(Outstanding(t)[u]) else None
  {
  }

  lemma OutstandingInsert(t: Tree<Message>, tag: u64, m: Message)
    requires Sorted(t)
    ensures Outstanding(Insert(t, Be64(tag), m)) == Outstanding(t)[tag := m]
  {
    var t', o' := Insert(t, Be64(tag), m), Outstanding(t)[tag := m];
    forall u: u64
      ensures Get(t', Be64(u)) == if u in o' then Some(o'[u]) else None
    {
      GetInsert(t, Be64(tag), m, Be64(u));
      Be64Order(tag, u);
      OutstandingGet(t, u);
    }
    OutstandingIs(t', o');
  }

  lemma OutstandingRemove(t: Tree<Message>, tag: u64)
    requires Sorted(t)
    ensures Outstanding(Remove(t, Be64(tag))) == Outstanding(t) - {tag}
  {
    var t', o' := Remove(t, Be64(tag)), Outstanding(t) - {tag};
    forall u: u64
      ensures Get(t', Be64(u)) == if u in o' then Some(o'[u]) else None
    {
      GetRemove(t, Be64(tag), Be64(u));
      Be64Order(tag, u);
      OutstandingGet(t, u);
    }
    OutstandingIs(t', o');
  }

  lemma OutstandingEmpty()
    ensures Outstanding([]).Keys == {}
  {
  }

  lemma FirstTagIsLeast(t: Tree<Message>, issued: nat)
    requires TagTreeOk(t, issued) && t != []
    ensures var tag := FromBe64(t[0].key);
            && tag in Outstanding(t) && Outstanding(t)[tag] == t[0].val
            && Least(Outstanding(t).Keys) == tag
            && Remove(t, Be64(tag)) == t[1..]
  {
    assert TagOk(t[0], issued);
    var tag := FromBe64(t[0].key);
    Be64Surjective(t[0].key);
    RankAt(t, 0);
    OutstandingGet(t, tag);
    var least := Least(Outstanding(t).Keys);
    OutstandingGet(t, least);
    Be64Order(tag, least);
  }

  lemma InTagOrderStep(t: Tree<Message>, issued: nat)
    requires TagTreeOk(t, issued) && t != []
    ensures InTagOrder(Outstanding(t)) == [t[0].val] + InTagOrder(Outstanding(t[1..]))
  {
    FirstTagIsLeast(t, issued);
    OutstandingRemove(t, FromBe64(t[0].key));
  }

  /** Key order of the in-flight tree is tag order. */
  lemma {:induction false} TreeIsInTagOrder(t: Tree<Message>, issued: nat)
    requires TagTreeOk(t, issued)
    ensures InTagOrder(Outstanding(t)) == Values(t)
    decreases |t|
  {
    if t == [] {
      OutstandingEmpty();
    } else {
      TreeIsInTagOrder(t[1..], issued);
      InTagOrderStep(t, issued);
      ValuesCons(t);
    }
  }

  // ----- The trees implement the lanes -----

  lemma StoringImplements(q: QueueState, m: Message, clock: Readings, id: u64, issued: nat)
    requires QueueOk(q, issued) && issued <= id
    ensures Abstract(StoreMessage(q, m, clock, id)) ==
            if m.deliverAt.Some? && m.deliverAt.value > clock.due
            then Abstract(q).(schedule := Schedule(Values(q.scheduled), m))
            else Abstract(q).(lanes := Append(LanesOf(Values(q.main)), m))
  {
    if m.deliverAt.Some? && m.deliverAt.value > clock.due {
      InsertIsSchedule(q.scheduled, issued, m, id);
    } else {
      InsertIsEnqueue(q.main, issued, m, id);
      EnqueueAppends(Values(q.main), m);
    }
  }

  lemma TakingImplements(q: QueueState, issued: nat)
    requires QueueOk(q, issued) && q.main != []
    ensures var a, tag := Abstract(q), KeyId(q.main[0].key);
            && Highest(a.lanes) >= 0 && a.lanes[Highest(a.lanes)][0] == q.main[0].val && tag !in a.outstanding
            && Abstract(TakeFirst(q)) == a.(lanes := Pop(a.lanes), outstanding := a.outstanding[tag := q.main[0].val])
  {
    LaneTreeDescending(q.main, issued);
    FrontIsHighest(Values(q.main));
    assert Values(q.main[1..]) == Values(q.main)[1..];
    OutstandingInsert(q.inflight, KeyId(q.main[0].key), q.main[0].val);
    TakeFirstOk(q, issued);
  }

  lemma ReturningImplements(q: QueueState, tag: u64, id: u64, issued: nat)
    requires QueueOk(q, issued) && issued <= id && Has(q.inflight, Be64(tag))
    ensures var a := Abstract(q);
            var m := Nacked(a.outstanding[tag]);
            var a' := a.(outstanding := a.outstanding - {tag});
            Abstract(Return(q, tag, a.outstanding[tag], id)) ==
            if Spends(a.policy.maxDeliveryAttempts, m.attempts) then a'.(dead := Append(a.dead, m))
            else a'.(lanes := Append(a.lanes, m))
  {
    var m := Nacked(Get(q.inflight, Be64(tag)).value);
    OutstandingRemove(q.inflight, tag);
    InsertIsEnqueue(q.main, issued, m, id);
    InsertIsEnqueue(q.dlq, issued, m, id);
    EnqueueAppends(Values(q.main), m);
    EnqueueAppends(Values(q.dlq), m);
  }

  /** Promotion moves all and only the due messages and appends them in schedule order. */
  lemma PromotingImplements(q: QueueState, now: millis, ids: seq<u64>, issued: nat)
    requires QueueOk(q, issued) && |ids| == DueCount(q.scheduled, now) && AscendingFrom(ids, issued)
    ensures var a := Abstract(q);
            && |ids| == |DueBy(a.schedule, now)|
            && Abstract(PromoteDue(q, now, ids)) ==
               a.(lanes := AppendAll(a.lanes, DueBy(a.schedule, now)), schedule := NotDueBy(a.schedule, now))
  {
    var due := Values(q.scheduled[..DueCount(q.scheduled, now)]);
    DueScanIsExact(q.scheduled, issued, now);
    InsertAllIsEnqueueAll(q.main, issued, due, ids);
    EnqueueAllAppends(Values(q.main), due);
  }

  lemma RetainingImplements(q: QueueState, now: millis, issued: nat)
    requires QueueOk(q, issued)
    ensures var a := Abstract(q);
            && |Flatten(a.lanes, 10)| == |q.main|
            && |Survivors(Flatten(a.lanes, 10), a.policy, now)| == |Retained(q, now)|
            && Abstract(q.(main := Retained(q, now))) ==
               a.(lanes := LanesOf(Survivors(Flatten(a.lanes, 10), a.policy, now)))
  {
    LaneTreeDescending(q.main, issued);
    FlattenLanes(Values(q.main));
    RetainedIsSurvivors(q, now);
  }

  lemma RecoveringImplements(q: QueueState, ids: seq<u64>, issued: nat)
    requires QueueOk(q, issued) && |ids| == |q.inflight| && AscendingFrom(ids, issued)
    ensures var a := Abstract(q);
            Abstract(Recover(q, ids)) ==
            a.(lanes := AppendAll(a.lanes, InTagOrder(a.outstanding)), outstanding := map[])
  {
    TreeIsInTagOrder(q.inflight, issued);
    InsertAllIsEnqueueAll(q.main, issued, Values(q.inflight), ids);
    EnqueueAllAppends(Values(q.main), Values(q.inflight));
    OutstandingEmpty();
  }

  lemma PublishIsAllowed(s: Manager, e: Event)
    requires Enabled(s, e) && e.Publishing? && e.queue in s.queues
    ensures AllowsPublish(Abstract(s.queues[e.queue]), NoRoom(s, e), e.msg, ReplyTo(s, e))
  {
    hide StoreMessage;
  }

  /** Every reply of the engine is one the lanes permit, and the state reached is the lanes' next state. */
  lemma StepImplements(s: Manager, e: Event, n: Name)
    requires ManagerOk(s) && Admissible(s, e) && n in s.queues
    ensures n in Next(s, e).queues
    ensures Allows(Abstract(s.queues[n]), n, NoRoom(s, e), e, ReplyTo(s, e))
    ensures Abstract(Next(s, e).queues[n]) == LaneNext(Abstract(s.queues[n]), n, NoRoom(s, e), e, ReplyTo(s, e))
  {
    hide AllowsPublish, NoRoom;
    ChangeIsLegal(s, e, n);
    ChangeIsNext(s, e, n);
    var q := s.queues[n];
    assert QueueOk(q, s.issued);
    if e.Reopening? {
      RecoveringImplements(q, e.drawn[n], s.issued);
    } else if e.queue == n {
      match e
      case Declaring(_, _) =>
      case Publishing(_, m, clock, id) =>
        PublishIsAllowed(s, e);
        StoringImplements(q, m, clock, id, s.issued);
      case Consuming(_) =>
        LaneTreeDescending(q.main, s.issued);
        FrontIsHighest(Values(q.main));
        if q.main != [] { TakingImplements(q, s.issued); }
      case Acking(_, tag) =>
        OutstandingGet(q.inflight, tag);
        OutstandingRemove(q.inflight, tag);
      case Nacking(_, tag, id) =>
        OutstandingGet(q.inflight, tag);
        if Has(q.inflight, Be64(tag)) { ReturningImplements(q, tag, id, s.issued); }
      case Promoting(_, now, ids) => PromotingImplements(q, now, ids, s.issued);
      case Retaining(_, now) => RetainingImplements(q, now, s.issued);
    }
  }

  /** Over a whole run, the lane machine fed with the events and the replies the engine gave permits
      every one of those replies and stays in step with the trees. */
  lemma {:induction false} RunImplements(ss: seq<Manager>, es: seq<Event>, n: Name, lanes: seq<LaneQueue>, i: nat)
    requires IsRun(ss, es) && ManagerOk(ss[0]) && n in ss[0].queues && i < |ss|
    requires |lanes| == |ss| && lanes[0] == Abstract(ss[0].queues[n])
    requires forall k | 0 <= k < |es| ::
               Allows(lanes[k], n, NoRoom(ss[k], es[k]), es[k], ReplyTo(ss[k], es[k])) ==>
                 lanes[k + 1] == LaneNext(lanes[k], n, NoRoom(ss[k], es[k]), es[k], ReplyTo(ss[k], es[k]))
    ensures n in ss[i].queues && lanes[i] == Abstract(ss[i].queues[n])
    ensures i < |es| ==> Allows(lanes[i], n, NoRoom(ss[i], es[i]), es[i], ReplyTo(ss[i], es[i]))
  {
    assert |ss| == |es| + 1;
    hide IsRun, ManagerOk, Next, ReplyTo, FreshIds, Enabled, Abstract, Allows, LaneNext, NoRoom;
    RunKeepsOk(ss, es, i);
    if i > 0 {
      RunImplements(ss, es, n, lanes, i - 1);
      RunKeepsOk(ss, es, i - 1);
      RunAt(ss, es, i - 1);
      StepImplements(ss[i - 1], es[i - 1], n);
    }
    if i < |es| {
      RunAt(ss, es, i);
      StepImplements(ss[i], es[i], n);
    }
  }
}
