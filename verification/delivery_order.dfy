/** The order in which a tree yields its messages, stated without keys.

    `Values` of a main tree is the delivery order of the queue.  Inserting under a fresh id places a
    message behind everything of its own or a higher lane and before everything lower. */
module DeliveryOrder {
  import opened Bytes
  import opened Results
  import opened OrderedTree
  import opened Messages
  import opened Engine
  import opened Runs
  import opened WellFormed

  /** The messages whose lane lies between two bounds, in their order. */
  function Between(ms: seq<Message>, low: int, high: int): seq<Message> {
    if ms == [] then []
    else (if low <= Lane(ms[0]) <= high then [ms[0]] else []) + Between(ms[1..], low, high)
  }

  /** Placing one more message in delivery order. */
  function Enqueue(ready: seq<Message>, m: Message): seq<Message> {
    Between(ready, Lane(m), 9) + [m] + Between(ready, 0, Lane(m) - 1)
  }

  function EnqueueAll(ready: seq<Message>, ms: seq<Message>): seq<Message>
    decreases |ms|
  {
    if ms == [] then ready else EnqueueAll(Enqueue(ready, ms[0]), ms[1..])
  }

  ghost predicate Descending(ms: seq<Message>) {
    forall i, j | 0 <= i < j < |ms| :: Lane(ms[i]) >= Lane(ms[j])
  }

  lemma {:induction false} BetweenConcat(a: seq<Message>, b: seq<Message>, low: int, high: int)
    ensures Between(a + b, low, high) == Between(a, low, high) + Between(b, low, high)
    decreases |a|
  {
    if a == [] {
      assert a + b == b;
    } else {
      assert (a + b)[1..] == a[1..] + b;
      BetweenConcat(a[1..], b, low, high);
    }
  }

  lemma {:induction false} BetweenEverything(ms: seq<Message>, low: int, high: int)
    requires forall i | 0 <= i < |ms| :: low <= Lane(ms[i]) <= high
    ensures Between(ms, low, high) == ms
    decreases |ms|
  {
    if ms != [] { BetweenEverything(ms[1..], low, high); }
  }

  lemma {:induction false} BetweenNothing(ms: seq<Message>, low: int, high: int)
    requires forall i | 0 <= i < |ms| :: !(low <= Lane(ms[i]) <= high)
    ensures Between(ms, low, high) == []
    decreases |ms|
  {
    if ms != [] { BetweenNothing(ms[1..], low, high); }
  }

  /** A cut between high and low lanes is what the two filters compute. */
  lemma BetweenCut(ms: seq<Message>, r: nat, c: nat)
    requires r <= |ms| && c <= 9
    requires forall i | 0 <= i < r :: Lane(ms[i]) >= c
    requires forall i | r <= i < |ms| :: Lane(ms[i]) < c
    ensures Between(ms, c, 9) == ms[..r]
    ensures Between(ms, 0, c - 1) == ms[r..]
  {
    hide Between, Lane;
    assert ms == ms[..r] + ms[r..];
    BetweenConcat(ms[..r], ms[r..], c, 9);
    BetweenConcat(ms[..r], ms[r..], 0, c - 1);
    BetweenEverything(ms[..r], c, 9);
    BetweenNothing(ms[r..], c, 9);
    BetweenNothing(ms[..r], 0, c - 1);
    BetweenEverything(ms[r..], 0, c - 1);
  }

  /** A lane tree yields higher lanes first and, within a lane, older ids first. */
  lemma LaneTreeOrder(t: Tree<Message>, issued: nat, i: nat, j: nat)
    requires LaneTreeOk(t, issued) && i < j < |t|
    ensures Lane(t[i].val) > Lane(t[j].val) || (Lane(t[i].val) == Lane(t[j].val) && KeyId(t[i].key) < KeyId(t[j].key))
  {
    assert EntryOk(t[i], issued) && EntryOk(t[j], issued);
    QueueKeyOrder(t[i].key, t[j].key);
  }

  /** Stated in priority numbers: of two entries of a lane tree the earlier is not outranked and, unless it
      outranks the later, has the smaller id. */
  lemma LaneTreeByPriority(t: Tree<Message>, issued: nat, i: nat, j: nat)
    requires LaneTreeOk(t, issued) && i < j < |t|
    ensures !Outranked(t[i].val.priority, t[j].val.priority)
    ensures !Outranked(t[j].val.priority, t[i].val.priority) ==> KeyId(t[i].key) < KeyId(t[j].key)
  {
    hide KeyId;
    LaneTreeOrder(t, issued, i, j);
    EncodeKeyOrder(t[i].val.priority, 0, t[j].val.priority, 0);
    EncodeKeyOrder(t[j].val.priority, 0, t[i].val.priority, 0);
  }

  /** In every run a consume of a queue with a waiting message delivers the most urgent one: no waiting
      message has a higher priority, and every other one of the same priority a later id. */
  lemma DeliveredIsMostUrgent(ss: seq<Manager>, es: seq<Event>, n: Name, i: nat, k: nat)
    requires IsRun(ss, es) && ManagerOk(ss[0]) && i < |es| && es[i] == Consuming(n) && n in ss[i].queues
    requires k < |ss[i].queues[n].main|
    ensures var r, waiting := ReplyTo(ss[i], es[i]), ss[i].queues[n].main;
            && r.Delivered? && r.delivered.Ok? && r.delivered.value.Some?
            && var (tag, m) := r.delivered.value.value;
            && (exists j :: 0 <= j < |waiting| && m == waiting[j].val && tag == KeyId(waiting[j].key))
            && !Outranked(m.priority, waiting[k].val.priority)
            && (!Outranked(waiting[k].val.priority, m.priority) ==>
                  tag < KeyId(waiting[k].key) || (tag == KeyId(waiting[k].key) && m == waiting[k].val))
  {
    RunKeepsOk(ss, es, i);
    RunAt(ss, es, i);
    assert QueueOk(ss[i].queues[n], ss[i].issued);
    hide IsRun, ManagerOk, KeyId, Next, TakeFirst;
    var waiting := ss[i].queues[n].main;
    if k > 0 { LaneTreeByPriority(waiting, ss[i].issued, 0, k); }
  }

  lemma LaneTreeDescending(t: Tree<Message>, issued: nat)
    requires LaneTreeOk(t, issued)
    ensures Descending(Values(t))
  {
    forall i, j | 0 <= i < j < |t|
      ensures Lane(Values(t)[i]) >= Lane(Values(t)[j])
    {
      LaneTreeOrder(t, issued, i, j);
    }
  }

  /** The rank of a fresh key is the number of messages in its lane or above. */
  lemma FreshRank(t: Tree<Message>, issued: nat, m: Message, id: u64)
    requires LaneTreeOk(t, issued) && issued <= id
    ensures forall i | 0 <= i < |t| :: i < Rank(t, EncodeKey(m.priority, id)) <==> Lane(t[i].val) >= Lane(m)
  {
    var k := EncodeKey(m.priority, id);
    KeyIdRoundTrip(m.priority, id);
    RankSplits(t, k);
    forall i | 0 <= i < |t|
      ensures i < Rank(t, k) <==> Lane(t[i].val) >= Lane(m)
    {
      assert EntryOk(t[i], issued);
      QueueKeyOrder(t[i].key, k);
      if i >= Rank(t, k) && Less(k, t[i].key) { LessAsymmetric(k, t[i].key); }
    }
  }

  /** Inserting under a fresh id is enqueueing in delivery order. */
  lemma InsertIsEnqueue(t: Tree<Message>, issued: nat, m: Message, id: u64)
    requires LaneTreeOk(t, issued) && issued <= id
    ensures Values(Insert(t, EncodeKey(m.priority, id), m)) == Enqueue(Values(t), m)
  {
    hide LaneTreeOk, EncodeKey, Insert, Has, Between, Rank;
    var k := EncodeKey(m.priority, id);
    FreshKeyAbsent(t, issued, m, id);
    FreshRank(t, issued, m, id);
    ValuesInsert(t, k, m);
    BetweenCut(Values(t), Rank(t, k), Lane(m));
  }

  lemma {:induction false} InsertAllIsEnqueueAll(t: Tree<Message>, issued: nat, ms: seq<Message>, ids: seq<u64>)
    requires LaneTreeOk(t, issued) && |ids| == |ms| && AscendingFrom(ids, issued)
    ensures Values(InsertAll(t, ms, ids)) == EnqueueAll(Values(t), ms)
    decreases |ms|
  {
    if ms != [] {
      InsertIsEnqueue(t, issued, ms[0], ids[0]);
      LaneTreeInsert(t, issued, ms[0], ids[0]);
      InsertAllIsEnqueueAll(
        Insert(t, EncodeKey(ms[0].priority, ids[0]), ms[0]), Bump(issued, ids[0]), ms[1..], ids[1..]);
    }
  }

  // ----- Time order -----

  predicate IsDue(m: Message, t: i64) {
    m.deliverAt.Some? && m.deliverAt.value <= t
  }

  /** The messages whose delivery time has come by `t`, in their order. */
  function DueBy(ms: seq<Message>, t: i64): seq<Message> {
    if ms == [] then []
    else (if IsDue(ms[0], t) then [ms[0]] else []) + DueBy(ms[1..], t)
  }

  function NotDueBy(ms: seq<Message>, t: i64): seq<Message> {
    if ms == [] then []
    else (if IsDue(ms[0], t) then [] else [ms[0]]) + NotDueBy(ms[1..], t)
  }

  /** Placing one more message in a schedule: behind everything due no later. */
  function Schedule(waiting: seq<Message>, m: Message): seq<Message>
    requires m.deliverAt.Some?
  {
    DueBy(waiting, m.deliverAt.value) + [m] + NotDueBy(waiting, m.deliverAt.value)
  }

  lemma {:induction false} DueConcat(a: seq<Message>, b: seq<Message>, t: i64)
    ensures DueBy(a + b, t) == DueBy(a, t) + DueBy(b, t)
    decreases |a|
  {
    hide IsDue;
    if a == [] {
      assert a + b == b;
    } else {
      assert (a + b)[1..] == a[1..] + b;
      DueConcat(a[1..], b, t);
    }
  }

  lemma {:induction false} NotDueConcat(a: seq<Message>, b: seq<Message>, t: i64)
    ensures NotDueBy(a + b, t) == NotDueBy(a, t) + NotDueBy(b, t)
    decreases |a|
  {
    hide IsDue;
    if a == [] {
      assert a + b == b;
    } else {
      assert (a + b)[1..] == a[1..] + b;
      NotDueConcat(a[1..], b, t);
    }
  }

  lemma {:induction false} DueEverything(ms: seq<Message>, t: i64)
    requires forall i | 0 <= i < |ms| :: ms[i].deliverAt.Some? && ms[i].deliverAt.value <= t
    ensures DueBy(ms, t) == ms && NotDueBy(ms, t) == []
    decreases |ms|
  {
    if ms != [] { DueEverything(ms[1..], t); }
  }

  lemma {:induction false} DueNothing(ms: seq<Message>, t: i64)
    requires forall i | 0 <= i < |ms| :: ms[i].deliverAt.Some? ==> ms[i].deliverAt.value > t
    ensures DueBy(ms, t) == [] && NotDueBy(ms, t) == ms
    decreases |ms|
  {
    if ms != [] { DueNothing(ms[1..], t); }
  }

  lemma DueCut(ms: seq<Message>, r: nat, t: i64)
    requires r <= |ms|
    requires forall i | 0 <= i < r :: ms[i].deliverAt.Some? && ms[i].deliverAt.value <= t
    requires forall i | r <= i < |ms| :: ms[i].deliverAt.Some? ==> ms[i].deliverAt.value > t
    ensures DueBy(ms, t) == ms[..r] && NotDueBy(ms, t) == ms[r..]
  {
    assert ms == ms[..r] + ms[r..];
    DueConcat(ms[..r], ms[r..], t);
    NotDueConcat(ms[..r], ms[r..], t);
    DueEverything(ms[..r], t);
    DueNothing(ms[r..], t);
  }

  /** A schedule tree yields its messages in order of time, then id. */
  lemma ScheduleOrder(t: Tree<Message>, issued: nat, i: nat, j: nat)
    requires ScheduleOk(t, issued) && i < j < |t|
    ensures ScheduledTime(t[i].key) < ScheduledTime(t[j].key)
            || (ScheduledTime(t[i].key) == ScheduledTime(t[j].key) && ScheduledId(t[i].key) < ScheduledId(t[j].key))
  {
    assert SlotOk(t[i], issued) && SlotOk(t[j], issued);
    ScheduledKeyOrder(t[i].key, t[j].key);
  }

  lemma ScheduledKeyOrder(a: Key, b: Key)
    requires |a| == |b| == 16 && 0 <= ScheduledTime(a) && 0 <= ScheduledTime(b)
    ensures Less(a, b) <==>
            ScheduledTime(a) < ScheduledTime(b)
            || (ScheduledTime(a) == ScheduledTime(b) && ScheduledId(a) < ScheduledId(b))
  {
    hide Less, FromBe;
    assert a == a[..8] + a[8..] && b == b[..8] + b[8..];
    LessConcat(a[..8], b[..8], a[8..], b[8..]);
    LessIsNumeric(a[..8], b[..8]);
    LessIsNumeric(a[8..], b[8..]);
  }

  /** Inserting under a fresh id is scheduling in time order. */
  lemma InsertIsSchedule(t: Tree<Message>, issued: nat, m: Message, id: u64)
    requires ScheduleOk(t, issued) && issued <= id && m.deliverAt.Some? && 0 <= m.deliverAt.value
    ensures Values(Insert(t, EncodeScheduledKey(m.deliverAt.value, id), m)) == Schedule(Values(t), m)
  {
    var k := EncodeScheduledKey(m.deliverAt.value, id);
    ScheduleInsert(t, issued, m, id);
    ScheduledKeyRoundTrip(m.deliverAt.value, id);
    RankSplits(t, k);
    forall i | 0 <= i < |t|
      ensures i < Rank(t, k) <==> ScheduledTime(t[i].key) <= m.deliverAt.value
      ensures t[i].val.deliverAt == Some(ScheduledTime(t[i].key))
    {
      assert SlotOk(t[i], issued);
      ScheduledKeyOrder(t[i].key, k);
      if i >= Rank(t, k) && Less(k, t[i].key) { LessAsymmetric(k, t[i].key); }
    }
    ValuesInsert(t, k, m);
    DueCut(Values(t), Rank(t, k), m.deliverAt.value);
  }

  /** Despite stopping at the first entry that is not due, the scan finds exactly the due messages. */
  lemma DueScanIsExact(t: Tree<Message>, issued: nat, now: millis)
    requires ScheduleOk(t, issued)
    ensures Values(t[..DueCount(t, now)]) == DueBy(Values(t), now)
    ensures Values(t[DueCount(t, now)..]) == NotDueBy(Values(t), now)
  {
    var n := DueCount(t, now);
    forall i | 0 <= i < |t|
      ensures i < n <==> ScheduledTime(t[i].key) <= now
      ensures t[i].val.deliverAt == Some(ScheduledTime(t[i].key))
    {
      assert SlotOk(t[i], issued);
      if n < i { ScheduleOrder(t, issued, n, i); }
    }
    DueCut(Values(t), n, now);
  }
}
