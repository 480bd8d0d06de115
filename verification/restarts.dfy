/** Restarts after a restore.  A restart returns outstanding messages by tag, so original and restored queue
    agree through it exactly when the ids drawn at the restore are above the preserved tags of their lanes. */
module Restarts {
  import opened Bytes
  import opened Results
  import opened OrderedTree
  import opened Messages
  import opened Engine
  import opened Runs
  import opened WellFormed
  import opened DeliveryOrder
  import opened Lanes
  import opened LaneTags
  import opened Snapshots
  import opened Renamings
  import opened RestoredManager

  /** The queue after its first `n` messages were delivered. */
  function Drained(q: QueueState, n: nat): (q': QueueState)
    requires n <= |q.main|
    ensures q'.main == q.main[n..]
    decreases n
  {
    if n == 0 then q else TakeFirst(Drained(q, n - 1))
  }

  // ----- Aligned queues agree -----

  lemma {:induction false} DrainStaysAligned(
      q1: QueueState, q2: QueueState, r: Renaming, issued1: nat, issued2: nat, n: nat) returns (r': Renaming)
    requires AlikeQueues(q1, q2, r, issued1, issued2) && AlignedQueues(q1, q2, r) && n <= |q1.main| == |q2.main|
    ensures AlikeQueues(Drained(q1, n), Drained(q2, n), r', issued1, issued2)
    ensures AlignedQueues(Drained(q1, n), Drained(q2, n), r')
  {
    hide AlikeQueues, AlignedQueues, TakeFirst;
    if n == 0 {
      r' := r;
    } else {
      var r0 := DrainStaysAligned(q1, q2, r, issued1, issued2, n - 1);
      var d1, d2 := Drained(q1, n - 1), Drained(q2, n - 1);
      ChangeStaysAlike(d1, d2, Takes, Takes, r0, issued1, issued1, issued2, issued2);
      ChangeStaysAligned(d1, d2, Takes, Takes, r0, issued1, issued1, issued2, issued2);
      r' := NextRenaming(d1, d2, Takes, r0);
    }
  }

  // ----- Unaligned queues do not -----

  /** Every ready message is unlike the other ready ones and those in flight, as messages with unique
      identifiers are. */
  ghost predicate Unlike(q: QueueState) {
    && (forall i | 0 <= i < |q.main| :: q.main[i].val !in Values(q.inflight))
    && (forall i, j | 0 <= i < j < |q.main| :: q.main[i].val != q.main[j].val)
  }

  lemma InsertValues(t: Tree<Message>, k: Key, m: Message, x: Message)
    requires x in Values(Insert(t, k, m))
    ensures x == m || x in Values(t)
  {
    var i :| 0 <= i < |Insert(t, k, m)| && Values(Insert(t, k, m))[i] == x;
    InsertOrigin(t, k, m, i);
    if x != m {
      var j :| 0 <= j < |t| && t[j] == Insert(t, k, m)[i];
      assert Values(t)[j] == x;
    }
  }

  /** What is in flight after a drain was in flight before or was delivered by it. */
  lemma {:induction false} DrainedValues(q: QueueState, n: nat, x: Message)
    requires n <= |q.main| && x in Values(Drained(q, n).inflight)
    ensures x in Values(q.inflight) || exists i :: 0 <= i < n && q.main[i].val == x
  {
    hide Insert, KeyId;
    if n > 0 {
      var q' := Drained(q, n - 1);
      InsertValues(q'.inflight, Be64(KeyId(q'.main[0].key)), q'.main[0].val, x);
      if x != q'.main[0].val { DrainedValues(q, n - 1, x); } else { assert q.main[n - 1].val == x; }
    }
  }

  /** A drain leaves every delivery whose tag it does not hand out. */
  lemma {:induction false} DrainedKeeps(q: QueueState, n: nat, tag: u64)
    requires n <= |q.main| && Sorted(q.inflight) && forall i | 0 <= i < n :: KeyId(q.main[i].key) != tag
    ensures Sorted(Drained(q, n).inflight)
    ensures Get(Drained(q, n).inflight, Be64(tag)) == Get(q.inflight, Be64(tag))
  {
    hide Insert, KeyId, Get, Sorted;
    if n > 0 {
      DrainedKeeps(q, n - 1, tag);
      var q' := Drained(q, n - 1);
      assert q'.main[0] == q.main[n - 1];
      InsertSorted(q'.inflight, Be64(KeyId(q'.main[0].key)), q'.main[0].val);
      GetInsert(q'.inflight, Be64(KeyId(q'.main[0].key)), q'.main[0].val, Be64(tag));
      Be64Order(KeyId(q'.main[0].key), tag);
    }
  }

  /** The lane of a message just inserted under an absent key. */
  lemma InsertInLane(t: Tree<Message>, k: Key, m: Message)
    requires !Has(t, k)
    ensures var p, r := Lane(m), Rank(t, k);
            Between(Values(Insert(t, k, m)), p, p) ==
            Between(Values(t)[..r], p, p) + [m] + Between(Values(t)[r..], p, p)
  {
    ValuesInsert(t, k, m);
    hide Insert, Rank, Has, Between, Lane;
    var p, r, vs := Lane(m), Rank(t, k), Values(t);
    BetweenConcat(vs[..r] + [m], vs[r..], p, p);
    BetweenConcat(vs[..r], [m], p, p);
    BetweenOne(m, p);
  }

  /** A delivery with the newest tag of its lane comes last in it. */
  lemma NewestIsLast(t: Tree<Message>, k: Key, m: Message)
    requires Sorted(t) && !Has(t, k)
    requires forall i | 0 <= i < |t| && Lane(t[i].val) == Lane(m) :: Less(t[i].key, k)
    ensures var lane := Between(Values(Insert(t, k, m)), Lane(m), Lane(m));
            lane != [] && lane[|lane| - 1] == m
  {
    InsertInLane(t, k, m);
    RankSplits(t, k);
    var r, vs := Rank(t, k), Values(t);
    forall i | 0 <= i < |vs[r..]|
      ensures Lane(vs[r..][i]) != Lane(m)
    {
      assert vs[r..][i] == t[r + i].val && Less(k, t[r + i].key);
      if Less(t[r + i].key, k) { LessAsymmetric(k, t[r + i].key); }
    }
    hide Insert, Rank, Has, Between, Less, Lane;
    BetweenNothing(vs[r..], Lane(m), Lane(m));
  }

  lemma {:induction false} BetweenMember(ms: seq<Message>, p: nat, x: Message)
    ensures x in Between(ms, p, p) <==> x in ms && Lane(x) == p
  {
    if ms != [] {
      BetweenMember(ms[1..], p, x);
      assert x in ms <==> x == ms[0] || x in ms[1..];
    }
  }

  /** A delivery with an older tag than another of its lane does not come last, if it is unlike all others. */
  lemma OlderIsNotLast(t: Tree<Message>, k: Key, m: Message, j: nat)
    requires Sorted(t) && !Has(t, k) && m !in Values(t)
    requires j < |t| && Lane(t[j].val) == Lane(m) && Less(k, t[j].key)
    ensures var lane := Between(Values(Insert(t, k, m)), Lane(m), Lane(m));
            lane != [] && lane[|lane| - 1] != m
  {
    InsertInLane(t, k, m);
    var r, vs, p := Rank(t, k), Values(t), Lane(m);
    if j < r { LessAsymmetric(k, t[j].key); }
    hide Insert, Has, Between, Less, Rank;
    var rest := Between(vs[r..], p, p);
    BetweenMember(vs[r..], p, t[j].val);
    assert vs[r..][j - r] == t[j].val;
    var last := rest[|rest| - 1];
    BetweenMember(vs[r..], p, last);
    assert last in vs;
  }

  lemma {:induction false} DrainedOk(q: QueueState, issued: nat, n: nat)
    requires QueueOk(q, issued) && n <= |q.main|
    ensures QueueOk(Drained(q, n), issued)
    ensures LaneTagsBelow(q) ==> LaneTagsBelow(Drained(q, n))
  {
    hide QueueOk, LaneTagsBelow, TakeFirst;
    if n > 0 {
      DrainedOk(q, issued, n - 1);
      TakeFirstOk(Drained(q, n - 1), issued);
      if LaneTagsBelow(q) { TakingKeepsOlder(Drained(q, n - 1), issued); }
    }
  }

  /** The lane of the message delivered last, in the order in which a restart returns it. */
  ghost function ReturnedLane(q: QueueState, i: nat): seq<Message>
    requires i < |q.main|
  {
    Between(Values(Drained(q, i + 1).inflight), Lane(q.main[i].val), Lane(q.main[i].val))
  }

  lemma LaneKeysBelow(q: QueueState, issued: nat, x: nat)
    requires QueueOk(q, issued) && LaneTagsBelow(q) && q.main != []
    requires x < |q.inflight| && Lane(q.inflight[x].val) == Lane(q.main[0].val)
    ensures Less(q.inflight[x].key, Be64(KeyId(q.main[0].key)))
  {
    var k := q.inflight[x].key;
    assert TagOk(q.inflight[x], issued);
    Be64Surjective(k);
    RankAt(q.inflight, x);
    assert FromBe64(k) in Outstanding(q.inflight);
    Be64Order(FromBe64(k), KeyId(q.main[0].key));
  }

  lemma LastDeliveredIsLast(q: QueueState, issued: nat, i: nat)
    requires QueueOk(q, issued) && LaneTagsBelow(q) && i < |q.main|
    ensures ReturnedLane(q, i) != [] && ReturnedLane(q, i)[|ReturnedLane(q, i)| - 1] == q.main[i].val
  {
    DrainedOk(q, issued, i);
    var d := Drained(q, i);
    assert d.main[0] == q.main[i];
    forall x | 0 <= x < |d.inflight| && Lane(d.inflight[x].val) == Lane(q.main[i].val)
      ensures Less(d.inflight[x].key, Be64(KeyId(q.main[i].key)))
    {
      LaneKeysBelow(d, issued, x);
    }
    hide LaneTagsBelow, Less, KeyId, Be64, Insert, Between, LaneTreeOk, ScheduleOk;
    NewestIsLast(d.inflight, Be64(KeyId(q.main[i].key)), q.main[i].val);
  }

  lemma LastDeliveredIsNotLast(q: QueueState, issued: nat, i: nat, tag: u64)
    requires QueueOk(q, issued) && Unlike(q) && i < |q.main| && KeyId(q.main[i].key) < tag
    requires forall k | 0 <= k < |q.main| :: KeyId(q.main[k].key) != tag
    requires Has(q.inflight, Be64(tag)) && Lane(Get(q.inflight, Be64(tag)).value) == Lane(q.main[i].val)
    ensures ReturnedLane(q, i) != [] && ReturnedLane(q, i)[|ReturnedLane(q, i)| - 1] != q.main[i].val
  {
    DrainedOk(q, issued, i);
    DrainedKeeps(q, i, tag);
    var d, m, id := Drained(q, i), q.main[i].val, KeyId(q.main[i].key);
    assert d.main[0] == q.main[i];
    if m in Values(d.inflight) { DrainedValues(q, i, m); }
    Be64Order(id, tag);
    var j := Rank(d.inflight, Be64(tag));
    hide KeyId, Be64, Insert, Between, LaneTreeOk, ScheduleOk, Less, Unlike;
    OlderIsNotLast(d.inflight, Be64(id), m, j);
  }

  lemma DifferentLastsDiffer(q1: QueueState, q2: QueueState, i: nat)
    requires i < |q1.main| && i < |q2.main| && q1.main[i].val == q2.main[i].val
    requires ReturnedLane(q1, i) != ReturnedLane(q2, i)
    ensures !SameReturnOrder(Drained(q1, i + 1), Drained(q2, i + 1))
  {
    var p := Lane(q1.main[i].val);
    hide Between, Drained;
    assert 0 <= p < 10;
  }

  // ----- The exact condition -----

  /** Original and restored queue deliver their first messages alike and a restart after any number of them
      returns the outstanding messages of each lane in the same order. */
  ghost predicate RestartsAlike(q1: QueueState, q2: QueueState) {
    |q1.main| == |q2.main| &&
    forall n | 0 <= n <= |q1.main| :: SameReturnOrder(Drained(q1, n), Drained(q2, n))
  }

  lemma AboveRestartsAlike(q: QueueState, issued: nat, d: Draws, low: nat, high: nat)
    requires QueueOk(q, issued) && LaneTagsBelow(q) && Fits(ExportQueue(q), d) && DrawsBetween(d, low, high)
    requires TagsClear(ExportQueue(q), d, high) && DrawnAbove(ExportQueue(q), d)
    ensures RestartsAlike(q, RestoreQueue(EmptyQueue(DEFAULT_POLICY), ExportQueue(q), d))
  {
    var q', r := RestoreQueue(EmptyQueue(DEFAULT_POLICY), ExportQueue(q), d), KeptTags(q.inflight);
    RestoredQueueAlike(q, issued, d, low, high);
    RestoredLaneTagsIff(q, issued, d, low, high);
    KeptTagsInOrder(q.inflight);
    AlikeParts(q, q', r, issued, high);
    hide AlikeQueues, RestoreQueue, QueueOk, LaneTagsBelow, TagsInOrder;
    forall n | 0 <= n <= |q.main|
      ensures SameReturnOrder(Drained(q, n), Drained(q', n))
    {
      var r' := DrainStaysAligned(q, q', r, issued, high, n);
      AlignedReturnsAlike(Drained(q, n), Drained(q', n), r', issued, high);
    }
  }

  lemma BelowRestartsDiffer(q: QueueState, issued: nat, d: Draws, low: nat, high: nat, i: nat, j: nat)
    requires QueueOk(q, issued) && LaneTagsBelow(q) && Unlike(q)
    requires Fits(ExportQueue(q), d) && DrawsBetween(d, low, high) && TagsClear(ExportQueue(q), d, high)
    requires i < |q.main| && j < |q.inflight| && Lane(q.main[i].val) == Lane(q.inflight[j].val)
    requires d.main[i] < Tagged(q.inflight)[j].0
    ensures !RestartsAlike(q, RestoreQueue(EmptyQueue(DEFAULT_POLICY), ExportQueue(q), d))
  {
    hide QueueOk, RestoreQueue, LaneTagsBelow, Unlike, KeyId, Be64, ReturnedLane, SameReturnOrder;
    var q', tag := RestoreQueue(EmptyQueue(DEFAULT_POLICY), ExportQueue(q), d), Tagged(q.inflight)[j].0;
    RestoredIds(q, issued, d, low, high);
    RestoredUnlike(q, issued, d, low, high);
    TagOfEntry(q.inflight, issued, j);
    LastDeliveredIsLast(q, issued, i);
    LastDeliveredIsNotLast(q', high, i, tag);
    DifferentLastsDiffer(q, q', i);
  }

  lemma TagOfEntry(t: Tree<Message>, issued: nat, j: nat)
    requires TagTreeOk(t, issued) && j < |t|
    ensures Get(t, Be64(Tagged(t)[j].0)) == Some(t[j].val) && Has(t, Be64(Tagged(t)[j].0))
  {
    assert TagOk(t[j], issued);
    Be64Surjective(t[j].key);
    RankAt(t, j);
  }

  lemma RestoredUnlike(q: QueueState, issued: nat, d: Draws, low: nat, high: nat)
    requires QueueOk(q, issued) && Unlike(q)
    requires Fits(ExportQueue(q), d) && DrawsBetween(d, low, high) && TagsClear(ExportQueue(q), d, high)
    ensures var q' := RestoreQueue(EmptyQueue(DEFAULT_POLICY), ExportQueue(q), d);
            && QueueOk(q', high) && Unlike(q') && q'.inflight == q.inflight && TagTreeOk(q.inflight, issued)
            && |q'.main| == |q.main| && forall k | 0 <= k < |q.main| :: q'.main[k].val == q.main[k].val
  {
    hide RestoreQueue, LaneTreeOk, ScheduleOk, IdsApart, DrawsBetween, TagsClear, TagTreeOk;
    QueueRoundTrip(q, issued, d, low, high);
    RestoredOkIff(q, issued, d, low, high);
    var q' := RestoreQueue(EmptyQueue(DEFAULT_POLICY), ExportQueue(q), d);
    assert |Values(q'.main)| == |Values(q.main)|;
    assert forall k | 0 <= k < |q.main| :: Values(q'.main)[k] == Values(q.main)[k];
  }

  /** A restart after any number of deliveries treats original and restored queue alike exactly when every id
      drawn for a ready message is above the preserved tags of its lane. */
  lemma RestartsAlikeIff(q: QueueState, issued: nat, d: Draws, low: nat, high: nat)
    requires QueueOk(q, issued) && LaneTagsBelow(q) && Unlike(q)
    requires Fits(ExportQueue(q), d) && DrawsBetween(d, low, high) && TagsClear(ExportQueue(q), d, high)
    ensures RestartsAlike(q, RestoreQueue(EmptyQueue(DEFAULT_POLICY), ExportQueue(q), d))
            <==> DrawnAbove(ExportQueue(q), d)
  {
    hide RestartsAlike, RestoreQueue, QueueOk, LaneTagsBelow, DrawsBetween, Unlike;
    if DrawnAbove(ExportQueue(q), d) {
      AboveRestartsAlike(q, issued, d, low, high);
    } else {
      var i, j :| 0 <= i < |q.main| && 0 <= j < |q.inflight|
                  && Lane(ExportQueue(q).messages[i]) == Lane(ExportQueue(q).inflight[j].1)
                  && !(ExportQueue(q).inflight[j].0 < d.main[i]);
      assert Tagged(q.inflight)[j].0 != d.main[i];
      BelowRestartsDiffer(q, issued, d, low, high, i, j);
    }
  }

  // ----- A case in which they differ -----

  /** The empty database. */
  function Nothing(): Manager {
    Manager(map[], 0, 0, None)
  }

  function CollisionEvents(n: Name, outstanding: Message, tag: u64, waiting: Message, id: u64, clock: Readings)
    : seq<Event>
  {
    [Declaring(n, DEFAULT_POLICY), Publishing(n, outstanding, clock, tag), Consuming(n),
     Publishing(n, waiting, clock, id)]
  }

  lemma FirstInsert(k: Key, m: Message)
    ensures Insert([], k, m) == [Entry(k, m)]
  {
  }

  /** From an empty database, two publishes with a consume between them leave the first message outstanding
      and the second waiting. */
  lemma CollisionIsReached(n: Name, outstanding: Message, tag: u64, waiting: Message, id: u64, clock: Readings)
    returns (ss: seq<Manager>)
    requires tag < id && outstanding.deliverAt.None? && waiting.deliverAt.None?
    ensures IsRun(ss, CollisionEvents(n, outstanding, tag, waiting, id, clock)) && ss[0] == Nothing()
    ensures ss[4].queues == map[n := ColliderQueue(waiting, id, outstanding, tag)]
  {
    var k1, k2 := EncodeKey(outstanding.priority, tag), EncodeKey(waiting.priority, id);
    KeyIdRoundTrip(outstanding.priority, tag);
    FirstInsert(k1, outstanding);
    FirstInsert(k2, waiting);
    FirstInsert(Be64(tag), outstanding);
    hide EncodeKey, KeyId, Be64, Insert;
    var q0 := EmptyQueue(DEFAULT_POLICY);
    var q1 := q0.(main := [Entry(k1, outstanding)]);
    var q2 := q0.(inflight := [Entry(Be64(tag), outstanding)]);
    var q3 := ColliderQueue(waiting, id, outstanding, tag);
    var s1 := Nothing().(queues := map[n := q0]);
    var s2 := Manager(map[n := q1], tag + 1, EncodedLen(outstanding), None);
    var s3 := s2.(queues := map[n := q2]);
    var s4 := Manager(map[n := q3], id + 1, EncodedLen(outstanding) + EncodedLen(waiting), None);
    ss := [Nothing(), s1, s2, s3, s4];
    var es := CollisionEvents(n, outstanding, tag, waiting, id, clock);
    assert Next(Nothing(), es[0]).queues == s1.queues;
    assert q1.main[1..] == [];
    assert Next(s1, es[1]).queues == s2.queues;
    assert Next(s2, es[2]).queues == s3.queues;
    assert Next(s3, es[3]).queues == s4.queues;
    assert forall i | 0 <= i < |es| :: Admissible(ss[i], es[i]) && ss[i + 1] == Next(ss[i], es[i]);
  }

  /** When the restoring node draws an id below a preserved tag, though clear of it, the two messages of that
      history come back from a restart in different orders once both are delivered. */
  lemma RestartCanReorder(waiting: Message, id: u64, outstanding: Message, tag: u64, id': u64)
    requires id' < tag < id && Lane(waiting) == Lane(outstanding) && waiting != outstanding
    ensures var q, d := ColliderQueue(waiting, id, outstanding, tag), Draws([id'], [], [], []);
            && Fits(ExportQueue(q), d) && DrawsBetween(d, id', tag + 1) && TagsClear(ExportQueue(q), d, tag + 1)
            && !RestartsAlike(q, RestoreQueue(EmptyQueue(DEFAULT_POLICY), ExportQueue(q), d))
  {
    var q, d := ColliderQueue(waiting, id, outstanding, tag), Draws([id'], [], [], []);
    var low: nat, high: nat, issued: nat := id', tag, id;
    CollisionFacts(waiting, id, outstanding, tag, issued + 1);
    hide ColliderQueue, RestoreQueue, QueueOk, RestartsAlike, LaneTagsBelow, Unlike, Tagged;
    BelowRestartsDiffer(q, issued + 1, d, low, high + 1, 0, 0);
  }

  lemma CollisionFacts(waiting: Message, id: u64, outstanding: Message, tag: u64, issued: nat)
    requires tag < id < issued && waiting != outstanding
    ensures var q := ColliderQueue(waiting, id, outstanding, tag);
            && QueueOk(q, issued) && LaneTagsBelow(q) && Unlike(q)
            && |q.main| == 1 && q.main[0].val == waiting && Values(q.main) == [waiting]
            && |q.inflight| == 1 && q.inflight[0].val == outstanding && Tagged(q.inflight) == [(tag, outstanding)]
            && q.scheduled == [] && q.dlq == []
  {
    var q := ColliderQueue(waiting, id, outstanding, tag);
    ColliderQueueOk(waiting, id, outstanding, tag, issued);
    KeyIdRoundTrip(waiting.priority, id);
    Be64RoundTrip(tag);
    hide EncodeKey, KeyId, Be64, QueueOk, LaneTagsBelow;
    CollisionLaneTags(q, id, tag);
  }

  lemma CollisionLaneTags(q: QueueState, id: u64, tag: u64)
    requires tag < id && |q.main| == 1 && KeyId(q.main[0].key) == id
    requires |q.inflight| == 1 && q.inflight[0].key == Be64(tag)
    ensures LaneTagsBelow(q)
  {
    forall t | t in Outstanding(q.inflight)
      ensures t == tag
    {
      Be64Order(t, tag);
    }
  }
}
