/** Two queues that differ only in the ids of their messages stay so under the same change, up to a renaming
    of delivery tags that only grows. */
module Renamings {
  import opened Bytes
  import opened OrderedTree
  import opened Messages
  import opened Engine
  import opened Runs
  import opened WellFormed
  import opened DeliveryOrder
  import opened Retention
  import opened Tags
  import opened Lanes
  import opened LaneTags
  import opened ReturnOrder

  /** A one-to-one renaming of tags, kept in both directions. */
  datatype Renaming = Renaming(there: map<u64, u64>, back: map<u64, u64>)

  ghost predicate OneToOne(r: Renaming) {
    && (forall t | t in r.there :: r.there[t] in r.back && r.back[r.there[t]] == t)
    && (forall t | t in r.back :: r.back[t] in r.there && r.there[r.back[t]] == t)
  }

  function Extend(r: Renaming, t1: u64, t2: u64): Renaming {
    Renaming(r.there[t1 := t2], r.back[t2 := t1])
  }

  /** The client uses a tag it holds, or one neither side has ever issued to it. */
  ghost predicate SameTag(r: Renaming, t1: u64, t2: u64) {
    (t1 in r.there && t2 == r.there[t1]) || (t1 !in r.there && t2 !in r.back)
  }

  /** Renamed tags stand for the same outstanding message, or are settled, on both sides; every outstanding
      tag is renamed. */
  ghost predicate SameDeliveries(o1: map<u64, Message>, o2: map<u64, Message>, r: Renaming) {
    && (forall t | t in r.there :: t in o1 <==> r.there[t] in o2)
    && (forall t | t in r.there && t in o1 && r.there[t] in o2 :: o1[t] == o2[r.there[t]])
    && o1.Keys <= r.there.Keys && o2.Keys <= r.back.Keys
  }

  /** None of these tags can be issued again. */
  ghost predicate AllSpent(q: QueueState, tags: set<u64>, issued: nat) {
    forall t | t in tags :: t < issued && NotWaiting(q, t)
  }

  ghost predicate TagsMatch(q1: QueueState, q2: QueueState, r: Renaming, issued1: nat, issued2: nat) {
    && OneToOne(r)
    && SameDeliveries(Outstanding(q1.inflight), Outstanding(q2.inflight), r)
    && AllSpent(q1, r.there.Keys, issued1)
    && AllSpent(q2, r.back.Keys, issued2)
  }

  ghost predicate SameMessages(q1: QueueState, q2: QueueState) {
    && q1.policy == q2.policy
    && Values(q1.main) == Values(q2.main)
    && Values(q1.scheduled) == Values(q2.scheduled)
    && Values(q1.dlq) == Values(q2.dlq)
  }

  // ----- One change on both sides -----

  /** The same change, up to ids and renamed tags.  Recovery is compared on its own below. */
  ghost predicate SameChange(c1: Change, c2: Change, r: Renaming) {
    match (c1, c2)
    case (Unchanged, Unchanged) => true
    case (Stores(m1, k1, _), Stores(m2, k2, _)) => m1 == m2 && k1 == k2
    case (Takes, Takes) => true
    case (Releases(t1), Releases(t2)) => t1 in r.there && t2 == r.there[t1]
    case (Returns(t1, _), Returns(t2, _)) => t1 in r.there && t2 == r.there[t1]
    case (Promotes(n1, _), Promotes(n2, _)) => n1 == n2
    case (Retains(n1), Retains(n2)) => n1 == n2
    case _ => false
  }

  lemma StoresSameMessages(q1: QueueState, q2: QueueState, m: Message, clock: Readings, id1: u64, id2: u64,
                           low1: nat, low2: nat)
    requires QueueOk(q1, low1) && QueueOk(q2, low2) && SameMessages(q1, q2) && low1 <= id1 && low2 <= id2
    ensures SameMessages(StoreMessage(q1, m, clock, id1), StoreMessage(q2, m, clock, id2))
  {
    if m.deliverAt.Some? && m.deliverAt.value > clock.due {
      InsertIsSchedule(q1.scheduled, low1, m, id1);
      InsertIsSchedule(q2.scheduled, low2, m, id2);
    } else {
      InsertIsEnqueue(q1.main, low1, m, id1);
      InsertIsEnqueue(q2.main, low2, m, id2);
    }
  }

  lemma ReturnsSameMessages(q1: QueueState, q2: QueueState, t1: u64, t2: u64, m: Message, id1: u64, id2: u64,
                            low1: nat, low2: nat)
    requires QueueOk(q1, low1) && QueueOk(q2, low2) && SameMessages(q1, q2) && low1 <= id1 && low2 <= id2
    ensures SameMessages(Return(q1, t1, m, id1), Return(q2, t2, m, id2))
  {
    var m' := Nacked(m);
    if Exhausted(q1.policy, m') {
      InsertIsEnqueue(q1.dlq, low1, m', id1);
      InsertIsEnqueue(q2.dlq, low2, m', id2);
    } else {
      InsertIsEnqueue(q1.main, low1, m', id1);
      InsertIsEnqueue(q2.main, low2, m', id2);
    }
  }

  lemma PromotesSameMessages(q1: QueueState, q2: QueueState, now: millis, ids1: seq<u64>, ids2: seq<u64>, low1: nat,
                             low2: nat)
    requires QueueOk(q1, low1) && QueueOk(q2, low2) && SameMessages(q1, q2)
    requires |ids1| == DueCount(q1.scheduled, now) && AscendingFrom(ids1, low1)
    requires |ids2| == DueCount(q2.scheduled, now) && AscendingFrom(ids2, low2)
    ensures |ids1| == |ids2|
    ensures SameMessages(PromoteDue(q1, now, ids1), PromoteDue(q2, now, ids2))
  {
    DueScanIsExact(q1.scheduled, low1, now);
    DueScanIsExact(q2.scheduled, low2, now);
    var due := DueBy(Values(q1.scheduled), now);
    InsertAllIsEnqueueAll(q1.main, low1, due, ids1);
    InsertAllIsEnqueueAll(q2.main, low2, due, ids2);
  }

  lemma SameOutstanding(q1: QueueState, q2: QueueState, r: Renaming, t1: u64, t2: u64)
    requires SameDeliveries(Outstanding(q1.inflight), Outstanding(q2.inflight), r) && SameTag(r, t1, t2)
    ensures Has(q1.inflight, Be64(t1)) <==> Has(q2.inflight, Be64(t2))
    ensures Has(q1.inflight, Be64(t1)) ==> t1 in r.there && t2 == r.there[t1]
    ensures Get(q1.inflight, Be64(t1)) == Get(q2.inflight, Be64(t2))
  {
    OutstandingGet(q1.inflight, t1);
    OutstandingGet(q2.inflight, t2);
  }

  lemma ChangeKeepsMessages(q1: QueueState, q2: QueueState, c1: Change, c2: Change, r: Renaming,
                            low1: nat, high1: nat, low2: nat, high2: nat)
    requires QueueOk(q1, low1) && QueueOk(q2, low2) && SameMessages(q1, q2) && TagsMatch(q1, q2, r, low1, low2)
    requires Legal(q1, c1) && Legal(q2, c2) && DrawnBetween(c1, low1, high1) && DrawnBetween(c2, low2, high2)
    requires SameChange(c1, c2, r)
    ensures SameMessages(Apply(q1, c1), Apply(q2, c2))
  {
    hide QueueOk, SameDeliveries, AllSpent, InsertAll, Insert, Remove, Retained, DueCount;
    match c1
    case Stores(m, clock, id) => StoresSameMessages(q1, q2, m, clock, id, c2.id, low1, low2);
    case Takes =>
      ValuesCons(q1.main);
      ValuesCons(q2.main);
    case Returns(t, id) =>
      SameOutstanding(q1, q2, r, t, c2.tag);
      ReturnsSameMessages(q1, q2, t, c2.tag, Get(q1.inflight, Be64(t)).value, id, c2.id, low1, low2);
    case Promotes(now, ids) => PromotesSameMessages(q1, q2, now, ids, c2.ids, low1, low2);
    case Retains(now) =>
      RetainedIsSurvivors(q1, now);
      RetainedIsSurvivors(q2, now);
    case _ =>
  }

  /** The renaming after a change: a delivery adds the pair of tags it issued. */
  function NextRenaming(q1: QueueState, q2: QueueState, c: Change, r: Renaming): Renaming {
    if c.Takes? && q1.main != [] && q2.main != [] then Extend(r, KeyId(q1.main[0].key), KeyId(q2.main[0].key)) else r
  }

  lemma ExtendOneToOne(r: Renaming, t1: u64, t2: u64)
    requires OneToOne(r) && t1 !in r.there && t2 !in r.back
    ensures OneToOne(Extend(r, t1, t2))
  {
  }

  lemma TakeDeliveries(o1: map<u64, Message>, o2: map<u64, Message>, r: Renaming, t1: u64, t2: u64, m: Message)
    requires OneToOne(r) && SameDeliveries(o1, o2, r) && t1 !in r.there && t2 !in r.back
    ensures SameDeliveries(o1[t1 := m], o2[t2 := m], Extend(r, t1, t2))
  {
  }

  lemma SettleDeliveries(o1: map<u64, Message>, o2: map<u64, Message>, r: Renaming, t1: u64)
    requires OneToOne(r) && SameDeliveries(o1, o2, r) && t1 in r.there
    ensures SameDeliveries(o1 - {t1}, o2 - {r.there[t1]}, r)
  {
    assert forall t | t in r.there :: r.back[r.there[t]] == t;
  }

  lemma StillSpent(q: QueueState, c: Change, low: nat, high: nat, tags: set<u64>)
    requires QueueOk(q, low) && Legal(q, c) && DrawnBetween(c, low, high) && AllSpent(q, tags, low)
    ensures AllSpent(Apply(q, c), tags, high)
  {
    forall t | t in tags
      ensures NotWaiting(Apply(q, c), t)
    {
      ChangeNotWaiting(q, c, low, high, t);
    }
  }

  /** The id of the first message is fresh to the renaming, and spent once the message is taken. */
  lemma FirstIsNew(q: QueueState, low: nat, high: nat, tags: set<u64>)
    requires QueueOk(q, low) && low <= high && q.main != [] && AllSpent(q, tags, low)
    ensures KeyId(q.main[0].key) !in tags
    ensures AllSpent(TakeFirst(q), tags + {KeyId(q.main[0].key)}, high)
  {
    StillSpent(q, Takes, low, high, tags);
    assert EntryOk(q.main[0], low);
    assert NotWaiting(TakeFirst(q), KeyId(q.main[0].key));
  }

  lemma TakeSameDeliveries(q1: QueueState, q2: QueueState, r: Renaming, t1: u64, t2: u64)
    requires Sorted(q1.inflight) && Sorted(q2.inflight) && q1.main != [] && q2.main != []
    requires KeyId(q1.main[0].key) == t1 && KeyId(q2.main[0].key) == t2 && q1.main[0].val == q2.main[0].val
    requires OneToOne(r) && SameDeliveries(Outstanding(q1.inflight), Outstanding(q2.inflight), r)
    requires t1 !in r.there && t2 !in r.back
    ensures SameDeliveries(Outstanding(TakeFirst(q1).inflight), Outstanding(TakeFirst(q2).inflight), Extend(r, t1, t2))
  {
    OutstandingInsert(q1.inflight, t1, q1.main[0].val);
    OutstandingInsert(q2.inflight, t2, q2.main[0].val);
    TakeDeliveries(Outstanding(q1.inflight), Outstanding(q2.inflight), r, t1, t2, q1.main[0].val);
  }

  lemma ExtendKeys(r: Renaming, t1: u64, t2: u64)
    ensures Extend(r, t1, t2).there.Keys == r.there.Keys + {t1}
    ensures Extend(r, t1, t2).back.Keys == r.back.Keys + {t2}
  {
  }

  lemma TakeMatches(q1: QueueState, q2: QueueState, r: Renaming, low1: nat, high1: nat, low2: nat, high2: nat)
    requires QueueOk(q1, low1) && QueueOk(q2, low2) && SameMessages(q1, q2) && TagsMatch(q1, q2, r, low1, low2)
    requires q1.main != [] && q2.main != [] && low1 <= high1 && low2 <= high2
    ensures TagsMatch(TakeFirst(q1), TakeFirst(q2), NextRenaming(q1, q2, Takes, r), high1, high2)
  {
    var t1, t2 := KeyId(q1.main[0].key), KeyId(q2.main[0].key);
    FirstIsNew(q1, low1, high1, r.there.Keys);
    FirstIsNew(q2, low2, high2, r.back.Keys);
    ExtendOneToOne(r, t1, t2);
    ExtendKeys(r, t1, t2);
    assert Values(q1.main)[0] == Values(q2.main)[0];
    TakeSameDeliveries(q1, q2, r, t1, t2);
  }

  lemma SettleSameDeliveries(q1: QueueState, q2: QueueState, r: Renaming, t1: u64)
    requires Sorted(q1.inflight) && Sorted(q2.inflight) && t1 in r.there
    requires OneToOne(r) && SameDeliveries(Outstanding(q1.inflight), Outstanding(q2.inflight), r)
    ensures SameDeliveries(Outstanding(Remove(q1.inflight, Be64(t1))),
                           Outstanding(Remove(q2.inflight, Be64(r.there[t1]))), r)
  {
    OutstandingRemove(q1.inflight, t1);
    OutstandingRemove(q2.inflight, r.there[t1]);
    SettleDeliveries(Outstanding(q1.inflight), Outstanding(q2.inflight), r, t1);
  }

  /** The in-flight tree after a change that takes nothing. */
  lemma InflightAfter(q: QueueState, c: Change)
    requires Legal(q, c) && !c.Takes? && !c.Recovers?
    ensures Apply(q, c).inflight == if c.Releases? || c.Returns? then Remove(q.inflight, Be64(c.tag)) else q.inflight
  {
  }

  lemma ChangeKeepsTags(q1: QueueState, q2: QueueState, c1: Change, c2: Change, r: Renaming,
                        low1: nat, high1: nat, low2: nat, high2: nat)
    requires QueueOk(q1, low1) && QueueOk(q2, low2) && SameMessages(q1, q2) && TagsMatch(q1, q2, r, low1, low2)
    requires Legal(q1, c1) && Legal(q2, c2) && DrawnBetween(c1, low1, high1) && DrawnBetween(c2, low2, high2)
    requires SameChange(c1, c2, r)
    ensures TagsMatch(Apply(q1, c1), Apply(q2, c2), NextRenaming(q1, q2, c1, r), high1, high2)
  {
    if c1.Takes? {
      TakeMatches(q1, q2, r, low1, high1, low2, high2);
    } else {
      StillSpent(q1, c1, low1, high1, r.there.Keys);
      StillSpent(q2, c2, low2, high2, r.back.Keys);
      InflightAfter(q1, c1);
      InflightAfter(q2, c2);
      if c1.Releases? || c1.Returns? { SettleSameDeliveries(q1, q2, r, c1.tag); }
    }
  }

  /** The two queues are well-formed and alike up to the renaming. */
  ghost predicate AlikeQueues(q1: QueueState, q2: QueueState, r: Renaming, issued1: nat, issued2: nat) {
    QueueOk(q1, issued1) && QueueOk(q2, issued2) && SameMessages(q1, q2) && TagsMatch(q1, q2, r, issued1, issued2)
  }

  lemma ChangeStaysAlike(q1: QueueState, q2: QueueState, c1: Change, c2: Change, r: Renaming,
                         low1: nat, high1: nat, low2: nat, high2: nat)
    requires AlikeQueues(q1, q2, r, low1, low2) && SameChange(c1, c2, r)
    requires Legal(q1, c1) && Legal(q2, c2) && DrawnBetween(c1, low1, high1) && DrawnBetween(c2, low2, high2)
    ensures AlikeQueues(Apply(q1, c1), Apply(q2, c2), NextRenaming(q1, q2, c1, r), high1, high2)
  {
    ChangeKeepsOk(q1, c1, low1, high1);
    ChangeKeepsOk(q2, c2, low2, high2);
    ChangeKeepsMessages(q1, q2, c1, c2, r, low1, high1, low2, high2);
    ChangeKeepsTags(q1, q2, c1, c2, r, low1, high1, low2, high2);
  }

  lemma AlikeParts(q1: QueueState, q2: QueueState, r: Renaming, issued1: nat, issued2: nat)
    requires AlikeQueues(q1, q2, r, issued1, issued2)
    ensures |q1.main| == |q2.main| && (q1.main != [] ==> q1.main[0].val == q2.main[0].val)
    ensures q1.policy == q2.policy && Values(q1.main) == Values(q2.main)
  {
    hide QueueOk, TagsMatch;
    assert |Values(q1.main)| == |Values(q2.main)|;
    if q1.main != [] { assert Values(q1.main)[0] == Values(q2.main)[0]; }
  }

  // ----- A restart on both sides -----

  /** Recovery returns the messages in tag order; within each lane that order is the same on both sides. */
  ghost predicate SameReturnOrder(q1: QueueState, q2: QueueState) {
    forall p | 0 <= p < 10 :: Between(Values(q1.inflight), p, p) == Between(Values(q2.inflight), p, p)
  }

  /** A recovered main tree, lane by lane. */
  lemma RecoveredLane(q: QueueState, ids: seq<u64>, issued: nat, p: nat)
    requires QueueOk(q, issued) && |ids| == |q.inflight| && AscendingFrom(ids, issued) && p < 10
    ensures Descending(Values(Recover(q, ids).main))
    ensures LanesOf(Values(Recover(q, ids).main))[p] ==
            LanesOf(Values(q.main))[p] + Between(Values(q.inflight), p, p)
  {
    InsertAllIsEnqueueAll(q.main, issued, Values(q.inflight), ids);
    LaneTreeInsertAll(q.main, issued, Values(q.inflight), ids);
    LaneTreeDescending(Recover(q, ids).main, BumpAll(issued, ids));
    EnqueueAllAppends(Values(q.main), Values(q.inflight));
    AppendAllByLane(LanesOf(Values(q.main)), Values(q.inflight), p);
  }

  lemma SameLanesSameOrder(a: seq<Message>, b: seq<Message>)
    requires Descending(a) && Descending(b)
    requires forall p | 0 <= p < 10 :: LanesOf(a)[p] == LanesOf(b)[p]
    ensures a == b
  {
    FlattenLanes(a);
    FlattenLanes(b);
    assert LanesOf(a) == LanesOf(b);
  }

  /** Two queues alike still hold the same messages in the same order after a restart exactly when, within
      each lane, the outstanding messages have their tags in the same order. */
  lemma RecoveryAgreesIff(q1: QueueState, q2: QueueState, ids1: seq<u64>, ids2: seq<u64>, low1: nat, low2: nat)
    requires QueueOk(q1, low1) && QueueOk(q2, low2) && SameMessages(q1, q2)
    requires |ids1| == |q1.inflight| && AscendingFrom(ids1, low1)
    requires |ids2| == |q2.inflight| && AscendingFrom(ids2, low2)
    ensures SameMessages(Recover(q1, ids1), Recover(q2, ids2)) <==> SameReturnOrder(q1, q2)
  {
    var a, b := Values(Recover(q1, ids1).main), Values(Recover(q2, ids2).main);
    forall p | 0 <= p < 10
      ensures Descending(a) && Descending(b)
      ensures LanesOf(a)[p] == LanesOf(b)[p] <==>
              Between(Values(q1.inflight), p, p) == Between(Values(q2.inflight), p, p)
    {
      RecoveredLane(q1, ids1, low1, p);
      RecoveredLane(q2, ids2, low2, p);
      hide LanesOf, Descending, Between;
      SameTail(LanesOf(Values(q1.main))[p], Between(Values(q1.inflight), p, p), Between(Values(q2.inflight), p, p));
    }
    hide LanesOf, QueueOk, Between;
    assert SameReturnOrder(q1, q2) ==> a == b by {
      if SameReturnOrder(q1, q2) {
        assert LanesOf(a)[0] == LanesOf(b)[0];
        SameLanesSameOrder(a, b);
      }
    }
  }

  lemma SameTail(front: seq<Message>, a: seq<Message>, b: seq<Message>)
    ensures front + a == front + b <==> a == b
  {
    assert (front + a)[|front|..] == a && (front + b)[|front|..] == b;
  }

  lemma RecoverStaysAlike(q1: QueueState, q2: QueueState, ids1: seq<u64>, ids2: seq<u64>, r: Renaming,
                          low1: nat, high1: nat, low2: nat, high2: nat)
    requires AlikeQueues(q1, q2, r, low1, low2) && SameReturnOrder(q1, q2)
    requires Legal(q1, Recovers(ids1)) && Legal(q2, Recovers(ids2))
    requires DrawnBetween(Recovers(ids1), low1, high1) && DrawnBetween(Recovers(ids2), low2, high2)
    ensures AlikeQueues(Recover(q1, ids1), Recover(q2, ids2), r, high1, high2)
  {
    RecoveryAgreesIff(q1, q2, ids1, ids2, low1, low2);
    ChangeKeepsOk(q1, Recovers(ids1), low1, high1);
    ChangeKeepsOk(q2, Recovers(ids2), low2, high2);
    StillSpent(q1, Recovers(ids1), low1, high1, r.there.Keys);
    StillSpent(q2, Recovers(ids2), low2, high2, r.back.Keys);
    OutstandingEmpty();
    hide QueueOk, SameMessages, SameReturnOrder, AllSpent, InsertAll;
  }

  // ----- Tags in the same order -----

  /** Within each lane, the renaming keeps the order of the outstanding tags. */
  ghost predicate TagsInOrder(o: map<u64, Message>, r: Renaming) {
    forall t, u | t in o && u in o && t in r.there && u in r.there && Lane(o[t]) == Lane(o[u]) && t < u ::
      r.there[t] < r.there[u]
  }

  /** On both sides outstanding tags are older than the waiting ids of their lane, and the renaming keeps
      their order. */
  ghost predicate AlignedQueues(q1: QueueState, q2: QueueState, r: Renaming) {
    LaneTagsBelow(q1) && LaneTagsBelow(q2) && TagsInOrder(Outstanding(q1.inflight), r)
  }

  lemma OneLaneRenamed(o1: map<u64, Message>, o2: map<u64, Message>, r: Renaming, p: nat)
    requires OneToOne(r) && SameDeliveries(o1, o2, r) && TagsInOrder(o1, r)
    ensures RenamedInOrder(InLane(o1, p), InLane(o2, p), r.there, r.back)
  {
  }

  /** Aligned queues return their outstanding messages in the same order. */
  lemma AlignedReturnsAlike(q1: QueueState, q2: QueueState, r: Renaming, issued1: nat, issued2: nat)
    requires AlikeQueues(q1, q2, r, issued1, issued2) && AlignedQueues(q1, q2, r)
    ensures SameReturnOrder(q1, q2)
  {
    var o1, o2 := Outstanding(q1.inflight), Outstanding(q2.inflight);
    TreeIsInTagOrder(q1.inflight, issued1);
    TreeIsInTagOrder(q2.inflight, issued2);
    forall p | 0 <= p < 10
      ensures Between(Values(q1.inflight), p, p) == Between(Values(q2.inflight), p, p)
    {
      OneLaneRenamed(o1, o2, r, p);
      hide RenamedInOrder, InTagOrder, Between, InLane, Outstanding, QueueOk;
      RenamedReturnsAlike(InLane(o1, p), InLane(o2, p), r.there, r.back);
      LaneOfTagOrder(o1, p);
      LaneOfTagOrder(o2, p);
    }
  }

  lemma FewerInOrder(o: map<u64, Message>, r: Renaming, tag: u64)
    requires TagsInOrder(o, r)
    ensures TagsInOrder(o - {tag}, r)
  {
  }

  /** A delivery takes the newest tag of its lane on both sides. */
  lemma TakeInOrder(o1: map<u64, Message>, o2: map<u64, Message>, r: Renaming, main1: Tree<Message>,
                    main2: Tree<Message>)
    requires OneToOne(r) && SameDeliveries(o1, o2, r) && TagsInOrder(o1, r) && Older(o1, main1) && Older(o2, main2)
    requires main1 != [] && main2 != [] && main1[0].val == main2[0].val
    requires KeyId(main1[0].key) !in r.there
    ensures var t1, t2 := KeyId(main1[0].key), KeyId(main2[0].key);
            TagsInOrder(o1[t1 := main1[0].val], Extend(r, t1, t2))
  {
    hide KeyId;
    var t1, t2, m := KeyId(main1[0].key), KeyId(main2[0].key), main1[0].val;
    var o, r' := o1[t1 := m], Extend(r, t1, t2);
    forall t, u | t in o && u in o && t in r'.there && u in r'.there && Lane(o[t]) == Lane(o[u]) && t < u
      ensures r'.there[t] < r'.there[u]
    {
      if u == t1 {
        assert o2[r.there[t]] == o1[t];
      }
    }
  }

  lemma TakeStaysAligned(q1: QueueState, q2: QueueState, r: Renaming, low1: nat, low2: nat)
    requires AlikeQueues(q1, q2, r, low1, low2) && AlignedQueues(q1, q2, r) && q1.main != [] && q2.main != []
    ensures TagsInOrder(Outstanding(TakeFirst(q1).inflight), NextRenaming(q1, q2, Takes, r))
  {
    FirstIsNew(q1, low1, low1, r.there.Keys);
    AlikeParts(q1, q2, r, low1, low2);
    OutstandingInsert(q1.inflight, KeyId(q1.main[0].key), q1.main[0].val);
    hide Outstanding, KeyId, QueueOk, Insert, SameDeliveries, OneToOne, TagsInOrder, Older, AllSpent;
    TakeInOrder(Outstanding(q1.inflight), Outstanding(q2.inflight), r, q1.main, q2.main);
  }

  lemma SettleStaysAligned(q: QueueState, r: Renaming, tag: u64)
    requires Sorted(q.inflight) && TagsInOrder(Outstanding(q.inflight), r)
    ensures TagsInOrder(Outstanding(Remove(q.inflight, Be64(tag))), r)
  {
    OutstandingRemove(q.inflight, tag);
    FewerInOrder(Outstanding(q.inflight), r, tag);
  }

  /** The same change, or a restart, on both sides keeps the queues aligned. */
  lemma ChangeStaysAligned(q1: QueueState, q2: QueueState, c1: Change, c2: Change, r: Renaming,
                           low1: nat, high1: nat, low2: nat, high2: nat)
    requires AlikeQueues(q1, q2, r, low1, low2) && AlignedQueues(q1, q2, r)
    requires SameChange(c1, c2, r) || (c1.Recovers? && c2.Recovers?)
    requires Legal(q1, c1) && Legal(q2, c2) && DrawnBetween(c1, low1, high1) && DrawnBetween(c2, low2, high2)
    ensures AlignedQueues(Apply(q1, c1), Apply(q2, c2), NextRenaming(q1, q2, c1, r))
  {
    ChangeKeepsLaneTags(q1, c1, low1, high1);
    ChangeKeepsLaneTags(q2, c2, low2, high2);
    if c1.Takes? {
      TakeStaysAligned(q1, q2, r, low1, low2);
    } else if c1.Recovers? {
      OutstandingEmpty();
    } else {
      InflightAfter(q1, c1);
      if c1.Releases? || c1.Returns? { SettleStaysAligned(q1, r, c1.tag); }
    }
  }
}
