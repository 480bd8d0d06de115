/** Tags that were settled before a snapshot.  The original refuses them for ever; a restored manager may hand
    the same number out again.  This is exactly when, and a generator that is not behind prevents it. */
module SettledTags {
  import opened Bytes
  import opened Results
  import opened OrderedTree
  import opened Messages
  import opened Engine
  import opened Runs
  import opened WellFormed
  import opened Tags
  import opened Lanes
  import opened LaneTags
  import opened Snapshots
  import opened Renamings
  import opened Bisimulation
  import opened RestoredManager
  import opened Restarts
  import opened RestoredTags

  ghost predicate IsOutstanding(s: Manager, n: Name, tag: u64) {
    n in s.queues && Has(s.queues[n].inflight, Be64(tag))
  }

  /** Some run of operations and restarts makes the tag outstanding. */
  ghost predicate CanHold(s: Manager, n: Name, tag: u64) {
    exists ss, es :: IsRun(ss, es) && ss[0] == s && IsOutstanding(ss[|es|], n, tag)
  }

  // ----- Tags that stay settled -----

  lemma {:induction false} RunKeepsRetired(ss: seq<Manager>, es: seq<Event>, n: Name, tag: u64, i: nat)
    requires IsRun(ss, es) && i <= |es| && Retired(ss[0], n, tag) && QueueOk(ss[0].queues[n], ss[0].issued)
    ensures Retired(ss[i], n, tag)
  {
    RunLength(ss, es);
    hide IsRun, QueueOk, Next, ChangeOf, Legal, Apply, DrawnBetween, Enabled, FreshIds, NotWaiting, Has;
    if i > 0 {
      RunKeepsRetired(ss, es, n, tag, i - 1);
      RunKeepsQueueOk(ss, es, n, i - 1);
      QueueStep(ss, es, n, i - 1);
      var q, c := ss[i - 1].queues[n], ChangeOf(ss[i - 1], es[i - 1], n);
      StepGrows(ss, es, i - 1);
      ChangeNotWaiting(q, c, ss[i - 1].issued, ss[i].issued, tag);
      ChangeKeepsAbsent(q, c, ss[i - 1].issued, ss[i].issued, tag);
    }
  }

  lemma StepGrows(ss: seq<Manager>, es: seq<Event>, i: nat)
    requires IsRun(ss, es) && i < |es|
    ensures |ss| == |es| + 1 && ss[i].issued <= ss[i + 1].issued
  {
    RunAt(ss, es, i);
    hide IsRun, Next, Admissible;
    IssuedGrows(ss[i], es[i]);
  }

  lemma RetiredIsNeverHeld(s: Manager, n: Name, tag: u64)
    requires Retired(s, n, tag) && QueueOk(s.queues[n], s.issued)
    ensures !CanHold(s, n, tag)
  {
    if CanHold(s, n, tag) {
      var ss, es :| IsRun(ss, es) && ss[0] == s && IsOutstanding(ss[|es|], n, tag);
      RunKeepsRetired(ss, es, n, tag, |es|);
      assert false;
    }
  }

  // ----- Tags that come back -----

  lemma {:induction false} DrainedSorted(q: QueueState, n: nat)
    requires n <= |q.main| && Sorted(q.inflight)
    ensures Sorted(Drained(q, n).inflight)
  {
    hide Insert, KeyId, Sorted;
    if n > 0 {
      DrainedSorted(q, n - 1);
      var q' := Drained(q, n - 1);
      InsertSorted(q'.inflight, Be64(KeyId(q'.main[0].key)), q'.main[0].val);
    }
  }

  /** Draining past a waiting message makes its id outstanding. */
  lemma DrainedTag(q: QueueState, j: nat)
    requires j < |q.main| && Sorted(q.inflight)
    ensures Has(Drained(q, j + 1).inflight, Be64(KeyId(q.main[j].key)))
  {
    DrainedSorted(q, j);
    var d := Drained(q, j);
    assert d.main[0] == q.main[j];
    hide Insert, KeyId, Be64, Sorted;
    GetInsert(d.inflight, Be64(KeyId(d.main[0].key)), d.main[0].val, Be64(KeyId(d.main[0].key)));
  }

  lemma WaitingIdIsHeld(ss: seq<Manager>, es: seq<Event>, n: Name, j: nat)
    requires IsRun(ss, es) && n in ss[|es|].queues && j < |ss[|es|].queues[n].main|
    requires Sorted(ss[|es|].queues[n].inflight)
    ensures CanHold(ss[0], n, KeyId(ss[|es|].queues[n].main[j].key))
  {
    RunLength(ss, es);
    hide IsRun, KeyId, Be64, Has;
    DrainedTag(ss[|es|].queues[n], j);
    var ss', es' := DrainRun(ss, es, n, j + 1);
    RunLength(ss', es');
    assert IsOutstanding(ss'[|es'|], n, KeyId(ss[|es|].queues[n].main[j].key));
  }

  lemma UnissuedIdIsHeld(s: Manager, n: Name, tag: u64)
    requires n in s.queues && s.maxBytes.None? && s.issued <= tag && Sorted(s.queues[n].inflight)
    ensures CanHold(s, n, tag)
  {
    var j := PublishOnto(s, n, tag);
    hide KeyId, Be64, Next, Admissible, Sorted, CanHold;
    var e := Publishing(n, SomeMessage(), Readings(0, 0, 0), tag);
    assert IsRun([s], []);
    RunLonger([s], [], e);
    assert [s] + [Next(s, e)] == [s, Next(s, e)] && [] + [e] == [e];
    WaitingIdIsHeld([s, Next(s, e)], [e], n, j);
  }

  lemma DrawnIdIsHeld(s: Manager, n: Name, tag: u64)
    requires n in s.queues && Sorted(s.queues[n].inflight) && tag in WaitingIds(s.queues[n].main)
    ensures CanHold(s, n, tag)
  {
    var j :| 0 <= j < |s.queues[n].main| && WaitingIds(s.queues[n].main)[j] == tag;
    hide KeyId, Be64, Next, Admissible, Sorted, CanHold;
    assert IsRun([s], []);
    WaitingIdIsHeld([s], [], n, j);
  }

  // ----- The exact condition -----

  /** A tag settled before the snapshot can become outstanding again after a restore into an empty manager
      without byte limit exactly when the restoring node has drawn it for a ready message or may still draw it. */
  lemma RetiredTagReturnsIff(s: Manager, t: Manager, draws: map<Name, Draws>, high: nat, n: Name, tag: u64)
    requires ManagerOk(s) && Retired(s, n, tag) && t.queues == map[] && t.maxBytes.None?
    requires forall n | n in s.queues ::
               n in draws && Fits(ExportQueue(s.queues[n]), draws[n]) && DrawsBetween(draws[n], t.issued, high)
    requires TagsClear(ExportQueue(s.queues[n]), draws[n], high)
    ensures CanHold(Restore(t, Export(s), draws, high), n, tag) <==> high <= tag || tag in draws[n].main
  {
    var f := Restore(t, Export(s), draws, high);
    RestoredOk(s, t, draws, high, n);
    RestoredWaits(s, t, draws, high, n);
    hide Restore, Export, ManagerOk, DrawsBetween, TagsClear, CanHold;
    assert Sorted(f.queues[n].inflight);
    if high <= tag {
      UnissuedIdIsHeld(f, n, tag);
    } else if tag in draws[n].main {
      DrawnIdIsHeld(f, n, tag);
    } else {
      NotAmongIds(f.queues[n], tag);
      RetiredIsNeverHeld(f, n, tag);
    }
  }

  lemma NotAmongIds(q: QueueState, tag: u64)
    requires tag !in WaitingIds(q.main)
    ensures NotWaiting(q, tag)
  {
    hide KeyId;
    forall i | 0 <= i < |q.main|
      ensures KeyId(q.main[i].key) != tag
    {
      assert WaitingIds(q.main)[i] == KeyId(q.main[i].key);
    }
  }

  // ----- A case in which a repeated ack deletes another message -----

  /** One message waits; an earlier one was delivered and acked. */
  function SettledQueue(waiting: Message, id: u64): QueueState {
    EmptyQueue(DEFAULT_POLICY).(main := [Entry(EncodeKey(waiting.priority, id), waiting)])
  }

  function SettledEvents(n: Name, first: Message, tag: u64, waiting: Message, id: u64, clock: Readings): seq<Event> {
    [Declaring(n, DEFAULT_POLICY), Publishing(n, first, clock, tag), Consuming(n), Acking(n, tag),
     Publishing(n, waiting, clock, id)]
  }

  /** From an empty database: publish, consume, ack, publish. */
  lemma SettledIsReached(n: Name, first: Message, tag: u64, waiting: Message, id: u64, clock: Readings)
    returns (ss: seq<Manager>)
    requires tag < id && first.deliverAt.None? && waiting.deliverAt.None?
    ensures IsRun(ss, SettledEvents(n, first, tag, waiting, id, clock)) && ss[0] == Nothing()
    ensures ss[5] == Only(n, SettledQueue(waiting, id), id + 1, EncodedLen(waiting))
    ensures Retired(ss[5], n, tag)
  {
    hide Next, Admissible, SettledQueue, EmptyQueue, Be64, EncodedLen, Only;
    var q0 := EmptyQueue(DEFAULT_POLICY);
    var s1 := Only(n, q0, 0, 0);
    var s2 := Only(n, SettledQueue(first, tag), tag + 1, EncodedLen(first));
    var s3 := Only(n, q0.(inflight := [Entry(Be64(tag), first)]), tag + 1, EncodedLen(first));
    var s4 := Only(n, q0, tag + 1, 0);
    var s5 := Only(n, SettledQueue(waiting, id), id + 1, EncodedLen(waiting));
    OnlyDeclare(n);
    OnlyPublish(n, 0, first, clock, tag);
    OnlyConsume(n, tag + 1, EncodedLen(first), first, tag);
    OnlyAck(n, tag + 1, first, tag);
    OnlyPublish(n, tag + 1, waiting, clock, id);
    OnlyRetired(n, waiting, id, tag);
    ss := FiveSteps([Nothing(), s1, s2, s3, s4, s5], SettledEvents(n, first, tag, waiting, id, clock));
  }

  lemma FiveSteps(ss: seq<Manager>, es: seq<Event>) returns (ss': seq<Manager>)
    requires |ss| == 6 && |es| == 5
    requires Admissible(ss[0], es[0]) && ss[1] == Next(ss[0], es[0])
    requires Admissible(ss[1], es[1]) && ss[2] == Next(ss[1], es[1])
    requires Admissible(ss[2], es[2]) && ss[3] == Next(ss[2], es[2])
    requires Admissible(ss[3], es[3]) && ss[4] == Next(ss[3], es[3])
    requires Admissible(ss[4], es[4]) && ss[5] == Next(ss[4], es[4])
    ensures ss' == ss && IsRun(ss', es)
  {
    hide Admissible, Next;
    ss' := ss;
  }

  lemma OnlyDeclare(n: Name)
    ensures var e := Declaring(n, DEFAULT_POLICY);
            Admissible(Nothing(), e) && Next(Nothing(), e) == Only(n, EmptyQueue(DEFAULT_POLICY), 0, 0)
  {
    assert Nothing().queues[n := EmptyQueue(DEFAULT_POLICY)] == map[n := EmptyQueue(DEFAULT_POLICY)];
  }

  /** A database with one queue and no byte limit. */
  function Only(n: Name, q: QueueState, issued: nat, bytes: nat): Manager {
    Manager(map[n := q], issued, bytes, None)
  }

  lemma OnlyPublish(n: Name, issued: nat, m: Message, clock: Readings, id: u64)
    requires issued <= id && m.deliverAt.None?
    ensures var s, e := Only(n, EmptyQueue(DEFAULT_POLICY), issued, 0), Publishing(n, m, clock, id);
            Admissible(s, e) && Next(s, e) == Only(n, SettledQueue(m, id), id + 1, EncodedLen(m))
  {
    FirstInsert(EncodeKey(m.priority, id), m);
    hide EncodeKey, Insert;
    var s := Only(n, EmptyQueue(DEFAULT_POLICY), issued, 0);
    assert s.queues[n := SettledQueue(m, id)] == map[n := SettledQueue(m, id)];
  }

  lemma TakeSettled(m: Message, id: u64)
    ensures SettledQueue(m, id).main != []
    ensures TakeFirst(SettledQueue(m, id)) == EmptyQueue(DEFAULT_POLICY).(inflight := [Entry(Be64(id), m)])
  {
    KeyIdRoundTrip(m.priority, id);
    FirstInsert(Be64(id), m);
    hide EncodeKey, Insert, KeyId, Be64;
  }

  lemma OnlyConsume(n: Name, issued: nat, bytes: nat, m: Message, id: u64)
    ensures var s, q := Only(n, SettledQueue(m, id), issued, bytes), EmptyQueue(DEFAULT_POLICY);
            && Admissible(s, Consuming(n))
            && Next(s, Consuming(n)) == Only(n, q.(inflight := [Entry(Be64(id), m)]), issued, bytes)
  {
    TakeSettled(m, id);
    hide TakeFirst, Be64, KeyId;
    var s, q := Only(n, SettledQueue(m, id), issued, bytes), TakeFirst(SettledQueue(m, id));
    assert s.queues[n := q] == map[n := q];
  }

  lemma OnlyAck(n: Name, issued: nat, m: Message, tag: u64)
    ensures var q := EmptyQueue(DEFAULT_POLICY);
            var s := Only(n, q.(inflight := [Entry(Be64(tag), m)]), issued, EncodedLen(m));
            Admissible(s, Acking(n, tag)) && Next(s, Acking(n, tag)) == Only(n, q, issued, 0)
  {
    OneEntry(Be64(tag), m);
    hide Be64, Get, Remove, EncodedLen;
    var q := EmptyQueue(DEFAULT_POLICY);
    var s := Only(n, q.(inflight := [Entry(Be64(tag), m)]), issued, EncodedLen(m));
    assert s.queues[n := q] == map[n := q];
  }

  lemma OnlyRetired(n: Name, m: Message, id: u64, tag: u64)
    requires tag < id
    ensures Retired(Only(n, SettledQueue(m, id), id + 1, EncodedLen(m)), n, tag)
  {
    KeyIdRoundTrip(m.priority, id);
    OneEntry(Be64(tag), m);
    hide KeyId, EncodeKey, Has, Be64;
  }

  lemma OneEntry(k: Key, m: Message)
    ensures var t := [Entry(k, m)]; Get(t, k) == Some(m) && Has(t, k) && Remove(t, k) == []
    ensures !Has<Message>([], k)
  {
    LessIrreflexive(k);
  }

  /** Restored on a node that draws the settled tag for the waiting message, with every other condition met,
      the repeated ack that the original refuses deletes that message once it is delivered. */
  lemma RepeatedAckDeletes(waiting: Message, id: u64, tag: u64)
    requires tag < id
    ensures var q, d := SettledQueue(waiting, id), Draws([tag], [], [], []);
            && QueueOk(q, id + 1) && LaneTagsBelow(q)
            && Fits(ExportQueue(q), d) && DrawsBetween(d, tag, tag + 1)
            && TagsClear(ExportQueue(q), d, tag + 1) && DrawnAbove(ExportQueue(q), d)
            && var q' := RestoreQueue(EmptyQueue(DEFAULT_POLICY), ExportQueue(q), d);
            && q.main != [] && q'.main != []
            && Get(TakeFirst(q).inflight, Be64(tag)) == None
            && Get(TakeFirst(q').inflight, Be64(tag)) == Some(waiting)
            && Remove(TakeFirst(q').inflight, Be64(tag)) == [] && TakeFirst(q').main == []
  {
    hide SettledQueue, TakeFirst, Be64, Get, Remove, RestoreQueue, QueueOk, LaneTagsBelow, ExportQueue, Fits;
    hide DrawsBetween, TagsClear, DrawnAbove;
    SettledOk(waiting, id);
    SettledClear(waiting, tag);
    RestoredSettled(waiting, id, tag);
    TakeSettled(waiting, id);
    TakeSettled(waiting, tag);
    OneEntry(Be64(tag), waiting);
    Be64Order(id, tag);
    OtherEntry(Be64(id), waiting, Be64(tag));
  }

  lemma SettledClear(m: Message, tag: u64)
    ensures var snap, d := QueueSnapshot(DEFAULT_POLICY, [m], [], [], []), Draws([tag], [], [], []);
            && Fits(snap, d) && DrawsBetween(d, tag, tag + 1) && TagsClear(snap, d, tag + 1) && DrawnAbove(snap, d)
  {
  }

  lemma SettledOk(m: Message, id: u64)
    ensures var q := SettledQueue(m, id);
            && QueueOk(q, id + 1) && LaneTagsBelow(q)
            && ExportQueue(q) == QueueSnapshot(DEFAULT_POLICY, [m], [], [], [])
  {
    KeyIdRoundTrip(m.priority, id);
    OutstandingEmpty();
    hide EncodeKey, KeyId;
    var q := SettledQueue(m, id);
    assert Values(q.main) == [m] && Values(q.scheduled) == [] && Tagged(q.inflight) == [];
    assert !Has(q.inflight, Be64(id));
  }

  lemma RestoredSettled(m: Message, id: u64, tag: u64)
    ensures var snap, d := ExportQueue(SettledQueue(m, id)), Draws([tag], [], [], []);
            Fits(snap, d) && RestoreQueue(EmptyQueue(DEFAULT_POLICY), snap, d) == SettledQueue(m, tag)
  {
    SettledOk(m, id);
    InsertAllOne(m, tag);
    hide EncodeKey, InsertAll, ExportQueue;
    var none: Tree<Message> := [];
    assert InsertAll(none, [], []) == none by { InsertAllNone(none); }
  }

  lemma InsertAllNone(t: Tree<Message>)
    ensures InsertAll(t, [], []) == t
  {
  }

  lemma InsertAllOne(m: Message, id: u64)
    ensures InsertAll([], [m], [id]) == [Entry(EncodeKey(m.priority, id), m)]
  {
    FirstInsert(EncodeKey(m.priority, id), m);
    InsertAllNone([Entry(EncodeKey(m.priority, id), m)]);
    hide EncodeKey, Insert;
    assert [m][1..] == [] && [id][1..] == [];
  }

  lemma OtherEntry(k: Key, m: Message, k': Key)
    requires k != k'
    ensures Get([Entry(k, m)], k') == None
  {
  }

  // ----- A generator that is not behind -----

  /** A generator that has reached the original's mark keeps the new ids clear of and above all preserved tags. */
  lemma GeneratorPastSuffices(s: Manager, t: Manager, draws: map<Name, Draws>, high: nat, n: Name)
    requires ManagerOk(s) && s.issued <= t.issued && n in s.queues
    requires n in draws && Fits(ExportQueue(s.queues[n]), draws[n]) && DrawsBetween(draws[n], t.issued, high)
    ensures TagsClear(ExportQueue(s.queues[n]), draws[n], high) && DrawnAbove(ExportQueue(s.queues[n]), draws[n])
  {
    var q := s.queues[n];
    assert QueueOk(q, s.issued);
    assert forall j | 0 <= j < |q.inflight| :: TagOk(q.inflight[j], s.issued);
    hide QueueOk, DrawsBetween;
    GeneratorAboveSuffices(ExportQueue(q), draws[n], t.issued, high);
  }

  /** Neither side of the renaming knows the tag, and no message waits under it on either side. */
  ghost predicate Outside(s1: Manager, s2: Manager, rho: map<Name, Renaming>, n: Name, tag: u64) {
    && n in rho && tag !in rho[n].there && tag !in rho[n].back
    && Spent(s1, n, tag) && Spent(s2, n, tag)
  }

  lemma OutsideStays(s1: Manager, s2: Manager, e1: Event, e2: Event, rho: map<Name, Renaming>, n: Name, tag: u64)
    requires Alike(s1, s2, rho) && Outside(s1, s2, rho, n, tag) && Admissible(s1, e1) && Admissible(s2, e2)
    ensures Outside(Next(s1, e1), Next(s2, e2), NextRho(s1, s2, e1, rho), n, tag)
  {
    hide Next, Alike, ManagerOk, Enabled, FreshIds, ChangeOf, NextRenaming, NotWaiting;
    AlikeIsOk(s1, s2, rho);
    SpentStays(s1, e1, n, tag);
    SpentStays(s2, e2, n, tag);
    AlikeNames(s1, s2, rho);
    RenamingStaysOutside(s1.queues[n], s2.queues[n], ChangeOf(s1, e1, n), rho[n], tag);
  }

  lemma AlikeNames(s1: Manager, s2: Manager, rho: map<Name, Renaming>)
    requires Alike(s1, s2, rho)
    ensures s1.queues.Keys == rho.Keys && s2.queues.Keys == rho.Keys
  {
    hide AlikeQueues;
  }

  lemma RenamingStaysOutside(q1: QueueState, q2: QueueState, c: Change, r: Renaming, tag: u64)
    requires tag !in r.there && tag !in r.back && NotWaiting(q1, tag) && NotWaiting(q2, tag)
    ensures tag !in NextRenaming(q1, q2, c, r).there && tag !in NextRenaming(q1, q2, c, r).back
  {
    hide KeyId;
  }

  lemma AlikeIsOk(s1: Manager, s2: Manager, rho: map<Name, Renaming>)
    requires Alike(s1, s2, rho)
    ensures ManagerOk(s1) && ManagerOk(s2)
  {
    hide QueueOk, SameMessages, TagsMatch;
    forall n | n in s1.queues
      ensures QueueOk(s1.queues[n], s1.issued) && QueueOk(s2.queues[n], s2.issued)
    {
      assert AlikeQueues(s1.queues[n], s2.queues[n], rho[n], s1.issued, s2.issued);
    }
  }

  lemma OutsideAtFirst(s: Manager, t: Manager, draws: map<Name, Draws>, high: nat, n: Name, tag: u64)
    requires ManagerOk(s) && t.queues == map[] && s.issued <= t.issued && Retired(s, n, tag)
    requires forall n | n in s.queues ::
               n in draws && Fits(ExportQueue(s.queues[n]), draws[n]) && DrawsBetween(draws[n], t.issued, high)
    ensures Outside(s, Restore(t, Export(s), draws, high), AllKeptTags(s), n, tag)
  {
    hide Restore, ManagerOk, KeptTags, Has, Be64, NotWaiting, Fits, ExportQueue;
    RestoredMark(t, Export(s), draws, high);
    var f := Restore(t, Export(s), draws, high);
    RestoredWaits(s, t, draws, high, n);
    assert DrawsBetween(draws[n], t.issued, high);
    NotAmongIds(f.queues[n], tag);
    AbsentIsNotKept(s.queues[n].inflight, tag);
  }

  lemma RestoredMark(t: Manager, snap: Snapshot, draws: map<Name, Draws>, high: nat)
    requires forall n | n in snap :: n in draws && Fits(snap[n], draws[n])
    ensures Restore(t, snap, draws, high).issued == high
  {
  }

  lemma AbsentIsNotKept(t: Tree<Message>, tag: u64)
    requires !Has(t, Be64(tag))
    ensures tag !in KeptTags(t).there && tag !in KeptTags(t).back
  {
    OutstandingGet(t, tag);
  }

  /** If the restoring node's generator has reached the original's mark, every tag settled before the snapshot
      stands for itself throughout: a client that repeats it is inside the comparison of the two runs. */
  lemma {:induction false} RetiredTagsStandForThemselves(
      ss1: seq<Manager>, es1: seq<Event>, ss2: seq<Manager>, es2: seq<Event>, rhos: seq<map<Name, Renaming>>,
      t: Manager, draws: map<Name, Draws>, high: nat, i: nat, n: Name, tag: u64)
    requires PairedRuns(ss1, es1, ss2, es2, rhos) && i <= |es1|
    requires RestoresWell(ss1[0], t, draws, high) && ss1[0].issued <= t.issued
    requires ss2[0] == Restore(t, Export(ss1[0]), draws, high) && rhos[0] == AllKeptTags(ss1[0])
    requires RestoresAligned(ss1[0], draws) || forall k | 0 <= k < |es1| :: !es1[k].Reopening?
    requires Retired(ss1[0], n, tag)
    ensures Outside(ss1[i], ss2[i], rhos[i], n, tag)
    ensures n in rhos[i] && SameTag(rhos[i][n], tag, tag)
  {
    hide PairedRuns, Restore, AllKeptTags, Alike, Next, NextRho, Admissible, SameStep, RestoresAligned, Outside;
    hide SameEvent, SameReply, ReplyTo, RenamingAfter, Enabled, Grows, KeptTags, DrawsBetween, TagsClear, ManagerOk;
    PairedLengths(ss1, es1, ss2, es2, rhos);
    if i == 0 {
      OutsideAtFirst(ss1[0], t, draws, high, n, tag);
    } else {
      RetiredTagsStandForThemselves(ss1, es1, ss2, es2, rhos, t, draws, high, i - 1, n, tag);
      PairAt(ss1, es1, ss2, es2, rhos, i - 1);
      SnapshotPreservesBehaviour(ss1, es1, ss2, es2, rhos, t, draws, high, i - 1);
      OutsideStays(ss1[i - 1], ss2[i - 1], es1[i - 1], es2[i - 1], rhos[i - 1], n, tag);
    }
    OutsideIsSameTag(ss1[i], ss2[i], rhos[i], n, tag);
  }

  lemma OutsideIsSameTag(s1: Manager, s2: Manager, rho: map<Name, Renaming>, n: Name, tag: u64)
    requires Outside(s1, s2, rho, n, tag)
    ensures n in rho && SameTag(rho[n], tag, tag)
  {
    hide Spent;
  }
}
