/** When a follower catches up completely: it answers every later log entry as the leader does exactly when
    it draws for every ready message the id it has at the leader and stands to draw the same id next. */
module CatchUp {
  import opened Bytes
  import opened Results
  import opened OrderedTree
  import opened Messages
  import opened Engine
  import opened Runs
  import opened Draw
  import opened WellFormed
  import opened DeliveryOrder
  import opened Snapshots
  import opened RestoredManager
  import opened StateMachine
  import opened Replica
  import opened Follower

  // ----- Managers equal but for deduplication and the byte counter -----

  /** Two positions of the generator from which it draws the same id and goes on alike. */
  ghost predicate SameNext(i: nat, j: nat, gen: nat -> u64) {
    gen(i) == gen(j) && Bump(i, gen(i)) == Bump(j, gen(j))
  }

  /** Equal but for the deduplication index and, unless `dead`, the dead letters. */
  ghost predicate SameButIndex(q1: QueueState, q2: QueueState, dead: bool) {
    && q1.(dedup := [], dlq := []) == q2.(dedup := [], dlq := [])
    && (dead ==> q1.dlq == q2.dlq)
  }

  /** Neither has a byte limit; they differ at most in deduplication indices, the byte counter, a generator
      position that does not show and, unless `dead`, the dead letters. */
  ghost predicate Close(s: Manager, f: Manager, dead: bool, gen: nat -> u64) {
    && SameNext(s.issued, f.issued, gen) && s.maxBytes.None? && f.maxBytes.None? && s.queues.Keys == f.queues.Keys
    && forall n | n in s.queues :: SameButIndex(s.queues[n], f.queues[n], dead)
  }

  lemma PublishStaysClose(s: Manager, f: Manager, q: Name, m: Message, clock: Readings, id: u64, dead: bool,
                          gen: nat -> u64)
    requires Close(s, f, dead, gen) && m.dedupKey.None? && id == gen(s.issued)
    ensures Close(Publish(s, q, m, clock, id).0, Publish(f, q, m, clock, id).0, dead, gen)
    ensures Publish(s, q, m, clock, id).1 == Publish(f, q, m, clock, id).1
  {
    hide Insert, EncodeKey, EncodeScheduledKey;
    if q in s.queues { assert SameButIndex(s.queues[q], f.queues[q], dead); }
  }

  lemma ConsumeStaysClose(s: Manager, f: Manager, q: Name, dead: bool, gen: nat -> u64)
    requires Close(s, f, dead, gen)
    ensures Close(Consume(s, q).0, Consume(f, q).0, dead, gen) && Consume(s, q).1 == Consume(f, q).1
  {
    hide Insert, KeyId, Be64;
    if q in s.queues { assert SameButIndex(s.queues[q], f.queues[q], dead); }
  }

  lemma AckStaysClose(s: Manager, f: Manager, q: Name, tag: u64, dead: bool, gen: nat -> u64)
    requires Close(s, f, dead, gen)
    ensures Close(Ack(s, q, tag).0, Ack(f, q, tag).0, dead, gen) && Ack(s, q, tag).1 == Ack(f, q, tag).1
  {
    hide Get, Remove, Be64;
    if q in s.queues { assert SameButIndex(s.queues[q], f.queues[q], dead); }
  }

  lemma NackStaysClose(s: Manager, f: Manager, q: Name, tag: u64, id: u64, dead: bool, gen: nat -> u64)
    requires Close(s, f, dead, gen) && id == gen(s.issued)
    ensures Close(Nack(s, q, tag, id).0, Nack(f, q, tag, id).0, dead, gen)
    ensures Nack(s, q, tag, id).1 == Nack(f, q, tag, id).1
  {
    hide Get, Remove, Insert, Be64, EncodeKey, Nacked;
    if q in s.queues { assert SameButIndex(s.queues[q], f.queues[q], dead); }
  }

  lemma RetainStaysClose(s: Manager, f: Manager, q: Name, now: millis, dead: bool, gen: nat -> u64)
    requires Close(s, f, dead, gen)
    ensures Close(ApplyRetention(s, q, now).0, ApplyRetention(f, q, now).0, dead, gen)
    ensures ApplyRetention(s, q, now).1 == ApplyRetention(f, q, now).1
  {
    hide DropExpired, Recount;
    if q in s.queues { assert SameButIndex(s.queues[q], f.queues[q], dead); }
  }

  lemma DrawAlike(i: nat, j: nat, n: nat, gen: nat -> u64)
    requires SameNext(i, j, gen)
    ensures var ids := DrawIds(gen, i, n);
            ids == DrawIds(gen, j, n) && SameNext(BumpAll(i, ids), BumpAll(j, ids), gen)
  {
    if n > 0 {
      var ids := DrawIds(gen, i, n);
      assert ids[1..] == DrawIds(gen, Bump(i, gen(i)), n - 1);
    }
  }

  lemma PromoteStaysClose(s: Manager, f: Manager, q: Name, now: millis, dead: bool, gen: nat -> u64)
    requires Close(s, f, dead, gen)
    ensures Close(Promote(s, q, now, DueIds(s, q, now, gen)).0, Promote(f, q, now, DueIds(f, q, now, gen)).0,
                  dead, gen)
    ensures Promote(s, q, now, DueIds(s, q, now, gen)).1 == Promote(f, q, now, DueIds(f, q, now, gen)).1
  {
    hide InsertAll, DueCount, SameNext;
    if q in s.queues {
      assert SameButIndex(s.queues[q], f.queues[q], dead);
      DrawAlike(s.issued, f.issued, DueCount(s.queues[q].scheduled, now), gen);
    }
    hide DrawIds, BumpAll;
  }

  lemma {:induction false} PublishAllStaysClose(s: Manager, f: Manager, q: Name, ms: seq<Message>, clock: Clock,
                                                i: nat, dead: bool, gen: nat -> u64)
    requires Close(s, f, dead, gen) && i <= |ms| && forall k | 0 <= k < |ms| :: ms[k].dedupKey.None?
    ensures Close(PublishAll(s, q, ms, clock, i, gen).0, PublishAll(f, q, ms, clock, i, gen).0, dead, gen)
    ensures PublishAll(s, q, ms, clock, i, gen).1 == PublishAll(f, q, ms, clock, i, gen).1
    decreases |ms| - i
  {
    assert gen(s.issued) == gen(f.issued);
    hide Publish, Close;
    if i < |ms| {
      var id := gen(s.issued);
      PublishStaysClose(s, f, q, ms[i], clock(i), id, dead, gen);
      if Publish(s, q, ms[i], clock(i), id).1.Ok? {
        PublishAllStaysClose(Publish(s, q, ms[i], clock(i), id).0, Publish(f, q, ms[i], clock(i), id).0,
                             q, ms, clock, i + 1, dead, gen);
      }
    }
  }

  lemma {:induction false} ConsumeUpToStaysClose(s: Manager, f: Manager, q: Name, max: nat, dead: bool,
                                                 gen: nat -> u64)
    requires Close(s, f, dead, gen)
    ensures Close(ConsumeUpTo(s, q, max).0, ConsumeUpTo(f, q, max).0, dead, gen)
    ensures ConsumeUpTo(s, q, max).1 == ConsumeUpTo(f, q, max).1
    decreases max
  {
    hide Consume, Close;
    if max > 0 {
      ConsumeStaysClose(s, f, q, dead, gen);
      ConsumeUpToStaysClose(Consume(s, q).0, Consume(f, q).0, q, max - 1, dead, gen);
    }
  }

  /** A clock-free operation gets the same answer from both and leaves them as close. */
  lemma OperationStaysClose(s: Manager, f: Manager, op: QueueOperation, clock: Clock, dead: bool, gen: nat -> u64)
    requires Close(s, f, dead, gen) && ClockFreeOp(op)
    ensures Close(ApplyOp(s, op, clock, gen).0, ApplyOp(f, op, clock, gen).0, dead, gen)
    ensures ApplyOp(s, op, clock, gen).1 == ApplyOp(f, op, clock, gen).1
  {
    assert gen(s.issued) == gen(f.issued);
    match op
    case DeclareOp(n, policy) =>
    case PublishOp(q, m) =>
      PublishStaysClose(s, f, q, m, clock(0), gen(s.issued), dead, gen);
      hide Publish, Close;
    case PublishBatchOp(q, ms) =>
      PublishAllStaysClose(s, f, q, ms, clock, 0, dead, gen);
      hide PublishAll, Close;
    case ConsumeOp(q) =>
      ConsumeStaysClose(s, f, q, dead, gen);
      hide Consume, Close;
    case ConsumeBatchOp(q, max) =>
      ConsumeUpToStaysClose(s, f, q, max, dead, gen);
      hide ConsumeUpTo, Close;
    case AckOp(q, tag) =>
      AckStaysClose(s, f, q, tag, dead, gen);
      hide Ack, Close;
    case NackOp(q, tag) =>
      NackStaysClose(s, f, q, tag, gen(s.issued), dead, gen);
      hide Nack, Close;
    case RetentionOp(q) =>
      RetainStaysClose(s, f, q, clock(0).due, dead, gen);
      hide ApplyRetention, Close;
    case PromoteOp(q) =>
      PromoteStaysClose(s, f, q, clock(0).due, dead, gen);
      hide Promote, DueIds, Close;
  }

  // ----- Whole logs -----

  ghost predicate CloseStates(a: ReplicaState, b: ReplicaState, dead: bool, gen: nat -> u64) {
    Close(a.manager, b.manager, dead, gen) && a.lastApplied == b.lastApplied && a.membership == b.membership
  }

  lemma EntryStaysClose(a: ReplicaState, b: ReplicaState, e: LogEntry, clock: Clock, dead: bool, gen: nat -> u64)
    requires CloseStates(a, b, dead, gen) && (e.payload.Normal? ==> ClockFreeOp(e.payload.op))
    ensures CloseStates(ApplyEntry(a, e, clock, gen).0, ApplyEntry(b, e, clock, gen).0, dead, gen)
    ensures ApplyEntry(a, e, clock, gen).1 == ApplyEntry(b, e, clock, gen).1
  {
    hide Close, ApplyOp, ClockFreeOp;
    if e.payload.Normal? { OperationStaysClose(a.manager, b.manager, e.payload.op, clock, dead, gen); }
  }

  lemma {:induction false} EntriesStayClose(a: ReplicaState, b: ReplicaState, es: seq<LogEntry>,
                                            clocks: seq<Clock>, dead: bool, gen: nat -> u64)
    requires CloseStates(a, b, dead, gen) && |clocks| == |es| && ClockFreeLog(es)
    ensures CloseStates(ApplyEntries(a, es, clocks, gen).0, ApplyEntries(b, es, clocks, gen).0, dead, gen)
    ensures ApplyEntries(a, es, clocks, gen).1 == ApplyEntries(b, es, clocks, gen).1
    decreases |es|
  {
    hide CloseStates, ApplyEntry, ClockFreeOp;
    if es != [] {
      EntryStaysClose(a, b, es[0], clocks[0], dead, gen);
      EntriesStayClose(ApplyEntry(a, es[0], clocks[0], gen).0, ApplyEntry(b, es[0], clocks[0], gen).0,
                       es[1..], clocks[1..], dead, gen);
    }
  }

  // ----- The follower -----

  /** The follower drew for every ready message, and if `dead` for every dead letter, the id it has at the
      leader. */
  ghost predicate SameIds(q: QueueState, d: Draws, dead: bool) {
    d.main == WaitingIds(q.main) && (dead ==> d.dlq == WaitingIds(q.dlq))
  }

  lemma LaidIsItself(t: Tree<Message>, issued: nat)
    requires LaneTreeOk(t, issued)
    ensures Laid(Values(t), WaitingIds(t)) == t
  {
    forall i | 0 <= i < |t|
      ensures Laid(Values(t), WaitingIds(t))[i] == t[i]
    {
      assert EntryOk(t[i], issued);
      KeyIdRoundTrip(t[i].val.priority, KeyId(t[i].key));
      QueueKeyOrder(EncodeKey(t[i].val.priority, KeyId(t[i].key)), t[i].key);
    }
  }

  lemma SameIdsSameTree(t: Tree<Message>, issued: nat, ids: seq<u64>, low: nat)
    requires LaneTreeOk(t, issued) && ids == WaitingIds(t) && AscendingFrom(ids, low)
    ensures InsertAll([], Values(t), ids) == t
  {
    LaneTreeDescending(t, issued);
    RestoredLayout(Values(t), ids, low);
    LaidIsItself(t, issued);
  }

  lemma SameIdsSameQueue(q: QueueState, issued: nat, d: Draws, low: nat, high: nat, dead: bool)
    requires QueueOk(q, issued) && Fits(ExportQueue(q), d) && DrawsBetween(d, low, high)
    requires SameIds(q, d, dead) && q.scheduled == []
    ensures SameButIndex(q, RestoreQueue(EmptyQueue(DEFAULT_POLICY), ExportQueue(q), d), dead)
  {
    SameIdsSameTree(q.main, issued, d.main, low);
    if dead { SameIdsSameTree(q.dlq, issued, d.dlq, low); }
    QueueRoundTrip(q, issued, d, low, high);
    hide InsertAll, PutAll, LaneTreeOk, TagTreeOk, IdsApart, ScheduleOk, AscendingFrom, WaitingIds;
  }

  lemma FollowerNames(s: Manager, t: Manager, draws: map<Name, Draws>, high: nat)
    requires t.queues == map[] && forall n | n in s.queues :: n in draws && Fits(ExportQueue(s.queues[n]), draws[n])
    ensures var f := Restore(t, Export(s), draws, high);
            f.queues.Keys == s.queues.Keys && f.issued == high && f.maxBytes == t.maxBytes
  {
    hide RestoreQueue, Recount, ExportQueue, Fits;
  }

  lemma FollowerQueueIsClose(s: Manager, t: Manager, draws: map<Name, Draws>, high: nat, q: Name, dead: bool)
    requires ManagerOk(s) && ClockFree(s) && t.queues == map[] && q in s.queues
    requires forall n | n in s.queues ::
               n in draws && Fits(ExportQueue(s.queues[n]), draws[n]) && DrawsBetween(draws[n], t.issued, high)
    requires SameIds(s.queues[q], draws[q], dead)
    ensures q in Restore(t, Export(s), draws, high).queues
    ensures SameButIndex(s.queues[q], Restore(t, Export(s), draws, high).queues[q], dead)
  {
    RestoredIntoEmpty(s, t, draws);
    assert QueueOk(s.queues[q], s.issued) && s.queues[q].scheduled == [];
    hide SameButIndex, SameIds, RestoreQueue, DrawsBetween, QueueOk, Recount, RestoredQueues;
    SameIdsSameQueue(s.queues[q], s.issued, draws[q], t.issued, high, dead);
  }

  /** A follower restored with the leader's ids and a generator that draws the leader's next id is the leader
      but for deduplication indices and the byte counter. */
  lemma FollowerIsClose(s: Manager, t: Manager, draws: map<Name, Draws>, high: nat, dead: bool, gen: nat -> u64)
    requires ManagerOk(s) && ClockFree(s) && s.maxBytes.None? && t.queues == map[] && t.maxBytes.None?
    requires forall n | n in s.queues ::
               n in draws && Fits(ExportQueue(s.queues[n]), draws[n]) && DrawsBetween(draws[n], t.issued, high)
    requires SameNext(s.issued, high, gen) && forall n | n in s.queues :: SameIds(s.queues[n], draws[n], dead)
    ensures Close(s, Restore(t, Export(s), draws, high), dead, gen)
  {
    hide SameButIndex, Restore, ManagerOk, ClockFree, SameIds, SameNext, DrawsBetween, Fits, ExportQueue;
    var f := Restore(t, Export(s), draws, high);
    FollowerNames(s, t, draws, high);
    forall n | n in s.queues
      ensures SameButIndex(s.queues[n], f.queues[n], dead)
    {
      assert n in draws && Fits(ExportQueue(s.queues[n]), draws[n]) && SameIds(s.queues[n], draws[n], dead);
      FollowerQueueIsClose(s, t, draws, high, n, dead);
    }
  }

  /** Such a follower gives the leader's answer to every entry of every clock-free log that follows, whatever
      the clocks read and however the log is cut into batches. */
  lemma FollowerFollows(s: Manager, t: Manager, draws: map<Name, Draws>, high: nat, applied: Option<LogId>,
                        membership: Option<(LogId, set<nat>)>, a: seq<Chunk>, b: seq<Chunk>, dead: bool,
                        gen: nat -> u64)
    requires ManagerOk(s) && ClockFree(s) && s.maxBytes.None? && t.queues == map[] && t.maxBytes.None?
    requires forall n | n in s.queues ::
               n in draws && Fits(ExportQueue(s.queues[n]), draws[n]) && DrawsBetween(draws[n], t.issued, high)
    requires SameNext(s.issued, high, gen) && forall n | n in s.queues :: SameIds(s.queues[n], draws[n], dead)
    requires ChunksOk(a) && ChunksOk(b) && Joined(a) == Joined(b) && ClockFreeLog(Joined(a))
    ensures var leader := ReplicaState(s, applied, membership);
            var follower := ReplicaState(Restore(t, Export(s), draws, high), applied, membership);
            && ApplyChunks(leader, a, gen).1 == ApplyChunks(follower, b, gen).1
            && CloseStates(ApplyChunks(leader, a, gen).0, ApplyChunks(follower, b, gen).0, dead, gen)
  {
    FollowerIsClose(s, t, draws, high, dead, gen);
    var leader := ReplicaState(s, applied, membership);
    var follower := ReplicaState(Restore(t, Export(s), draws, high), applied, membership);
    hide Restore, Export, Close, SameNext, SameIds, ApplyChunks, ApplyEntries, ClockFreeLog, Joined, JoinedClocks,
         ManagerOk, ClockFree;
    ReplicasAgree(leader, a, b, gen);
    ChunksAreTheLog(leader, b, gen);
    ChunksAreTheLog(follower, b, gen);
    EntriesStayClose(leader, follower, Joined(b), JoinedClocks(b), dead, gen);
  }

  // ----- Exactly then -----

  function Logged(op: QueueOperation): LogEntry {
    LogEntry(LogId(0, 0), Normal(op))
  }

  function OneClock(es: seq<LogEntry>, clock: Clock): (clocks: seq<Clock>)
    ensures |clocks| == |es|
  {
    seq(|es|, _ => clock)
  }

  /** The replicas give the same answers to a log. */
  ghost predicate SameAnswers(a: ReplicaState, b: ReplicaState, es: seq<LogEntry>, clock: Clock, gen: nat -> u64) {
    ApplyEntries(a, es, OneClock(es, clock), gen).1 == ApplyEntries(b, es, OneClock(es, clock), gen).1
  }

  /** They do so on every clock-free log. */
  ghost predicate AlwaysAgree(a: ReplicaState, b: ReplicaState, clock: Clock, gen: nat -> u64) {
    forall es | ClockFreeLog(es) :: SameAnswers(a, b, es, clock, gen)
  }

  lemma OneAnswer(a: ReplicaState, op: QueueOperation, clock: Clock, gen: nat -> u64)
    ensures var es := [Logged(op)];
            ApplyEntries(a, es, OneClock(es, clock), gen).1 == [ApplyOp(a.manager, op, clock, gen).1]
  {
    hide ApplyOp;
    var es := [Logged(op)];
    assert ApplyEntries(ApplyEntry(a, es[0], clock, gen).0, es[1..], OneClock(es, clock)[1..], gen).1 == [];
  }

  lemma OneEntryAgrees(a: ReplicaState, b: ReplicaState, op: QueueOperation, clock: Clock, gen: nat -> u64)
    requires SameAnswers(a, b, [Logged(op)], clock, gen)
    ensures ApplyOp(a.manager, op, clock, gen).1 == ApplyOp(b.manager, op, clock, gen).1
  {
    hide ApplyOp, ApplyEntries, OneClock;
    OneAnswer(a, op, clock, gen);
    OneAnswer(b, op, clock, gen);
    assert [ApplyOp(a.manager, op, clock, gen).1][0] == [ApplyOp(b.manager, op, clock, gen).1][0];
  }

  /** The log that shows the next id: a new queue, one message, one consume. */
  function Showing(n: Name, m: Message): seq<LogEntry> {
    [Logged(DeclareOp(n, DEFAULT_POLICY)), Logged(PublishOp(n, m)), Logged(ConsumeOp(n))]
  }

  lemma ShowsNextId(s: Manager, n: Name, m: Message, clock: Clock, gen: nat -> u64)
    requires n !in s.queues && s.maxBytes.None? && Undated(m)
    ensures var s1 := ApplyOp(s, DeclareOp(n, DEFAULT_POLICY), clock, gen).0;
            var s2 := ApplyOp(s1, PublishOp(n, m), clock, gen).0;
            ApplyOp(s2, ConsumeOp(n), clock, gen).1 == ConsumeResp(Ok(Some((gen(s.issued), m))))
  {
    hide EncodeKey, KeyId, Be64;
    KeyIdRoundTrip(m.priority, gen(s.issued));
  }

  lemma ThirdAnswer(a: ReplicaState, n: Name, m: Message, clock: Clock, gen: nat -> u64)
    requires n !in a.manager.queues && a.manager.maxBytes.None? && Undated(m)
    ensures var es := Showing(n, m);
            var rs := ApplyEntries(a, es, OneClock(es, clock), gen).1;
            |rs| == 3 && rs[2] == ConsumeResp(Ok(Some((gen(a.manager.issued), m))))
  {
    hide ApplyOp;
    ShowsNextId(a.manager, n, m, clock, gen);
    var es := Showing(n, m);
    var clocks := OneClock(es, clock);
    var a1 := ApplyEntry(a, es[0], clock, gen).0;
    var a2 := ApplyEntry(a1, es[1], clock, gen).0;
    var a3 := ApplyEntry(a2, es[2], clock, gen).0;
    assert ApplyEntries(a3, es[1..][1..][1..], clocks[1..][1..][1..], gen).1 == [];
    assert ApplyEntries(a2, es[1..][1..], clocks[1..][1..], gen).1 == [ApplyEntry(a2, es[2], clock, gen).1];
  }

  lemma LongerName(names: set<Name>) returns (k: nat)
    ensures forall n | n in names :: |n| < k
    decreases names
  {
    if names == {} {
      k := 0;
    } else {
      var n :| n in names;
      k := LongerName(names - {n});
      k := k + |n| + 1;
    }
  }

  lemma UnusedName(names: set<Name>) returns (n: Name)
    ensures n !in names
  {
    var k := LongerName(names);
    n := seq(k, _ => 'a');
  }

  lemma AgreeingShowsIds(s: Manager, t: Manager, draws: map<Name, Draws>, high: nat, a: ReplicaState,
                         b: ReplicaState, n: Name, clock: Clock, gen: nat -> u64)
    requires ManagerOk(s) && t.queues == map[] && n in s.queues
    requires forall n | n in s.queues ::
               n in draws && Fits(ExportQueue(s.queues[n]), draws[n]) && DrawsBetween(draws[n], t.issued, high)
    requires a.manager == s && b.manager == Restore(t, Export(s), draws, high) && AlwaysAgree(a, b, clock, gen)
    ensures draws[n].main == WaitingIds(s.queues[n].main)
  {
    hide ApplyOp, SameAnswers, Restore, Export, ManagerOk, DrawsBetween;
    var k := |s.queues[n].main|;
    assert |draws[n].main| == k by { assert Fits(ExportQueue(s.queues[n]), draws[n]); }
    assert ClockFreeLog([Logged(ConsumeBatchOp(n, k))]);
    OneEntryAgrees(a, b, ConsumeBatchOp(n, k), clock, gen);
    hide AlwaysAgree, Fits;
    FollowerAgreesIff(s, t, draws, high, n, k, clock, gen);
    assert draws[n].main[..k] == draws[n].main && WaitingIds(s.queues[n].main)[..k] == WaitingIds(s.queues[n].main);
  }

  lemma AgreeingShowsNext(a: ReplicaState, b: ReplicaState, clock: Clock, gen: nat -> u64)
    requires a.manager.queues.Keys == b.manager.queues.Keys
    requires a.manager.maxBytes.None? && b.manager.maxBytes.None? && AlwaysAgree(a, b, clock, gen)
    ensures gen(a.manager.issued) == gen(b.manager.issued)
  {
    hide ApplyEntries, OneClock;
    var n := UnusedName(a.manager.queues.Keys);
    var m := Message(0, [], [], 0, 0, 0, None, None);
    assert ClockFreeLog(Showing(n, m)) && SameAnswers(a, b, Showing(n, m), clock, gen);
    hide Showing, AlwaysAgree;
    ThirdAnswer(a, n, m, clock, gen);
    ThirdAnswer(b, n, m, clock, gen);
  }

  lemma CloseAgree(a: ReplicaState, b: ReplicaState, clock: Clock, gen: nat -> u64)
    requires CloseStates(a, b, false, gen)
    ensures AlwaysAgree(a, b, clock, gen)
  {
    hide ApplyEntries, CloseStates, ClockFreeLog;
    forall es | ClockFreeLog(es)
      ensures SameAnswers(a, b, es, clock, gen)
    {
      EntriesStayClose(a, b, es, OneClock(es, clock), false, gen);
    }
  }

  /** A follower gives the leader's answers on every clock-free log exactly when every id it drew for a ready
      message is the leader's and both would draw the same id next. */
  lemma FollowerFollowsIff(s: Manager, t: Manager, draws: map<Name, Draws>, high: nat, applied: Option<LogId>,
                           membership: Option<(LogId, set<nat>)>, clock: Clock, gen: nat -> u64)
    requires ManagerOk(s) && ClockFree(s) && s.maxBytes.None? && t.queues == map[] && t.maxBytes.None?
    requires forall n | n in s.queues ::
               n in draws && Fits(ExportQueue(s.queues[n]), draws[n]) && DrawsBetween(draws[n], t.issued, high)
    requires Ascending(gen) && s.issued < TWO_64 && high < TWO_64
    ensures var leader := ReplicaState(s, applied, membership);
            var follower := ReplicaState(Restore(t, Export(s), draws, high), applied, membership);
            AlwaysAgree(leader, follower, clock, gen)
            <==> (forall n | n in s.queues :: SameIds(s.queues[n], draws[n], false)) && gen(s.issued) == gen(high)
  {
    hide ManagerOk, ClockFree, Restore, AlwaysAgree, DrawsBetween, Fits, Close, ExportQueue, WaitingIds;
    var leader := ReplicaState(s, applied, membership);
    var follower := ReplicaState(Restore(t, Export(s), draws, high), applied, membership);
    FollowerNames(s, t, draws, high);
    if AlwaysAgree(leader, follower, clock, gen) {
      AgreeingShowsNext(leader, follower, clock, gen);
      forall n | n in s.queues
        ensures SameIds(s.queues[n], draws[n], false)
      {
        AgreeingShowsIds(s, t, draws, high, leader, follower, n, clock, gen);
      }
    }
    if (forall n | n in s.queues :: SameIds(s.queues[n], draws[n], false)) && gen(s.issued) == gen(high) {
      FollowerIsClose(s, t, draws, high, false, gen);
      CloseAgree(leader, follower, clock, gen);
    }
  }
}
