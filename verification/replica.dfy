/** Replicas: applying the committed log.  Without clock-dependent features, replicas that start alike and
    draw ids alike stay alike, whatever their clocks read and however the log is cut into batches. */
module Replica {
  import opened Bytes
  import opened Results
  import opened OrderedTree
  import opened Messages
  import opened Engine
  import opened StateMachine

  datatype LogId = LogId(leader: nat, index: u64)

  datatype Payload = Blank | Normal(op: QueueOperation) | Membership(nodes: set<nat>)

  datatype LogEntry = LogEntry(logId: LogId, payload: Payload)

  datatype ReplicaState = ReplicaState(
    manager: Manager,
    lastApplied: Option<LogId>,
    membership: Option<(LogId, set<nat>)>)

  ghost function ApplyEntry(st: ReplicaState, e: LogEntry, clock: Clock, gen: nat -> u64)
    : (ReplicaState, QueueResponse)
  {
    var st' := st.(lastApplied := Some(e.logId));
    match e.payload
    case Blank => (st', AckResp(Ok(())))
    case Normal(op) => var (s, r) := ApplyOp(st.manager, op, clock, gen); (st'.(manager := s), r)
    case Membership(nodes) => (st'.(membership := Some((e.logId, nodes))), AckResp(Ok(())))
  }

  /** `apply_to_state_machine` on one batch of entries. */
  ghost function ApplyEntries(st: ReplicaState, es: seq<LogEntry>, clocks: seq<Clock>, gen: nat -> u64)
    : (ReplicaState, seq<QueueResponse>)
    requires |clocks| == |es|
    decreases |es|
  {
    if es == [] then (st, [])
    else
      var (st', r) := ApplyEntry(st, es[0], clocks[0], gen);
      var (st'', rs) := ApplyEntries(st', es[1..], clocks[1..], gen);
      (st'', [r] + rs)
  }

  /** A batch of entries with the clocks the replica reads while applying them. */
  datatype Chunk = Chunk(entries: seq<LogEntry>, clocks: seq<Clock>)

  ghost predicate ChunkOk(c: Chunk) {
    |c.clocks| == |c.entries|
  }

  ghost predicate ChunksOk(chunks: seq<Chunk>) {
    forall i | 0 <= i < |chunks| :: ChunkOk(chunks[i])
  }

  /** The log the batches were cut from. */
  function Joined(chunks: seq<Chunk>): seq<LogEntry> {
    if chunks == [] then [] else chunks[0].entries + Joined(chunks[1..])
  }

  ghost function ApplyChunks(st: ReplicaState, chunks: seq<Chunk>, gen: nat -> u64): (ReplicaState, seq<QueueResponse>)
    requires ChunksOk(chunks)
    decreases |chunks|
  {
    if chunks == [] then (st, [])
    else
      assert ChunkOk(chunks[0]);
      var (st', rs) := ApplyEntries(st, chunks[0].entries, chunks[0].clocks, gen);
      var (st'', rs') := ApplyChunks(st', chunks[1..], gen);
      (st'', rs + rs')
  }

  // ----- What is recorded as applied -----

  /** Entry `k` is the last of the log that changes the membership. */
  ghost predicate IsLastMembership(es: seq<LogEntry>, k: nat)
    requires k < |es|
  {
    es[k].payload.Membership? && forall j | k < j < |es| :: !es[j].payload.Membership?
  }

  /** After a log, the last entry is recorded as applied and the last membership entry, with its id, as the
      membership; an empty log, or one without such an entry, leaves what was recorded.  Every entry is
      answered. */
  lemma {:induction false} AppliedIsRecorded(st: ReplicaState, es: seq<LogEntry>, clocks: seq<Clock>, gen: nat -> u64)
    requires |clocks| == |es|
    ensures var (st', rs) := ApplyEntries(st, es, clocks, gen);
            && |rs| == |es|
            && st'.lastApplied == (if es == [] then st.lastApplied else Some(es[|es| - 1].logId))
            && (forall k | 0 <= k < |es| && IsLastMembership(es, k) ::
                  st'.membership == Some((es[k].logId, es[k].payload.nodes)))
            && ((forall k | 0 <= k < |es| :: !es[k].payload.Membership?) ==> st'.membership == st.membership)
    decreases |es|
  {
    hide ApplyOp;
    if es != [] {
      var st' := ApplyEntry(st, es[0], clocks[0], gen).0;
      AppliedIsRecorded(st', es[1..], clocks[1..], gen);
      forall k | 0 <= k < |es| && IsLastMembership(es, k)
        ensures ApplyEntries(st, es, clocks, gen).0.membership == Some((es[k].logId, es[k].payload.nodes))
      {
        if k > 0 {
          assert es[1..][k - 1] == es[k] && IsLastMembership(es[1..], k - 1);
        } else {
          assert forall j | 0 <= j < |es[1..]| :: es[1..][j] == es[j + 1];
        }
      }
    }
  }

  // ----- Without the clock -----

  /** No queue expires messages by age, and nothing is scheduled. */
  ghost predicate ClockFree(s: Manager) {
    forall n | n in s.queues :: s.queues[n].policy.maxAgeSecs.None? && s.queues[n].scheduled == []
  }

  predicate Undated(m: Message) {
    m.deliverAt.None? && m.dedupKey.None?
  }

  ghost predicate ClockFreeOp(op: QueueOperation) {
    match op
    case DeclareOp(_, policy) => policy.maxAgeSecs.None?
    case PublishOp(_, m) => Undated(m)
    case PublishBatchOp(_, ms) => forall i | 0 <= i < |ms| :: Undated(ms[i])
    case _ => true
  }

  ghost predicate ClockFreeLog(es: seq<LogEntry>) {
    forall i | 0 <= i < |es| :: es[i].payload.Normal? ==> ClockFreeOp(es[i].payload.op)
  }

  lemma PublishWithoutClock(s: Manager, q: Name, m: Message, c1: Readings, c2: Readings, id: u64)
    requires ClockFree(s) && Undated(m)
    ensures Publish(s, q, m, c1, id) == Publish(s, q, m, c2, id)
    ensures ClockFree(Publish(s, q, m, c1, id).0)
  {
    hide Insert, EncodeKey;
  }

  lemma {:induction false} PublishAllWithoutClock(s: Manager, q: Name, ms: seq<Message>, c1: Clock, c2: Clock,
                                                  i: nat, gen: nat -> u64)
    requires ClockFree(s) && i <= |ms| && forall k | 0 <= k < |ms| :: Undated(ms[k])
    ensures PublishAll(s, q, ms, c1, i, gen) == PublishAll(s, q, ms, c2, i, gen)
    ensures ClockFree(PublishAll(s, q, ms, c1, i, gen).0)
    decreases |ms| - i
  {
    if i < |ms| {
      PublishWithoutClock(s, q, ms[i], c1(i), c2(i), gen(s.issued));
      hide Publish, ClockFree;
      PublishAllWithoutClock(Publish(s, q, ms[i], c1(i), gen(s.issued)).0, q, ms, c1, c2, i + 1, gen);
    }
  }

  lemma ConsumeWithoutClock(s: Manager, q: Name)
    requires ClockFree(s)
    ensures ClockFree(Consume(s, q).0)
  {
    hide Insert, KeyId, Be64;
  }

  lemma {:induction false} ConsumeUpToWithoutClock(s: Manager, q: Name, max: nat)
    requires ClockFree(s)
    ensures ClockFree(ConsumeUpTo(s, q, max).0)
    decreases max
  {
    hide Consume, ClockFree;
    if max > 0 {
      ConsumeWithoutClock(s, q);
      ConsumeUpToWithoutClock(Consume(s, q).0, q, max - 1);
    }
  }

  lemma SettleWithoutClock(s: Manager, q: Name, tag: u64, id: u64)
    requires ClockFree(s)
    ensures ClockFree(Ack(s, q, tag).0) && ClockFree(Nack(s, q, tag, id).0)
  {
    hide Insert, Remove, Get, EncodeKey, Be64, Nacked;
  }

  lemma RetainWithoutClock(s: Manager, q: Name, t1: millis, t2: millis)
    requires ClockFree(s)
    ensures ApplyRetention(s, q, t1) == ApplyRetention(s, q, t2)
    ensures ClockFree(ApplyRetention(s, q, t1).0)
  {
    hide Total;
  }

  lemma PromoteWithoutClock(s: Manager, q: Name, t1: millis, t2: millis, gen: nat -> u64)
    requires ClockFree(s)
    ensures Promote(s, q, t1, DueIds(s, q, t1, gen)) == Promote(s, q, t2, DueIds(s, q, t2, gen))
    ensures ClockFree(Promote(s, q, t1, DueIds(s, q, t1, gen)).0)
  {
    hide InsertAll;
    if q in s.queues {
      var t := s.queues[q].scheduled;
      assert DueCount(t, t1) == 0 && DueCount(t, t2) == 0;
      assert t[..0] == [] && t[0..] == [];
    }
  }

  /** A clock-free operation has one outcome, whatever the clock reads. */
  lemma OperationWithoutClock(s: Manager, op: QueueOperation, c1: Clock, c2: Clock, gen: nat -> u64)
    requires ClockFree(s) && ClockFreeOp(op)
    ensures ApplyOp(s, op, c1, gen) == ApplyOp(s, op, c2, gen)
    ensures ClockFree(ApplyOp(s, op, c1, gen).0)
  {
    match op
    case DeclareOp(n, policy) =>
    case PublishOp(q, m) =>
      PublishWithoutClock(s, q, m, c1(0), c2(0), gen(s.issued));
      hide Publish, ClockFree;
    case PublishBatchOp(q, ms) =>
      PublishAllWithoutClock(s, q, ms, c1, c2, 0, gen);
      hide PublishAll, ClockFree;
    case ConsumeOp(q) =>
      ConsumeWithoutClock(s, q);
      hide Consume, ClockFree;
    case ConsumeBatchOp(q, max) =>
      ConsumeUpToWithoutClock(s, q, max);
      hide ConsumeUpTo, ClockFree;
    case AckOp(q, tag) =>
      SettleWithoutClock(s, q, tag, 0);
      hide Ack, ClockFree;
    case NackOp(q, tag) =>
      SettleWithoutClock(s, q, tag, gen(s.issued));
      hide Nack, ClockFree;
    case RetentionOp(q) =>
      RetainWithoutClock(s, q, c1(0).due, c2(0).due);
      hide ApplyRetention, ClockFree;
    case PromoteOp(q) =>
      PromoteWithoutClock(s, q, c1(0).due, c2(0).due, gen);
      hide Promote, DueIds, ClockFree;
  }

  lemma {:induction false} EntriesWithoutClock(
      st: ReplicaState, es: seq<LogEntry>, c1: seq<Clock>, c2: seq<Clock>, gen: nat -> u64)
    requires |c1| == |es| == |c2| && ClockFree(st.manager) && ClockFreeLog(es)
    ensures ApplyEntries(st, es, c1, gen) == ApplyEntries(st, es, c2, gen)
    ensures ClockFree(ApplyEntries(st, es, c1, gen).0.manager)
    decreases |es|
  {
    if es != [] {
      assert es[0].payload.Normal? ==> ClockFreeOp(es[0].payload.op);
      hide ClockFreeOp, ApplyOp, ClockFree;
      if es[0].payload.Normal? { OperationWithoutClock(st.manager, es[0].payload.op, c1[0], c2[0], gen); }
      EntriesWithoutClock(ApplyEntry(st, es[0], c1[0], gen).0, es[1..], c1[1..], c2[1..], gen);
    }
  }

  // ----- However the log is cut -----

  lemma {:induction false} EntriesConcat(
      st: ReplicaState, a: seq<LogEntry>, b: seq<LogEntry>, ca: seq<Clock>, cb: seq<Clock>, gen: nat -> u64)
    requires |ca| == |a| && |cb| == |b|
    ensures var (st', rs) := ApplyEntries(st, a, ca, gen);
            var (st'', rs') := ApplyEntries(st', b, cb, gen);
            ApplyEntries(st, a + b, ca + cb, gen) == (st'', rs + rs')
    decreases |a|
  {
    hide ApplyEntry;
    if a == [] {
      assert a + b == b && ca + cb == cb;
      assert [] + ApplyEntries(st, b, cb, gen).1 == ApplyEntries(st, b, cb, gen).1;
    } else {
      assert (a + b)[1..] == a[1..] + b && (ca + cb)[1..] == ca[1..] + cb;
      var (st', r) := ApplyEntry(st, a[0], ca[0], gen);
      EntriesConcat(st', a[1..], b, ca[1..], cb, gen);
      var (st'', rs) := ApplyEntries(st', a[1..], ca[1..], gen);
      var rs' := ApplyEntries(st'', b, cb, gen).1;
      assert [r] + (rs + rs') == ([r] + rs) + rs';
    }
  }

  function JoinedClocks(chunks: seq<Chunk>): seq<Clock> {
    if chunks == [] then [] else chunks[0].clocks + JoinedClocks(chunks[1..])
  }

  /** Applying batches one after the other is applying the whole log. */
  lemma {:induction false} ChunksAreTheLog(st: ReplicaState, chunks: seq<Chunk>, gen: nat -> u64)
    requires ChunksOk(chunks)
    ensures |JoinedClocks(chunks)| == |Joined(chunks)|
    ensures ApplyChunks(st, chunks, gen) == ApplyEntries(st, Joined(chunks), JoinedClocks(chunks), gen)
    decreases |chunks|
  {
    if chunks != [] {
      assert ChunkOk(chunks[0]);
      hide ApplyEntries;
      var st' := ApplyEntries(st, chunks[0].entries, chunks[0].clocks, gen).0;
      ChunksAreTheLog(st', chunks[1..], gen);
      EntriesConcat(st, chunks[0].entries, Joined(chunks[1..]), chunks[0].clocks, JoinedClocks(chunks[1..]), gen);
    } else {
      assert ApplyEntries(st, [], [], gen) == (st, []);
    }
  }

  /** Two replicas in the same state with the same generator, applying the same log cut into different
      batches under different clocks, end in the same state and gave the same answer to every entry. */
  lemma ReplicasAgree(st: ReplicaState, a: seq<Chunk>, b: seq<Chunk>, gen: nat -> u64)
    requires ChunksOk(a) && ChunksOk(b) && Joined(a) == Joined(b)
    requires ClockFree(st.manager) && ClockFreeLog(Joined(a))
    ensures ApplyChunks(st, a, gen) == ApplyChunks(st, b, gen)
    ensures ClockFree(ApplyChunks(st, a, gen).0.manager)
  {
    hide ApplyChunks, ApplyEntries, ClockFree, ClockFreeLog, Joined, JoinedClocks;
    ChunksAreTheLog(st, a, gen);
    ChunksAreTheLog(st, b, gen);
    EntriesWithoutClock(st, Joined(a), JoinedClocks(a), JoinedClocks(b), gen);
  }
}
