/** The storage adaptor under the consensus algorithm: the log tree, the applied state and the queue
    manager, updated in place. */
module RaftStorage {
  import opened Bytes
  import opened Results
  import opened OrderedTree
  import opened Messages
  import opened Engine
  import opened Storage
  import opened Snapshots
  import opened Broker
  import opened StateMachine
  import opened Replica
  import opened RaftLog

  // ----- The interpreter -----

  /** The outcome of a batch whose first part gave `done` and whose rest gives `rest`. */
  function After<T>(done: seq<T>, rest: (Manager, Result<seq<T>, PelicanError>))
    : (Manager, Result<seq<T>, PelicanError>)
  {
    (rest.0, if rest.1.Ok? then Ok(done + rest.1.value) else rest.1)
  }

  lemma AfterNone<T>(rest: (Manager, Result<seq<T>, PelicanError>))
    ensures After([], rest) == rest
  {
    if rest.1.Ok? { assert [] + rest.1.value == rest.1.value; }
  }

  lemma PublishAllStep(done: seq<PublishOutcome>, s: Manager, q: Name, ms: seq<Message>, clock: Clock, i: nat,
                       gen: nat -> u64)
    requires i < |ms|
    ensures var (s', r) := Publish(s, q, ms[i], clock(i), gen(s.issued));
            After(done, PublishAll(s, q, ms, clock, i, gen)) ==
            if r.Ok? then After(done + [r.value], PublishAll(s', q, ms, clock, i + 1, gen)) else (s', Err(r.error))
  {
    hide Publish;
    var (s', r) := Publish(s, q, ms[i], clock(i), gen(s.issued));
    var rest := PublishAll(s', q, ms, clock, i + 1, gen).1;
    if r.Ok? && rest.Ok? { assert done + ([r.value] + rest.value) == (done + [r.value]) + rest.value; }
  }

  method PublishBatch(qm: QueueManager, queue: Name, ms: seq<Message>, clock: Clock)
    returns (r: Result<seq<PublishOutcome>, PelicanError>)
    requires qm.Valid()
    modifies qm`db, qm`currentBytes, qm`issued
    ensures qm.Valid()
    ensures (qm.Model(), r) == PublishAll(old(qm.Model()), queue, ms, clock, 0, qm.gen)
  {
    hide Engine.Publish, QueuesIn, StoreOk;
    ghost var all := PublishAll(qm.Model(), queue, ms, clock, 0, qm.gen);
    var outcomes := [];
    AfterNone(all);
    for i := 0 to |ms|
      invariant qm.Valid()
      invariant all == After(outcomes, PublishAll(qm.Model(), queue, ms, clock, i, qm.gen))
    {
      PublishAllStep(outcomes, qm.Model(), queue, ms, clock, i, qm.gen);
      var o := qm.Publish(queue, ms[i], clock(i));
      match o {
        case Ok(outcome) => outcomes := outcomes + [outcome];
        case Err(e) => return Err(e);
      }
    }
    assert outcomes + [] == outcomes;
    r := Ok(outcomes);
  }

  lemma ConsumeUpToStep(done: seq<(u64, Message)>, s: Manager, q: Name, max: nat)
    requires max > 0
    ensures var (s', r) := Consume(s, q);
            After(done, ConsumeUpTo(s, q, max)) ==
            if r.Err? then (s', Err(r.error))
            else if r.value.None? then (s', Ok(done))
            else After(done + [r.value.value], ConsumeUpTo(s', q, max - 1))
  {
    hide Consume;
    var (s', r) := Consume(s, q);
    var rest := ConsumeUpTo(s', q, max - 1).1;
    if r.Ok? {
      if r.value.None? {
        assert done + [] == done;
      } else if rest.Ok? {
        assert done + ([r.value.value] + rest.value) == (done + [r.value.value]) + rest.value;
      }
    }
  }

  method ConsumeBatch(qm: QueueManager, queue: Name, max: nat) returns (r: Result<seq<(u64, Message)>, PelicanError>)
    requires qm.Valid()
    modifies qm`db
    ensures qm.Valid()
    ensures (qm.Model(), r) == ConsumeUpTo(old(qm.Model()), queue, max)
  {
    hide Engine.Consume, QueuesIn, StoreOk;
    ghost var all := ConsumeUpTo(qm.Model(), queue, max);
    var results := [];
    AfterNone(all);
    for i := 0 to max
      invariant qm.Valid()
      invariant all == After(results, ConsumeUpTo(qm.Model(), queue, max - i))
    {
      ConsumeUpToStep(results, qm.Model(), queue, max - i);
      var d := qm.Consume(queue);
      match d {
        case Ok(Some(pair)) => results := results + [pair];
        case Ok(None) => return Ok(results);
        case Err(e) => return Err(e);
      }
    }
    assert results + [] == results;
    r := Ok(results);
  }

  /** The names an operation adds are told apart from the declared ones by the trees they use. */
  ghost predicate NamesClean(declared: set<Name>, op: QueueOperation) {
    op.DeclareOp? ==> CleanNames(declared + {op.name})
  }

  method ApplyOperation(qm: QueueManager, op: QueueOperation, clock: Clock) returns (r: QueueResponse)
    requires qm.Valid() && NamesClean(qm.metaTree, op)
    modifies qm
    ensures qm.Valid()
    ensures (qm.Model(), r) == ApplyOp(old(qm.Model()), op, clock, qm.gen)
    ensures qm.metaTree == old(qm.metaTree) + (if op.DeclareOp? then {op.name} else {})
  {
    hide QueuesIn, StoreOk, CleanNames;
    match op {
      case DeclareOp(n, policy) =>
        qm.Declared();
        var o := qm.Declare(n, policy);
        qm.Declared();
        r := DeclareResp(o);
      case PublishOp(q, m) => var o := qm.Publish(q, m, clock(0)); r := PublishResp(o);
      case PublishBatchOp(q, ms) => var o := PublishBatch(qm, q, ms, clock); r := PublishBatchResp(o);
      case ConsumeOp(q) => var o := qm.Consume(q); r := ConsumeResp(o);
      case ConsumeBatchOp(q, max) => var o := ConsumeBatch(qm, q, max); r := ConsumeBatchResp(o);
      case AckOp(q, tag) => var o := qm.Ack(q, tag); r := AckResp(o);
      case NackOp(q, tag) => var o := qm.Nack(q, tag); r := NackResp(o);
      case RetentionOp(q) => var o := qm.ApplyRetention(q, clock(0).due); r := RetentionResp(o);
      case PromoteOp(q) => var o := qm.PromoteScheduled(q, clock(0).due); r := PromoteResp(o);
    }
  }

  // ----- The store -----

  ghost function DeclaredBy(es: seq<LogEntry>): set<Name> {
    set i | 0 <= i < |es| && es[i].payload.Normal? && es[i].payload.op.DeclareOp? :: es[i].payload.op.name
  }

  datatype SnapshotMeta = SnapshotMeta(lastLogId: Option<LogId>, lastMembership: Option<(LogId, set<nat>)>)

  datatype StoredSnapshot = StoredSnapshot(meta: SnapshotMeta, data: Snapshot)

  class RaftStore {
    var logTree: Tree<LogEntry>
    var lastPurged: Option<LogId>
    var lastApplied: Option<LogId>
    var lastMembership: Option<(LogId, set<nat>)>
    var currentSnapshot: Option<StoredSnapshot>
    const stateMachine: QueueManager

    ghost predicate Valid()
      reads this, stateMachine
    {
      Keyed(logTree) && stateMachine.Valid()
    }

    /** The stored log. */
    ghost function StoredLog(): Stored
      reads this
    {
      RaftLog.Stored(logTree, lastPurged)
    }

    /** What has been applied. */
    ghost function Applied(): ReplicaState
      reads this, stateMachine
    {
      ReplicaState(stateMachine.Model(), lastApplied, lastMembership)
    }

    constructor (qm: QueueManager)
      requires qm.Valid()
      ensures Valid() && stateMachine == qm
      ensures StoredLog() == RaftLog.Stored([], None)
      ensures Applied() == ReplicaState(qm.Model(), None, None) && currentSnapshot == None
    {
      logTree := [];
      lastPurged := None;
      lastApplied := None;
      lastMembership := None;
      currentSnapshot := None;
      stateMachine := qm;
    }

    /** Opens the store again: the log and what was applied are as they were left, the stored snapshot is
        forgotten, and the queue manager recovers its in-flight messages. */
    method Reopen() returns (drawn: map<Name, seq<u64>>)
      requires Valid()
      modifies this`currentSnapshot, stateMachine
      ensures Valid() && currentSnapshot == None && StoredLog() == old(StoredLog())
      ensures drawn.Keys == old(stateMachine.Queues()).Keys && old(stateMachine.issued) <= stateMachine.issued
      ensures forall n | n in drawn :: |drawn[n]| == |old(stateMachine.Queues())[n].inflight|
                && DrawnSince(stateMachine.gen, drawn[n], old(stateMachine.issued), stateMachine.issued)
      ensures AllInTurn(stateMachine.gen, drawn, old(stateMachine.issued), stateMachine.issued)
      ensures Applied() == old(Applied()).(
                manager := Engine.Reopen(old(stateMachine.Model()), None, drawn, stateMachine.issued))
    {
      hide StoreOk, QueuesIn, DrawnSince, AllInTurn;
      drawn := stateMachine.Reopen(None);
      currentSnapshot := None;
    }

    /** Scans the tree from the first key of the range to the first key beyond it. */
    method TryGetLogEntries(start: Bound, end: Bound) returns (es: seq<LogEntry>)
      requires Valid()
      ensures es == Select(Values(logTree), ScanStart(start), ScanEnd(end))
    {
      hide Be64, Less, Select, Keyed, Rank;
      var lo, hi := ScanStart(start), ScanEnd(end);
      es := [];
      if lo >= hi {
        SelectNone(Values(logTree), lo, hi);
        return;
      }
      RankCuts(logTree, lo);
      var first := Rank(logTree, Be64(lo));
      var i := first;
      while i < |logTree| && Less(logTree[i].key, Be64(hi))
        invariant first <= i <= |logTree|
        invariant es == Values(logTree)[first..i]
        invariant forall j | first <= j < i :: Index(logTree[j].val) < hi
      {
        KeysAreIndices(logTree, i, hi);
        es := es + [logTree[i].val];
        i := i + 1;
      }
      forall j | i <= j < |logTree|
        ensures hi <= Index(logTree[j].val)
      {
        KeysAreIndices(logTree, i, hi);
        if i < j { IndicesAscend(logTree, i, j); }
      }
      SelectIsSlice(Values(logTree), lo, hi, first, i);
    }

    method GetLogState() returns (purged: Option<LogId>, last: Option<LogId>)
      ensures (purged, last) == LogState(StoredLog())
    {
      purged := lastPurged;
      if |logTree| > 0 {
        last := Some(logTree[|logTree| - 1].val.logId);
      } else {
        last := lastPurged;
      }
    }

    method AppendToLog(es: seq<LogEntry>)
      requires Valid()
      modifies this`logTree
      ensures Valid()
      ensures StoredLog() == StoredNext(old(StoredLog()), Appending(es))
    {
      hide Keyed, Insert, Be64;
      ghost var all := StoreAll(logTree, es);
      for i := 0 to |es|
        invariant Valid() && all == StoreAll(logTree, es[i..])
      {
        InsertKeyed(logTree, es[i]);
        assert es[i..][1..] == es[i + 1..];
        logTree := Insert(logTree, Be64(Index(es[i])), es[i]);
      }
    }

    /** The keys of the entries with an index from `lo` up to and including `hi`. */
    method CollectKeys(lo: u64, hi: u64) returns (keys: seq<Key>)
      requires Valid() && lo <= hi
      ensures Rank(logTree, Be64(lo)) <= RankAfter(logTree, hi)
      ensures keys == LogKeys(logTree, Rank(logTree, Be64(lo)), RankAfter(logTree, hi))
    {
      hide Be64, Less, Keyed, Rank, RankAfter;
      RanksOrdered(logTree, lo, hi);
      RankAfterCuts(logTree, hi);
      var a := Rank(logTree, Be64(lo));
      ghost var b := RankAfter(logTree, hi);
      keys := [];
      var i := a;
      while i < |logTree| && !Less(Be64(hi), logTree[i].key)
        invariant a <= i <= b
        invariant keys == LogKeys(logTree, a, i)
      {
        NotBeyond(logTree, i, hi);
        keys := keys + [logTree[i].key];
        i := i + 1;
      }
      if i < |logTree| { NotBeyond(logTree, i, hi); }
    }

    /** Removes collected keys one by one. */
    method RemoveKeys(keys: seq<Key>, ghost a: nat, ghost b: nat)
      requires Valid() && a <= b <= |logTree| && keys == LogKeys(logTree, a, b)
      modifies this`logTree
      ensures Valid()
      ensures logTree == old(logTree)[..a] + old(logTree)[b..]
    {
      hide Keyed, Remove;
      ghost var t := logTree;
      assert t == t[..a] + t[a..];
      for i := 0 to |keys|
        invariant Valid() && logTree == t[..a] + t[a + i..]
      {
        assert logTree[a] == t[a + i];
        RemoveOne(logTree, a);
        logTree := Remove(logTree, keys[i]);
      }
    }

    method DeleteConflictLogsSince(id: LogId)
      requires Valid()
      modifies this`logTree
      ensures Valid()
      ensures StoredLog() == StoredNext(old(StoredLog()), Truncating(id))
    {
      hide Be64, Rank, RankAfter, Keyed;
      RankAfterLast(logTree);
      var keys := CollectKeys(id.index, TWO_64 - 1);
      RemoveKeys(keys, Rank(logTree, Be64(id.index)), |logTree|);
    }

    method PurgeLogsUpto(id: LogId)
      requires Valid()
      modifies this`logTree, this`lastPurged
      ensures Valid()
      ensures StoredLog() == StoredNext(old(StoredLog()), Purging(id))
    {
      hide Be64, Rank, RankAfter, Keyed;
      RankOfZero(logTree);
      var keys := CollectKeys(0, id.index);
      RemoveKeys(keys, 0, RankAfter(logTree, id.index));
      lastPurged := Some(id);
    }

    /** Applies committed entries in order, recording each. */
    method ApplyToStateMachine(entries: seq<LogEntry>, clocks: seq<Clock>) returns (resps: seq<QueueResponse>)
      requires Valid() && |clocks| == |entries|
      requires CleanNames(stateMachine.metaTree + DeclaredBy(entries))
      modifies this`lastApplied, this`lastMembership, stateMachine
      ensures Valid()
      ensures (Applied(), resps) == ApplyEntries(old(Applied()), entries, clocks, stateMachine.gen)
      ensures |resps| == |entries|
      ensures lastApplied == if entries == [] then old(lastApplied) else Some(entries[|entries| - 1].logId)
      ensures forall k | 0 <= k < |entries| && IsLastMembership(entries, k) ::
                lastMembership == Some((entries[k].logId, entries[k].payload.nodes))
    {
      hide CleanNames, StoreOk, QueuesIn, ApplyOp, DeclaredBy;
      ghost var all := ApplyEntries(Applied(), entries, clocks, stateMachine.gen);
      AppliedIsRecorded(Applied(), entries, clocks, stateMachine.gen);
      ghost var names := stateMachine.metaTree + DeclaredBy(entries);
      resps := [];
      assert all.1 == [] + all.1;
      assert entries[0..] == entries && clocks[0..] == clocks;
      for i := 0 to |entries|
        invariant Valid() && stateMachine.metaTree <= names
        invariant var rest := ApplyEntries(Applied(), entries[i..], clocks[i..], stateMachine.gen);
                  all == (rest.0, resps + rest.1)
      {
        ghost var before := Applied();
        ApplyEntriesStep(before, resps, entries, clocks, i, stateMachine.gen);
        var resp: QueueResponse;
        match entries[i].payload {
          case Blank => resp := AckResp(Ok(()));
          case Normal(op) =>
            DeclaresClean(stateMachine.metaTree, names, entries, i);
            resp := ApplyOperation(stateMachine, op, clocks[i]);
          case Membership(nodes) =>
            lastMembership := Some((entries[i].logId, nodes));
            resp := AckResp(Ok(()));
        }
        lastApplied := Some(entries[i].logId);
        assert (Applied(), resp) == ApplyEntry(before, entries[i], clocks[i], stateMachine.gen);
        resps := resps + [resp];
      }
      assert resps + [] == resps;
    }

    method BuildSnapshot() returns (snap: StoredSnapshot)
      requires Valid()
      modifies this`currentSnapshot
      ensures Valid() && currentSnapshot == Some(snap)
      ensures snap == StoredSnapshot(SnapshotMeta(lastApplied, lastMembership), Export(stateMachine.Model()))
    {
      hide StoreOk, QueuesIn;
      var data := stateMachine.ExportSnapshot();
      snap := StoredSnapshot(SnapshotMeta(lastApplied, lastMembership), data);
      currentSnapshot := Some(snap);
    }

    /** Writes a snapshot into the queue manager as it stands and takes over what the snapshot says was applied. */
    method InstallSnapshot(snap: StoredSnapshot, clocks: map<Name, seq<millis>>) returns (draws: map<Name, Draws>)
      requires Valid() && CleanNames(stateMachine.metaTree + snap.data.Keys)
      requires forall n | n in snap.data :: n in clocks && |clocks[n]| == |snap.data[n].scheduled|
      modifies this`lastApplied, this`lastMembership, this`currentSnapshot, stateMachine
      ensures Valid() && currentSnapshot == Some(snap) && draws.Keys == snap.data.Keys
      ensures forall n | n in snap.data :: Fits(snap.data[n], draws[n])
                && DrawsSince(stateMachine.gen, draws[n], old(stateMachine.issued), stateMachine.issued)
      ensures Applied() == ReplicaState(Restore(old(stateMachine.Model()), snap.data, draws, stateMachine.issued),
                                        snap.meta.lastLogId, snap.meta.lastMembership)
    {
      hide StoreOk, QueuesIn, CleanNames, Restore, DrawsSince;
      draws := stateMachine.RestoreFromSnapshot(snap.data, clocks);
      lastApplied := snap.meta.lastLogId;
      lastMembership := snap.meta.lastMembership;
      currentSnapshot := Some(snap);
    }
  }

  lemma ApplyEntriesStep(st: ReplicaState, done: seq<QueueResponse>, es: seq<LogEntry>, clocks: seq<Clock>,
                         i: nat, gen: nat -> u64)
    requires |clocks| == |es| && i < |es|
    ensures var rest := ApplyEntries(st, es[i..], clocks[i..], gen);
            var (st', r) := ApplyEntry(st, es[i], clocks[i], gen);
            var rest' := ApplyEntries(st', es[i + 1..], clocks[i + 1..], gen);
            (rest.0, done + rest.1) == (rest'.0, (done + [r]) + rest'.1)
  {
    hide ApplyEntry;
    assert es[i..][1..] == es[i + 1..] && clocks[i..][1..] == clocks[i + 1..];
    var (st', r) := ApplyEntry(st, es[i], clocks[i], gen);
    var rest' := ApplyEntries(st', es[i + 1..], clocks[i + 1..], gen);
    assert done + ([r] + rest'.1) == (done + [r]) + rest'.1;
  }

  /** Declaring the name of one of the entries keeps to clean names. */
  lemma DeclaresClean(declared: set<Name>, names: set<Name>, es: seq<LogEntry>, i: nat)
    requires i < |es| && es[i].payload.Normal? && declared <= names && CleanNames(names) && DeclaredBy(es) <= names
    ensures NamesClean(declared, es[i].payload.op)
    ensures es[i].payload.op.DeclareOp? ==> es[i].payload.op.name in names
  {
    hide CleanNames;
    var op := es[i].payload.op;
    if op.DeclareOp? {
      assert op.name in DeclaredBy(es);
      CleanSubset(names, declared + {op.name});
    }
  }

  function LogKeys(t: Tree<LogEntry>, a: nat, b: nat): (keys: seq<Key>)
    requires a <= b <= |t|
  {
    seq(b - a, i requires 0 <= i < b - a => t[a + i].key)
  }

  lemma NotBeyond(t: Tree<LogEntry>, i: nat, hi: u64)
    requires Keyed(t) && i < |t|
    ensures Less(Be64(hi), t[i].key) <==> hi < Index(t[i].val)
  {
    hide Be64, Less;
    Be64Order(hi, Index(t[i].val));
  }

  lemma RemoveOne(t: Tree<LogEntry>, i: nat)
    requires Keyed(t) && i < |t|
    ensures Remove(t, t[i].key) == t[..i] + t[i + 1..] && Keyed(Remove(t, t[i].key))
  {
    hide Be64, Less;
    RankAt(t, i);
  }

  lemma RankAfterLast(t: Tree<LogEntry>)
    requires Keyed(t)
    ensures RankAfter(t, TWO_64 - 1) == |t|
  {
    RankAfterCuts(t, TWO_64 - 1);
    hide RankAfter, Keyed;
    if t != [] { assert Index(t[|t| - 1].val) <= TWO_64 - 1; }
  }

  lemma RanksOrdered(t: Tree<LogEntry>, lo: u64, hi: u64)
    requires Keyed(t) && lo <= hi
    ensures Rank(t, Be64(lo)) <= RankAfter(t, hi)
  {
    RankCuts(t, lo);
    RankAfterCuts(t, hi);
    var b := RankAfter(t, hi);
    hide Rank, RankAfter, Keyed, Be64;
    if b < |t| { assert hi < Index(t[b].val); }
  }

  lemma RankOfZero(t: Tree<LogEntry>)
    requires Keyed(t)
    ensures Rank(t, Be64(0)) == 0
  {
    RankCuts(t, 0);
    hide Rank, Be64, Keyed;
  }
}
