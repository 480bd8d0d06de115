/** The queue manager as it runs: an object over a database of named trees, updated in place.  Every
    operation is proved to do to the whole database what the corresponding function of `Engine` does to
    the one queue it names, and nothing to any other queue. */
module Broker {
  import opened Bytes
  import opened Results
  import opened OrderedTree
  import opened Messages
  import opened Engine
  import opened Runs
  import opened Draw
  import opened Storage
  import opened Snapshots
  import opened Conservation
  import opened Accounting

  class QueueManager {
    var db: Db
    var metaTree: set<Name>
    var retentionTree: map<Name, RetentionPolicy>
    var currentBytes: nat
    var maxBytes: Option<nat>
    var issued: nat
    const gen: nat -> u64

    /** Declared names do not shadow each other, every tree belongs to a declared queue and is in order. */
    ghost predicate Valid()
      reads this
    {
      StoreOk(db, metaTree)
    }

    ghost function Queues(): map<Name, QueueState>
      reads this
    {
      QueuesIn(db, metaTree, retentionTree)
    }

    ghost function Model(): Manager
      reads this
    {
      Manager(Queues(), issued, currentBytes, maxBytes)
    }

    /** Opens a database in a fresh directory. */
    constructor (limit: Option<nat>, gen: nat -> u64)
      ensures Valid() && Model() == Manager(map[], 0, 0, limit) && this.gen == gen
    {
      db := Db(map[], map[]);
      metaTree := {};
      retentionTree := map[];
      currentBytes := 0;
      maxBytes := limit;
      issued := 0;
      this.gen := gen;
    }

    function Tree(k: Kind, n: Name): Tree<Message>
      reads this
    {
      Open(db, TreeName(k, n))
    }

    function Times(n: Name): Tree<i64>
      reads this
    {
      OpenTimes(db, TreeName(Dedup, n))
    }

    /** The queue of a declared name is made of the five trees found under its names. */
    lemma At(n: Name)
      requires Valid() && n in metaTree
      ensures n in Queues()
      ensures Queues()[n] == QueueState(PolicyOf(retentionTree, n), Tree(Main, n), Tree(Inflight, n),
                                        Tree(Scheduled, n), Tree(Dlq, n), Times(n))
      ensures TreeOk(Tree(Main, n), Main) && TreeOk(Tree(Inflight, n), Inflight)
      ensures TreeOk(Tree(Scheduled, n), Scheduled) && TreeOk(Tree(Dlq, n), Dlq) && Sorted(Times(n))
    {
      QueuesAt(db, metaTree, retentionTree, n);
    }

    /** Exactly the declared names have a queue. */
    lemma Declared()
      ensures Queues().Keys == metaTree
    {
    }

    /** `db.generate_id()` */
    method GenerateId() returns (id: u64)
      modifies this`issued
      ensures id == gen(old(issued)) && issued == Bump(old(issued), id)
    {
      id := gen(issued);
      issued := Bump(issued, id);
    }

    /** Replaces one message tree of a declared queue. */
    method Write(k: Kind, n: Name, t: Tree<Message>)
      requires Valid() && n in metaTree && TreeOk(t, k) && k != Dedup
      modifies this`db
      ensures Valid()
      ensures Queues() == old(Queues())[n := WithTree(old(Queues())[n], k, t)]
    {
      hide QueuesIn, StoreOk;
      PutChangesOneTree(db, metaTree, retentionTree, n, k, t);
      db := PutTree(db, k, n, t);
    }

    method Declare(name: Name, policy: RetentionPolicy) returns (r: Result<(), PelicanError>)
      requires Valid() && CleanNames(metaTree + {name})
      modifies this`db, this`metaTree, this`retentionTree
      ensures Valid()
      ensures (Model(), r) == Engine.Declare(old(Model()), name, policy)
    {
      hide StoreOk;
      if name in metaTree {
        return Err(QueueAlreadyExists(name));
      }
      hide QueuesIn;
      NewQueue(db, metaTree, retentionTree, name, policy);
      metaTree := metaTree + {name};
      db := Create(db, Main, name);
      db := Create(db, Inflight, name);
      db := Create(db, Dlq, name);
      db := Create(db, Scheduled, name);
      db := Create(db, Dedup, name);
      retentionTree := retentionTree[name := policy];
      r := Ok(());
    }

    /** Replaces the deduplication index of a declared queue. */
    method WriteTimes(n: Name, t: Tree<i64>)
      requires Valid() && n in metaTree && Sorted(t)
      modifies this`db
      ensures Valid()
      ensures Queues() == old(Queues())[n := old(Queues())[n].(dedup := t)]
    {
      hide QueuesIn, StoreOk;
      PutTimesChangesOneTree(db, metaTree, retentionTree, n, t);
      db := PutTimes(db, n, t);
    }

    method RecordDedupKey(queue: Name, m: Message, policy: RetentionPolicy, now: millis)
      requires Valid() && queue in metaTree && policy == PolicyOf(retentionTree, queue)
      modifies this`db
      ensures Valid()
      ensures Queues() == old(Queues())[queue := RecordKey(old(Queues())[queue], m, now)]
    {
      hide QueuesIn, StoreOk;
      At(queue);
      if policy.dedupWindowSecs.Some? {
        if m.dedupKey.Some? {
          InsertSorted(Times(queue), m.dedupKey.value, now);
          WriteTimes(queue, Insert(Times(queue), m.dedupKey.value, now));
        }
      }
    }

    /** The writes of a publish that passed its checks. */
    method Store(queue: Name, m: Message, policy: RetentionPolicy, clock: Readings, id: u64)
      requires Valid() && queue in metaTree && policy == PolicyOf(retentionTree, queue)
      modifies this`db
      ensures Valid()
      ensures Queues() == old(Queues())[queue := StoreMessage(old(Queues())[queue], m, clock, id)]
    {
      hide QueuesIn, StoreOk, TreeOk, Insert, Has;
      At(queue);
      if m.deliverAt.Some? && m.deliverAt.value > clock.due {
        var key := EncodeScheduledKey(m.deliverAt.value, id);
        InsertTreeOk(Tree(Scheduled, queue), Scheduled, key, m);
        Write(Scheduled, queue, Insert(Tree(Scheduled, queue), key, m));
      } else {
        var key := EncodeKey(m.priority, id);
        InsertTreeOk(Tree(Main, queue), Main, key, m);
        Write(Main, queue, Insert(Tree(Main, queue), key, m));
      }
      RecordDedupKey(queue, m, policy, clock.record);
    }

    method Publish(queue: Name, m: Message, clock: Readings) returns (r: Outcome)
      requires Valid()
      modifies this`db, this`issued, this`currentBytes
      ensures Valid()
      ensures (Model(), r) == Engine.Publish(old(Model()), queue, m, clock, gen(old(issued)))
    {
      hide QueuesIn, StoreOk, TreeOk, StoreMessage;
      Declared();
      if queue !in metaTree {
        return Err(QueueNotFound(queue));
      }
      At(queue);
      var policy := PolicyOf(retentionTree, queue);
      if policy.dedupWindowSecs.Some? {
        if policy.dedupWindowSecs.value > 0 {
          if m.dedupKey.Some? {
            var recorded := Get(Times(queue), m.dedupKey.value);
            if recorded.Some? && recorded.value > WrapI64(clock.check - MillisOf(policy.dedupWindowSecs.value)) {
              return Ok(Deduplicated);
            }
          }
        }
      }
      var len := EncodedLen(m);
      if maxBytes.Some? && currentBytes + len > maxBytes.value {
        return Err(StorageLimitExceeded(UsedPct(currentBytes, maxBytes.value), 100));
      }
      var id := GenerateId();
      Store(queue, m, policy, clock, id);
      currentBytes := currentBytes + len;
      r := Ok(Stored(m.id));
    }

    /** The first entry of the main tree is removed and put under its id among those in flight, in one
        transaction. */
    method Consume(queue: Name) returns (r: Delivery)
      requires Valid()
      modifies this`db
      ensures Valid()
      ensures (Model(), r) == Engine.Consume(old(Model()), queue)
    {
      hide QueuesIn, StoreOk;
      Declared();
      if queue !in metaTree {
        return Err(QueueNotFound(queue));
      }
      At(queue);
      var tree := Tree(Main, queue);
      if tree == [] {
        return Ok(None);
      }
      var key := tree[0].key;
      var idBytes := key[1..9];
      var id := FromBe64(idBytes);
      var value := tree[0].val;
      Move(queue, key, idBytes, value);
      r := Ok(Some((id, value)));
    }

    method Move(queue: Name, key: Key, idBytes: Key, value: Message)
      requires Valid() && queue in metaTree && Tree(Main, queue) != []
      requires Tree(Main, queue)[0] == Entry(key, value) && |key| == 9 && idBytes == key[1..9]
      modifies this`db
      ensures Valid()
      ensures old(Queues())[queue].main != []
      ensures Queues() == old(Queues())[queue := TakeFirst(old(Queues())[queue])]
      ensures FromBe64(idBytes) == KeyId(key)
    {
      hide QueuesIn, StoreOk;
      At(queue);
      RankAt(Tree(Main, queue), 0);
      assert Remove(Tree(Main, queue), key) == Tree(Main, queue)[1..];
      assert key[1..9] == key[1..];
      Be64Surjective(idBytes);
      RemoveTreeOk(Tree(Main, queue), Main, key);
      InsertTreeOk(Tree(Inflight, queue), Inflight, idBytes, value);
      var inflight := Insert(Tree(Inflight, queue), idBytes, value);
      Write(Main, queue, Remove(Tree(Main, queue), key));
      Write(Inflight, queue, inflight);
    }

    method Ack(queue: Name, tag: u64) returns (r: Result<(), PelicanError>)
      requires Valid()
      modifies this`db, this`currentBytes
      ensures Valid()
      ensures (Model(), r) == Engine.Ack(old(Model()), queue, tag)
    {
      hide QueuesIn, StoreOk, Rank, Has;
      Declared();
      if queue !in metaTree {
        return Err(QueueNotFound(queue));
      }
      At(queue);
      var key := Be64(tag);
      var value := Get(Tree(Inflight, queue), key);
      match value {
        case None => r := Err(InvalidDeliveryTag(tag));
        case Some(m) =>
          RemoveTreeOk(Tree(Inflight, queue), Inflight, key);
          Write(Inflight, queue, Remove(Tree(Inflight, queue), key));
          currentBytes := if EncodedLen(m) <= currentBytes then currentBytes - EncodedLen(m) else 0;
          r := Ok(());
      }
    }

    method Nack(queue: Name, tag: u64) returns (r: Result<(), PelicanError>)
      requires Valid()
      modifies this`db, this`issued
      ensures Valid()
      ensures (Model(), r) == Engine.Nack(old(Model()), queue, tag, gen(old(issued)))
    {
      hide QueuesIn, StoreOk, Rank, Has, Return;
      Declared();
      if queue !in metaTree {
        return Err(QueueNotFound(queue));
      }
      At(queue);
      var policy := PolicyOf(retentionTree, queue);
      var id := GenerateId();
      var value := Get(Tree(Inflight, queue), Be64(tag));
      match value {
        case None => r := Err(InvalidDeliveryTag(tag));
        case Some(m) =>
          GiveBack(queue, policy, tag, m, id);
          r := Ok(());
      }
    }

    /** The transaction of a nack: out of flight, one more attempt, into the dead-letter or the main tree. */
    method GiveBack(queue: Name, policy: RetentionPolicy, tag: u64, m: Message, id: u64)
      requires Valid() && queue in metaTree && policy == PolicyOf(retentionTree, queue)
      modifies this`db
      ensures Valid()
      ensures Queues() == old(Queues())[queue := Return(old(Queues())[queue], tag, m, id)]
    {
      hide QueuesIn, StoreOk, TreeOk, Insert, Has, Rank, Remove;
      At(queue);
      var m' := Nacked(m);
      var key := EncodeKey(m'.priority, id);
      RemoveTreeOk(Tree(Inflight, queue), Inflight, Be64(tag));
      Write(Inflight, queue, Remove(Tree(Inflight, queue), Be64(tag)));
      At(queue);
      if policy.maxDeliveryAttempts.Some? && policy.maxDeliveryAttempts.value > 0
         && m'.attempts >= policy.maxDeliveryAttempts.value {
        InsertTreeOk(Tree(Dlq, queue), Dlq, key, m');
        Write(Dlq, queue, Insert(Tree(Dlq, queue), key, m'));
      } else {
        InsertTreeOk(Tree(Main, queue), Main, key, m');
        Write(Main, queue, Insert(Tree(Main, queue), key, m'));
      }
    }

    static method SumLengths(t: Tree<Message>) returns (n: nat)
      ensures n == Sum(EncodedLen, Values(t))
    {
      n := 0;
      for i := 0 to |t|
        invariant n == Sum(EncodedLen, Values(t[..i]))
      {
        assert t[..i + 1] == t[..i] + [t[i]];
        ValuesConcat(t[..i], [t[i]]);
        SumConcat(EncodedLen, Values(t[..i]), Values([t[i]]));
        n := n + EncodedLen(t[i].val);
      }
      assert t[..|t|] == t;
    }

    method RecalculateBytes() returns (total: nat)
      requires Valid()
      ensures total == Recount(Queues())
    {
      hide QueuesIn, StoreOk;
      Declared();
      total := 0;
      var todo := metaTree;
      while todo != {}
        invariant todo <= metaTree
        invariant total == Recount(Queues() - todo)
        decreases todo
      {
        var n :| n in todo;
        At(n);
        var main := SumLengths(Tree(Main, n));
        var inflight := SumLengths(Tree(Inflight, n));
        var dlq := SumLengths(Tree(Dlq, n));
        var scheduled := SumLengths(Tree(Scheduled, n));
        total := total + main + inflight + dlq + scheduled + 8 * |Times(n)|;
        AddQueue(Queues(), todo, n);
        todo := todo - {n};
      }
      assert Queues() - {} == Queues();
    }

    method PromoteScheduled(queue: Name, now: millis) returns (r: Result<nat, PelicanError>)
      requires Valid()
      modifies this`db, this`issued
      ensures Valid()
      ensures queue !in old(Queues()) ==> Model() == old(Model()) && r == Err(QueueNotFound(queue))
      ensures queue in old(Queues()) ==>
                var ids := DrawIds(gen, old(issued), DueCount(old(Queues())[queue].scheduled, now));
                (Model(), r) == Engine.Promote(old(Model()), queue, now, ids)
    {
      hide QueuesIn, StoreOk, BumpAll, DrawIds;
      Declared();
      if queue !in metaTree {
        return Err(QueueNotFound(queue));
      }
      At(queue);
      var scheduled := Tree(Scheduled, queue);
      var toPromote := CollectDue(scheduled, now);
      PromoteEach(queue, now, toPromote);
      r := Ok(|toPromote|);
    }

    /** Scans the schedule until the first entry that is not due. */
    static method CollectDue(scheduled: Tree<Message>, now: millis) returns (due: Tree<Message>)
      ensures due == scheduled[..DueCount(scheduled, now)]
    {
      due := [];
      var i := 0;
      while i < |scheduled|
        invariant i <= |scheduled| && i <= DueCount(scheduled, now) && due == scheduled[..i]
      {
        if ScheduledTime(scheduled[i].key) > now {
          break;
        }
        due := due + [scheduled[i]];
        i := i + 1;
      }
    }

    /** Moves the due entries one by one, each in a transaction of its own. */
    method PromoteEach(queue: Name, now: millis, due: Tree<Message>)
      requires Valid() && queue in metaTree
      requires due == Tree(Scheduled, queue)[..DueCount(Tree(Scheduled, queue), now)]
      modifies this`db, this`issued
      ensures Valid() && queue in old(Queues())
      ensures |due| == DueCount(old(Queues())[queue].scheduled, now)
      ensures var ids := DrawIds(gen, old(issued), |due|);
              && issued == BumpAll(old(issued), ids)
              && Queues() == old(Queues())[queue := PromoteDue(old(Queues())[queue], now, ids)]
    {
      hide QueuesIn, StoreOk, TreeOk, BumpAll, DrawIds, Insert, Has, Remove, PartPromoted, PromoteDue;
      At(queue);
      ghost var q := Queues()[queue];
      ghost var before := Queues();
      assert Sorted(q.scheduled) by { TreesSorted(q.scheduled, Scheduled); }
      StartPromoting(gen, issued, q);
      assert Queues() == before[queue := q];
      var j := 0;
      while j < |due|
        invariant j <= |due| && Valid()
        invariant Queues() == before[queue := PartPromoted(gen, old(issued), q, j)]
        invariant issued == BumpAll(old(issued), DrawIds(gen, old(issued), j))
      {
        At(queue);
        PromoteOneMore(gen, old(issued), q, j);
        var m := due[j].val;
        var newId := GenerateId();
        var key := EncodeKey(m.priority, newId);
        RemoveTreeOk(Tree(Scheduled, queue), Scheduled, due[j].key);
        InsertTreeOk(Tree(Main, queue), Main, key, m);
        var main := Insert(Tree(Main, queue), key, m);
        Write(Scheduled, queue, Remove(Tree(Scheduled, queue), due[j].key));
        Write(Main, queue, main);
        j := j + 1;
      }
      EndPromoting(gen, old(issued), q, now);
    }

    static method CollectExpired(t: Tree<Message>, now: millis, maxAge: i64) returns (keys: seq<Key>)
      ensures keys == ExpiredKeys(t, now, maxAge)
    {
      keys := [];
      for i := 0 to |t|
        invariant keys + ExpiredKeys(t[i..], now, maxAge) == ExpiredKeys(t, now, maxAge)
      {
        var rest := t[i..];
        assert rest[0] == t[i] && rest[1..] == t[i + 1..];
        if Expired(t[i].val, now, maxAge) {
          keys := keys + [t[i].key];
        }
      }
    }

    static method CollectFirst(t: Tree<Message>, excess: nat) returns (keys: seq<Key>)
      requires excess <= |t|
      ensures keys == KeysOf(t[..excess])
    {
      keys := [];
      var count := 0;
      while count < excess
        invariant count <= excess && keys == KeysOf(t[..count])
      {
        keys := keys + [t[count].key];
        count := count + 1;
      }
    }

    /** Removes keys from the main tree, one after the other. */
    method RemoveKeys(queue: Name, keys: seq<Key>)
      requires Valid() && queue in metaTree
      modifies this`db
      ensures Valid() && queue in old(Queues())
      ensures Queues() ==
              old(Queues())[queue := old(Queues())[queue].(main := RemoveAll(old(Queues())[queue].main, keys))]
    {
      hide QueuesIn, StoreOk, TreeOk, Remove, RemoveAll;
      At(queue);
      ghost var before := Queues();
      ghost var q := before[queue];
      assert keys[..0] == [];
      RemoveNone(q.main);
      assert Queues() == before[queue := q.(main := RemoveAll(q.main, keys[..0]))];
      for i := 0 to |keys|
        invariant Valid() && Queues() == before[queue := q.(main := RemoveAll(q.main, keys[..i]))]
      {
        At(queue);
        RemoveTreeOk(Tree(Main, queue), Main, keys[i]);
        Write(Main, queue, Remove(Tree(Main, queue), keys[i]));
        RemoveOneMore(q.main, keys[..i], keys[i]);
        assert keys[..i + 1] == keys[..i] + [keys[i]];
      }
      assert keys[..|keys|] == keys;
    }

    method RemoveExpired(queue: Name, now: millis, maxAge: i64) returns (removed: nat)
      requires Valid() && queue in metaTree
      modifies this`db
      ensures Valid() && queue in old(Queues())
      ensures var q := old(Queues())[queue];
              && Queues() == old(Queues())[queue := q.(main := DropExpired(q.main, now, maxAge))]
              && removed == |q.main| - |DropExpired(q.main, now, maxAge)|
    {
      hide QueuesIn, StoreOk, RemoveAll, DropExpired, ExpiredKeys;
      At(queue);
      ExpiredAreRemoved(Tree(Main, queue), now, maxAge);
      var toRemove := CollectExpired(Tree(Main, queue), now, maxAge);
      RemoveKeys(queue, toRemove);
      removed := |toRemove|;
    }

    method RemoveExcess(queue: Name, max: nat) returns (removed: nat)
      requires Valid() && queue in metaTree
      modifies this`db
      ensures Valid() && queue in old(Queues())
      ensures var q := old(Queues())[queue];
              && Queues() == old(Queues())[queue := q.(main := CutTo(q.main, max))]
              && removed == |q.main| - |CutTo(q.main, max)|
    {
      hide QueuesIn, StoreOk, RemoveAll;
      At(queue);
      removed := 0;
      var current := |Tree(Main, queue)|;
      assert Queues() == old(Queues())[queue := old(Queues())[queue]];
      if current > max {
        var excess := current - max;
        FirstAreRemoved(Tree(Main, queue), excess);
        var toRemove := CollectFirst(Tree(Main, queue), excess);
        RemoveKeys(queue, toRemove);
        removed := |toRemove|;
      }
    }

    method ApplyRetention(queue: Name, now: millis) returns (r: Result<nat, PelicanError>)
      requires Valid()
      modifies this`db, this`currentBytes
      ensures Valid()
      ensures (Model(), r) == Engine.ApplyRetention(old(Model()), queue, now)
    {
      hide QueuesIn, StoreOk, TreeOk, DropExpired, Total, Recount;
      Declared();
      if queue !in metaTree {
        return Err(QueueNotFound(queue));
      }
      At(queue);
      var policy := PolicyOf(retentionTree, queue);
      ghost var q := Queues()[queue];
      assert Queues() == old(Queues())[queue := q];
      if policy.maxAgeSecs.None? && policy.maxMessages.None? {
        return Ok(0);
      }
      var removed: nat := 0;
      if policy.maxAgeSecs.Some? {
        removed := RemoveExpired(queue, now, MillisOf(policy.maxAgeSecs.value));
      }
      ghost var young := if policy.maxAgeSecs.Some? then DropExpired(q.main, now,
          MillisOf(policy.maxAgeSecs.value)) else q.main;
      assert Queues() == old(Queues())[queue := q.(main := young)] && removed == |q.main| - |young|;
      if policy.maxMessages.Some? {
        var more := RemoveExcess(queue, policy.maxMessages.value);
        removed := removed + more;
      }
      assert Queues() == old(Queues())[queue := q.(main := Retained(q, now))];
      if removed > 0 {
        currentBytes := RecalculateBytes();
      }
      r := Ok(removed);
    }

    /** Inserts messages into the main or the dead-letter tree of a queue, each under a new id. */
    method InsertEach(k: Kind, n: Name, ms: seq<Message>) returns (ids: seq<u64>)
      requires Valid() && n in metaTree && (k == Main || k == Dlq)
      modifies this`db, this`issued
      ensures Valid() && n in old(Queues())
      ensures ids == DrawIds(gen, old(issued), |ms|) && issued == BumpAll(old(issued), ids)
      ensures Queues() ==
              old(Queues())[n := WithTree(old(Queues())[n], k, InsertAll(TreeOf(old(Queues())[n], k), ms, ids))]
    {
      hide QueuesIn, StoreOk, TreeOk, BumpAll, DrawIds, Insert, InsertAll;
      At(n);
      ghost var before := Queues();
      ghost var t := TreeOf(before[n], k);
      NothingInserted(gen, issued, t);
      assert ms[..0] == [] && before == before[n := WithTree(before[n], k, t)];
      ids := [];
      for i := 0 to |ms|
        invariant Valid() && ids == DrawIds(gen, old(issued), i) && issued == BumpAll(old(issued), ids)
        invariant Queues() == before[n := WithTree(before[n], k, InsertAll(t, ms[..i], ids))]
      {
        At(n);
        DrawOneMore(gen, old(issued), i);
        var newId := GenerateId();
        var key := EncodeKey(ms[i].priority, newId);
        InsertTreeOk(Tree(k, n), k, key, ms[i]);
        InsertOneMore(t, ms[..i], ids, ms[i], newId);
        Write(k, n, Insert(Tree(k, n), key, ms[i]));
        ids := ids + [newId];
        assert ms[..i + 1] == ms[..i] + [ms[i]];
      }
      assert ms[..|ms|] == ms;
    }

    /** Puts every in-flight message of a queue back under a new id, then empties the in-flight tree. */
    method RecoverQueue(n: Name) returns (ids: seq<u64>)
      requires Valid() && n in metaTree
      modifies this`db, this`issued
      ensures Valid() && n in old(Queues())
      ensures ids == DrawIds(gen, old(issued), |old(Queues())[n].inflight|) && issued == BumpAll(old(issued), ids)
      ensures Queues() == old(Queues())[n := Recover(old(Queues())[n], ids)]
    {
      hide QueuesIn, StoreOk, TreeOk, BumpAll, DrawIds, Insert, InsertAll, Has, Remove;
      At(n);
      var entries := Tree(Inflight, n);
      assert Sorted(entries) by { TreesSorted(entries, Inflight); }
      ghost var before := Queues();
      ids := InsertEach(Main, n, Values(entries));
      ghost var q := WithTree(before[n], Main, InsertAll(before[n].main, Values(entries), ids));
      assert entries[0..] == entries;
      for j := 0 to |entries|
        invariant Valid() && issued == BumpAll(old(issued), ids)
        invariant Queues() == before[n := q.(inflight := entries[j..])]
      {
        At(n);
        EraseOneMore(entries, j);
        RemoveTreeOk(Tree(Inflight, n), Inflight, entries[j].key);
        Write(Inflight, n, Remove(Tree(Inflight, n), entries[j].key));
      }
    }

    method RecoverInflight() returns (drawn: map<Name, seq<u64>>)
      requires Valid()
      modifies this`db, this`issued
      ensures Valid() && drawn.Keys == old(Queues()).Keys
      ensures forall n | n in drawn ::
                && |drawn[n]| == |old(Queues())[n].inflight|
                && DrawnSince(gen, drawn[n], old(issued), issued)
      ensures old(issued) <= issued && AllInTurn(gen, drawn, old(issued), issued)
      ensures Queues() == Recovered(old(Queues()), drawn)
    {
      hide QueuesIn, StoreOk, TreeOk, BumpAll, DrawIds, Recover, Recovered, AllInTurn;
      Declared();
      ghost var before := Queues();
      drawn := map[];
      var todo := metaTree;
      NoneRecovered(before);
      NoneInTurn(gen, old(issued), issued);
      while todo != {}
        invariant Valid() && todo <= metaTree && drawn.Keys == metaTree - todo && old(issued) <= issued
        invariant forall n | n in drawn ::
                    |drawn[n]| == |before[n].inflight| && DrawnSince(gen, drawn[n], old(issued), issued)
        invariant AllInTurn(gen, drawn, old(issued), issued) && Queues() == Recovered(before, drawn)
        decreases todo
      {
        var n :| n in todo;
        RecoverOneQueue(before, drawn, n);
        ghost var start := issued;
        var ids := RecoverQueue(n);
        BumpAllBounds(start, ids);
        StillInTurn(gen, drawn, old(issued), start, issued, n, ids);
        StillDrawn(gen, drawn, old(issued), start, issued);
        drawn := drawn[n := ids];
        todo := todo - {n};
      }
    }

    /** Opens a database that already holds queues: recount, then recover. */
    method Reopen(limit: Option<nat>) returns (drawn: map<Name, seq<u64>>)
      requires Valid()
      modifies this
      ensures Valid() && drawn.Keys == old(Queues()).Keys && old(issued) <= issued
      ensures forall n | n in drawn ::
                && |drawn[n]| == |old(Queues())[n].inflight|
                && DrawnSince(gen, drawn[n], old(issued), issued)
      ensures AllInTurn(gen, drawn, old(issued), issued)
      ensures Model() == Engine.Reopen(old(Model()), limit, drawn, issued)
    {
      hide QueuesIn, StoreOk, Total, AllInTurn;
      maxBytes := limit;
      currentBytes := RecalculateBytes();
      drawn := RecoverInflight();
    }

    // ----- Snapshots -----

    static method CollectValues(t: Tree<Message>) returns (ms: seq<Message>)
      ensures ms == Values(t)
    {
      ms := [];
      for i := 0 to |t|
        invariant ms == Values(t[..i])
      {
        ms := ms + [t[i].val];
      }
      assert t[..|t|] == t;
    }

    static method CollectTagged(t: Tree<Message>) returns (ts: seq<(u64, Message)>)
      requires TreeOk(t, Inflight)
      ensures ts == Tagged(t)
    {
      ts := [];
      for i := 0 to |t|
        invariant ts == Tagged(t[..i])
      {
        var tag := FromBe64(t[i].key[..8]);
        assert t[i].key[..8] == t[i].key;
        ts := ts + [(tag, t[i].val)];
      }
      assert t[..|t|] == t;
    }

    method ExportSnapshot() returns (snap: Snapshot)
      requires Valid()
      ensures snap == Export(Model())
    {
      hide QueuesIn, StoreOk, TreeOk;
      Declared();
      snap := map[];
      var todo := metaTree;
      while todo != {}
        invariant todo <= metaTree && snap == PartExported(Queues(), todo)
        decreases todo
      {
        var n :| n in todo;
        At(n);
        var messages := CollectValues(Tree(Main, n));
        var scheduled := CollectValues(Tree(Scheduled, n));
        var inflight := CollectTagged(Tree(Inflight, n));
        var deadLetter := CollectValues(Tree(Dlq, n));
        snap := snap[n := QueueSnapshot(PolicyOf(retentionTree, n), messages, scheduled, inflight, deadLetter)];
        ExportOneMore(Queues(), todo, n);
        todo := todo - {n};
      }
    }

    /** Declares a queue of the snapshot, or gives an existing one its policy. */
    method OpenForRestore(n: Name, policy: RetentionPolicy)
      requires Valid() && CleanNames(metaTree + {n})
      modifies this`db, this`metaTree, this`retentionTree
      ensures Valid() && metaTree == old(metaTree) + {n}
      ensures Queues() == old(Queues())[n :=
                (if n in old(Queues()) then old(Queues())[n] else EmptyQueue(DEFAULT_POLICY)).(policy := policy)]
    {
      hide QueuesIn, StoreOk;
      Declared();
      if n in metaTree {
        OldQueue(db, metaTree, retentionTree, n, policy);
        assert metaTree + {n} == metaTree;
      } else {
        NewQueue(db, metaTree, retentionTree, n, policy);
      }
      metaTree := metaTree + {n};
      retentionTree := retentionTree[n := policy];
      db := Create(db, Main, n);
      db := Create(db, Inflight, n);
      db := Create(db, Dlq, n);
      db := Create(db, Scheduled, n);
      db := Create(db, Dedup, n);
    }

    method ScheduleEach(n: Name, ms: seq<Message>, clock: seq<millis>) returns (ids: seq<u64>)
      requires Valid() && n in metaTree && |clock| == |ms|
      modifies this`db, this`issued
      ensures Valid() && n in old(Queues())
      ensures ids == DrawIds(gen, old(issued), |ms|) && issued == BumpAll(old(issued), ids)
      ensures Queues() == old(Queues())[n :=
                old(Queues())[n].(scheduled := ScheduleAll(old(Queues())[n].scheduled, ms, ids, clock))]
    {
      hide QueuesIn, StoreOk, TreeOk, BumpAll, DrawIds, Insert, ScheduleAll;
      At(n);
      ghost var before := Queues();
      ghost var t := before[n].scheduled;
      NothingScheduled(gen, issued, t);
      assert ms[..0] == [] && clock[..0] == [] && before == before[n := before[n]];
      ids := [];
      for i := 0 to |ms|
        invariant Valid() && ids == DrawIds(gen, old(issued), i) && issued == BumpAll(old(issued), ids)
        invariant Queues() == before[n := before[n].(scheduled := ScheduleAll(t, ms[..i], ids, clock[..i]))]
      {
        At(n);
        DrawOneMore(gen, old(issued), i);
        var newId := GenerateId();
        var key := EncodeScheduledKey(SlotTime(ms[i], clock[i]), newId);
        InsertTreeOk(Tree(Scheduled, n), Scheduled, key, ms[i]);
        ScheduleAllOneMore(t, ms[..i], ids, clock[..i], ms[i], newId, clock[i]);
        Write(Scheduled, n, Insert(Tree(Scheduled, n), key, ms[i]));
        ids := ids + [newId];
        assert ms[..i + 1] == ms[..i] + [ms[i]] && clock[..i + 1] == clock[..i] + [clock[i]];
      }
      assert ms[..|ms|] == ms && clock[..|ms|] == clock;
    }

    /** Puts in-flight messages back under the tags they had. */
    method PutEach(n: Name, ts: seq<(u64, Message)>)
      requires Valid() && n in metaTree
      modifies this`db
      ensures Valid() && n in old(Queues())
      ensures Queues() == old(Queues())[n := old(Queues())[n].(inflight := PutAll(old(Queues())[n].inflight, ts))]
    {
      hide QueuesIn, StoreOk, TreeOk, Insert, PutAll;
      At(n);
      ghost var before := Queues();
      ghost var t := before[n].inflight;
      NothingPut(t);
      assert ts[..0] == [] && before == before[n := before[n]];
      for i := 0 to |ts|
        invariant Valid() && Queues() == before[n := before[n].(inflight := PutAll(t, ts[..i]))]
      {
        At(n);
        InsertTreeOk(Tree(Inflight, n), Inflight, Be64(ts[i].0), ts[i].1);
        PutAllOneMore(t, ts[..i], ts[i]);
        Write(Inflight, n, Insert(Tree(Inflight, n), Be64(ts[i].0), ts[i].1));
        assert ts[..i + 1] == ts[..i] + [ts[i]];
      }
      assert ts[..|ts|] == ts;
    }

    method RestoreOne(n: Name, snap: QueueSnapshot, clock: seq<millis>) returns (d: Draws)
      requires Valid() && CleanNames(metaTree + {n}) && |clock| == |snap.scheduled|
      modifies this`db, this`metaTree, this`retentionTree, this`issued
      ensures Valid() && metaTree == old(metaTree) + {n}
      ensures Fits(snap, d) && d.clock == clock && old(issued) <= issued && DrawsSince(gen, d, old(issued), issued)
      ensures Queues() == old(Queues())[n := RestoreQueue(
                if n in old(Queues()) then old(Queues())[n] else EmptyQueue(DEFAULT_POLICY), snap, d)]
    {
      hide QueuesIn, StoreOk, BumpAll, DrawIds, InsertAll, ScheduleAll, PutAll, CleanNames;
      OpenForRestore(n, snap.policy);
      ghost var start := issued;
      var main := InsertEach(Main, n, snap.messages);
      BumpAllBounds(start, main);
      ghost var afterMain := issued;
      var scheduled := ScheduleEach(n, snap.scheduled, clock);
      BumpAllBounds(afterMain, scheduled);
      ghost var afterScheduled := issued;
      PutEach(n, snap.inflight);
      var dlq := InsertEach(Dlq, n, snap.deadLetter);
      BumpAllBounds(afterScheduled, dlq);
      d := Draws(main, scheduled, dlq, clock);
      DrawsInTurn(gen, d, start, afterMain, afterScheduled, issued);
    }

    /** Writes a snapshot into this manager.  The names of both must be told apart by the trees they use. */
    method RestoreFromSnapshot(snap: Snapshot, clocks: map<Name, seq<millis>>) returns (draws: map<Name, Draws>)
      requires Valid() && CleanNames(metaTree + snap.Keys)
      requires forall n | n in snap :: n in clocks && |clocks[n]| == |snap[n].scheduled|
      modifies this
      ensures Valid() && draws.Keys == snap.Keys
      ensures forall n | n in snap :: Fits(snap[n], draws[n]) && DrawsSince(gen, draws[n], old(issued), issued)
      ensures Model() == Restore(old(Model()), snap, draws, issued)
    {
      hide QueuesIn, StoreOk, RestoreQueue, PartRestored, RestoredQueues, Total, CleanNames, DrawsSince;
      ghost var before := Queues();
      ghost var model := Model();
      draws := map[];
      var todo := snap.Keys;
      NoneRestored(before, snap);
      while todo != {}
        invariant todo <= snap.Keys && draws.Keys == snap.Keys - todo
        invariant Valid() && metaTree == old(metaTree) + (snap.Keys - todo)
        invariant old(issued) <= issued && maxBytes == old(maxBytes) && currentBytes == old(currentBytes)
        invariant forall n | n in draws :: Fits(snap[n], draws[n]) && DrawsSince(gen, draws[n], old(issued), issued)
        invariant Queues() == PartRestored(before, snap, draws)
        decreases todo
      {
        var n :| n in todo;
        CleanSubset(old(metaTree) + snap.Keys, metaTree + {n});
        ghost var start := issued;
        RestoreOneMore(before, snap, draws, n);
        var d := RestoreOne(n, snap[n], clocks[n]);
        StillDrawnAll(gen, draws, old(issued), start, issued);
        DrawsSinceEarlier(gen, d, old(issued), start, issued);
        draws := draws[n := d];
        todo := todo - {n};
      }
      AllRestored(model, snap, draws);
      currentBytes := RecalculateBytes();
    }
  }

  // ----- Snapshots, step by step -----

  function PartExported(queues: map<Name, QueueState>, todo: set<Name>): Snapshot {
    map n | n in queues && n !in todo :: ExportQueue(queues[n])
  }

  lemma ExportOneMore(queues: map<Name, QueueState>, todo: set<Name>, n: Name)
    requires n in todo && n in queues
    ensures PartExported(queues, todo - {n}) == PartExported(queues, todo)[n := ExportQueue(queues[n])]
  {
  }

  lemma NothingScheduled(gen: nat -> u64, issued: nat, t: Tree<Message>)
    ensures DrawIds(gen, issued, 0) == [] && BumpAll(issued, []) == issued && ScheduleAll(t, [], [], []) == t
  {
  }

  lemma {:induction false} ScheduleAllOneMore(
      t: Tree<Message>, ms: seq<Message>, ids: seq<u64>, clock: seq<millis>, m: Message, id: u64, now: millis)
    requires |ids| == |ms| == |clock|
    ensures ScheduleAll(t, ms + [m], ids + [id], clock + [now]) ==
            Insert(ScheduleAll(t, ms, ids, clock), EncodeScheduledKey(SlotTime(m, now), id), m)
    decreases |ms|
  {
    if ms == [] {
      assert (ms + [m])[1..] == [] && (ids + [id])[1..] == [] && (clock + [now])[1..] == [];
    } else {
      assert (ms + [m])[1..] == ms[1..] + [m] && (ids + [id])[1..] == ids[1..] + [id];
      assert (clock + [now])[1..] == clock[1..] + [now];
      hide Insert, EncodeScheduledKey;
      ScheduleAllOneMore(Insert(t, EncodeScheduledKey(SlotTime(ms[0], clock[0]), ids[0]), ms[0]),
                         ms[1..], ids[1..], clock[1..], m, id, now);
    }
  }

  lemma NothingPut(t: Tree<Message>)
    ensures PutAll(t, []) == t
  {
  }

  lemma {:induction false} PutAllOneMore(t: Tree<Message>, ts: seq<(u64, Message)>, e: (u64, Message))
    ensures PutAll(t, ts + [e]) == Insert(PutAll(t, ts), Be64(e.0), e.1)
    decreases |ts|
  {
    if ts == [] {
      assert (ts + [e])[1..] == [];
    } else {
      assert (ts + [e])[1..] == ts[1..] + [e];
      PutAllOneMore(Insert(t, Be64(ts[0].0), ts[0].1), ts[1..], e);
    }
  }

  /** Each list of ids was drawn one after the other at or after `low`, up to `high`. */
  ghost predicate DrawsSince(gen: nat -> u64, d: Draws, low: nat, high: nat) {
    DrawnSince(gen, d.main, low, high) && DrawnSince(gen, d.scheduled, low, high) && DrawnSince(gen, d.dlq, low, high)
  }

  lemma DrawsInTurn(gen: nat -> u64, d: Draws, a: nat, b: nat, c: nat, e: nat)
    requires a <= b <= c <= e
    requires d.main == DrawIds(gen, a, |d.main|) && b == BumpAll(a, d.main)
    requires d.scheduled == DrawIds(gen, b, |d.scheduled|) && c == BumpAll(b, d.scheduled)
    requires d.dlq == DrawIds(gen, c, |d.dlq|) && e == BumpAll(c, d.dlq)
    ensures DrawsSince(gen, d, a, e)
  {
    hide BumpAll, DrawIds;
  }

  lemma DrawsSinceEarlier(gen: nat -> u64, d: Draws, lower: nat, low: nat, high: nat)
    requires lower <= low && DrawsSince(gen, d, low, high)
    ensures DrawsSince(gen, d, lower, high)
  {
  }

  lemma StillDrawnAll(gen: nat -> u64, draws: map<Name, Draws>, low: nat, high: nat, higher: nat)
    requires high <= higher && forall n | n in draws :: DrawsSince(gen, draws[n], low, high)
    ensures forall n | n in draws :: DrawsSince(gen, draws[n], low, higher)
  {
    forall n | n in draws
      ensures DrawsSince(gen, draws[n], low, higher)
    {
      assert DrawsSince(gen, draws[n], low, high);
    }
  }

  lemma CleanSubset(names: set<Name>, fewer: set<Name>)
    requires CleanNames(names) && fewer <= names
    ensures CleanNames(fewer)
  {
  }

  ghost function PartRestored(queues: map<Name, QueueState>, snap: Snapshot, draws: map<Name, Draws>)
    : map<Name, QueueState>
  {
    map n | n in queues.Keys + (draws.Keys * snap.Keys) ::
      if n in draws && n in snap && Fits(snap[n], draws[n])
      then RestoreQueue(if n in queues then queues[n] else EmptyQueue(DEFAULT_POLICY), snap[n], draws[n])
      else if n in queues then queues[n] else EmptyQueue(DEFAULT_POLICY)
  }

  lemma NoneRestored(queues: map<Name, QueueState>, snap: Snapshot)
    ensures PartRestored(queues, snap, map[]) == queues
  {
  }

  lemma RestoreOneMore(queues: map<Name, QueueState>, snap: Snapshot, draws: map<Name, Draws>, n: Name)
    requires n in snap && n !in draws
    ensures n in PartRestored(queues, snap, draws) <==> n in queues
    ensures n in queues ==> PartRestored(queues, snap, draws)[n] == queues[n]
    ensures forall d | Fits(snap[n], d) ::
              PartRestored(queues, snap, draws[n := d]) ==
              PartRestored(queues, snap, draws)[n :=
                RestoreQueue(if n in queues then queues[n] else EmptyQueue(DEFAULT_POLICY), snap[n], d)]
  {
    hide RestoreQueue, Fits;
    forall d | Fits(snap[n], d)
      ensures PartRestored(queues, snap, draws[n := d]) ==
              PartRestored(queues, snap, draws)[n :=
                RestoreQueue(if n in queues then queues[n] else EmptyQueue(DEFAULT_POLICY), snap[n], d)]
    {
      SameMap(PartRestored(queues, snap, draws[n := d]),
              PartRestored(queues, snap, draws)[n :=
                RestoreQueue(if n in queues then queues[n] else EmptyQueue(DEFAULT_POLICY), snap[n], d)]);
    }
  }

  lemma AllRestored(s: Manager, snap: Snapshot, draws: map<Name, Draws>)
    requires draws.Keys == snap.Keys && forall n | n in snap :: Fits(snap[n], draws[n])
    ensures PartRestored(s.queues, snap, draws) == RestoredQueues(s, snap, draws)
  {
    hide RestoreQueue, Fits;
    SameMap(PartRestored(s.queues, snap, draws), RestoredQueues(s, snap, draws));
  }

  // ----- Recovery, step by step -----

  /** The ids were drawn one after the other from some position at or after `low`, up to `high`. */
  ghost predicate DrawnSince(gen: nat -> u64, ids: seq<u64>, low: nat, high: nat) {
    exists base: nat :: low <= base && ids == DrawIds(gen, base, |ids|) && BumpAll(base, ids) <= high
  }

  /** Ids drawn before the generator is exhausted are fresh, ascending and below the new mark. */
  lemma DrawnIsFresh(gen: nat -> u64, ids: seq<u64>, low: nat, high: nat)
    requires Ascending(gen) && DrawnSince(gen, ids, low, high) && high < TWO_64
    ensures AscendingFrom(ids, low) && forall i | 0 <= i < |ids| :: ids[i] < high
  {
    var base: nat :| low <= base && ids == DrawIds(gen, base, |ids|) && BumpAll(base, ids) <= high;
    if |ids| > 0 { DrawOneMore(gen, base, |ids| - 1); }
    hide DrawIds, BumpAll;
    BumpAllBounds(base, ids);
    DrawnIdsAreFresh(gen, base, |ids|);
  }

  /** The ids of one list were all drawn before those of the other. */
  ghost predicate InTurn(gen: nat -> u64, a: seq<u64>, b: seq<u64>, low: nat, high: nat) {
    exists mid: nat :: mid <= high && DrawnSince(gen, a, low, mid) && DrawnSince(gen, b, mid, high)
  }

  /** The queues drew one after the other. */
  ghost predicate AllInTurn(gen: nat -> u64, drawn: map<Name, seq<u64>>, low: nat, high: nat) {
    forall n, m | n in drawn && m in drawn && n != m ::
      InTurn(gen, drawn[n], drawn[m], low, high) || InTurn(gen, drawn[m], drawn[n], low, high)
  }

  lemma NoneInTurn(gen: nat -> u64, low: nat, high: nat)
    ensures AllInTurn(gen, map[], low, high)
  {
  }

  lemma InTurnLonger(gen: nat -> u64, a: seq<u64>, b: seq<u64>, low: nat, high: nat, higher: nat)
    requires InTurn(gen, a, b, low, high) && high <= higher
    ensures InTurn(gen, a, b, low, higher)
  {
    var mid: nat :| mid <= high && DrawnSince(gen, a, low, mid) && DrawnSince(gen, b, mid, high);
    assert DrawnSince(gen, b, mid, higher);
  }

  /** One more queue draws. */
  lemma StillInTurn(gen: nat -> u64, drawn: map<Name, seq<u64>>, low: nat, high: nat, higher: nat, n: Name,
                    ids: seq<u64>)
    requires AllInTurn(gen, drawn, low, high) && high <= higher && n !in drawn && DrawnSince(gen, ids, high, higher)
    requires forall m | m in drawn :: DrawnSince(gen, drawn[m], low, high)
    ensures AllInTurn(gen, drawn[n := ids], low, higher)
  {
    hide DrawnSince;
    var drawn' := drawn[n := ids];
    forall a, b | a in drawn' && b in drawn' && a != b
      ensures InTurn(gen, drawn'[a], drawn'[b], low, higher) || InTurn(gen, drawn'[b], drawn'[a], low, higher)
    {
      if a != n && b != n {
        if InTurn(gen, drawn[a], drawn[b], low, high) { InTurnLonger(gen, drawn[a], drawn[b], low, high, higher); }
        if InTurn(gen, drawn[b], drawn[a], low, high) { InTurnLonger(gen, drawn[b], drawn[a], low, high, higher); }
      }
    }
  }

  lemma EarlierShareNone(gen: nat -> u64, a: seq<u64>, b: seq<u64>, low: nat, high: nat)
    requires Ascending(gen) && InTurn(gen, a, b, low, high) && high < TWO_64
    ensures NoneShared(a, b) && NoneShared(b, a)
  {
    hide DrawnSince, Ascending;
    var mid: nat :| mid <= high && DrawnSince(gen, a, low, mid) && DrawnSince(gen, b, mid, high);
    DrawnIsFresh(gen, a, low, mid);
    DrawnIsFresh(gen, b, mid, high);
  }

  lemma InTurnIsApart(gen: nat -> u64, drawn: map<Name, seq<u64>>, low: nat, high: nat)
    requires Ascending(gen) && AllInTurn(gen, drawn, low, high) && high < TWO_64
    ensures DrawnApart(drawn)
  {
    hide InTurn, NoneShared, Ascending;
    forall n, m | n in drawn && m in drawn && n != m
      ensures NoneShared(drawn[n], drawn[m])
    {
      if InTurn(gen, drawn[n], drawn[m], low, high) { EarlierShareNone(gen, drawn[n], drawn[m], low, high); }
      if InTurn(gen, drawn[m], drawn[n], low, high) { EarlierShareNone(gen, drawn[m], drawn[n], low, high); }
    }
  }

  /** The ids a restart draws make it an admissible step of a run. */
  lemma ReopenIsAdmissible(gen: nat -> u64, s: Manager, limit: Option<nat>, drawn: map<Name, seq<u64>>, issued: nat)
    requires Ascending(gen) && s.issued <= issued < TWO_64 && drawn.Keys == s.queues.Keys
    requires forall n | n in drawn ::
               |drawn[n]| == |s.queues[n].inflight| && DrawnSince(gen, drawn[n], s.issued, issued)
    requires AllInTurn(gen, drawn, s.issued, issued)
    ensures Admissible(s, Reopening(limit, drawn, issued))
  {
    hide DrawnSince, DrawnApart, AllInTurn, Ascending;
    InTurnIsApart(gen, drawn, s.issued, issued);
    forall n | n in drawn
      ensures AscendingFrom(drawn[n], s.issued) && forall i | 0 <= i < |drawn[n]| :: drawn[n][i] < issued
    {
      DrawnIsFresh(gen, drawn[n], s.issued, issued);
    }
  }

  /** The ids a restore draws are what the snapshot theorems ask for. */
  lemma RestoreDrawsFresh(gen: nat -> u64, d: Draws, low: nat, high: nat)
    requires Ascending(gen) && DrawsSince(gen, d, low, high) && low <= high < TWO_64
    ensures DrawsBetween(d, low, high)
  {
    hide DrawnSince;
    DrawnIsFresh(gen, d.main, low, high);
    DrawnIsFresh(gen, d.scheduled, low, high);
    DrawnIsFresh(gen, d.dlq, low, high);
  }

  lemma StillDrawn(gen: nat -> u64, drawn: map<Name, seq<u64>>, low: nat, high: nat, higher: nat)
    requires high <= higher && forall n | n in drawn :: DrawnSince(gen, drawn[n], low, high)
    ensures forall n | n in drawn :: DrawnSince(gen, drawn[n], low, higher)
  {
    forall n | n in drawn
      ensures DrawnSince(gen, drawn[n], low, higher)
    {
      assert DrawnSince(gen, drawn[n], low, high);
    }
  }

  function TreeOf(q: QueueState, k: Kind): Tree<Message> {
    match k
    case Main => q.main
    case Inflight => q.inflight
    case Scheduled => q.scheduled
    case Dlq => q.dlq
    case Dedup => []
  }

  lemma NothingInserted(gen: nat -> u64, issued: nat, t: Tree<Message>)
    ensures DrawIds(gen, issued, 0) == [] && BumpAll(issued, []) == issued && InsertAll(t, [], []) == t
  {
  }

  lemma EraseOneMore(entries: Tree<Message>, j: nat)
    requires Sorted(entries) && j < |entries|
    ensures Remove(entries[j..], entries[j].key) == entries[j + 1..]
  {
    var rest := entries[j..];
    RankAt(rest, 0);
    assert Remove(rest, rest[0].key) == rest[1..];
  }

  /** The queues after those with drawn ids were recovered. */
  ghost function Recovered(queues: map<Name, QueueState>, drawn: map<Name, seq<u64>>): map<Name, QueueState> {
    map n | n in queues ::
      if n in drawn && |drawn[n]| == |queues[n].inflight| then Recover(queues[n], drawn[n]) else queues[n]
  }

  lemma NoneRecovered(queues: map<Name, QueueState>)
    ensures Recovered(queues, map[]) == queues
  {
  }

  lemma RecoverOneQueue(queues: map<Name, QueueState>, drawn: map<Name, seq<u64>>, n: Name)
    requires n in queues && n !in drawn
    ensures n in Recovered(queues, drawn) && Recovered(queues, drawn)[n] == queues[n]
    ensures forall ids | |ids| == |queues[n].inflight| ::
              Recovered(queues, drawn[n := ids]) == Recovered(queues, drawn)[n := Recover(queues[n], ids)]
  {
    forall ids | |ids| == |queues[n].inflight|
      ensures Recovered(queues, drawn[n := ids]) == Recovered(queues, drawn)[n := Recover(queues[n], ids)]
    {
      hide Recover;
      SameMap(Recovered(queues, drawn[n := ids]), Recovered(queues, drawn)[n := Recover(queues[n], ids)]);
    }
  }

  // ----- Removing keys one by one -----

  function RemoveAll(t: Tree<Message>, keys: seq<Key>): Tree<Message>
    decreases |keys|
  {
    if keys == [] then t else RemoveAll(Remove(t, keys[0]), keys[1..])
  }

  function KeysOf(t: Tree<Message>): (keys: seq<Key>)
    ensures |keys| == |t|
  {
    seq(|t|, i requires 0 <= i < |t| => t[i].key)
  }

  function ExpiredKeys(t: Tree<Message>, now: millis, maxAge: i64): seq<Key> {
    if t == [] then []
    else (if Expired(t[0].val, now, maxAge) then [t[0].key] else []) + ExpiredKeys(t[1..], now, maxAge)
  }

  function CutTo(t: Tree<Message>, max: nat): (t': Tree<Message>)
    ensures |t'| <= |t|
  {
    if |t| > max then t[|t| - max..] else t
  }

  lemma RemoveNone(t: Tree<Message>)
    ensures RemoveAll(t, []) == t
  {
  }

  lemma {:induction false} RemoveOneMore(t: Tree<Message>, keys: seq<Key>, k: Key)
    ensures RemoveAll(t, keys + [k]) == Remove(RemoveAll(t, keys), k)
    decreases |keys|
  {
    if keys == [] {
      assert (keys + [k])[1..] == [];
    } else {
      assert (keys + [k])[1..] == keys[1..] + [k];
      RemoveOneMore(Remove(t, keys[0]), keys[1..], k);
    }
  }

  lemma RemoveAtSeam(a: Tree<Message>, t: Tree<Message>)
    requires Sorted(a + t) && t != []
    ensures Remove(a + t, t[0].key) == a + t[1..] && Sorted(a + t[1..])
  {
    assert (a + t)[|a|] == t[0];
    RankAt(a + t, |a|);
    RemoveSorted(a + t, t[0].key);
  }

  lemma RemoveFirst(t: Tree<Message>, k: Key, keys: seq<Key>)
    ensures RemoveAll(t, [k] + keys) == RemoveAll(Remove(t, k), keys)
  {
    assert ([k] + keys)[1..] == keys;
  }

  lemma PeelExpired(t: Tree<Message>, now: millis, maxAge: i64)
    requires t != []
    ensures ExpiredKeys(t, now, maxAge) ==
            (if Expired(t[0].val, now, maxAge) then [t[0].key] else []) + ExpiredKeys(t[1..], now, maxAge)
    ensures DropExpired(t, now, maxAge) ==
            (if Expired(t[0].val, now, maxAge) then [] else [t[0]]) + DropExpired(t[1..], now, maxAge)
  {
  }

  /** Removing the expired keys, wherever they stand, leaves the entries that are not expired. */
  lemma {:induction false} ExpiredAreRemovedBehind(a: Tree<Message>, t: Tree<Message>, now: millis, maxAge: i64)
    requires Sorted(a + t)
    ensures RemoveAll(a + t, ExpiredKeys(t, now, maxAge)) == a + DropExpired(t, now, maxAge)
    ensures |ExpiredKeys(t, now, maxAge)| == |t| - |DropExpired(t, now, maxAge)|
    decreases |t|
  {
    hide Remove, Expired, Sorted;
    if t == [] {
      assert a + t == a + DropExpired(t, now, maxAge);
    } else {
      hide ExpiredKeys, DropExpired, RemoveAll;
      PeelExpired(t, now, maxAge);
      var keys, kept := ExpiredKeys(t[1..], now, maxAge), DropExpired(t[1..], now, maxAge);
      if Expired(t[0].val, now, maxAge) {
        RemoveAtSeam(a, t);
        RemoveFirst(a + t, t[0].key, keys);
        ExpiredAreRemovedBehind(a, t[1..], now, maxAge);
        assert [] + kept == kept;
      } else {
        assert a + t == (a + [t[0]]) + t[1..];
        ExpiredAreRemovedBehind(a + [t[0]], t[1..], now, maxAge);
        assert [] + keys == keys;
        assert a + ([t[0]] + kept) == (a + [t[0]]) + kept;
      }
    }
  }

  lemma ExpiredAreRemoved(t: Tree<Message>, now: millis, maxAge: i64)
    requires Sorted(t)
    ensures RemoveAll(t, ExpiredKeys(t, now, maxAge)) == DropExpired(t, now, maxAge)
    ensures |ExpiredKeys(t, now, maxAge)| == |t| - |DropExpired(t, now, maxAge)|
  {
    assert [] + t == t && [] + DropExpired(t, now, maxAge) == DropExpired(t, now, maxAge);
    ExpiredAreRemovedBehind([], t, now, maxAge);
  }

  lemma {:induction false} FirstAreRemoved(t: Tree<Message>, n: nat)
    requires Sorted(t) && n <= |t|
    ensures RemoveAll(t, KeysOf(t[..n])) == t[n..]
    decreases n
  {
    hide Remove, Sorted;
    if n == 0 {
      assert t[..0] == [] && t[0..] == t;
    } else {
      var rest := t[1..];
      PeelKeys(t, n);
      hide RemoveAll, KeysOf;
      assert [] + t == t && [] + rest == rest;
      RemoveAtSeam([], t);
      RemoveFirst(t, t[0].key, KeysOf(rest[..n - 1]));
      FirstAreRemoved(rest, n - 1);
      assert rest[n - 1..] == t[n..];
    }
  }

  lemma PeelKeys(t: Tree<Message>, n: nat)
    requires 0 < n <= |t|
    ensures KeysOf(t[..n]) == [t[0].key] + KeysOf(t[1..][..n - 1])
  {
    assert t[..n][1..] == t[1..][..n - 1];
  }

  /** The queue after the first `j` scheduled messages were moved under ids drawn from position `issued`. */
  function PartPromoted(gen: nat -> u64, issued: nat, q: QueueState, j: nat): QueueState {
    if j <= |q.scheduled| then
      q.(main := InsertAll(q.main, Values(q.scheduled[..j]), DrawIds(gen, issued, j)), scheduled := q.scheduled[j..])
    else q
  }

  lemma StartPromoting(gen: nat -> u64, issued: nat, q: QueueState)
    ensures PartPromoted(gen, issued, q, 0) == q
    ensures BumpAll(issued, DrawIds(gen, issued, 0)) == issued
  {
    assert q.scheduled[..0] == [] && q.scheduled[0..] == q.scheduled;
  }

  lemma EndPromoting(gen: nat -> u64, issued: nat, q: QueueState, now: millis)
    ensures var n := DueCount(q.scheduled, now);
            PartPromoted(gen, issued, q, n) == PromoteDue(q, now, DrawIds(gen, issued, n))
  {
  }

  lemma TreesSorted(t: Tree<Message>, k: Kind)
    requires TreeOk(t, k)
    ensures Sorted(t)
  {
  }

  lemma PromoteOneMore(gen: nat -> u64, issued: nat, q: QueueState, j: nat)
    requires j < |q.scheduled| && Sorted(q.scheduled)
    ensures var q' := PartPromoted(gen, issued, q, j);
            var drawn := BumpAll(issued, DrawIds(gen, issued, j));
            var m := q.scheduled[j].val;
            && PartPromoted(gen, issued, q, j + 1) ==
               q'.(main := Insert(q'.main, EncodeKey(m.priority, gen(drawn)), m),
                   scheduled := Remove(q'.scheduled, q.scheduled[j].key))
            && BumpAll(issued, DrawIds(gen, issued, j + 1)) == Bump(drawn, gen(drawn))
  {
    var drawn := BumpAll(issued, DrawIds(gen, issued, j));
    DrawOneMore(gen, issued, j);
    var rest := q.scheduled[j..];
    RankAt(rest, 0);
    assert Remove(rest, rest[0].key) == rest[1..] == q.scheduled[j + 1..];
    assert q.scheduled[..j + 1] == q.scheduled[..j] + [q.scheduled[j]];
    ValuesConcat(q.scheduled[..j], [q.scheduled[j]]);
    assert Values([q.scheduled[j]]) == [q.scheduled[j].val];
    InsertOneMore(q.main, Values(q.scheduled[..j]), DrawIds(gen, issued, j), q.scheduled[j].val, gen(drawn));
  }

  lemma AddQueue(queues: map<Name, QueueState>, todo: set<Name>, n: Name)
    requires n in todo && n in queues
    ensures Recount(queues - (todo - {n})) == Recount(queues - todo) + QueueBytes(queues[n])
  {
    assert queues - (todo - {n}) == (queues - todo)[n := queues[n]];
    TotalUpdate(queues - todo, QueueBytes, n, queues[n]);
    assert (queues - todo) - {n} == queues - todo;
  }

  lemma InsertTreeOk(t: Tree<Message>, k: Kind, key: Key, m: Message)
    requires TreeOk(t, k) && |key| == WidthOf(k)
    ensures TreeOk(Insert(t, key, m), k)
  {
    InsertSorted(t, key, m);
    forall i | 0 <= i < |Insert(t, key, m)|
      ensures |Insert(t, key, m)[i].key| == WidthOf(k)
    {
      InsertOrigin(t, key, m, i);
    }
  }

  lemma RemoveTreeOk(t: Tree<Message>, k: Kind, key: Key)
    requires TreeOk(t, k)
    ensures TreeOk(Remove(t, key), k)
  {
    RemoveSorted(t, key);
  }
}
