/** The database under the engine: trees found by name.  The five trees of a queue are told apart by a
    prefix of their names, so one queue's tree could be another's if queue names were chosen badly. */
module Storage {
  import opened Bytes
  import opened OrderedTree
  import opened Messages
  import opened Engine

  // ----- Tree names -----

  datatype Kind = Main | Inflight | Dlq | Scheduled | Dedup

  const META_QUEUES := "__meta__queues"
  const META_RETENTION := "__meta__retention"

  const INFLIGHT_PREFIX := "inflight:"
  const DLQ_PREFIX := "dlq:"
  const SCHEDULED_PREFIX := "scheduled:"
  const DEDUP_PREFIX := "dedup:"

  function Prefix(k: Kind): string {
    match k
    case Main => ""
    case Inflight => INFLIGHT_PREFIX
    case Dlq => DLQ_PREFIX
    case Scheduled => SCHEDULED_PREFIX
    case Dedup => DEDUP_PREFIX
  }

  function TreeName(k: Kind, n: Name): string {
    Prefix(k) + n
  }

  /** No declared name is another declared name behind a reserved prefix. */
  ghost predicate NoShadow(names: set<Name>) {
    forall n, n', k: Kind | n in names && n' in names && k != Main :: n != TreeName(k, n')
  }

  ghost predicate TreesApart(names: set<Name>) {
    forall n, n', k, k' | n in names && n' in names && TreeName(k, n) == TreeName(k', n') :: n == n' && k == k'
  }

  lemma PrefixesClash(k: Kind, k': Kind, n: Name, n': Name)
    requires TreeName(k, n) == TreeName(k', n') && k != Main && k' != Main
    ensures k == k' && n == n'
  {
    var t := TreeName(k, n);
    assert t[0] == Prefix(k)[0] == Prefix(k')[0];
    assert t[1] == Prefix(k)[1] == Prefix(k')[1];
    assert t[|Prefix(k)|..] == n && t[|Prefix(k')|..] == n';
  }

  /** The trees of all declared queues have distinct names exactly when no name shadows another. */
  lemma TreesApartIff(names: set<Name>)
    ensures TreesApart(names) <==> NoShadow(names)
  {
    assert forall n :: TreeName(Main, n) == n;
    if NoShadow(names) {
      forall n, n', k, k' | n in names && n' in names && TreeName(k, n) == TreeName(k', n')
        ensures n == n' && k == k'
      {
        if k != Main && k' != Main { PrefixesClash(k, k', n, n'); }
      }
    }
    if TreesApart(names) {
      forall n, n', k: Kind | n in names && n' in names && k != Main
        ensures n != TreeName(k, n')
      {
        assert TreeName(Main, n) == n;
      }
    }
  }

  /** Names without a reserved prefix never shadow. */
  lemma UnreservedNamesAreSafe(names: set<Name>)
    requires forall n, k: Kind | n in names && k != Main :: !(Prefix(k) <= n)
    ensures NoShadow(names)
  {
    forall n, n', k: Kind | n in names && n' in names && k != Main
      ensures n != TreeName(k, n')
    {
      assert Prefix(k) <= TreeName(k, n');
    }
  }

  ghost predicate CleanNames(names: set<Name>) {
    NoShadow(names) && META_QUEUES !in names && META_RETENTION !in names
  }

  /** A name that does shadow: the main tree of one queue is the in-flight tree of the other. */
  lemma ShadowedQueueSharesATree(n: Name)
    ensures TreeName(Main, INFLIGHT_PREFIX + n) == TreeName(Inflight, n)
    ensures !NoShadow({n, INFLIGHT_PREFIX + n})
  {
    var m := INFLIGHT_PREFIX + n;
    assert TreeName(Main, m) == m == TreeName(Inflight, n);
    assert n in {n, m} && m in {n, m};
  }

  // ----- The queues in a database -----

  /** All trees by name.  The trees that hold messages and those that hold recorded times are listed
      apart, each with the values its bytes decode to. */
  datatype Db = Db(messages: map<string, Tree<Message>>, times: map<string, Tree<i64>>)

  function Open(db: Db, name: string): Tree<Message> {
    if name in db.messages then db.messages[name] else []
  }

  function OpenTimes(db: Db, name: string): Tree<i64> {
    if name in db.times then db.times[name] else []
  }

  function WidthOf(k: Kind): nat {
    match k
    case Main => 9
    case Inflight => 8
    case Dlq => 9
    case Scheduled => 16
    case Dedup => 0
  }

  /** The tree is in key order and its keys have the width of their kind. */
  ghost predicate TreeOk(t: Tree<Message>, k: Kind) {
    Sorted(t) && forall i | 0 <= i < |t| :: |t[i].key| == WidthOf(k)
  }

  ghost predicate DbOk(db: Db, names: set<Name>) {
    && (forall n, k | n in names && k != Dedup :: TreeOk(Open(db, TreeName(k, n)), k))
    && (forall n | n in names :: Sorted(OpenTimes(db, TreeName(Dedup, n))))
  }

  /** Every tree of the database is a tree of some declared queue. */
  ghost predicate OwnTreesOnly(db: Db, names: set<Name>) {
    && (forall t | t in db.messages :: exists k, n :: n in names && t == TreeName(k, n))
    && (forall t | t in db.times :: exists k, n :: n in names && t == TreeName(k, n))
  }

  /** A database whose queues are told apart by their names and hold what they should. */
  ghost predicate StoreOk(db: Db, names: set<Name>) {
    CleanNames(names) && DbOk(db, names) && OwnTreesOnly(db, names)
  }

  function PolicyOf(retention: map<Name, RetentionPolicy>, n: Name): RetentionPolicy {
    if n in retention then retention[n] else DEFAULT_POLICY
  }

  function QueueAt(db: Db, retention: map<Name, RetentionPolicy>, n: Name): QueueState {
    QueueState(
      PolicyOf(retention, n),
      Open(db, TreeName(Main, n)),
      Open(db, TreeName(Inflight, n)),
      Open(db, TreeName(Scheduled, n)),
      Open(db, TreeName(Dlq, n)),
      OpenTimes(db, TreeName(Dedup, n)))
  }

  function QueuesIn(db: Db, names: set<Name>, retention: map<Name, RetentionPolicy>): map<Name, QueueState> {
    map n | n in names :: QueueAt(db, retention, n)
  }

  lemma SameMap<K, V>(a: map<K, V>, b: map<K, V>)
    requires a.Keys == b.Keys && forall k | k in a :: a[k] == b[k]
    ensures a == b
  {
  }

  // ----- Writing one tree -----

  function WithTree(q: QueueState, k: Kind, t: Tree<Message>): QueueState {
    match k
    case Main => q.(main := t)
    case Inflight => q.(inflight := t)
    case Scheduled => q.(scheduled := t)
    case Dlq => q.(dlq := t)
    case Dedup => q
  }

  function PutTree(db: Db, k: Kind, n: Name, t: Tree<Message>): Db {
    db.(messages := db.messages[TreeName(k, n) := t])
  }

  function PutTimes(db: Db, n: Name, t: Tree<i64>): Db {
    db.(times := db.times[TreeName(Dedup, n) := t])
  }

  lemma OpenAfterPut(db: Db, names: set<Name>, n: Name, k: Kind, t: Tree<Message>, n': Name, k': Kind)
    requires TreesApart(names) && n in names && n' in names
    ensures Open(PutTree(db, k, n, t), TreeName(k', n')) == if n' == n && k' == k then t else Open(db, TreeName(k', n'))
  {
  }

  lemma QueueAfterPut(db: Db, names: set<Name>, retention: map<Name, RetentionPolicy>, n: Name, k: Kind,
                      t: Tree<Message>, n': Name)
    requires TreesApart(names) && n in names && n' in names && k != Dedup
    ensures QueueAt(PutTree(db, k, n, t), retention, n') ==
            if n' == n then WithTree(QueueAt(db, retention, n), k, t) else QueueAt(db, retention, n')
  {
    OpenAfterPut(db, names, n, k, t, n', Main);
    OpenAfterPut(db, names, n, k, t, n', Inflight);
    OpenAfterPut(db, names, n, k, t, n', Scheduled);
    OpenAfterPut(db, names, n, k, t, n', Dlq);
  }

  lemma StoreAfterPut(db: Db, names: set<Name>, n: Name, k: Kind, t: Tree<Message>)
    requires StoreOk(db, names) && TreesApart(names) && n in names && TreeOk(t, k)
    ensures StoreOk(PutTree(db, k, n, t), names)
  {
    forall n', k' | n' in names && k' != Dedup
      ensures TreeOk(Open(PutTree(db, k, n, t), TreeName(k', n')), k')
    {
      OpenAfterPut(db, names, n, k, t, n', k');
    }
  }

  lemma QueuesAt(db: Db, names: set<Name>, retention: map<Name, RetentionPolicy>, n: Name)
    requires n in names
    ensures n in QueuesIn(db, names, retention) && QueuesIn(db, names, retention)[n] == QueueAt(db, retention, n)
  {
  }

  lemma QueuesAfterPutAt(db: Db, names: set<Name>, retention: map<Name, RetentionPolicy>, n: Name, k: Kind,
                         t: Tree<Message>, n': Name)
    requires TreesApart(names) && n in names && n' in names && k != Dedup
    ensures QueuesIn(PutTree(db, k, n, t), names, retention)[n'] ==
            QueuesIn(db, names, retention)[n := WithTree(QueueAt(db, retention, n), k, t)][n']
  {
    QueueAfterPut(db, names, retention, n, k, t, n');
  }

  lemma QueueNames(db: Db, names: set<Name>, retention: map<Name, RetentionPolicy>)
    ensures QueuesIn(db, names, retention).Keys == names
  {
    hide QueueAt;
  }

  lemma QueuesAfterPut(db: Db, names: set<Name>, retention: map<Name, RetentionPolicy>, n: Name, k: Kind,
                       t: Tree<Message>)
    requires TreesApart(names) && n in names && k != Dedup
    ensures QueuesIn(PutTree(db, k, n, t), names, retention) ==
            QueuesIn(db, names, retention)[n := WithTree(QueueAt(db, retention, n), k, t)]
  {
    QueueNames(db, names, retention);
    QueueNames(PutTree(db, k, n, t), names, retention);
    hide QueuesIn, QueueAt, PutTree, TreesApart, WithTree;
    forall n' | n' in names
      ensures QueuesIn(PutTree(db, k, n, t), names, retention)[n'] ==
              QueuesIn(db, names, retention)[n := WithTree(QueueAt(db, retention, n), k, t)][n']
    {
      QueuesAfterPutAt(db, names, retention, n, k, t, n');
    }
    SameMap(QueuesIn(PutTree(db, k, n, t), names, retention),
            QueuesIn(db, names, retention)[n := WithTree(QueueAt(db, retention, n), k, t)]);
  }

  /** Writing a message tree of one queue changes that tree and nothing else in any queue. */
  lemma PutChangesOneTree(db: Db, names: set<Name>, retention: map<Name, RetentionPolicy>, n: Name, k: Kind,
                          t: Tree<Message>)
    requires StoreOk(db, names) && n in names && TreeOk(t, k) && k != Dedup
    ensures StoreOk(PutTree(db, k, n, t), names) && n in QueuesIn(db, names, retention)
    ensures QueuesIn(PutTree(db, k, n, t), names, retention) ==
            QueuesIn(db, names, retention)[n := WithTree(QueuesIn(db, names, retention)[n], k, t)]
  {
    TreesApartIff(names);
    StoreAfterPut(db, names, n, k, t);
    QueuesAt(db, names, retention, n);
    QueuesAfterPut(db, names, retention, n, k, t);
  }

  lemma QueueAfterTimes(db: Db, names: set<Name>, retention: map<Name, RetentionPolicy>, n: Name, t: Tree<i64>,
                        n': Name)
    requires TreesApart(names) && n in names && n' in names
    ensures QueueAt(PutTimes(db, n, t), retention, n') ==
            if n' == n then QueueAt(db, retention, n).(dedup := t) else QueueAt(db, retention, n')
  {
  }

  lemma StoreAfterTimes(db: Db, names: set<Name>, n: Name, t: Tree<i64>)
    requires StoreOk(db, names) && TreesApart(names) && n in names && Sorted(t)
    ensures StoreOk(PutTimes(db, n, t), names)
  {
  }

  lemma QueuesAfterTimesAt(db: Db, names: set<Name>, retention: map<Name, RetentionPolicy>, n: Name, t: Tree<i64>,
                           n': Name)
    requires TreesApart(names) && n in names && n' in names
    ensures QueuesIn(PutTimes(db, n, t), names, retention)[n'] ==
            QueuesIn(db, names, retention)[n := QueueAt(db, retention, n).(dedup := t)][n']
  {
    QueueAfterTimes(db, names, retention, n, t, n');
  }

  lemma QueuesAfterTimes(db: Db, names: set<Name>, retention: map<Name, RetentionPolicy>, n: Name, t: Tree<i64>)
    requires TreesApart(names) && n in names
    ensures QueuesIn(PutTimes(db, n, t), names, retention) ==
            QueuesIn(db, names, retention)[n := QueueAt(db, retention, n).(dedup := t)]
  {
    QueueNames(db, names, retention);
    QueueNames(PutTimes(db, n, t), names, retention);
    hide QueuesIn, QueueAt, PutTimes, TreesApart;
    forall n' | n' in names
      ensures QueuesIn(PutTimes(db, n, t), names, retention)[n'] ==
              QueuesIn(db, names, retention)[n := QueueAt(db, retention, n).(dedup := t)][n']
    {
      QueuesAfterTimesAt(db, names, retention, n, t, n');
    }
    SameMap(QueuesIn(PutTimes(db, n, t), names, retention),
            QueuesIn(db, names, retention)[n := QueueAt(db, retention, n).(dedup := t)]);
  }

  /** Writing the deduplication index of one queue changes that index and nothing else in any queue. */
  lemma PutTimesChangesOneTree(db: Db, names: set<Name>, retention: map<Name, RetentionPolicy>, n: Name, t: Tree<i64>)
    requires StoreOk(db, names) && n in names && Sorted(t)
    ensures StoreOk(PutTimes(db, n, t), names) && n in QueuesIn(db, names, retention)
    ensures QueuesIn(PutTimes(db, n, t), names, retention) ==
            QueuesIn(db, names, retention)[n := QueuesIn(db, names, retention)[n].(dedup := t)]
  {
    TreesApartIff(names);
    StoreAfterTimes(db, names, n, t);
    QueuesAt(db, names, retention, n);
    QueuesAfterTimes(db, names, retention, n, t);
  }

  // ----- New queues -----

  /** `open_tree` on a name that has no tree yet creates an empty one. */
  function Create(db: Db, k: Kind, n: Name): Db {
    if k == Dedup then PutTimes(db, n, OpenTimes(db, TreeName(k, n))) else PutTree(db, k, n, Open(db, TreeName(k, n)))
  }

  function CreateAll(db: Db, n: Name): Db {
    Create(Create(Create(Create(Create(db, Main, n), Inflight, n), Dlq, n), Scheduled, n), Dedup, n)
  }

  lemma CreateOpensTheSame(db: Db, k: Kind, n: Name, t: string)
    ensures Open(Create(db, k, n), t) == Open(db, t) && OpenTimes(Create(db, k, n), t) == OpenTimes(db, t)
  {
  }

  lemma CreateAllOpensTheSame(db: Db, n: Name, t: string)
    ensures Open(CreateAll(db, n), t) == Open(db, t) && OpenTimes(CreateAll(db, n), t) == OpenTimes(db, t)
  {
    var d1 := Create(db, Main, n);
    var d2 := Create(d1, Inflight, n);
    var d3 := Create(d2, Dlq, n);
    var d4 := Create(d3, Scheduled, n);
    CreateOpensTheSame(db, Main, n, t);
    CreateOpensTheSame(d1, Inflight, n, t);
    CreateOpensTheSame(d2, Dlq, n, t);
    CreateOpensTheSame(d3, Scheduled, n, t);
    CreateOpensTheSame(d4, Dedup, n, t);
  }

  lemma NewTreeIsAbsent(db: Db, names: set<Name>, name: Name, k: Kind)
    requires OwnTreesOnly(db, names) && TreesApart(names + {name}) && name !in names
    ensures TreeName(k, name) !in db.messages && TreeName(k, name) !in db.times
  {
    assert name in names + {name};
    assert forall n, k' | n in names :: n in names + {name} && TreeName(k, name) != TreeName(k', n);
  }

  lemma CreateOwn(db: Db, names: set<Name>, k: Kind, n: Name)
    requires OwnTreesOnly(db, names) && n in names
    ensures OwnTreesOnly(Create(db, k, n), names)
  {
  }

  lemma CreateAllOwn(db: Db, names: set<Name>, n: Name)
    requires OwnTreesOnly(db, names) && n in names
    ensures OwnTreesOnly(CreateAll(db, n), names)
  {
    var d1 := Create(db, Main, n);
    var d2 := Create(d1, Inflight, n);
    var d3 := Create(d2, Dlq, n);
    var d4 := Create(d3, Scheduled, n);
    CreateOwn(db, names, Main, n);
    CreateOwn(d1, names, Inflight, n);
    CreateOwn(d2, names, Dlq, n);
    CreateOwn(d3, names, Scheduled, n);
    CreateOwn(d4, names, Dedup, n);
  }

  ghost predicate NoTreesFor(db: Db, name: Name) {
    forall k :: TreeName(k, name) !in db.messages && TreeName(k, name) !in db.times
  }

  lemma NewDbOk(db: Db, names: set<Name>, name: Name)
    requires DbOk(db, names) && NoTreesFor(db, name)
    ensures DbOk(CreateAll(db, name), names + {name})
  {
    forall n, k | n in names + {name} && k != Dedup
      ensures TreeOk(Open(CreateAll(db, name), TreeName(k, n)), k)
    {
      CreateAllOpensTheSame(db, name, TreeName(k, n));
    }
    forall n | n in names + {name}
      ensures Sorted(OpenTimes(CreateAll(db, name), TreeName(Dedup, n)))
    {
      CreateAllOpensTheSame(db, name, TreeName(Dedup, n));
    }
  }

  lemma NewOwnTrees(db: Db, names: set<Name>, name: Name)
    requires OwnTreesOnly(db, names)
    ensures OwnTreesOnly(CreateAll(db, name), names + {name})
  {
    assert OwnTreesOnly(db, names + {name}) by { assert forall n | n in names :: n in names + {name}; }
    CreateAllOwn(db, names + {name}, name);
  }

  lemma NewQueueAt(db: Db, retention: map<Name, RetentionPolicy>, name: Name, policy: RetentionPolicy, n: Name)
    requires NoTreesFor(db, name)
    ensures QueueAt(CreateAll(db, name), retention[name := policy], n) ==
            if n == name then EmptyQueue(policy) else QueueAt(db, retention, n)
  {
    CreateAllOpensTheSame(db, name, TreeName(Main, n));
    CreateAllOpensTheSame(db, name, TreeName(Inflight, n));
    CreateAllOpensTheSame(db, name, TreeName(Scheduled, n));
    CreateAllOpensTheSame(db, name, TreeName(Dlq, n));
    CreateAllOpensTheSame(db, name, TreeName(Dedup, n));
  }

  lemma NewQueues(db: Db, names: set<Name>, retention: map<Name, RetentionPolicy>, name: Name, policy: RetentionPolicy)
    requires NoTreesFor(db, name)
    ensures QueuesIn(CreateAll(db, name), names + {name}, retention[name := policy]) ==
            QueuesIn(db, names, retention)[name := EmptyQueue(policy)]
  {
    var a := QueuesIn(CreateAll(db, name), names + {name}, retention[name := policy]);
    var b := QueuesIn(db, names, retention)[name := EmptyQueue(policy)];
    forall n | n in names + {name}
      ensures a[n] == b[n]
    {
      QueuesAt(CreateAll(db, name), names + {name}, retention[name := policy], n);
      NewQueueAt(db, retention, name, policy, n);
      if n in names { QueuesAt(db, names, retention, n); }
    }
    SameMap(a, b);
  }

  /** Opening the five trees of a new name adds an empty queue and touches no other. */
  lemma NewQueue(db: Db, names: set<Name>, retention: map<Name, RetentionPolicy>, name: Name, policy: RetentionPolicy)
    requires StoreOk(db, names) && CleanNames(names + {name}) && name !in names
    ensures StoreOk(CreateAll(db, name), names + {name})
    ensures QueuesIn(CreateAll(db, name), names + {name}, retention[name := policy]) ==
            QueuesIn(db, names, retention)[name := EmptyQueue(policy)]
  {
    TreesApartIff(names + {name});
    forall k ensures TreeName(k, name) !in db.messages && TreeName(k, name) !in db.times {
      NewTreeIsAbsent(db, names, name, k);
    }
    assert NoTreesFor(db, name);
    NewDbOk(db, names, name);
    NewOwnTrees(db, names, name);
    NewQueues(db, names, retention, name, policy);
  }

  lemma QueueWithPolicy(db: Db, retention: map<Name, RetentionPolicy>, n: Name, policy: RetentionPolicy, n': Name)
    ensures QueueAt(CreateAll(db, n), retention[n := policy], n') ==
            if n' == n then QueueAt(db, retention, n).(policy := policy) else QueueAt(db, retention, n')
  {
    CreateAllOpensTheSame(db, n, TreeName(Main, n'));
    CreateAllOpensTheSame(db, n, TreeName(Inflight, n'));
    CreateAllOpensTheSame(db, n, TreeName(Scheduled, n'));
    CreateAllOpensTheSame(db, n, TreeName(Dlq, n'));
    CreateAllOpensTheSame(db, n, TreeName(Dedup, n'));
  }

  lemma OldStoreOk(db: Db, names: set<Name>, n: Name)
    requires StoreOk(db, names) && n in names
    ensures StoreOk(CreateAll(db, n), names)
  {
    CreateAllOwn(db, names, n);
    forall n', k | n' in names && k != Dedup
      ensures TreeOk(Open(CreateAll(db, n), TreeName(k, n')), k)
    {
      CreateAllOpensTheSame(db, n, TreeName(k, n'));
    }
    forall n' | n' in names
      ensures Sorted(OpenTimes(CreateAll(db, n), TreeName(Dedup, n')))
    {
      CreateAllOpensTheSame(db, n, TreeName(Dedup, n'));
    }
  }

  /** Declaring over a queue that exists changes its policy and keeps its trees. */
  lemma OldQueue(db: Db, names: set<Name>, retention: map<Name, RetentionPolicy>, n: Name, policy: RetentionPolicy)
    requires StoreOk(db, names) && n in names
    ensures StoreOk(CreateAll(db, n), names) && n in QueuesIn(db, names, retention)
    ensures QueuesIn(CreateAll(db, n), names, retention[n := policy]) ==
            QueuesIn(db, names, retention)[n := QueuesIn(db, names, retention)[n].(policy := policy)]
  {
    hide CreateAll, StoreOk, QueueAt;
    OldStoreOk(db, names, n);
    QueuesAt(db, names, retention, n);
    var a := QueuesIn(CreateAll(db, n), names, retention[n := policy]);
    var b := QueuesIn(db, names, retention)[n := QueueAt(db, retention, n).(policy := policy)];
    forall n' | n' in names
      ensures a[n'] == b[n']
    {
      QueuesAt(CreateAll(db, n), names, retention[n := policy], n');
      QueuesAt(db, names, retention, n');
      QueueWithPolicy(db, retention, n, policy, n');
    }
    SameMap(a, b);
  }
}
