/** Two managers that differ only in the ids of their messages behave alike: every later sequence of
    operations gets the same replies from both, up to a renaming of delivery tags that only grows. */
module Bisimulation {
  import opened Bytes
  import opened Results
  import opened OrderedTree
  import opened Messages
  import opened Engine
  import opened Runs
  import opened WellFormed
  import opened Retention
  import opened Lanes
  import opened Renamings

  // ----- One event on both sides -----

  /** The two managers hold the same queues, alike up to the renaming of each; neither has a byte limit. */
  ghost predicate Alike(s1: Manager, s2: Manager, rho: map<Name, Renaming>) {
    && s1.maxBytes.None? && s2.maxBytes.None?
    && s1.queues.Keys == rho.Keys && s2.queues.Keys == rho.Keys
    && forall n | n in rho :: AlikeQueues(s1.queues[n], s2.queues[n], rho[n], s1.issued, s2.issued)
  }

  /** The same operation with the same clock readings, up to ids and renamed tags. */
  ghost predicate SameEvent(e1: Event, e2: Event, rho: map<Name, Renaming>) {
    match (e1, e2)
    case (Declaring(q1, p1), Declaring(q2, p2)) => q1 == q2 && p1 == p2
    case (Publishing(q1, m1, k1, _), Publishing(q2, m2, k2, _)) => q1 == q2 && m1 == m2 && k1 == k2 && m1.dedupKey.None?
    case (Consuming(q1), Consuming(q2)) => q1 == q2
    case (Acking(q1, t1), Acking(q2, t2)) => q1 == q2 && (q1 in rho ==> SameTag(rho[q1], t1, t2))
    case (Nacking(q1, t1, _), Nacking(q2, t2, _)) => q1 == q2 && (q1 in rho ==> SameTag(rho[q1], t1, t2))
    case (Promoting(q1, n1, _), Promoting(q2, n2, _)) => q1 == q2 && n1 == n2
    case (Retaining(q1, n1), Retaining(q2, n2)) => q1 == q2 && n1 == n2
    case _ => false
  }

  /** The same reply: a delivery brings the same message under renamed tags, errors about a tag name the
      tag each side was given, everything else is equal. */
  ghost predicate SameReply(r1: Reply, r2: Reply, r: Renaming) {
    if r1.Delivered? && r1.delivered.Ok? && r1.delivered.value.Some? then
      && r2.Delivered? && r2.delivered.Ok? && r2.delivered.value.Some?
      && var (t1, m1) := r1.delivered.value.value;
      var (t2, m2) := r2.delivered.value.value;
      m1 == m2 && t1 in r.there && r.there[t1] == t2
    else if r1.Settled? && r1.settled.Err? && r1.settled.error.InvalidDeliveryTag? then
      r2.Settled? && r2.settled.Err? && r2.settled.error.InvalidDeliveryTag?
    else r1 == r2
  }

  /** The renaming of queue `n` after an event. */
  ghost function RenamingAfter(s1: Manager, s2: Manager, e: Event, rho: map<Name, Renaming>, n: Name): Renaming
    requires Enabled(s1, e) && Alike(s1, s2, rho)
  {
    if n in rho then NextRenaming(s1.queues[n], s2.queues[n], ChangeOf(s1, e, n), rho[n]) else Renaming(map[], map[])
  }

  ghost function NextRho(s1: Manager, s2: Manager, e: Event, rho: map<Name, Renaming>): map<Name, Renaming>
    requires Enabled(s1, e) && Alike(s1, s2, rho)
  {
    map n | n in Next(s1, e).queues :: RenamingAfter(s1, s2, e, rho, n)
  }

  /** The change an event makes to a queue that exists, in terms of that queue alone, when there is no byte
      limit and no deduplication key. */
  ghost function QueueChange(q: QueueState, e: Event): Change {
    match e
    case Publishing(_, m, clock, id) => Stores(m, clock, id)
    case Consuming(_) => if q.main == [] then Unchanged else Takes
    case Acking(_, tag) => if Has(q.inflight, Be64(tag)) then Releases(tag) else Unchanged
    case Nacking(_, tag, id) => if Has(q.inflight, Be64(tag)) then Returns(tag, id) else Unchanged
    case Promoting(_, now, ids) => Promotes(now, ids)
    case Retaining(_, now) => Retains(now)
    case _ => Unchanged
  }

  lemma ChangeOfQueue(s: Manager, e: Event)
    requires Enabled(s, e) && !e.Reopening? && e.queue in s.queues && s.maxBytes.None?
    requires e.Publishing? ==> e.msg.dedupKey.None?
    ensures ChangeOf(s, e, e.queue) == QueueChange(s.queues[e.queue], e)
  {
    hide StoreMessage;
  }

  lemma SameQueueChange(q1: QueueState, q2: QueueState, e1: Event, e2: Event, rho: map<Name, Renaming>,
                        issued1: nat, issued2: nat)
    requires SameEvent(e1, e2, rho) && e1.queue in rho
    requires AlikeQueues(q1, q2, rho[e1.queue], issued1, issued2)
    ensures SameChange(QueueChange(q1, e1), QueueChange(q2, e2), rho[e1.queue])
  {
    hide QueueOk, AllSpent, SameDeliveries, OneToOne, SameMessages, Has, Get;
    AlikeParts(q1, q2, rho[e1.queue], issued1, issued2);
    match e1
    case Acking(_, t) => SameOutstanding(q1, q2, rho[e1.queue], t, e2.tag);
    case Nacking(_, t, _) => SameOutstanding(q1, q2, rho[e1.queue], t, e2.tag);
    case _ =>
  }

  lemma SameEventSameChange(s1: Manager, s2: Manager, e1: Event, e2: Event, rho: map<Name, Renaming>, n: Name)
    requires Alike(s1, s2, rho) && SameEvent(e1, e2, rho) && Enabled(s1, e1) && Enabled(s2, e2) && n in rho
    ensures SameChange(ChangeOf(s1, e1, n), ChangeOf(s2, e2, n), rho[n])
  {
    hide AlikeQueues, QueueChange, ReplyTo, Enabled;
    if e1.queue == n {
      assert AlikeQueues(s1.queues[n], s2.queues[n], rho[n], s1.issued, s2.issued);
      hide ChangeOf, SameChange;
      ChangeOfQueue(s1, e1);
      ChangeOfQueue(s2, e2);
      SameQueueChange(s1.queues[n], s2.queues[n], e1, e2, rho, s1.issued, s2.issued);
    }
  }

  /** The reply to an event on a queue that exists, in terms of that queue alone, when there is no byte limit
      and no deduplication key. */
  ghost function QueueReply(q: QueueState, e: Event): Reply
    requires e.Promoting? ==> |e.ids| == DueCount(q.scheduled, e.now)
  {
    match e
    case Declaring(n, _) => Declared(Err(QueueAlreadyExists(n)))
    case Publishing(_, m, _, _) => Published(Ok(Stored(m.id)))
    case Consuming(_) => Delivered(Ok(if q.main == [] then None else Some((KeyId(q.main[0].key), q.main[0].val))))
    case Acking(_, t) => Settled(if Has(q.inflight, Be64(t)) then Ok(()) else Err(InvalidDeliveryTag(t)))
    case Nacking(_, t, _) => Settled(if Has(q.inflight, Be64(t)) then Ok(()) else Err(InvalidDeliveryTag(t)))
    case Promoting(_, _, ids) => Counted(Ok(|ids|))
    case Retaining(_, now) => Counted(Ok(if |Retained(q, now)| <= |q.main| then |q.main| - |Retained(q, now)| else 0))
    case Reopening(_, _, _) => Reopened
  }

  lemma ReplyOfQueue(s: Manager, e: Event)
    requires Enabled(s, e) && !e.Reopening? && e.queue in s.queues && s.maxBytes.None?
    requires e.Publishing? ==> e.msg.dedupKey.None?
    ensures ReplyTo(s, e) == QueueReply(s.queues[e.queue], e)
  {
  }

  lemma QueuesReplyAlike(q1: QueueState, q2: QueueState, e1: Event, e2: Event, rho: map<Name, Renaming>,
                         c: Change, issued1: nat, issued2: nat)
    requires SameEvent(e1, e2, rho) && e1.queue in rho
    requires AlikeQueues(q1, q2, rho[e1.queue], issued1, issued2)
    requires e1.Promoting? ==> |e1.ids| == DueCount(q1.scheduled, e1.now) && AscendingFrom(e1.ids, issued1)
    requires e2.Promoting? ==> |e2.ids| == DueCount(q2.scheduled, e2.now) && AscendingFrom(e2.ids, issued2)
    requires e1.Consuming? && q1.main != [] ==> c == Takes
    ensures SameReply(QueueReply(q1, e1), QueueReply(q2, e2), NextRenaming(q1, q2, c, rho[e1.queue]))
  {
    hide QueueOk, AllSpent, OneToOne, SameDeliveries, SameMessages, DueCount, AscendingFrom;
    AlikeParts(q1, q2, rho[e1.queue], issued1, issued2);
    match e1
    case Consuming(_) =>
    case Acking(_, t) => SameOutstanding(q1, q2, rho[e1.queue], t, e2.tag);
    case Nacking(_, t, _) => SameOutstanding(q1, q2, rho[e1.queue], t, e2.tag);
    case Promoting(_, now, ids) => PromotesSameMessages(q1, q2, now, ids, e2.ids, issued1, issued2);
    case Retaining(_, now) =>
      RetainedIsSurvivors(q1, now);
      RetainedIsSurvivors(q2, now);
      assert |Values(Retained(q1, now))| == |Values(Retained(q2, now))|;
    case _ =>
  }

  lemma UnknownReply(s1: Manager, s2: Manager, e1: Event, e2: Event, rho: map<Name, Renaming>, r: Renaming)
    requires SameEvent(e1, e2, rho) && Enabled(s1, e1) && Enabled(s2, e2)
    requires e1.queue !in s1.queues && e1.queue !in s2.queues
    ensures SameReply(ReplyTo(s1, e1), ReplyTo(s2, e2), r)
  {
  }

  /** The same operation on two managers that are alike gets the same reply. */
  lemma SameEventSameReply(s1: Manager, s2: Manager, e1: Event, e2: Event, rho: map<Name, Renaming>)
    requires Alike(s1, s2, rho) && SameEvent(e1, e2, rho) && Admissible(s1, e1) && Admissible(s2, e2)
    ensures SameReply(ReplyTo(s1, e1), ReplyTo(s2, e2), RenamingAfter(s1, s2, e1, rho, e1.queue))
  {
    var n := e1.queue;
    if n in rho {
      ReplyOfQueue(s1, e1);
      ReplyOfQueue(s2, e2);
      assert AlikeQueues(s1.queues[n], s2.queues[n], rho[n], s1.issued, s2.issued);
      QueuesReplyAlike(s1.queues[n], s2.queues[n], e1, e2, rho, ChangeOf(s1, e1, n), s1.issued, s2.issued);
    } else {
      UnknownReply(s1, s2, e1, e2, rho, RenamingAfter(s1, s2, e1, rho, n));
    }
  }

  lemma QueueStaysAlike(s1: Manager, s2: Manager, e1: Event, e2: Event, rho: map<Name, Renaming>, n: Name)
    requires Alike(s1, s2, rho) && SameEvent(e1, e2, rho) && Admissible(s1, e1) && Admissible(s2, e2) && n in rho
    ensures n in Next(s1, e1).queues && n in Next(s2, e2).queues
    ensures AlikeQueues(Next(s1, e1).queues[n], Next(s2, e2).queues[n], RenamingAfter(s1, s2, e1, rho, n),
                        Next(s1, e1).issued, Next(s2, e2).issued)
  {
    ChangeIsLegal(s1, e1, n);
    ChangeIsLegal(s2, e2, n);
    ChangeIsNext(s1, e1, n);
    ChangeIsNext(s2, e2, n);
    SameEventSameChange(s1, s2, e1, e2, rho, n);
    assert AlikeQueues(s1.queues[n], s2.queues[n], rho[n], s1.issued, s2.issued);
    ChangeStaysAlike(s1.queues[n], s2.queues[n], ChangeOf(s1, e1, n), ChangeOf(s2, e2, n), rho[n],
                     s1.issued, Next(s1, e1).issued, s2.issued, Next(s2, e2).issued);
  }

  lemma NewQueueAlike(policy: RetentionPolicy, issued1: nat, issued2: nat)
    ensures AlikeQueues(EmptyQueue(policy), EmptyQueue(policy), Renaming(map[], map[]), issued1, issued2)
  {
    OutstandingEmpty();
  }

  lemma NextNames(s: Manager, e: Event)
    requires Admissible(s, e) && !e.Reopening?
    ensures Next(s, e).queues.Keys == s.queues.Keys + if e.Declaring? then {e.queue} else {}
    ensures Next(s, e).maxBytes == s.maxBytes
  {
  }

  lemma NextQueueAlike(s1: Manager, s2: Manager, e1: Event, e2: Event, rho: map<Name, Renaming>, n: Name)
    requires Alike(s1, s2, rho) && SameEvent(e1, e2, rho) && Admissible(s1, e1) && Admissible(s2, e2)
    requires n in Next(s1, e1).queues && n in Next(s2, e2).queues
    ensures AlikeQueues(Next(s1, e1).queues[n], Next(s2, e2).queues[n], RenamingAfter(s1, s2, e1, rho, n),
                        Next(s1, e1).issued, Next(s2, e2).issued)
  {
    if n in rho {
      QueueStaysAlike(s1, s2, e1, e2, rho, n);
    } else {
      OnlyDeclarationsAdd(s1, e1);
      OnlyDeclarationsAdd(s2, e2);
      NewQueueAlike(e1.policy, Next(s1, e1).issued, Next(s2, e2).issued);
    }
  }

  lemma EventNames(s1: Manager, s2: Manager, e1: Event, e2: Event, rho: map<Name, Renaming>)
    requires Alike(s1, s2, rho) && SameEvent(e1, e2, rho) && Admissible(s1, e1) && Admissible(s2, e2)
    ensures Next(s1, e1).queues.Keys == Next(s2, e2).queues.Keys
    ensures Next(s1, e1).maxBytes.None? && Next(s2, e2).maxBytes.None?
  {
    hide Next, AlikeQueues, FreshIds, Enabled;
    NextNames(s1, e1);
    NextNames(s2, e2);
  }

  /** The same operation leaves two managers that are alike, alike. */
  lemma EventStaysAlike(s1: Manager, s2: Manager, e1: Event, e2: Event, rho: map<Name, Renaming>)
    requires Alike(s1, s2, rho) && SameEvent(e1, e2, rho) && Admissible(s1, e1) && Admissible(s2, e2)
    ensures Alike(Next(s1, e1), Next(s2, e2), NextRho(s1, s2, e1, rho))
  {
    hide Next, AlikeQueues, RenamingAfter, FreshIds, Enabled;
    EventNames(s1, s2, e1, e2, rho);
    forall n | n in Next(s1, e1).queues
      ensures AlikeQueues(Next(s1, e1).queues[n], Next(s2, e2).queues[n], RenamingAfter(s1, s2, e1, rho, n),
                          Next(s1, e1).issued, Next(s2, e2).issued)
    {
      NextQueueAlike(s1, s2, e1, e2, rho, n);
    }
  }

  /** The two managers are aligned, queue by queue. */
  ghost predicate Aligned(s1: Manager, s2: Manager, rho: map<Name, Renaming>) {
    forall n | n in rho && n in s1.queues && n in s2.queues :: AlignedQueues(s1.queues[n], s2.queues[n], rho[n])
  }

  /** Both sides restart without a byte limit. */
  ghost predicate SameRestart(e1: Event, e2: Event) {
    e1.Reopening? && e2.Reopening? && e1.limit.None? && e2.limit.None?
  }

  lemma RestartedQueueAlike(s1: Manager, s2: Manager, e1: Event, e2: Event, rho: map<Name, Renaming>, n: Name)
    requires Alike(s1, s2, rho) && Aligned(s1, s2, rho) && n in rho
    requires SameRestart(e1, e2) && Admissible(s1, e1) && Admissible(s2, e2)
    ensures n in Next(s1, e1).queues && n in Next(s2, e2).queues
    ensures AlikeQueues(Next(s1, e1).queues[n], Next(s2, e2).queues[n], RenamingAfter(s1, s2, e1, rho, n),
                        Next(s1, e1).issued, Next(s2, e2).issued)
  {
    assert AlikeQueues(s1.queues[n], s2.queues[n], rho[n], s1.issued, s2.issued);
    assert AlignedQueues(s1.queues[n], s2.queues[n], rho[n]);
    ChangeIsLegal(s1, e1, n);
    ChangeIsLegal(s2, e2, n);
    hide AlikeQueues, AlignedQueues, SameReturnOrder, Recover;
    AlignedReturnsAlike(s1.queues[n], s2.queues[n], rho[n], s1.issued, s2.issued);
    RecoverStaysAlike(s1.queues[n], s2.queues[n], e1.drawn[n], e2.drawn[n], rho[n],
                      s1.issued, e1.issued, s2.issued, e2.issued);
  }

  lemma RestartStaysAlike(s1: Manager, s2: Manager, e1: Event, e2: Event, rho: map<Name, Renaming>)
    requires Alike(s1, s2, rho) && Aligned(s1, s2, rho)
    requires SameRestart(e1, e2) && Admissible(s1, e1) && Admissible(s2, e2)
    ensures Alike(Next(s1, e1), Next(s2, e2), NextRho(s1, s2, e1, rho))
  {
    hide AlikeQueues, AlignedQueues, Recover, RenamingAfter, FreshIds, Recount;
    forall n | n in rho
      ensures AlikeQueues(Next(s1, e1).queues[n], Next(s2, e2).queues[n], RenamingAfter(s1, s2, e1, rho, n),
                          Next(s1, e1).issued, Next(s2, e2).issued)
    {
      RestartedQueueAlike(s1, s2, e1, e2, rho, n);
    }
  }

  ghost predicate SameStep(e1: Event, e2: Event, rho: map<Name, Renaming>) {
    if e1.Reopening? then SameRestart(e1, e2) else SameEvent(e1, e2, rho)
  }

  /** The same operation leaves two managers that are alike, alike; so does a restart if they are aligned. */
  lemma StepStaysAlike(s1: Manager, s2: Manager, e1: Event, e2: Event, rho: map<Name, Renaming>)
    requires Alike(s1, s2, rho) && SameStep(e1, e2, rho) && Admissible(s1, e1) && Admissible(s2, e2)
    requires e1.Reopening? ==> Aligned(s1, s2, rho)
    ensures Alike(Next(s1, e1), Next(s2, e2), NextRho(s1, s2, e1, rho))
  {
    hide Alike, Aligned, SameRestart, SameEvent, Admissible, Next, NextRho;
    if e1.Reopening? { RestartStaysAlike(s1, s2, e1, e2, rho); } else { EventStaysAlike(s1, s2, e1, e2, rho); }
  }

  lemma QueueStaysAligned(s1: Manager, s2: Manager, e1: Event, e2: Event, rho: map<Name, Renaming>, n: Name)
    requires Alike(s1, s2, rho) && Aligned(s1, s2, rho) && n in rho
    requires SameStep(e1, e2, rho) && Admissible(s1, e1) && Admissible(s2, e2)
    ensures n in Next(s1, e1).queues && n in Next(s2, e2).queues
    ensures AlignedQueues(Next(s1, e1).queues[n], Next(s2, e2).queues[n], RenamingAfter(s1, s2, e1, rho, n))
  {
    assert AlikeQueues(s1.queues[n], s2.queues[n], rho[n], s1.issued, s2.issued);
    assert AlignedQueues(s1.queues[n], s2.queues[n], rho[n]);
    assert e1.Reopening? ==> ChangeOf(s1, e1, n).Recovers? && ChangeOf(s2, e2, n).Recovers?;
    hide AlikeQueues, AlignedQueues, Next, ChangeOf, Legal, Apply, DrawnBetween, SameEvent, FreshIds, NextRenaming;
    ChangeIsLegal(s1, e1, n);
    ChangeIsLegal(s2, e2, n);
    ChangeIsNext(s1, e1, n);
    ChangeIsNext(s2, e2, n);
    if !e1.Reopening? { SameEventSameChange(s1, s2, e1, e2, rho, n); }
    ChangeStaysAligned(s1.queues[n], s2.queues[n], ChangeOf(s1, e1, n), ChangeOf(s2, e2, n), rho[n],
                       s1.issued, Next(s1, e1).issued, s2.issued, Next(s2, e2).issued);
  }

  lemma NewQueueAligned(policy: RetentionPolicy)
    ensures AlignedQueues(EmptyQueue(policy), EmptyQueue(policy), Renaming(map[], map[]))
  {
    OutstandingEmpty();
  }

  /** Aligned managers stay aligned under the same operation and under a restart. */
  lemma StepStaysAligned(s1: Manager, s2: Manager, e1: Event, e2: Event, rho: map<Name, Renaming>)
    requires Alike(s1, s2, rho) && Aligned(s1, s2, rho)
    requires SameStep(e1, e2, rho) && Admissible(s1, e1) && Admissible(s2, e2)
    ensures Aligned(Next(s1, e1), Next(s2, e2), NextRho(s1, s2, e1, rho))
  {
    OnlyDeclarationsAdd(s1, e1);
    OnlyDeclarationsAdd(s2, e2);
    hide AlikeQueues, AlignedQueues, Next, RenamingAfter, FreshIds, Enabled;
    forall n | n in NextRho(s1, s2, e1, rho) && n in Next(s1, e1).queues && n in Next(s2, e2).queues
      ensures AlignedQueues(Next(s1, e1).queues[n], Next(s2, e2).queues[n], NextRho(s1, s2, e1, rho)[n])
    {
      if n in rho {
        QueueStaysAligned(s1, s2, e1, e2, rho, n);
      } else {
        NewRenaming(s1, s2, e1, rho, n);
        NewQueueAligned(e1.policy);
      }
    }
  }

  lemma NewRenaming(s1: Manager, s2: Manager, e: Event, rho: map<Name, Renaming>, n: Name)
    requires Enabled(s1, e) && Alike(s1, s2, rho) && n !in rho
    ensures RenamingAfter(s1, s2, e, rho, n) == Renaming(map[], map[])
  {
  }

  // ----- Whole runs -----

  /** The pairs of a renaming are never changed, only added to. */
  ghost predicate Grows(r: Renaming, r': Renaming) {
    forall t | t in r.there :: t in r'.there && r'.there[t] == r.there[t]
  }

  ghost predicate AllGrow(rho: map<Name, Renaming>, rho': map<Name, Renaming>) {
    forall n | n in rho :: n in rho' && Grows(rho[n], rho'[n])
  }

  lemma GrowsItself(rho: map<Name, Renaming>)
    ensures AllGrow(rho, rho)
  {
  }

  lemma AllGrowChain(a: map<Name, Renaming>, b: map<Name, Renaming>, c: map<Name, Renaming>)
    requires AllGrow(a, b) && AllGrow(b, c)
    ensures AllGrow(a, c)
  {
    forall n | n in a
      ensures n in c && Grows(a[n], c[n])
    {
      assert Grows(a[n], b[n]) && Grows(b[n], c[n]);
    }
  }

  lemma NextRenamingGrows(q1: QueueState, q2: QueueState, c: Change, r: Renaming, issued1: nat, issued2: nat)
    requires AlikeQueues(q1, q2, r, issued1, issued2)
    ensures Grows(r, NextRenaming(q1, q2, c, r))
  {
    if q1.main != [] { FirstIsNew(q1, issued1, issued1, r.there.Keys); }
  }

  /** The same operations and restarts on both sides, each under the renaming reached so far. */
  ghost predicate PairedRuns(ss1: seq<Manager>, es1: seq<Event>, ss2: seq<Manager>, es2: seq<Event>,
                             rhos: seq<map<Name, Renaming>>) {
    && IsRun(ss1, es1) && IsRun(ss2, es2) && |es1| == |es2| && |rhos| == |ss1|
    && forall k | 0 <= k < |es1| ::
         && SameStep(es1[k], es2[k], rhos[k])
         && (Alike(ss1[k], ss2[k], rhos[k]) ==> rhos[k + 1] == NextRho(ss1[k], ss2[k], es1[k], rhos[k]))
  }

  lemma PairedLengths(ss1: seq<Manager>, es1: seq<Event>, ss2: seq<Manager>, es2: seq<Event>,
                      rhos: seq<map<Name, Renaming>>)
    requires PairedRuns(ss1, es1, ss2, es2, rhos)
    ensures |ss1| == |ss2| == |rhos| == |es1| + 1 && |es1| == |es2|
  {
    hide SameStep, Alike, NextRho, Next, Admissible;
  }

  /** One step of paired runs. */
  lemma PairAt(ss1: seq<Manager>, es1: seq<Event>, ss2: seq<Manager>, es2: seq<Event>,
               rhos: seq<map<Name, Renaming>>, k: nat)
    requires PairedRuns(ss1, es1, ss2, es2, rhos) && k < |es1|
    ensures SameStep(es1[k], es2[k], rhos[k])
    ensures Admissible(ss1[k], es1[k]) && ss1[k + 1] == Next(ss1[k], es1[k])
    ensures Admissible(ss2[k], es2[k]) && ss2[k + 1] == Next(ss2[k], es2[k])
    ensures Alike(ss1[k], ss2[k], rhos[k]) ==> rhos[k + 1] == NextRho(ss1[k], ss2[k], es1[k], rhos[k])
  {
    hide SameStep, Enabled, FreshIds, Next, Alike, NextRho;
  }

  lemma PairStep(ss1: seq<Manager>, es1: seq<Event>, ss2: seq<Manager>, es2: seq<Event>,
                 rhos: seq<map<Name, Renaming>>, k: nat)
    requires PairedRuns(ss1, es1, ss2, es2, rhos) && k < |es1| && Alike(ss1[k], ss2[k], rhos[k])
    requires es1[k].Reopening? ==> Aligned(ss1[k], ss2[k], rhos[k])
    ensures Alike(ss1[k + 1], ss2[k + 1], rhos[k + 1])
    ensures Aligned(ss1[k], ss2[k], rhos[k]) ==> Aligned(ss1[k + 1], ss2[k + 1], rhos[k + 1])
    ensures AllGrow(rhos[k], rhos[k + 1])
  {
    PairAt(ss1, es1, ss2, es2, rhos, k);
    hide PairedRuns, SameStep, Next, Aligned;
    StepStaysAlike(ss1[k], ss2[k], es1[k], es2[k], rhos[k]);
    if Aligned(ss1[k], ss2[k], rhos[k]) { StepStaysAligned(ss1[k], ss2[k], es1[k], es2[k], rhos[k]); }
    forall n | n in rhos[k]
      ensures n in rhos[k + 1] && Grows(rhos[k][n], rhos[k + 1][n])
    {
      RenamingGrows(ss1[k], ss2[k], es1[k], rhos[k], n);
    }
  }

  lemma RenamingGrows(s1: Manager, s2: Manager, e: Event, rho: map<Name, Renaming>, n: Name)
    requires Admissible(s1, e) && Alike(s1, s2, rho) && n in rho
    ensures n in NextRho(s1, s2, e, rho) && Grows(rho[n], NextRho(s1, s2, e, rho)[n])
  {
    ChangeIsLegal(s1, e, n);
    ChangeIsNext(s1, e, n);
    assert AlikeQueues(s1.queues[n], s2.queues[n], rho[n], s1.issued, s2.issued);
    hide AlikeQueues, NextRenaming, ChangeOf, Grows, Next, Enabled, FreshIds;
    NextRenamingGrows(s1.queues[n], s2.queues[n], ChangeOf(s1, e, n), rho[n], s1.issued, s2.issued);
  }

  /** The managers start aligned, or the runs hold no restart. */
  ghost predicate MayRestart(ss1: seq<Manager>, es1: seq<Event>, ss2: seq<Manager>, rhos: seq<map<Name, Renaming>>)
    requires ss1 != [] && ss2 != [] && rhos != []
  {
    Aligned(ss1[0], ss2[0], rhos[0]) || forall k | 0 <= k < |es1| :: !es1[k].Reopening?
  }

  /** Over every pair of runs of the same operations from managers that are alike, they stay alike under
      renamings that only grow; restarts included if they start aligned. */
  lemma {:induction false} RunsStayAlike(ss1: seq<Manager>, es1: seq<Event>, ss2: seq<Manager>, es2: seq<Event>,
                                         rhos: seq<map<Name, Renaming>>, i: nat)
    requires PairedRuns(ss1, es1, ss2, es2, rhos) && Alike(ss1[0], ss2[0], rhos[0]) && i <= |es1|
    requires MayRestart(ss1, es1, ss2, rhos)
    ensures Alike(ss1[i], ss2[i], rhos[i])
    ensures Aligned(ss1[0], ss2[0], rhos[0]) ==> Aligned(ss1[i], ss2[i], rhos[i])
    ensures AllGrow(rhos[0], rhos[i])
  {
    hide PairedRuns, Alike, Aligned, Grows, AllGrow;
    PairedLengths(ss1, es1, ss2, es2, rhos);
    if i == 0 {
      GrowsItself(rhos[0]);
    } else {
      RunsStayAlike(ss1, es1, ss2, es2, rhos, i - 1);
      PairStep(ss1, es1, ss2, es2, rhos, i - 1);
      AllGrowChain(rhos[0], rhos[i - 1], rhos[i]);
    }
  }

  /** And every pair of replies in such runs is the same, up to the renaming. */
  lemma RunsReplyAlike(ss1: seq<Manager>, es1: seq<Event>, ss2: seq<Manager>, es2: seq<Event>,
                       rhos: seq<map<Name, Renaming>>, i: nat)
    requires PairedRuns(ss1, es1, ss2, es2, rhos) && Alike(ss1[0], ss2[0], rhos[0]) && i < |es1|
    requires MayRestart(ss1, es1, ss2, rhos)
    ensures Alike(ss1[i], ss2[i], rhos[i]) && Enabled(ss1[i], es1[i]) && Enabled(ss2[i], es2[i])
    ensures if es1[i].Reopening? then es2[i].Reopening?
            else SameEvent(es1[i], es2[i], rhos[i]) &&
                 SameReply(ReplyTo(ss1[i], es1[i]), ReplyTo(ss2[i], es2[i]),
                           RenamingAfter(ss1[i], ss2[i], es1[i], rhos[i], es1[i].queue))
  {
    RunsStayAlike(ss1, es1, ss2, es2, rhos, i);
    PairAt(ss1, es1, ss2, es2, rhos, i);
    hide PairedRuns, Alike, Aligned, SameEvent, SameReply, ReplyTo, RenamingAfter, Enabled, FreshIds, Next;
    if !es1[i].Reopening? { SameEventSameReply(ss1[i], ss2[i], es1[i], es2[i], rhos[i]); }
  }
}
