/** Preserved tags after a restore: a later consume can run into one of them exactly when the new ids, or ids
    waiting in the target, are not clear of them. */
module RestoredTags {
  import opened Bytes
  import opened Results
  import opened OrderedTree
  import opened Messages
  import opened Engine
  import opened Runs
  import opened WellFormed
  import opened Snapshots
  import opened RestoredManager
  import opened Restarts
  import opened RestoreTarget

  /** The next consume would deliver under a tag that is outstanding, and replace that delivery. */
  ghost predicate Collides(s: Manager, n: Name) {
    && n in s.queues && s.queues[n].main != []
    && Has(s.queues[n].inflight, Be64(KeyId(s.queues[n].main[0].key)))
  }

  /** Some run of operations and restarts leads there. */
  ghost predicate CanCollide(s: Manager, n: Name) {
    exists ss, es :: IsRun(ss, es) && ss[0] == s && Collides(ss[|es|], n)
  }

  // ----- Clear tags -----

  lemma {:induction false} RunKeepsQueueOk(ss: seq<Manager>, es: seq<Event>, n: Name, i: nat)
    requires IsRun(ss, es) && i <= |es| && n in ss[0].queues && QueueOk(ss[0].queues[n], ss[0].issued)
    ensures n in ss[i].queues && QueueOk(ss[i].queues[n], ss[i].issued)
  {
    hide IsRun, QueueOk, Next, ChangeOf, Legal, Apply, DrawnBetween, Enabled, FreshIds;
    if i > 0 {
      RunKeepsQueueOk(ss, es, n, i - 1);
      QueueStep(ss, es, n, i - 1);
      ChangeKeepsOk(ss[i - 1].queues[n], ChangeOf(ss[i - 1], es[i - 1], n), ss[i - 1].issued, ss[i].issued);
    }
  }

  lemma OkNeverCollides(s: Manager, n: Name)
    requires n in s.queues && QueueOk(s.queues[n], s.issued)
    ensures !CanCollide(s, n)
  {
    if CanCollide(s, n) {
      var ss, es :| IsRun(ss, es) && ss[0] == s && Collides(ss[|es|], n);
      RunKeepsQueueOk(ss, es, n, |es|);
      assert false;
    }
  }

  // ----- Tags that are not clear -----

  lemma RunLonger(ss: seq<Manager>, es: seq<Event>, e: Event)
    requires IsRun(ss, es) && Admissible(ss[|es|], e)
    ensures IsRun(ss + [Next(ss[|es|], e)], es + [e])
  {
    var ss', es' := ss + [Next(ss[|es|], e)], es + [e];
    hide Admissible, Next;
    forall i | 0 <= i < |es'|
      ensures Admissible(ss'[i], es'[i]) && ss'[i + 1] == Next(ss'[i], es'[i])
    {
      if i < |es| { RunAt(ss, es, i); }
    }
  }

  /** Consuming `n` times after a run. */
  lemma {:induction false} DrainRun(ss: seq<Manager>, es: seq<Event>, q: Name, n: nat)
    returns (ss': seq<Manager>, es': seq<Event>)
    requires IsRun(ss, es) && q in ss[|es|].queues && n <= |ss[|es|].queues[q].main|
    ensures IsRun(ss', es') && ss'[0] == ss[0] && q in ss'[|es'|].queues
    ensures ss'[|es'|].queues[q] == Drained(ss[|es|].queues[q], n)
    decreases n
  {
    assert |ss| == |es| + 1;
    hide IsRun, TakeFirst, Next;
    if n == 0 {
      ss', es' := ss, es;
    } else {
      var ss0, es0 := DrainRun(ss, es, q, n - 1);
      RunLength(ss0, es0);
      ConsumingIsAdmissible(ss0[|es0|], q);
      RunLonger(ss0, es0, Consuming(q));
      ss', es' := ss0 + [Next(ss0[|es0|], Consuming(q))], es0 + [Consuming(q)];
    }
  }

  lemma RunLength(ss: seq<Manager>, es: seq<Event>)
    requires IsRun(ss, es)
    ensures |ss| == |es| + 1
  {
  }

  lemma ConsumingIsAdmissible(s: Manager, q: Name)
    requires q in s.queues && s.queues[q].main != []
    ensures Admissible(s, Consuming(q)) && Next(s, Consuming(q)).queues == s.queues[q := TakeFirst(s.queues[q])]
  {
  }

  lemma {:induction false} DrainedHas(q: QueueState, n: nat, k: Key)
    requires n <= |q.main| && Sorted(q.inflight) && Has(q.inflight, k)
    ensures Sorted(Drained(q, n).inflight) && Has(Drained(q, n).inflight, k)
  {
    hide Insert, KeyId, Sorted;
    if n > 0 {
      DrainedHas(q, n - 1, k);
      var q' := Drained(q, n - 1);
      InsertSorted(q'.inflight, Be64(KeyId(q'.main[0].key)), q'.main[0].val);
      GetInsert(q'.inflight, Be64(KeyId(q'.main[0].key)), q'.main[0].val, k);
    }
  }

  /** A message waiting under an outstanding tag is delivered onto it in the end. */
  lemma WaitingTagCollides(ss: seq<Manager>, es: seq<Event>, q: Name, j: nat)
    requires IsRun(ss, es) && q in ss[|es|].queues && j < |ss[|es|].queues[q].main|
             && Sorted(ss[|es|].queues[q].inflight)
    requires Has(ss[|es|].queues[q].inflight, Be64(KeyId(ss[|es|].queues[q].main[j].key)))
    ensures CanCollide(ss[0], q)
  {
    RunLength(ss, es);
    hide IsRun, KeyId, Be64;
    var q0 := ss[|es|].queues[q];
    var ss', es' := DrainRun(ss, es, q, j);
    RunLength(ss', es');
    DrainedHas(q0, j, Be64(KeyId(q0.main[j].key)));
    assert Drained(q0, j).main[0] == q0.main[j];
    assert Collides(ss'[|es'|], q);
  }

  /** A message without delivery time or deduplication key. */
  function SomeMessage(): Message {
    Message(0, [], [], 0, 0, 0, None, None)
  }

  lemma PublishOnto(s: Manager, q: Name, tag: u64) returns (j: nat)
    requires q in s.queues && s.maxBytes.None? && s.issued <= tag
    ensures var e := Publishing(q, SomeMessage(), Readings(0, 0, 0), tag);
            && Admissible(s, e) && q in Next(s, e).queues
            && Next(s, e).queues[q].inflight == s.queues[q].inflight
            && j < |Next(s, e).queues[q].main| && KeyId(Next(s, e).queues[q].main[j].key) == tag
  {
    j := Rank(s.queues[q].main, EncodeKey(0, tag));
    KeyIdRoundTrip(0, tag);
    hide EncodeKey, KeyId;
  }

  lemma PublishedTagCollides(s: Manager, q: Name, tag: u64)
    requires q in s.queues && s.maxBytes.None? && s.issued <= tag
    requires Sorted(s.queues[q].inflight) && Has(s.queues[q].inflight, Be64(tag))
    ensures CanCollide(s, q)
  {
    var j := PublishOnto(s, q, tag);
    hide KeyId, Be64, Next, Admissible, Sorted, Has;
    var e := Publishing(q, SomeMessage(), Readings(0, 0, 0), tag);
    assert IsRun([s], []);
    RunLonger([s], [], e);
    assert [s] + [Next(s, e)] == [s, Next(s, e)] && [] + [e] == [e];
    WaitingTagCollides([s, Next(s, e)], [e], q, j);
  }

  // ----- Both -----

  lemma DrawnTagCollides(f: Manager, q: Name, j: nat)
    requires q in f.queues && j < |f.queues[q].main| && Sorted(f.queues[q].inflight)
    requires Has(f.queues[q].inflight, Be64(KeyId(f.queues[q].main[j].key)))
    ensures CanCollide(f, q)
  {
    hide KeyId, CanCollide, Be64, Sorted, Has, Next, Admissible;
    assert IsRun([f], []);
    WaitingTagCollides([f], [], q, j);
  }

  lemma RestoredOk(s: Manager, t: Manager, draws: map<Name, Draws>, high: nat, q: Name)
    requires ManagerOk(s) && t.queues == map[] && q in s.queues
    requires forall n | n in s.queues ::
               n in draws && Fits(ExportQueue(s.queues[n]), draws[n]) && DrawsBetween(draws[n], t.issued, high)
    ensures var f := Restore(t, Export(s), draws, high);
            && q in f.queues && f.issued == high && f.maxBytes == t.maxBytes
            && (QueueOk(f.queues[q], high) <==> TagsClear(ExportQueue(s.queues[q]), draws[q], high))
  {
    RestoredIntoEmpty(s, t, draws);
    assert QueueOk(s.queues[q], s.issued);
    hide QueueOk, RestoreQueue, TagsClear, RestoredQueues, DrawsBetween, Recount;
    RestoredOkIff(s.queues[q], s.issued, draws[q], t.issued, high);
  }

  lemma UnclearCollides(f: Manager, n: Name, q: QueueState, low: nat, src: QueueState, d: Draws)
    requires n in f.queues && f.maxBytes.None? && QueueOk(q, low)
    requires Fits(ExportQueue(src), d) && DrawsBetween(d, low, f.issued)
    requires f.queues[n] == RestoreQueue(q, ExportQueue(src), d)
    requires !TagsClear(ExportQueue(src), d, f.issued) || !WaitingClear(q, ExportQueue(src))
    ensures CanCollide(f, n)
  {
    hide CanCollide, QueueOk, Be64, Sorted, Has, KeyId, DrawsBetween, RestoreQueue, Tagged;
    var ts := Tagged(src.inflight);
    if j :| 0 <= j < |ts| && ts[j].0 >= f.issued {
      PreservedIsPresent(q, low, src, d, j);
      PublishedTagCollides(f, n, ts[j].0);
    } else if i, j :| 0 <= i < |d.main| && 0 <= j < |ts| && ts[j].0 == d.main[i] {
      SharedNumberCollides(f, n, q, low, src, d, d.main[i], j);
    } else {
      var i, j :| 0 <= i < |q.main| && 0 <= j < |ts| && KeyId(q.main[i].key) == ts[j].0;
      SharedNumberCollides(f, n, q, low, src, d, ts[j].0, j);
    }
  }

  lemma SharedNumberCollides(f: Manager, n: Name, q: QueueState, low: nat, src: QueueState, d: Draws, id: u64, j: nat)
    requires n in f.queues && QueueOk(q, low) && Fits(ExportQueue(src), d) && DrawsBetween(d, low, f.issued)
    requires f.queues[n] == RestoreQueue(q, ExportQueue(src), d)
    requires j < |Tagged(src.inflight)| && Tagged(src.inflight)[j].0 == id
    requires id in d.main || exists x :: 0 <= x < |q.main| && KeyId(q.main[x].key) == id
    ensures CanCollide(f, n)
  {
    assert |Tagged(src.inflight)| == |src.inflight|;
    hide CanCollide, QueueOk, Be64, Sorted, Has, RestoreQueue, KeyId, DrawsBetween, Tagged;
    var x := UnclearIsNotApart(q, low, src, d, f.issued, id, j);
    DrawnTagCollides(f, n, x);
  }

  lemma PreservedIsPresent(q: QueueState, low: nat, src: QueueState, d: Draws, j: nat)
    requires QueueOk(q, low) && Fits(ExportQueue(src), d) && j < |Tagged(src.inflight)|
    ensures var q' := RestoreQueue(q, ExportQueue(src), d);
            Sorted(q'.inflight) && Has(q'.inflight, Be64(Tagged(src.inflight)[j].0))
  {
    var ts := Tagged(src.inflight);
    TagTreeSorted(q.inflight, low);
    hide Be64, Tagged, PutAll, InsertAll, ScheduleAll, Has, Sorted, QueueOk;
    PutAllSorted(q.inflight, ts);
    PutAllPresent(q.inflight, ts, Be64(ts[j].0));
  }

  lemma LiveRestored(s: Manager, t: Manager, draws: map<Name, Draws>, high: nat, n: Name)
    requires n in s.queues && forall n | n in s.queues :: n in draws && Fits(ExportQueue(s.queues[n]), draws[n])
    ensures var f := Restore(t, Export(s), draws, high);
            && n in f.queues && f.issued == high && f.maxBytes == t.maxBytes
            && f.queues[n] == RestoreQueue(QueueOrEmpty(t, n), ExportQueue(s.queues[n]), draws[n])
  {
    hide RestoreQueue, Recount, ExportQueue, Fits, QueueOrEmpty;
    RestoredNames(t, Export(s), draws, high);
    assert Export(s)[n] == ExportQueue(s.queues[n]);
  }

  lemma BothOk(s: Manager, t: Manager, n: Name)
    requires ManagerOk(s) && ManagerOk(t) && n in s.queues
    ensures QueueOk(s.queues[n], s.issued) && QueueOk(QueueOrEmpty(t, n), t.issued)
  {
  }

  /** After a restore into any manager without byte limit, some run consumes onto an outstanding tag of a queue
      exactly when the new ids are not clear of its preserved tags or a message waiting in the target has the
      number of one. */
  lemma CollidesIff(s: Manager, t: Manager, draws: map<Name, Draws>, high: nat, n: Name)
    requires ManagerOk(s) && ManagerOk(t) && t.maxBytes.None? && n in s.queues
    requires forall n | n in s.queues ::
               n in draws && Fits(ExportQueue(s.queues[n]), draws[n]) && DrawsBetween(draws[n], t.issued, high)
    ensures CanCollide(Restore(t, Export(s), draws, high), n) <==>
            !TagsClear(ExportQueue(s.queues[n]), draws[n], high)
            || !WaitingClear(QueueOrEmpty(t, n), ExportQueue(s.queues[n]))
  {
    hide ManagerOk, Restore, CanCollide, QueueOk, TagsClear, WaitingClear, RestoreQueue, QueueOrEmpty, DrawsBetween;
    hide ExportQueue, Fits;
    var f, q := Restore(t, Export(s), draws, high), QueueOrEmpty(t, n);
    LiveRestored(s, t, draws, high, n);
    BothOk(s, t, n);
    LiveRestoreOkIff(q, t.issued, s.queues[n], s.issued, draws[n], high);
    if TagsClear(ExportQueue(s.queues[n]), draws[n], high) && WaitingClear(q, ExportQueue(s.queues[n])) {
      OkNeverCollides(f, n);
    } else {
      UnclearCollides(f, n, q, t.issued, s.queues[n], draws[n]);
    }
  }
}
