/** An exported and restored manager behaves like the original, with the identity renaming on preserved
    tags. */
module RestoredManager {
  import opened Bytes
  import opened OrderedTree
  import opened Messages
  import opened Engine
  import opened Runs
  import opened WellFormed
  import opened DeliveryOrder
  import opened Tags
  import opened Lanes
  import opened LaneTags
  import opened Snapshots
  import opened Renamings
  import opened Bisimulation

  /** Preserved tags keep their names. */
  ghost function KeptTags(t: Tree<Message>): Renaming {
    var same := map tag | tag in Outstanding(t) :: tag;
    Renaming(same, same)
  }

  lemma OutstandingAreSpent(q: QueueState, issued: nat)
    requires QueueOk(q, issued)
    ensures AllSpent(q, Outstanding(q.inflight).Keys, issued)
  {
    forall t | t in Outstanding(q.inflight)
      ensures t < issued && NotWaiting(q, t)
    {
      Be64RoundTrip(t);
      assert TagOk(q.inflight[Rank(q.inflight, Be64(t))], issued);
      assert forall i | 0 <= i < |q.main| :: !Has(q.inflight, Be64(KeyId(q.main[i].key)));
    }
  }

  lemma RestoredQueueAlike(q: QueueState, issued: nat, d: Draws, low: nat, high: nat)
    requires QueueOk(q, issued) && Fits(ExportQueue(q), d) && DrawsBetween(d, low, high)
    requires TagsClear(ExportQueue(q), d, high)
    ensures AlikeQueues(q, RestoreQueue(EmptyQueue(DEFAULT_POLICY), ExportQueue(q), d),
                        KeptTags(q.inflight), issued, high)
  {
    QueueRoundTrip(q, issued, d, low, high);
    RestoredOkIff(q, issued, d, low, high);
    OutstandingAreSpent(q, issued);
    OutstandingAreSpent(RestoreQueue(EmptyQueue(DEFAULT_POLICY), ExportQueue(q), d), high);
  }

  lemma TaggedIsOutstanding(t: Tree<Message>, issued: nat)
    requires TagTreeOk(t, issued)
    ensures forall j | 0 <= j < |t| ::
              Tagged(t)[j].0 in Outstanding(t) && Outstanding(t)[Tagged(t)[j].0] == Tagged(t)[j].1
    ensures forall u | u in Outstanding(t) :: (u, Outstanding(t)[u]) in Tagged(t)
  {
    forall j | 0 <= j < |t|
      ensures Tagged(t)[j].0 in Outstanding(t) && Outstanding(t)[Tagged(t)[j].0] == Tagged(t)[j].1
    {
      assert TagOk(t[j], issued);
      Be64Surjective(t[j].key);
      RankAt(t, j);
    }
    forall u | u in Outstanding(t)
      ensures (u, Outstanding(t)[u]) in Tagged(t)
    {
      Be64RoundTrip(u);
      assert Tagged(t)[Rank(t, Be64(u))] == (u, Outstanding(t)[u]);
    }
  }

  /** Every id drawn for a ready message is above the preserved tags of its lane. */
  ghost predicate DrawnAbove(snap: QueueSnapshot, d: Draws)
    requires Fits(snap, d)
  {
    forall i, j | 0 <= i < |snap.messages| && 0 <= j < |snap.inflight|
                  && Lane(snap.messages[i]) == Lane(snap.inflight[j].1) :: snap.inflight[j].0 < d.main[i]
  }

  /** A generator that was above all preserved tags before the restore keeps new ids above and clear of them. */
  lemma GeneratorAboveSuffices(snap: QueueSnapshot, d: Draws, low: nat, high: nat)
    requires Fits(snap, d) && DrawsBetween(d, low, high)
    requires forall j | 0 <= j < |snap.inflight| :: snap.inflight[j].0 < low
    ensures DrawnAbove(snap, d) && TagsClear(snap, d, high)
  {
  }

  /** In a restored queue outstanding tags are older than the waiting ids of their lane exactly when every
      id drawn for a ready message is above the preserved tags of its lane. */
  lemma RestoredLaneTagsIff(q: QueueState, issued: nat, d: Draws, low: nat, high: nat)
    requires QueueOk(q, issued) && Fits(ExportQueue(q), d) && DrawsBetween(d, low, high)
    ensures LaneTagsBelow(RestoreQueue(EmptyQueue(DEFAULT_POLICY), ExportQueue(q), d))
            <==> DrawnAbove(ExportQueue(q), d)
  {
    QueueRoundTrip(q, issued, d, low, high);
    LaneTreeDescending(q.main, issued);
    RestoredLayout(Values(q.main), d.main, low);
    TaggedIsOutstanding(q.inflight, issued);
    hide QueueOk, LaneTreeOk, ScheduleOk, Outstanding, InsertAll, PutAll, ScheduleAll, DrawsBetween, Descending;
    LaidIsAboveIff(Outstanding(q.inflight), Tagged(q.inflight), Values(q.main), d.main);
  }

  lemma LaidIsAboveIff(o: map<u64, Message>, ts: seq<(u64, Message)>, ms: seq<Message>, ids: seq<u64>)
    requires |ids| == |ms|
    requires forall j | 0 <= j < |ts| :: ts[j].0 in o && o[ts[j].0] == ts[j].1
    requires forall u | u in o :: (u, o[u]) in ts
    ensures Older(o, Laid(ms, ids)) <==>
            forall i, j | 0 <= i < |ms| && 0 <= j < |ts| && Lane(ms[i]) == Lane(ts[j].1) :: ts[j].0 < ids[i]
  {
    var t := Laid(ms, ids);
    forall i | 0 <= i < |ms|
      ensures KeyId(t[i].key) == ids[i] && t[i].val == ms[i]
    {
      KeyIdRoundTrip(ms[i].priority, ids[i]);
    }
    hide KeyId, Laid;
    if forall i, j | 0 <= i < |ms| && 0 <= j < |ts| && Lane(ms[i]) == Lane(ts[j].1) :: ts[j].0 < ids[i] {
      forall u, i | u in o && 0 <= i < |t| && Lane(o[u]) == Lane(t[i].val)
        ensures u < KeyId(t[i].key)
      {
        var j :| 0 <= j < |ts| && ts[j] == (u, o[u]);
      }
    }
  }

  ghost function AllKeptTags(s: Manager): map<Name, Renaming> {
    map n | n in s.queues :: KeptTags(s.queues[n].inflight)
  }

  lemma RestoredIntoEmpty(s: Manager, t: Manager, draws: map<Name, Draws>)
    requires t.queues == map[]
    requires forall n | n in s.queues :: n in draws && Fits(ExportQueue(s.queues[n]), draws[n])
    ensures RestoredQueues(t, Export(s), draws) ==
            map n | n in s.queues :: RestoreQueue(EmptyQueue(DEFAULT_POLICY), ExportQueue(s.queues[n]), draws[n])
  {
  }

  /** Exporting a manager and restoring the snapshot into an empty one gives a manager that is alike, with
      the identity renaming on the preserved tags, if the new ids stay clear of those tags. */
  lemma RestoredManagerIsAlike(s: Manager, t: Manager, draws: map<Name, Draws>, high: nat)
    requires ManagerOk(s) && s.maxBytes.None? && t.queues == map[] && t.maxBytes.None?
    requires forall n | n in s.queues :: n in draws && Fits(ExportQueue(s.queues[n]), draws[n])
    requires forall n | n in s.queues ::
               DrawsBetween(draws[n], t.issued, high) && TagsClear(ExportQueue(s.queues[n]), draws[n], high)
    ensures Alike(s, Restore(t, Export(s), draws, high), AllKeptTags(s))
  {
    RestoredIntoEmpty(s, t, draws);
    forall n | n in s.queues
      ensures AlikeQueues(s.queues[n], RestoreQueue(EmptyQueue(DEFAULT_POLICY), ExportQueue(s.queues[n]), draws[n]),
                          KeptTags(s.queues[n].inflight), s.issued, high)
    {
      RestoredQueueAlike(s.queues[n], s.issued, draws[n], t.issued, high);
    }
  }

  /** The restored manager is aligned with the original as well, if the new ids are above the preserved tags
      of their lanes and the original has outstanding tags older than waiting ids, as every run keeps. */
  lemma RestoredManagerIsAligned(s: Manager, t: Manager, draws: map<Name, Draws>, high: nat)
    requires ManagerOk(s) && AllLaneTagsBelow(s) && t.queues == map[]
    requires forall n | n in s.queues :: n in draws && Fits(ExportQueue(s.queues[n]), draws[n])
    requires forall n | n in s.queues ::
               DrawsBetween(draws[n], t.issued, high) && DrawnAbove(ExportQueue(s.queues[n]), draws[n])
    ensures Aligned(s, Restore(t, Export(s), draws, high), AllKeptTags(s))
  {
    RestoredIntoEmpty(s, t, draws);
    forall n | n in s.queues
      ensures AlignedQueues(s.queues[n], RestoreQueue(EmptyQueue(DEFAULT_POLICY), ExportQueue(s.queues[n]), draws[n]),
                            KeptTags(s.queues[n].inflight))
    {
      RestoredLaneTagsIff(s.queues[n], s.issued, draws[n], t.issued, high);
      KeptTagsInOrder(s.queues[n].inflight);
    }
  }

  lemma KeptTagsInOrder(t: Tree<Message>)
    ensures TagsInOrder(Outstanding(t), KeptTags(t))
  {
  }

  /** The ids under which messages wait, in delivery order. */
  function WaitingIds(t: Tree<Message>): (ids: seq<u64>)
    ensures |ids| == |t|
  {
    seq(|t|, i requires 0 <= i < |t| => KeyId(t[i].key))
  }

  /** The restored ready messages wait under the ids drawn for them. */
  lemma RestoredIds(q: QueueState, issued: nat, d: Draws, low: nat, high: nat)
    requires QueueOk(q, issued) && Fits(ExportQueue(q), d) && DrawsBetween(d, low, high)
    ensures var q' := RestoreQueue(EmptyQueue(DEFAULT_POLICY), ExportQueue(q), d);
            |q'.main| == |q.main| && forall k | 0 <= k < |q'.main| :: KeyId(q'.main[k].key) == d.main[k]
  {
    LaneTreeDescending(q.main, issued);
    RestoredLayout(Values(q.main), d.main, low);
    forall k | 0 <= k < |q.main|
      ensures KeyId(Laid(Values(q.main), d.main)[k].key) == d.main[k]
    {
      KeyIdRoundTrip(q.main[k].val.priority, d.main[k]);
    }
  }

  /** The restored queue: the same messages, waiting under the ids drawn for them. */
  lemma RestoredWaits(s: Manager, t: Manager, draws: map<Name, Draws>, high: nat, q: Name)
    requires ManagerOk(s) && t.queues == map[] && q in s.queues
    requires forall n | n in s.queues ::
               n in draws && Fits(ExportQueue(s.queues[n]), draws[n]) && DrawsBetween(draws[n], t.issued, high)
    ensures var f := Restore(t, Export(s), draws, high);
            && q in f.queues
            && Values(f.queues[q].main) == Values(s.queues[q].main)
            && WaitingIds(f.queues[q].main) == draws[q].main
            && f.queues[q].inflight == s.queues[q].inflight
  {
    RestoredIntoEmpty(s, t, draws);
    assert QueueOk(s.queues[q], s.issued);
    hide QueueOk, DrawsBetween, RestoreQueue, RestoredQueues, KeyId;
    QueueRoundTrip(s.queues[q], s.issued, draws[q], t.issued, high);
    RestoredIds(s.queues[q], s.issued, draws[q], t.issued, high);
  }

  /** What a restore into an empty manager needs: ids drawn in order and clear of the preserved tags. */
  ghost predicate RestoresWell(s: Manager, t: Manager, draws: map<Name, Draws>, high: nat) {
    && ManagerOk(s) && s.maxBytes.None? && t.queues == map[] && t.maxBytes.None?
    && (forall n | n in s.queues :: n in draws && Fits(ExportQueue(s.queues[n]), draws[n]))
    && (forall n | n in s.queues ::
          DrawsBetween(draws[n], t.issued, high) && TagsClear(ExportQueue(s.queues[n]), draws[n], high))
  }

  /** What it needs for restarts besides: ids above the preserved tags of their lane. */
  ghost predicate RestoresAligned(s: Manager, draws: map<Name, Draws>)
    requires forall n | n in s.queues :: n in draws && Fits(ExportQueue(s.queues[n]), draws[n])
  {
    AllLaneTagsBelow(s) && forall n | n in s.queues :: DrawnAbove(ExportQueue(s.queues[n]), draws[n])
  }

  /** A snapshot preserves behaviour: over every pair of runs of the same operations, the restored manager
      answers as the original does, and tags that were outstanding when the snapshot was taken keep their names.
      Restarts are included if the new ids are above the preserved tags of their lanes. */
  lemma SnapshotPreservesBehaviour(
      ss1: seq<Manager>, es1: seq<Event>, ss2: seq<Manager>, es2: seq<Event>, rhos: seq<map<Name, Renaming>>,
      t: Manager, draws: map<Name, Draws>, high: nat, i: nat)
    requires PairedRuns(ss1, es1, ss2, es2, rhos) && i < |es1|
    requires RestoresWell(ss1[0], t, draws, high)
    requires ss2[0] == Restore(t, Export(ss1[0]), draws, high) && rhos[0] == AllKeptTags(ss1[0])
    requires RestoresAligned(ss1[0], draws) || forall k | 0 <= k < |es1| :: !es1[k].Reopening?
    ensures Alike(ss1[i], ss2[i], rhos[i]) && Enabled(ss1[i], es1[i]) && Enabled(ss2[i], es2[i])
    ensures if es1[i].Reopening? then es2[i].Reopening?
            else SameEvent(es1[i], es2[i], rhos[i]) &&
                 SameReply(ReplyTo(ss1[i], es1[i]), ReplyTo(ss2[i], es2[i]),
                           RenamingAfter(ss1[i], ss2[i], es1[i], rhos[i], es1[i].queue))
    ensures forall n | n in ss1[0].queues :: n in rhos[i] && Grows(KeptTags(ss1[0].queues[n].inflight), rhos[i][n])
  {
    hide PairedRuns, Alike, Aligned, Restore, SameEvent, SameReply, ReplyTo, RenamingAfter, Enabled, Grows, KeptTags;
    PairedLengths(ss1, es1, ss2, es2, rhos);
    RestoredManagerIsAlike(ss1[0], t, draws, high);
    if RestoresAligned(ss1[0], draws) { RestoredManagerIsAligned(ss1[0], t, draws, high); }
    RunsStayAlike(ss1, es1, ss2, es2, rhos, i);
    RunsReplyAlike(ss1, es1, ss2, es2, rhos, i);
  }
}
