/** A committed log is a run.  Each replicated operation is one engine event, or one for each message of a
    batch, and its answer is made of the replies to them; so what holds over every run holds of a replica. */
module LogRuns {
  import opened Bytes
  import opened Results
  import opened OrderedTree
  import opened Messages
  import opened Engine
  import opened Runs
  import opened Draw
  import opened WellFormed
  import opened Tags
  import opened StateMachine
  import opened Replica

  // ----- What carrying out an operation means -----

  /** The replies of a run, event by event. */
  ghost function Replies(ss: seq<Manager>, es: seq<Event>): (rs: seq<Reply>)
    requires IsRun(ss, es)
    ensures |rs| == |es|
  {
    seq(|es|, i requires 0 <= i < |es| => ReplyTo(ss[i], es[i]))
  }

  /** The events publish the messages of a batch from the `i`th on, up to the end or the first error. */
  ghost predicate PublishesBatch(q: Name, ms: seq<Message>, clock: Clock, i: nat, es: seq<Event>, rs: seq<Reply>,
                                 r: Result<seq<PublishOutcome>, PelicanError>)
    requires i <= |ms|
  {
    && |rs| == |es| <= |ms| - i
    && (forall k | 0 <= k < |es| ::
          es[k].Publishing? && es[k].queue == q && es[k].msg == ms[i + k] && es[k].clock == clock(i + k))
    && match r
       case Ok(outcomes) =>
         |outcomes| == |es| == |ms| - i && forall k | 0 <= k < |es| :: rs[k] == Published(Ok(outcomes[k]))
       case Err(error) =>
         && es != [] && rs[|es| - 1] == Published(Err(error))
         && forall k | 0 <= k < |es| - 1 :: rs[k].Published? && rs[k].published.Ok?
  }

  /** The events consume from a queue, up to the number asked for, the first empty answer or the first error. */
  ghost predicate ConsumesBatch(q: Name, max: nat, es: seq<Event>, rs: seq<Reply>,
                                r: Result<seq<(u64, Message)>, PelicanError>)
  {
    && |rs| == |es| <= max
    && (forall k | 0 <= k < |es| :: es[k] == Consuming(q))
    && match r
       case Ok(ds) =>
         && |ds| <= max && |es| == (if |ds| < max then |ds| + 1 else max)
         && (forall k | 0 <= k < |ds| :: rs[k] == Delivered(Ok(Some(ds[k]))))
         && (|ds| < max ==> rs[|ds|] == Delivered(Ok(None)))
       case Err(error) => es != [] && rs[|es| - 1] == Delivered(Err(error))
  }

  /** The events are those of the operation, and the replies to them make the answer. */
  ghost predicate Carries(op: QueueOperation, clock: Clock, es: seq<Event>, rs: seq<Reply>, r: QueueResponse) {
    match op
    case DeclareOp(n, policy) =>
      es == [Declaring(n, policy)] && r.DeclareResp? && rs == [Declared(r.declared)]
    case PublishOp(q, m) =>
      && |es| == 1 && es[0].Publishing? && es[0].queue == q && es[0].msg == m && es[0].clock == clock(0)
      && r.PublishResp? && rs == [Published(r.published)]
    case PublishBatchOp(q, ms) => r.PublishBatchResp? && PublishesBatch(q, ms, clock, 0, es, rs, r.batch)
    case ConsumeOp(q) => es == [Consuming(q)] && r.ConsumeResp? && rs == [Delivered(r.delivered)]
    case ConsumeBatchOp(q, max) => r.ConsumeBatchResp? && ConsumesBatch(q, max, es, rs, r.deliveries)
    case AckOp(q, tag) => es == [Acking(q, tag)] && r.AckResp? && rs == [Settled(r.acked)]
    case NackOp(q, tag) =>
      && |es| == 1 && es[0].Nacking? && es[0].queue == q && es[0].tag == tag
      && r.NackResp? && rs == [Settled(r.nacked)]
    case RetentionOp(q) => es == [Retaining(q, clock(0).due)] && r.RetentionResp? && rs == [Counted(r.removed)]
    case PromoteOp(q) =>
      && |es| == 1 && es[0].Promoting? && es[0].queue == q && es[0].now == clock(0).due
      && r.PromoteResp? && rs == [Counted(r.promoted)]
  }

  // ----- One operation -----

  lemma RunOfNone(s: Manager)
    ensures IsRun([s], []) && Replies([s], []) == []
  {
  }

  lemma RunOfOne(s: Manager, e: Event)
    requires Admissible(s, e)
    ensures IsRun([s, Next(s, e)], [e]) && Replies([s, Next(s, e)], [e]) == [ReplyTo(s, e)]
  {
    hide Enabled, FreshIds, Next, ReplyTo;
  }

  lemma RunFirst(s: Manager, e: Event, ss: seq<Manager>, es: seq<Event>)
    requires Admissible(s, e) && IsRun(ss, es) && ss[0] == Next(s, e)
    ensures IsRun([s] + ss, [e] + es) && Replies([s] + ss, [e] + es) == [ReplyTo(s, e)] + Replies(ss, es)
  {
    hide Enabled, FreshIds, Next, ReplyTo;
    forall i | 0 <= i < |[e] + es|
      ensures var t, f := ([s] + ss)[i], ([e] + es)[i]; Admissible(t, f) && ([s] + ss)[i + 1] == Next(t, f)
    {
      if i > 0 { RunAt(ss, es, i - 1); }
    }
  }

  lemma RunsJoin(ss: seq<Manager>, es: seq<Event>, ss': seq<Manager>, es': seq<Event>)
    requires IsRun(ss, es) && IsRun(ss', es') && ss'[0] == ss[|es|]
    ensures IsRun(ss + ss'[1..], es + es')
    ensures Replies(ss + ss'[1..], es + es') == Replies(ss, es) + Replies(ss', es')
  {
    hide Enabled, FreshIds, Next, ReplyTo;
    var all, evs := ss + ss'[1..], es + es';
    forall i | 0 <= i < |evs|
      ensures Admissible(all[i], evs[i]) && all[i + 1] == Next(all[i], evs[i])
    {
      if i < |es| { RunAt(ss, es, i); } else { RunAt(ss', es', i - |es|); }
    }
  }

  lemma PublishesOneMore(q: Name, ms: seq<Message>, clock: Clock, i: nat, e: Event, o: PublishOutcome,
                         es: seq<Event>, rs: seq<Reply>, r: Result<seq<PublishOutcome>, PelicanError>)
    requires i < |ms| && PublishesBatch(q, ms, clock, i + 1, es, rs, r)
    requires e.Publishing? && e.queue == q && e.msg == ms[i] && e.clock == clock(i)
    ensures PublishesBatch(q, ms, clock, i, [e] + es, [Published(Ok(o))] + rs,
                           if r.Ok? then Ok([o] + r.value) else r)
  {
  }

  lemma PublishFails(q: Name, ms: seq<Message>, clock: Clock, i: nat, e: Event, error: PelicanError)
    requires i < |ms| && e.Publishing? && e.queue == q && e.msg == ms[i] && e.clock == clock(i)
    ensures PublishesBatch(q, ms, clock, i, [e], [Published(Err(error))], Err(error))
  {
  }

  lemma ConsumesOneMore(q: Name, max: nat, d: (u64, Message), es: seq<Event>, rs: seq<Reply>,
                        r: Result<seq<(u64, Message)>, PelicanError>)
    requires ConsumesBatch(q, max, es, rs, r)
    ensures ConsumesBatch(q, max + 1, [Consuming(q)] + es, [Delivered(Ok(Some(d)))] + rs,
                          if r.Ok? then Ok([d] + r.value) else r)
  {
  }

  lemma ConsumeEnds(q: Name, max: nat, r: Delivery)
    requires max > 0 && (r.Err? || r.value.None?)
    ensures ConsumesBatch(q, max, [Consuming(q)], [Delivered(r)], if r.Err? then Err(r.error) else Ok([]))
  {
  }

  lemma PublishGrows(s: Manager, q: Name, m: Message, clock: Readings, id: u64)
    ensures s.issued <= Publish(s, q, m, clock, id).0.issued
  {
    hide Insert, EncodeKey, EncodeScheduledKey, IsDuplicate, RecordsDedup, OverLimit;
  }

  lemma {:induction false} PublishAllGrows(s: Manager, q: Name, ms: seq<Message>, clock: Clock, i: nat, gen: nat -> u64)
    requires i <= |ms|
    ensures s.issued <= PublishAll(s, q, ms, clock, i, gen).0.issued
    decreases |ms| - i
  {
    hide Publish;
    if i < |ms| {
      var (s', r) := Publish(s, q, ms[i], clock(i), gen(s.issued));
      PublishGrows(s, q, ms[i], clock(i), gen(s.issued));
      if r.Ok? { PublishAllGrows(s', q, ms, clock, i + 1, gen); }
    }
  }

  lemma {:induction false} PublishAllIsARun(s: Manager, q: Name, ms: seq<Message>, clock: Clock, i: nat,
                                            gen: nat -> u64)
    returns (ss: seq<Manager>, es: seq<Event>)
    requires Ascending(gen) && i <= |ms| && PublishAll(s, q, ms, clock, i, gen).0.issued < TWO_64
    ensures IsRun(ss, es) && ss[0] == s && ss[|es|] == PublishAll(s, q, ms, clock, i, gen).0
    ensures PublishesBatch(q, ms, clock, i, es, Replies(ss, es), PublishAll(s, q, ms, clock, i, gen).1)
    decreases |ms| - i
  {
    hide Publish;
    if i == |ms| {
      ss, es := [s], [];
      RunOfNone(s);
    } else {
      PublishAllGrows(s, q, ms, clock, i, gen);
      var e := Publishing(q, ms[i], clock(i), gen(s.issued));
      assert Admissible(s, e);
      var (s', r) := Publish(s, q, ms[i], clock(i), gen(s.issued));
      assert Next(s, e) == s' && ReplyTo(s, e) == Published(r);
      hide IsRun, Next, Admissible, ReplyTo, Replies, PublishesBatch;
      if r.Err? {
        ss, es := [s, s'], [e];
        RunOfOne(s, e);
        PublishFails(q, ms, clock, i, e, r.error);
      } else {
        var ss', es' := PublishAllIsARun(s', q, ms, clock, i + 1, gen);
        ss, es := [s] + ss', [e] + es';
        RunFirst(s, e, ss', es');
        PublishesOneMore(q, ms, clock, i, e, r.value, es', Replies(ss', es'),
                         PublishAll(s', q, ms, clock, i + 1, gen).1);
      }
    }
  }

  lemma {:induction false} ConsumeUpToIsARun(s: Manager, q: Name, max: nat) returns (ss: seq<Manager>, es: seq<Event>)
    ensures IsRun(ss, es) && ss[0] == s && ss[|es|] == ConsumeUpTo(s, q, max).0
    ensures ConsumesBatch(q, max, es, Replies(ss, es), ConsumeUpTo(s, q, max).1)
    decreases max
  {
    hide Consume;
    if max == 0 {
      ss, es := [s], [];
      RunOfNone(s);
    } else {
      var e := Consuming(q);
      var (s', r) := Consume(s, q);
      assert Admissible(s, e) && Next(s, e) == s' && ReplyTo(s, e) == Delivered(r);
      hide IsRun, Next, Admissible, ReplyTo, Replies, ConsumesBatch;
      if r.Err? || r.value.None? {
        ss, es := [s, s'], [e];
        RunOfOne(s, e);
        ConsumeEnds(q, max, r);
      } else {
        var ss', es' := ConsumeUpToIsARun(s', q, max - 1);
        ss, es := [s] + ss', [e] + es';
        RunFirst(s, e, ss', es');
        ConsumesOneMore(q, max - 1, r.value.value, es', Replies(ss', es'), ConsumeUpTo(s', q, max - 1).1);
      }
    }
  }

  /** The event that a single operation is. */
  ghost function EventOf(s: Manager, op: QueueOperation, clock: Clock, gen: nat -> u64): Event
    requires !op.PublishBatchOp? && !op.ConsumeBatchOp?
  {
    match op
    case DeclareOp(n, policy) => Declaring(n, policy)
    case PublishOp(q, m) => Publishing(q, m, clock(0), gen(s.issued))
    case ConsumeOp(q) => Consuming(q)
    case AckOp(q, tag) => Acking(q, tag)
    case NackOp(q, tag) => Nacking(q, tag, gen(s.issued))
    case RetentionOp(q) => Retaining(q, clock(0).due)
    case PromoteOp(q) => Promoting(q, clock(0).due, DueIds(s, q, clock(0).due, gen))
  }

  lemma EventIsAdmissible(s: Manager, op: QueueOperation, clock: Clock, gen: nat -> u64)
    requires !op.PublishBatchOp? && !op.ConsumeBatchOp?
    requires Ascending(gen) && s.issued < TWO_64 && ApplyOp(s, op, clock, gen).0.issued < TWO_64
    ensures Admissible(s, EventOf(s, op, clock, gen))
  {
    if op.PromoteOp? && op.queue in s.queues {
      var n := DueCount(s.queues[op.queue].scheduled, clock(0).due);
      if n > 0 { DrawOneMore(gen, s.issued, n - 1); }
      DrawnIdsAreFresh(gen, s.issued, n);
    }
  }

  lemma EventIsTheOperation(s: Manager, op: QueueOperation, clock: Clock, gen: nat -> u64)
    requires !op.PublishBatchOp? && !op.ConsumeBatchOp? && Enabled(s, EventOf(s, op, clock, gen))
    ensures var e := EventOf(s, op, clock, gen);
            && Next(s, e) == ApplyOp(s, op, clock, gen).0
            && Carries(op, clock, [e], [ReplyTo(s, e)], ApplyOp(s, op, clock, gen).1)
  {
    hide Declare, Publish, Consume, Ack, Nack, Promote, ApplyRetention, DueIds;
  }

  /** While ids last, every replicated operation is a run of the engine that carries it out. */
  lemma OperationIsARun(s: Manager, op: QueueOperation, clock: Clock, gen: nat -> u64)
    returns (ss: seq<Manager>, es: seq<Event>)
    requires Ascending(gen) && s.issued < TWO_64 && ApplyOp(s, op, clock, gen).0.issued < TWO_64
    ensures IsRun(ss, es) && ss[0] == s && ss[|es|] == ApplyOp(s, op, clock, gen).0
    ensures Carries(op, clock, es, Replies(ss, es), ApplyOp(s, op, clock, gen).1)
  {
    hide PublishAll, ConsumeUpTo, IsRun, Replies, PublishesBatch, ConsumesBatch;
    match op
    case PublishBatchOp(q, ms) => ss, es := PublishAllIsARun(s, q, ms, clock, 0, gen);
    case ConsumeBatchOp(q, max) => ss, es := ConsumeUpToIsARun(s, q, max);
    case _ =>
      EventIsAdmissible(s, op, clock, gen);
      hide ApplyOp, Carries, Next, ReplyTo, EventOf, Enabled, FreshIds;
      var e := EventOf(s, op, clock, gen);
      EventIsTheOperation(s, op, clock, gen);
      RunOfOne(s, e);
      ss, es := [s, Next(s, e)], [e];
  }

  // ----- Whole logs -----

  lemma OperationGrows(s: Manager, op: QueueOperation, clock: Clock, gen: nat -> u64)
    ensures s.issued <= ApplyOp(s, op, clock, gen).0.issued
  {
    hide StoreMessage, Return, TakeFirst, PromoteDue, Retained, Recount;
    match op
    case PublishBatchOp(q, ms) => PublishAllGrows(s, q, ms, clock, 0, gen);
    case ConsumeBatchOp(q, max) => ConsumeUpToDrawsNone(s, q, max);
    case PromoteOp(q) =>
      if q in s.queues { BumpAllBounds(s.issued, DueIds(s, q, clock(0).due, gen)); }
    case _ =>
  }

  lemma {:induction false} ConsumeUpToDrawsNone(s: Manager, q: Name, max: nat)
    ensures ConsumeUpTo(s, q, max).0.issued == s.issued
    decreases max
  {
    hide TakeFirst;
    if max > 0 { ConsumeUpToDrawsNone(Consume(s, q).0, q, max - 1); }
  }

  lemma {:induction false} EntriesGrow(st: ReplicaState, es: seq<LogEntry>, clocks: seq<Clock>, gen: nat -> u64)
    requires |clocks| == |es|
    ensures st.manager.issued <= ApplyEntries(st, es, clocks, gen).0.manager.issued
    decreases |es|
  {
    hide ApplyOp;
    if es != [] {
      if es[0].payload.Normal? { OperationGrows(st.manager, es[0].payload.op, clocks[0], gen); }
      EntriesGrow(ApplyEntry(st, es[0], clocks[0], gen).0, es[1..], clocks[1..], gen);
    }
  }

  /** The events of one log entry: those of its operation, or none. */
  ghost predicate CarriesEntry(e: LogEntry, clock: Clock, es: seq<Event>, rs: seq<Reply>, r: QueueResponse) {
    if e.payload.Normal? then Carries(e.payload.op, clock, es, rs, r) else es == [] && r == AckResp(Ok(()))
  }

  /** The part of the run from `a` to `b` carries out the entry. */
  ghost predicate CarriesPart(e: LogEntry, clock: Clock, r: QueueResponse, evs: seq<Event>, rs: seq<Reply>,
                              a: nat, b: nat)
  {
    a <= b <= |evs| == |rs| && CarriesEntry(e, clock, evs[a..b], rs[a..b], r)
  }

  /** The run carries out the log: cut at the given places, its parts are the events of the entries. */
  ghost predicate CarriesLog(es: seq<LogEntry>, clocks: seq<Clock>, answers: seq<QueueResponse>, ss: seq<Manager>,
                             evs: seq<Event>, cuts: seq<nat>)
  {
    && |clocks| == |answers| == |es| && IsRun(ss, evs)
    && |cuts| == |es| + 1 && cuts[0] == 0 && cuts[|es|] == |evs|
    && forall k | 0 <= k < |es| ::
         CarriesPart(es[k], clocks[k], answers[k], evs, Replies(ss, evs), cuts[k], cuts[k + 1])
  }

  lemma EntryIsARun(st: ReplicaState, e: LogEntry, clock: Clock, gen: nat -> u64)
    returns (ss: seq<Manager>, es: seq<Event>)
    requires Ascending(gen) && st.manager.issued < TWO_64 && ApplyEntry(st, e, clock, gen).0.manager.issued < TWO_64
    ensures IsRun(ss, es) && ss[0] == st.manager && ss[|es|] == ApplyEntry(st, e, clock, gen).0.manager
    ensures CarriesEntry(e, clock, es, Replies(ss, es), ApplyEntry(st, e, clock, gen).1)
  {
    hide ApplyOp, Carries, IsRun, Replies;
    if e.payload.Normal? {
      ss, es := OperationIsARun(st.manager, e.payload.op, clock, gen);
    } else {
      ss, es := [st.manager], [];
      RunOfNone(st.manager);
    }
  }

  lemma CarriesOneMore(es: seq<LogEntry>, clocks: seq<Clock>, answers: seq<QueueResponse>, ss: seq<Manager>,
                       evs: seq<Event>, cuts: seq<nat>, e: LogEntry, clock: Clock, r: QueueResponse,
                       ss': seq<Manager>, evs': seq<Event>)
    requires CarriesLog(es, clocks, answers, ss, evs, cuts) && IsRun(ss', evs') && ss'[0] == ss[|evs|]
    requires CarriesEntry(e, clock, evs', Replies(ss', evs'), r)
    ensures CarriesLog(es + [e], clocks + [clock], answers + [r], ss + ss'[1..], evs + evs',
                       cuts + [|evs| + |evs'|])
  {
    hide IsRun, Replies, CarriesEntry, CarriesPart;
    RunsJoin(ss, evs, ss', evs');
    var events, rs := evs + evs', Replies(ss, evs) + Replies(ss', evs');
    var cuts' := cuts + [|evs| + |evs'|];
    forall k | 0 <= k < |es + [e]|
      ensures CarriesPart((es + [e])[k], (clocks + [clock])[k], (answers + [r])[k], events, rs, cuts'[k], cuts'[k + 1])
    {
      if k < |es| {
        assert CarriesPart(es[k], clocks[k], answers[k], evs, Replies(ss, evs), cuts[k], cuts[k + 1]);
        PartStays(es[k], clocks[k], answers[k], evs, Replies(ss, evs), cuts[k], cuts[k + 1], evs', Replies(ss', evs'));
      } else {
        LastPart(e, clock, r, evs, Replies(ss, evs), evs', Replies(ss', evs'));
      }
    }
  }

  lemma PartStays(e: LogEntry, clock: Clock, r: QueueResponse, evs: seq<Event>, rs: seq<Reply>, a: nat, b: nat,
                  evs': seq<Event>, rs': seq<Reply>)
    requires CarriesPart(e, clock, r, evs, rs, a, b) && |evs'| == |rs'|
    ensures CarriesPart(e, clock, r, evs + evs', rs + rs', a, b)
  {
    assert (evs + evs')[a..b] == evs[a..b] && (rs + rs')[a..b] == rs[a..b];
  }

  lemma LastPart(e: LogEntry, clock: Clock, r: QueueResponse, evs: seq<Event>, rs: seq<Reply>, evs': seq<Event>,
                 rs': seq<Reply>)
    requires |evs| == |rs| && |evs'| == |rs'| && CarriesEntry(e, clock, evs', rs', r)
    ensures CarriesPart(e, clock, r, evs + evs', rs + rs', |evs|, |evs| + |evs'|)
  {
    assert (evs + evs')[|evs|..] == evs' && (rs + rs')[|evs|..] == rs';
    assert (evs + evs')[|evs|..|evs| + |evs'|] == evs' && (rs + rs')[|evs|..|evs| + |evs'|] == rs';
  }

  lemma OneEntryMore(st: ReplicaState, es: seq<LogEntry>, clocks: seq<Clock>, gen: nat -> u64)
    requires |clocks| == |es| > 0
    ensures var last := |es| - 1;
            var (st', rs) := ApplyEntries(st, es[..last], clocks[..last], gen);
            var (st'', r) := ApplyEntry(st', es[last], clocks[last], gen);
            ApplyEntries(st, es, clocks, gen) == (st'', rs + [r])
  {
    hide ApplyEntry;
    var last := |es| - 1;
    EntriesConcat(st, es[..last], [es[last]], clocks[..last], [clocks[last]], gen);
    assert es[..last] + [es[last]] == es && clocks[..last] + [clocks[last]] == clocks;
    var st' := ApplyEntries(st, es[..last], clocks[..last], gen).0;
    var (st'', r) := ApplyEntry(st', es[last], clocks[last], gen);
    assert ApplyEntries(st'', [], [], gen) == (st'', []);
    assert [es[last]][1..] == [] && [clocks[last]][1..] == [];
    assert [r] + [] == [r];
  }

  /** While ids last, applying a log is a run of the engine: entry by entry its events carry out the operations,
      the replies make the answers, and it ends in the state the replica ends in. */
  lemma {:induction false} LogIsARun(st: ReplicaState, es: seq<LogEntry>, clocks: seq<Clock>, gen: nat -> u64)
    returns (ss: seq<Manager>, evs: seq<Event>, cuts: seq<nat>)
    requires |clocks| == |es| && Ascending(gen) && ApplyEntries(st, es, clocks, gen).0.manager.issued < TWO_64
    ensures CarriesLog(es, clocks, ApplyEntries(st, es, clocks, gen).1, ss, evs, cuts) && IsRun(ss, evs)
    ensures ss[0] == st.manager && ss[|evs|] == ApplyEntries(st, es, clocks, gen).0.manager
    decreases |es|
  {
    if es == [] {
      ss, evs, cuts := [st.manager], [], [0];
      RunOfNone(st.manager);
    } else {
      hide ApplyEntries, ApplyEntry, CarriesEntry, CarriesLog, Replies, Admissible, Next;
      var last := |es| - 1;
      OneEntryMore(st, es, clocks, gen);
      var (st', rs) := ApplyEntries(st, es[..last], clocks[..last], gen);
      MarksBefore(st', es[last], clocks[last], gen);
      var ss0, evs0, cuts0 := LogIsARun(st, es[..last], clocks[..last], gen);
      var ss1, evs1 := EntryIsARun(st', es[last], clocks[last], gen);
      CarriesOneMore(es[..last], clocks[..last], rs, ss0, evs0, cuts0, es[last], clocks[last],
                     ApplyEntry(st', es[last], clocks[last], gen).1, ss1, evs1);
      ss, evs, cuts := ss0 + ss1[1..], evs0 + evs1, cuts0 + [|evs0| + |evs1|];
      assert es[..last] + [es[last]] == es && clocks[..last] + [clocks[last]] == clocks;
    }
  }

  lemma MarksBefore(st: ReplicaState, e: LogEntry, clock: Clock, gen: nat -> u64)
    ensures st.manager.issued <= ApplyEntry(st, e, clock, gen).0.manager.issued
  {
    hide ApplyOp;
    if e.payload.Normal? { OperationGrows(st.manager, e.payload.op, clock, gen); }
  }

  // ----- What follows from runs -----

  /** While ids last, every replicated operation keeps the manager well-formed. */
  lemma OperationKeepsOk(s: Manager, op: QueueOperation, clock: Clock, gen: nat -> u64)
    requires ManagerOk(s) && Ascending(gen) && s.issued < TWO_64 && ApplyOp(s, op, clock, gen).0.issued < TWO_64
    ensures ManagerOk(ApplyOp(s, op, clock, gen).0)
  {
    hide ManagerOk, ApplyOp, Carries, Admissible, Next;
    var ss, es := OperationIsARun(s, op, clock, gen);
    RunKeepsOk(ss, es, |es|);
  }

  /** And so does every log. */
  lemma LogKeepsOk(st: ReplicaState, es: seq<LogEntry>, clocks: seq<Clock>, gen: nat -> u64)
    requires |clocks| == |es| && Ascending(gen) && ApplyEntries(st, es, clocks, gen).0.manager.issued < TWO_64
    requires ManagerOk(st.manager)
    ensures ManagerOk(ApplyEntries(st, es, clocks, gen).0.manager)
  {
    hide ManagerOk, ApplyEntries, CarriesLog, Admissible, Next;
    var ss, evs, cuts := LogIsARun(st, es, clocks, gen);
    RunKeepsOk(ss, evs, |evs|);
  }

  /** The `a`th delivery in the answer to an entry is from queue `q` under the tag. */
  ghost predicate AnswerDelivers(e: LogEntry, r: QueueResponse, q: Name, tag: u64, a: nat) {
    && e.payload.Normal?
    && match e.payload.op
       case ConsumeOp(n) =>
         && n == q && a == 0 && r.ConsumeResp? && r.delivered.Ok? && r.delivered.value.Some?
         && r.delivered.value.value.0 == tag
       case ConsumeBatchOp(n, _) =>
         && n == q && r.ConsumeBatchResp? && r.deliveries.Ok? && a < |r.deliveries.value|
         && r.deliveries.value[a].0 == tag
       case _ => false
  }

  lemma DeliveryInPart(e: LogEntry, clock: Clock, r: QueueResponse, evs: seq<Event>, rs: seq<Reply>, from: nat, to: nat,
                       q: Name, tag: u64, a: nat)
    requires CarriesPart(e, clock, r, evs, rs, from, to) && AnswerDelivers(e, r, q, tag, a)
    ensures from + a < to && evs[from + a] == Consuming(q)
    ensures var d := rs[from + a]; d.Delivered? && d.delivered.Ok? && d.delivered.value.Some?
                                   && d.delivered.value.value.0 == tag
  {
    assert evs[from..to][a] == evs[from + a] && rs[from..to][a] == rs[from + a];
  }

  lemma {:induction false} CutsAscend(es: seq<LogEntry>, clocks: seq<Clock>, answers: seq<QueueResponse>,
                                      ss: seq<Manager>, evs: seq<Event>, cuts: seq<nat>, i: nat, j: nat)
    requires CarriesLog(es, clocks, answers, ss, evs, cuts) && i <= j <= |es|
    ensures cuts[i] <= cuts[j]
    decreases j
  {
    hide IsRun, Replies, CarriesEntry;
    if i < j {
      CutsAscend(es, clocks, answers, ss, evs, cuts, i, j - 1);
      assert CarriesPart(es[j - 1], clocks[j - 1], answers[j - 1], evs, Replies(ss, evs), cuts[j - 1], cuts[j - 1 + 1]);
    }
  }

  lemma AnswerIsADelivery(es: seq<LogEntry>, clocks: seq<Clock>, answers: seq<QueueResponse>, ss: seq<Manager>,
                          evs: seq<Event>, cuts: seq<nat>, i: nat, q: Name, tag: u64, a: nat)
    requires CarriesLog(es, clocks, answers, ss, evs, cuts) && i < |es| && AnswerDelivers(es[i], answers[i], q, tag, a)
    ensures cuts[i] + a < cuts[i + 1] <= |evs| && DeliversTag(ss, evs, cuts[i] + a, q, tag)
  {
    hide CarriesEntry, AnswerDelivers, ReplyTo, Next, Admissible;
    assert CarriesPart(es[i], clocks[i], answers[i], evs, Replies(ss, evs), cuts[i], cuts[i + 1]);
    DeliveryInPart(es[i], clocks[i], answers[i], evs, Replies(ss, evs), cuts[i], cuts[i + 1], q, tag, a);
  }

  /** Over a whole log, whatever its operations, a replica hands out each tag of a queue at most once. */
  lemma LogDeliversTagOnce(st: ReplicaState, es: seq<LogEntry>, clocks: seq<Clock>, gen: nat -> u64, q: Name, tag: u64,
                           i: nat, a: nat, j: nat, b: nat)
    requires |clocks| == |es| && Ascending(gen) && ApplyEntries(st, es, clocks, gen).0.manager.issued < TWO_64
    requires ManagerOk(st.manager) && i < |es| && j < |es| && |ApplyEntries(st, es, clocks, gen).1| == |es|
    requires AnswerDelivers(es[i], ApplyEntries(st, es, clocks, gen).1[i], q, tag, a)
    requires AnswerDelivers(es[j], ApplyEntries(st, es, clocks, gen).1[j], q, tag, b)
    ensures i == j && a == b
  {
    hide ManagerOk, ApplyEntries, AnswerDelivers, IsRun, CarriesPart, DeliversTag, Replies;
    var ss, evs, cuts := LogIsARun(st, es, clocks, gen);
    var answers := ApplyEntries(st, es, clocks, gen).1;
    AnswerIsADelivery(es, clocks, answers, ss, evs, cuts, i, q, tag, a);
    AnswerIsADelivery(es, clocks, answers, ss, evs, cuts, j, q, tag, b);
    TagDeliveredOnce(ss, evs, cuts[i] + a, cuts[j] + b, q, tag);
    if i < j { CutsAscend(es, clocks, answers, ss, evs, cuts, i + 1, j); }
    if j < i { CutsAscend(es, clocks, answers, ss, evs, cuts, j + 1, i); }
  }
}
