/** The interpreter of replicated operations: what one log entry does to the queue manager. */
module StateMachine {
  import opened Bytes
  import opened Results
  import opened OrderedTree
  import opened Messages
  import opened Engine
  import opened Runs
  import opened Draw
  import opened WellFormed

  datatype QueueOperation =
    | DeclareOp(name: Name, policy: RetentionPolicy)
    | PublishOp(queue: Name, message: Message)
    | PublishBatchOp(queue: Name, messages: seq<Message>)
    | ConsumeOp(queue: Name)
    | ConsumeBatchOp(queue: Name, max: nat)
    | AckOp(queue: Name, tag: u64)
    | NackOp(queue: Name, tag: u64)
    | RetentionOp(queue: Name)
    | PromoteOp(queue: Name)

  datatype QueueResponse =
    | DeclareResp(declared: Result<(), PelicanError>)
    | PublishResp(published: Outcome)
    | PublishBatchResp(batch: Result<seq<PublishOutcome>, PelicanError>)
    | ConsumeResp(delivered: Delivery)
    | ConsumeBatchResp(deliveries: Result<seq<(u64, Message)>, PelicanError>)
    | AckResp(acked: Result<(), PelicanError>)
    | NackResp(nacked: Result<(), PelicanError>)
    | RetentionResp(removed: Result<nat, PelicanError>)
    | PromoteResp(promoted: Result<nat, PelicanError>)

  /** The clock readings an operation may take: one triple for each message it publishes. */
  type Clock = nat -> Readings

  function PublishAll(s: Manager, q: Name, ms: seq<Message>, clock: Clock, i: nat, gen: nat -> u64)
    : (Manager, Result<seq<PublishOutcome>, PelicanError>)
    requires i <= |ms|
    decreases |ms| - i
  {
    if i == |ms| then (s, Ok([]))
    else
      var (s', r) := Publish(s, q, ms[i], clock(i), gen(s.issued));
      if r.Err? then (s', Err(r.error))
      else
        var (s'', rs) := PublishAll(s', q, ms, clock, i + 1, gen);
        (s'', if rs.Ok? then Ok([r.value] + rs.value) else rs)
  }

  function ConsumeUpTo(s: Manager, q: Name, max: nat): (Manager, Result<seq<(u64, Message)>, PelicanError>)
    decreases max
  {
    if max == 0 then (s, Ok([]))
    else
      var (s', r) := Consume(s, q);
      if r.Err? then (s', Err(r.error))
      else if r.value.None? then (s', Ok([]))
      else
        var (s'', rs) := ConsumeUpTo(s', q, max - 1);
        (s'', if rs.Ok? then Ok([r.value.value] + rs.value) else rs)
  }

  function DueIds(s: Manager, q: Name, now: millis, gen: nat -> u64): (ids: seq<u64>)
    ensures q in s.queues ==> |ids| == DueCount(s.queues[q].scheduled, now)
  {
    if q in s.queues then DrawIds(gen, s.issued, DueCount(s.queues[q].scheduled, now)) else []
  }

  ghost function ApplyOp(s: Manager, op: QueueOperation, clock: Clock, gen: nat -> u64): (Manager, QueueResponse) {
    match op
    case DeclareOp(n, policy) => var (s', r) := Declare(s, n, policy); (s', DeclareResp(r))
    case PublishOp(q, m) => var (s', r) := Publish(s, q, m, clock(0), gen(s.issued)); (s', PublishResp(r))
    case PublishBatchOp(q, ms) => var (s', r) := PublishAll(s, q, ms, clock, 0, gen); (s', PublishBatchResp(r))
    case ConsumeOp(q) => var (s', r) := Consume(s, q); (s', ConsumeResp(r))
    case ConsumeBatchOp(q, max) => var (s', r) := ConsumeUpTo(s, q, max); (s', ConsumeBatchResp(r))
    case AckOp(q, tag) => var (s', r) := Ack(s, q, tag); (s', AckResp(r))
    case NackOp(q, tag) => var (s', r) := Nack(s, q, tag, gen(s.issued)); (s', NackResp(r))
    case RetentionOp(q) => var (s', r) := ApplyRetention(s, q, clock(0).due); (s', RetentionResp(r))
    case PromoteOp(q) =>
      var now := clock(0).due;
      var (s', r) := Promote(s, q, now, DueIds(s, q, now, gen));
      (s', PromoteResp(r))
  }

  // ----- Batches -----

  /** The tags and messages of a run of entries, in delivery order. */
  function Deliveries(t: Tree<Message>): seq<(u64, Message)> {
    if t == [] then [] else [(KeyId(t[0].key), t[0].val)] + Deliveries(t[1..])
  }

  function AtMost(max: nat, n: nat): nat {
    if max <= n then max else n
  }

  /** A batch of consumes delivers the first messages in delivery order, as many as asked for or as there
      are, and leaves the rest. */
  lemma {:induction false} ConsumeBatchTakesTheFront(s: Manager, q: Name, max: nat)
    requires q in s.queues
    ensures var (s', r) := ConsumeUpTo(s, q, max);
            var main := s.queues[q].main;
            var n := AtMost(max, |main|);
            && r == Ok(Deliveries(main[..n]))
            && q in s'.queues && s'.queues[q].main == main[n..]
    decreases max
  {
    hide Consume, KeyId, Deliveries;
    var main := s.queues[q].main;
    if max == 0 || main == [] {
      assert main[0..] == main && main[..0] == [];
      NoDeliveries();
      if max > 0 { ConsumeNone(s, q); }
    } else {
      ConsumeOne(s, q);
      FrontShift(main, max);
      hide AtMost;
      ConsumeBatchTakesTheFront(Consume(s, q).0, q, max - 1);
    }
  }

  lemma NoDeliveries()
    ensures Deliveries([]) == []
  {
  }

  lemma FrontShift(main: Tree<Message>, max: nat)
    requires max > 0 && main != []
    ensures var n, rest := AtMost(max, |main|), main[1..];
            && 0 < n <= |main| && AtMost(max - 1, |rest|) == n - 1
            && rest[n - 1..] == main[n..]
            && Deliveries(main[..n]) == [(KeyId(main[0].key), main[0].val)] + Deliveries(rest[..n - 1])
  {
    var n := AtMost(max, |main|);
    assert main[..n][1..] == main[1..][..n - 1];
  }

  lemma ConsumeNone(s: Manager, q: Name)
    requires q in s.queues && s.queues[q].main == []
    ensures Consume(s, q) == (s, Ok(None))
  {
  }

  lemma ConsumeOne(s: Manager, q: Name)
    requires q in s.queues && s.queues[q].main != []
    ensures var (s', r) := Consume(s, q);
            && r == Ok(Some((KeyId(s.queues[q].main[0].key), s.queues[q].main[0].val)))
            && q in s'.queues && s'.queues[q].main == s.queues[q].main[1..]
  {
  }

  /** A failed batch of publishes keeps the messages before the failing one: they are stored as if they had
      been published alone. */
  lemma {:induction false} FailedBatchKeepsPrefix(s: Manager, q: Name, ms: seq<Message>, clock: Clock, i: nat,
                                                  gen: nat -> u64)
    returns (k: nat)
    requires i <= |ms| && PublishAll(s, q, ms, clock, i, gen).1.Err?
    ensures i <= k < |ms|
    ensures PublishAll(s, q, ms[..k], clock, i, gen).1.Ok?
    ensures PublishAll(s, q, ms[..k], clock, i, gen).0 == PublishAll(s, q, ms, clock, i, gen).0
    decreases |ms| - i
  {
    var (s', r) := Publish(s, q, ms[i], clock(i), gen(s.issued));
    if r.Err? {
      k := i;
    } else {
      k := FailedBatchKeepsPrefix(s', q, ms, clock, i + 1, gen);
      assert ms[..k][i] == ms[i];
    }
  }
}
