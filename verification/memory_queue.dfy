/** The in-memory queue of the repository, and its agreement with the engine on one priority level. */
module MemoryQueue {
  import opened Bytes
  import opened Results
  import opened OrderedTree
  import opened Messages
  import opened Engine
  import opened Runs
  import opened WellFormed
  import opened DeliveryOrder

  class Queue {
    const name: string
    var messages: seq<Message>

    constructor (name: string)
      ensures this.name == name && messages == []
    {
      this.name := name;
      messages := [];
    }

    method Publish(m: Message)
      modifies this
      ensures messages == AfterPublish(old(messages), m)
    {
      messages := messages + [m];
    }

    method Consume() returns (r: Option<Message>)
      modifies this
      ensures r == Front(old(messages)) && messages == AfterConsume(old(messages))
    {
      if messages == [] {
        r := None;
      } else {
        r := Some(messages[0]);
        messages := messages[1..];
      }
    }

    method Depth() returns (n: nat)
      ensures n == |messages|
    {
      n := |messages|;
    }
  }

  function AfterPublish(ms: seq<Message>, m: Message): seq<Message> {
    ms + [m]
  }

  function Front(ms: seq<Message>): Option<Message> {
    if ms == [] then None else Some(ms[0])
  }

  function AfterConsume(ms: seq<Message>): seq<Message> {
    if ms == [] then [] else ms[1..]
  }

  /** The events on which the two queues are comparable: to queue `n` only immediate publishes in lane `c`
      without a deduplication key, consumes, acks and declarations; to other queues anything. */
  ghost predicate Plain(e: Event, n: Name, c: nat) {
    && !e.Reopening?
    && (e.queue == n ==>
          || e.Consuming? || e.Acking? || e.Declaring?
          || (e.Publishing? && Lane(e.msg) == c && e.msg.deliverAt.None? && e.msg.dedupKey.None?))
  }

  ghost predicate AllInLane(ms: seq<Message>, c: nat) {
    forall i | 0 <= i < |ms| :: Lane(ms[i]) == c
  }

  function MemoryNext(ms: seq<Message>, e: Event, n: Name): seq<Message> {
    if e.Publishing? && e.queue == n then AfterPublish(ms, e.msg)
    else if e == Consuming(n) then AfterConsume(ms)
    else ms
  }

  /** What the engine answers when the in-memory queue of `n` holds `ms`. */
  ghost predicate Agrees(ms: seq<Message>, e: Event, n: Name, r: Reply) {
    && (e.Publishing? && e.queue == n ==> r == Published(Ok(Stored(e.msg.id))))
    && (e == Consuming(n) ==>
          && r.Delivered? && r.delivered.Ok?
          && Front(ms) == (if r.delivered.value.Some? then Some(r.delivered.value.value.1) else None))
  }

  lemma EnqueueInOneLane(ready: seq<Message>, m: Message)
    requires AllInLane(ready, Lane(m))
    ensures Enqueue(ready, m) == AfterPublish(ready, m)
  {
    BetweenEverything(ready, Lane(m), 9);
    BetweenNothing(ready, 0, Lane(m) - 1);
  }

  /** A step on the queue itself. */
  lemma OwnStepAgrees(s: Manager, e: Event, n: Name, c: nat)
    requires ManagerOk(s) && Admissible(s, e) && n in s.queues && s.maxBytes.None? && Plain(e, n, c) && e.queue == n
    requires AllInLane(Values(s.queues[n].main), c)
    ensures Agrees(Values(s.queues[n].main), e, n, ReplyTo(s, e)) && n in Next(s, e).queues
    ensures Values(Next(s, e).queues[n].main) == MemoryNext(Values(s.queues[n].main), e, n)
    ensures AllInLane(Values(Next(s, e).queues[n].main), c)
  {
    hide Insert, EncodeKey, QueueOk, Remove, Get, KeyId, Be64, Between, Enqueue, LaneTreeOk, Values;
    var q := s.queues[n];
    match e
    case Publishing(_, m, _, id) => OwnPublishAppends(q, s.issued, m, id, c);
    case Consuming(_) =>
      if q.main != [] { ValuesCons(q.main); } else { ValuesNone(q.main); }
    case _ =>
  }

  lemma ValuesNone(t: Tree<Message>)
    requires t == []
    ensures Values(t) == []
  {
  }

  lemma OwnPublishAppends(q: QueueState, issued: nat, m: Message, id: u64, c: nat)
    requires QueueOk(q, issued) && issued <= id && Lane(m) == c && AllInLane(Values(q.main), c)
    ensures Values(Insert(q.main, EncodeKey(m.priority, id), m)) == AfterPublish(Values(q.main), m)
    ensures AllInLane(AfterPublish(Values(q.main), m), c)
  {
    assert LaneTreeOk(q.main, issued);
    hide Insert, EncodeKey, QueueOk, LaneTreeOk, Between, Enqueue;
    InsertIsEnqueue(q.main, issued, m, id);
    EnqueueInOneLane(Values(q.main), m);
  }

  lemma StepAgrees(s: Manager, e: Event, n: Name, c: nat)
    requires ManagerOk(s) && Admissible(s, e) && n in s.queues && s.maxBytes.None? && Plain(e, n, c)
    requires AllInLane(Values(s.queues[n].main), c)
    ensures Agrees(Values(s.queues[n].main), e, n, ReplyTo(s, e))
    ensures n in Next(s, e).queues && Next(s, e).maxBytes.None?
    ensures Values(Next(s, e).queues[n].main) == MemoryNext(Values(s.queues[n].main), e, n)
    ensures AllInLane(Values(Next(s, e).queues[n].main), c)
  {
    hide Next, ReplyTo, ManagerOk, Enabled, FreshIds;
    NextLimit(s, e);
    if e.queue != n { OthersUntouched(s, e, n); } else { OwnStepAgrees(s, e, n, c); }
  }

  /** On runs of plain events the engine's queue is the in-memory queue: same contents, same answers. */
  lemma {:induction false} AgreesWithMemoryQueue(
      ss: seq<Manager>, es: seq<Event>, n: Name, c: nat, memory: seq<seq<Message>>, i: nat)
    requires IsRun(ss, es) && ManagerOk(ss[0]) && n in ss[0].queues && ss[0].maxBytes.None? && i < |ss|
    requires forall k | 0 <= k < |es| :: Plain(es[k], n, c)
    requires AllInLane(Values(ss[0].queues[n].main), c)
    requires |memory| == |ss| && memory[0] == Values(ss[0].queues[n].main)
    requires forall k | 0 <= k < |es| :: memory[k + 1] == MemoryNext(memory[k], es[k], n)
    ensures n in ss[i].queues && ss[i].maxBytes.None?
    ensures memory[i] == Values(ss[i].queues[n].main) && AllInLane(memory[i], c)
    ensures i < |es| ==> Agrees(memory[i], es[i], n, ReplyTo(ss[i], es[i]))
  {
    assert |ss| == |es| + 1;
    hide IsRun, Next, ReplyTo, ManagerOk, FreshIds, Agrees, MemoryNext, AllInLane, Plain;
    RunKeepsOk(ss, es, i);
    if i > 0 {
      AgreesWithMemoryQueue(ss, es, n, c, memory, i - 1);
      RunKeepsOk(ss, es, i - 1);
      RunAt(ss, es, i - 1);
      StepAgrees(ss[i - 1], es[i - 1], n, c);
    }
    if i < |es| {
      RunAt(ss, es, i);
      StepAgrees(ss[i], es[i], n, c);
    }
  }

  /** The messages published to queue `n` among the first `i` events. */
  function PublishedTo(es: seq<Event>, n: Name, i: nat): nat
    requires i <= |es|
  {
    if i == 0 then 0 else PublishedTo(es, n, i - 1) + if es[i - 1].Publishing? && es[i - 1].queue == n then 1 else 0
  }

  /** The consumes of queue `n` among the first `i` events that got a message. */
  function ConsumedFrom(es: seq<Event>, n: Name, memory: seq<seq<Message>>, i: nat): nat
    requires i <= |es| <= |memory|
  {
    if i == 0 then 0
    else ConsumedFrom(es, n, memory, i - 1) + if es[i - 1] == Consuming(n) && memory[i - 1] != [] then 1 else 0
  }

  /** The depth of the in-memory queue is what was in it plus what was published minus what was consumed. */
  lemma {:induction false} DepthBalances(es: seq<Event>, n: Name, memory: seq<seq<Message>>, i: nat)
    requires |memory| == |es| + 1 && i <= |es|
    requires forall k | 0 <= k < |es| :: memory[k + 1] == MemoryNext(memory[k], es[k], n)
    ensures |memory[i]| + ConsumedFrom(es, n, memory, i) == |memory[0]| + PublishedTo(es, n, i)
  {
    if i > 0 {
      DepthBalances(es, n, memory, i - 1);
      assert memory[i - 1 + 1] == MemoryNext(memory[i - 1], es[i - 1], n);
    }
  }
}
