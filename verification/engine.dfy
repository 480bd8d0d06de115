/** The queue engine as functions on values: one function per operation of the manager.

    Identifiers drawn from the database's generator and readings of the clock are arguments.
    `issued` is one more than the largest id drawn so far. */
module Engine {
  import opened Bytes
  import opened Results
  import opened OrderedTree
  import opened Messages

  /** The five trees of one queue and its policy. */
  datatype QueueState = QueueState(
    policy: RetentionPolicy,
    main: Tree<Message>,
    inflight: Tree<Message>,
    scheduled: Tree<Message>,
    dlq: Tree<Message>,
    dedup: Tree<i64>)

  datatype Manager = Manager(
    queues: map<Name, QueueState>,
    issued: nat,
    currentBytes: nat,
    maxBytes: Option<nat>)

  /** The three clock readings of one publish: at the duplicate check, at the schedule decision and
      when the deduplication key is recorded. */
  datatype Readings = Readings(check: millis, due: millis, record: millis)

  type Outcome = Result<PublishOutcome, PelicanError>
  type Delivery = Result<Option<(u64, Message)>, PelicanError>

  function EmptyQueue(policy: RetentionPolicy): QueueState {
    QueueState(policy, [], [], [], [], [])
  }

  function Bump(issued: nat, id: u64): nat {
    if id < issued then issued else id + 1
  }

  function BumpAll(issued: nat, ids: seq<u64>): nat
    decreases |ids|
  {
    if ids == [] then issued else BumpAll(Bump(issued, ids[0]), ids[1..])
  }

  // ----- Byte counts -----

  /** The weight of all messages of a queue. */
  function Weight(q: QueueState, f: Message -> nat): nat {
    Sum(f, Values(q.main)) + Sum(f, Values(q.inflight)) + Sum(f, Values(q.dlq)) + Sum(f, Values(q.scheduled))
  }

  function MessageBytes(q: QueueState): nat {
    Weight(q, EncodedLen)
  }

  /** A recorded deduplication time takes eight bytes. */
  function QueueBytes(q: QueueState): nat {
    MessageBytes(q) + 8 * |q.dedup|
  }

  /** The sum of a measure over all queues. */
  ghost function Total(queues: map<Name, QueueState>, g: QueueState -> nat): nat
    decreases queues.Keys
  {
    if queues == map[] then 0
    else
      var n :| n in queues;
      assert (queues - {n}).Keys < queues.Keys;
      g(queues[n]) + Total(queues - {n}, g)
  }

  /** `recalculate_bytes` */
  ghost function Recount(queues: map<Name, QueueState>): nat {
    Total(queues, QueueBytes)
  }

  // ----- Declare and publish -----

  function Declare(s: Manager, name: Name, policy: RetentionPolicy): (Manager, Result<(), PelicanError>) {
    if name in s.queues then (s, Err(QueueAlreadyExists(name)))
    else (s.(queues := s.queues[name := EmptyQueue(policy)]), Ok(()))
  }

  predicate IsDuplicate(q: QueueState, m: Message, now: millis) {
    && q.policy.dedupWindowSecs.Some?
    && q.policy.dedupWindowSecs.value > 0
    && m.dedupKey.Some?
    && var recorded := Get(q.dedup, m.dedupKey.value);
    && recorded.Some?
    && recorded.value > WrapI64(now - MillisOf(q.policy.dedupWindowSecs.value))
  }

  predicate RecordsDedup(q: QueueState, m: Message) {
    q.policy.dedupWindowSecs.Some? && m.dedupKey.Some?
  }

  predicate OverLimit(s: Manager, m: Message) {
    s.maxBytes.Some? && s.currentBytes + EncodedLen(m) > s.maxBytes.value
  }

  /** `(current_bytes * 100 / max) as u8` */
  function UsedPct(current: nat, max: nat): byte {
    if max > 0 then (current * 100 / max) % 0x100 else 100
  }

  function EnqueueMain(q: QueueState, m: Message, id: u64): QueueState {
    q.(main := Insert(q.main, EncodeKey(m.priority, id), m))
  }

  function RecordKey(q: QueueState, m: Message, now: millis): QueueState {
    if RecordsDedup(q, m) then q.(dedup := Insert(q.dedup, m.dedupKey.value, now)) else q
  }

  function StoreMessage(q: QueueState, m: Message, clock: Readings, id: u64): QueueState {
    var q' :=
      if m.deliverAt.Some? && m.deliverAt.value > clock.due then
        q.(scheduled := Insert(q.scheduled, EncodeScheduledKey(m.deliverAt.value, id), m))
      else
        EnqueueMain(q, m, id);
    RecordKey(q', m, clock.record)
  }

  function Publish(s: Manager, name: Name, m: Message, clock: Readings, id: u64): (Manager, Outcome) {
    if name !in s.queues then (s, Err(QueueNotFound(name)))
    else if IsDuplicate(s.queues[name], m, clock.check) then (s, Ok(Deduplicated))
    else if OverLimit(s, m) then
      (s, Err(StorageLimitExceeded(UsedPct(s.currentBytes, s.maxBytes.value), 100)))
    else
      (s.(queues := s.queues[name := StoreMessage(s.queues[name], m, clock, id)],
          issued := Bump(s.issued, id),
          currentBytes := s.currentBytes + EncodedLen(m)),
       Ok(Stored(m.id)))
  }

  // ----- Consume, ack, nack -----

  /** Moves the first entry of the main tree to the in-flight tree; the priority byte is dropped. */
  function TakeFirst(q: QueueState): QueueState
    requires q.main != []
  {
    q.(main := q.main[1..], inflight := Insert(q.inflight, Be64(KeyId(q.main[0].key)), q.main[0].val))
  }

  function Consume(s: Manager, name: Name): (Manager, Delivery) {
    if name !in s.queues then (s, Err(QueueNotFound(name)))
    else
      var q := s.queues[name];
      if q.main == [] then (s, Ok(None))
      else (s.(queues := s.queues[name := TakeFirst(q)]), Ok(Some((KeyId(q.main[0].key), q.main[0].val))))
  }

  function Ack(s: Manager, name: Name, tag: u64): (Manager, Result<(), PelicanError>) {
    if name !in s.queues then (s, Err(QueueNotFound(name)))
    else
      var q := s.queues[name];
      match Get(q.inflight, Be64(tag))
      case None => (s, Err(InvalidDeliveryTag(tag)))
      case Some(m) =>
        (s.(queues := s.queues[name := q.(inflight := Remove(q.inflight, Be64(tag)))],
            currentBytes := if EncodedLen(m) <= s.currentBytes then s.currentBytes - EncodedLen(m) else 0),
         Ok(()))
  }

  predicate Exhausted(policy: RetentionPolicy, m: Message) {
    policy.maxDeliveryAttempts.Some? && policy.maxDeliveryAttempts.value > 0
    && m.attempts >= policy.maxDeliveryAttempts.value
  }

  function Return(q: QueueState, tag: u64, m: Message, id: u64): QueueState {
    var m' := Nacked(m);
    var q' := q.(inflight := Remove(q.inflight, Be64(tag)));
    if Exhausted(q.policy, m') then q'.(dlq := Insert(q.dlq, EncodeKey(m'.priority, id), m'))
    else EnqueueMain(q', m', id)
  }

  /** The new id is drawn before the tag is looked up. */
  function Nack(s: Manager, name: Name, tag: u64, id: u64): (Manager, Result<(), PelicanError>) {
    if name !in s.queues then (s, Err(QueueNotFound(name)))
    else
      var q := s.queues[name];
      var s' := s.(issued := Bump(s.issued, id));
      match Get(q.inflight, Be64(tag))
      case None => (s', Err(InvalidDeliveryTag(tag)))
      case Some(m) => (s'.(queues := s.queues[name := Return(q, tag, m, id)]), Ok(()))
  }

  // ----- Promotion -----

  /** The number of leading entries whose key time has been reached: the scan stops at the first that has not. */
  function DueCount(t: Tree<Message>, now: millis): (n: nat)
    ensures n <= |t|
    ensures forall i | 0 <= i < n :: ScheduledTime(t[i].key) <= now
    ensures n < |t| ==> ScheduledTime(t[n].key) > now
  {
    if t == [] || ScheduledTime(t[0].key) > now then 0 else 1 + DueCount(t[1..], now)
  }

  /** Inserts messages one after the other under the ids drawn for them. */
  function InsertAll(t: Tree<Message>, ms: seq<Message>, ids: seq<u64>): Tree<Message>
    requires |ids| == |ms|
    decreases |ms|
  {
    if ms == [] then t
    else InsertAll(Insert(t, EncodeKey(ms[0].priority, ids[0]), ms[0]), ms[1..], ids[1..])
  }

  function PromoteDue(q: QueueState, now: millis, ids: seq<u64>): QueueState
    requires |ids| == DueCount(q.scheduled, now)
  {
    var n := DueCount(q.scheduled, now);
    q.(main := InsertAll(q.main, Values(q.scheduled[..n]), ids), scheduled := q.scheduled[n..])
  }

  function Promote(s: Manager, name: Name, now: millis, ids: seq<u64>): (Manager, Result<nat, PelicanError>)
    requires name in s.queues ==> |ids| == DueCount(s.queues[name].scheduled, now)
  {
    if name !in s.queues then (s, Err(QueueNotFound(name)))
    else
      (s.(queues := s.queues[name := PromoteDue(s.queues[name], now, ids)], issued := BumpAll(s.issued, ids)),
       Ok(|ids|))
  }

  // ----- Retention -----

  /** `now_ms - msg.timestamp >= max_age_ms` */
  predicate Expired(m: Message, now: millis, maxAge: i64) {
    WrapI64(now - m.timestamp) >= maxAge
  }

  function DropExpired(t: Tree<Message>, now: millis, maxAge: i64): (t': Tree<Message>)
    ensures |t'| <= |t|
  {
    if t == [] then []
    else (if Expired(t[0].val, now, maxAge) then [] else [t[0]]) + DropExpired(t[1..], now, maxAge)
  }

  function Retained(q: QueueState, now: millis): Tree<Message> {
    var young :=
      if q.policy.maxAgeSecs.Some? then DropExpired(q.main, now, MillisOf(q.policy.maxAgeSecs.value)) else q.main;
    if q.policy.maxMessages.Some? && |young| > q.policy.maxMessages.value then
      young[|young| - q.policy.maxMessages.value..]
    else young
  }

  ghost function ApplyRetention(s: Manager, name: Name, now: millis): (Manager, Result<nat, PelicanError>) {
    if name !in s.queues then (s, Err(QueueNotFound(name)))
    else
      var q := s.queues[name];
      var kept := Retained(q, now);
      var removed: nat := |q.main| - |kept|;
      var queues := s.queues[name := q.(main := kept)];
      (s.(queues := queues, currentBytes := if removed > 0 then Recount(queues) else s.currentBytes), Ok(removed))
  }

  // ----- Reopening -----

  /** Crash recovery of one queue: every in-flight message goes back to the main tree, in tag order. */
  function Recover(q: QueueState, ids: seq<u64>): QueueState
    requires |ids| == |q.inflight|
  {
    q.(main := InsertAll(q.main, Values(q.inflight), ids), inflight := [])
  }

  /** Opening a database: recount, then recover every queue under the ids drawn for it. */
  ghost function Reopen(s: Manager, limit: Option<nat>, ids: map<Name, seq<u64>>, issued: nat): Manager
    requires forall n | n in s.queues :: n in ids && |ids[n]| == |s.queues[n].inflight|
  {
    Manager(map n | n in s.queues :: Recover(s.queues[n], ids[n]), issued, Recount(s.queues), limit)
  }
}
