/** Messages, queue policies, outcomes and errors. */
module Messages {
  import opened Bytes
  import opened Results

  type Name = string

  /** `headers` are listed in the order in which the hash map yields them; strings are their UTF-8 bytes. */
  datatype Message = Message(
    id: nat,
    payload: seq<byte>,
    headers: seq<(seq<byte>, seq<byte>)>,
    timestamp: i64,
    attempts: u32,
    priority: byte,
    deliverAt: Option<i64>,
    dedupKey: Option<Key>)

  datatype RetentionPolicy = RetentionPolicy(
    maxAgeSecs: Option<u64>,
    maxMessages: Option<u64>,
    maxDeliveryAttempts: Option<u32>,
    dedupWindowSecs: Option<u64>)

  const DEFAULT_POLICY := RetentionPolicy(None, None, None, None)

  datatype PublishOutcome = Stored(id: nat) | Deduplicated

  datatype PelicanError =
    | QueueNotFound(queue: Name)
    | QueueAlreadyExists(queue: Name)
    | InvalidDeliveryTag(tag: u64)
    | StorageLimitExceeded(usedPct: byte, limitPct: byte)

  /** The lane in which a message is delivered. */
  function Lane(m: Message): (c: nat)
    ensures c <= 9
  {
    Class(m.priority)
  }

  /** `delivery_attempts += 1` on a u32. */
  function Nacked(m: Message): (m': Message) {
    m.(attempts := (m.attempts + 1) % TWO_32)
  }

  /** A message with its delivery attempts forgotten: what stays the same for its whole life. */
  function Identity(m: Message): (m': Message) {
    m.(attempts := 0)
  }

  function HeaderBytes(hs: seq<(seq<byte>, seq<byte>)>): nat {
    if hs == [] then 0 else 8 + |hs[0].0| + 8 + |hs[0].1| + HeaderBytes(hs[1..])
  }

  /** Length of the bincode encoding: fixed-width integers, eight-byte lengths, one-byte option tags. */
  function EncodedLen(m: Message): nat {
    (8 + 16) + (8 + |m.payload|) + (8 + HeaderBytes(m.headers)) + 8 + 4 + 1
    + (if m.deliverAt.Some? then 9 else 1)
    + (if m.dedupKey.Some? then 9 + |m.dedupKey.value| else 1)
  }

  /** The sum of a weight over a list of messages. */
  function Sum(f: Message -> nat, ms: seq<Message>): nat {
    if ms == [] then 0 else f(ms[0]) + Sum(f, ms[1..])
  }

  /** `(secs as i64) * 1000` */
  function MillisOf(secs: u64): (ms: i64)
    ensures secs * 1000 < TWO_63 ==> ms == secs * 1000
  {
    WrapI64(WrapI64(secs) * 1000)
  }

  /** Seconds that do not fit as milliseconds in an i64 wrap, all 64 bits of the product being kept. */
  lemma MillisOfWraps(secs: u64, ms: i64, turns: int)
    requires ms == secs * 1000 - turns * TWO_64
    ensures MillisOf(secs) == ms
  {
    if secs < TWO_63 {
      WrapIsTheTurn(secs * 1000, ms, turns);
    } else {
      WrapIsTheTurn(secs, secs - TWO_64, 1);
      WrapIsTheTurn((secs - TWO_64) * 1000, ms, turns - 1000);
    }
  }
}
