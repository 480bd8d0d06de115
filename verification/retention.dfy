/** What a retention pass keeps, stated on the delivery order alone. */
module Retention {
  import opened Bytes
  import opened Results
  import opened OrderedTree
  import opened Messages
  import opened Engine
  import opened Runs
  import opened WellFormed
  import opened DeliveryOrder

  /** The messages younger than the limit, in their order. */
  function Younger(ms: seq<Message>, now: millis, maxAge: i64): seq<Message> {
    if ms == [] then []
    else (if Expired(ms[0], now, maxAge) then [] else [ms[0]]) + Younger(ms[1..], now, maxAge)
  }

  /** The last `n` messages: the excess is cut off at the delivery front. */
  function LastOf(ms: seq<Message>, n: nat): seq<Message> {
    if |ms| > n then ms[|ms| - n..] else ms
  }

  function Survivors(ms: seq<Message>, policy: RetentionPolicy, now: millis): seq<Message> {
    var young := if policy.maxAgeSecs.Some? then Younger(ms, now, MillisOf(policy.maxAgeSecs.value)) else ms;
    if policy.maxMessages.Some? then LastOf(young, policy.maxMessages.value) else young
  }

  /** The age test is the intended one exactly when the age fits in an i64.  An age that does not fit
      wraps to a negative number, so such a message counts as young. */
  lemma AgeTestIsExactIff(m: Message, now: millis, maxAgeSecs: u64)
    requires maxAgeSecs * 1000 < TWO_63
    ensures (Expired(m, now, MillisOf(maxAgeSecs)) <==> now - m.timestamp >= maxAgeSecs * 1000)
            <==> now - m.timestamp < TWO_63
  {
    if now - m.timestamp >= TWO_63 {
      assert WrapI64(now - m.timestamp) == now - m.timestamp - TWO_64;
    }
  }

  lemma {:induction false} DropExpiredValues(t: Tree<Message>, now: millis, maxAge: i64)
    ensures Values(DropExpired(t, now, maxAge)) == Younger(Values(t), now, maxAge)
    decreases |t|
  {
    if t != [] {
      DropExpiredValues(t[1..], now, maxAge);
      assert Values(t)[1..] == Values(t[1..]);
      var head := if Expired(t[0].val, now, maxAge) then [] else [t[0]];
      assert Values(head + DropExpired(t[1..], now, maxAge)) == Values(head) + Values(DropExpired(t[1..], now, maxAge));
    }
  }

  /** A message survives the age test exactly when it was there and is not expired. */
  lemma {:induction false} YoungerIff(ms: seq<Message>, now: millis, maxAge: i64, m: Message)
    ensures multiset(Younger(ms, now, maxAge))[m] == if Expired(m, now, maxAge) then 0 else multiset(ms)[m]
    decreases |ms|
  {
    if ms != [] {
      assert ms == [ms[0]] + ms[1..];
      YoungerIff(ms[1..], now, maxAge, m);
    }
  }

  /** Retention keeps, in delivery order, the last `max_messages` of the messages younger than
      `max_age_secs`, touches no other tree and reports the exact number of removals. */
  lemma RetentionIsExact(s: Manager, n: Name, now: millis)
    requires n in s.queues
    ensures var (s', r) := ApplyRetention(s, n, now);
            && n in s'.queues
            && Values(s'.queues[n].main) == Survivors(Values(s.queues[n].main), s.queues[n].policy, now)
            && s'.queues == s.queues[n := s.queues[n].(main := s'.queues[n].main)]
            && s'.issued == s.issued && s'.maxBytes == s.maxBytes
            && r == Ok(|s.queues[n].main| - |s'.queues[n].main|)
  {
    RetainedIsSurvivors(s.queues[n], now);
  }

  lemma RetainedIsSurvivors(q: QueueState, now: millis)
    ensures Values(Retained(q, now)) == Survivors(Values(q.main), q.policy, now)
  {
    if q.policy.maxAgeSecs.Some? { DropExpiredValues(q.main, now, MillisOf(q.policy.maxAgeSecs.value)); }
  }

  /** What the age pass leaves of the ready tree. */
  function Young(q: QueueState, now: millis): Tree<Message> {
    if q.policy.maxAgeSecs.Some? then DropExpired(q.main, now, MillisOf(q.policy.maxAgeSecs.value)) else q.main
  }

  /** Of the messages the age pass leaves, those cut off for number are the first in delivery order: every
      later one is kept, in a lane that is no higher and, within the lane, under a later id. */
  lemma ExcessIsFront(q: QueueState, issued: nat, now: millis, i: nat, j: nat)
    requires LaneTreeOk(q.main, issued)
    requires i < |Young(q, now)| - |Retained(q, now)| <= j < |Young(q, now)|
    ensures var young := Young(q, now);
            && young[j] in Retained(q, now) && young[i] !in Retained(q, now)
            && (Lane(young[i].val) > Lane(young[j].val)
                || (Lane(young[i].val) == Lane(young[j].val) && KeyId(young[i].key) < KeyId(young[j].key)))
  {
    var young, kept := Young(q, now), Retained(q, now);
    if q.policy.maxAgeSecs.Some? { DropExpiredOk(q.main, now, MillisOf(q.policy.maxAgeSecs.value), issued); }
    var cut := |young| - |kept|;
    assert kept == young[cut..];
    assert kept[j - cut] == young[j];
    LaneTreeOrder(young, issued, i, j);
    hide KeyId, Less;
    forall x | 0 <= x < |kept|
      ensures kept[x] != young[i]
    {
      assert kept[x] == young[cut + x];
    }
  }
}
