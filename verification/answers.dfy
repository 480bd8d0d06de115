/** What every operation answers, and what a publish is refused for, written out over runs. */
module Answers {
  import opened Bytes
  import opened Results
  import opened OrderedTree
  import opened Messages
  import opened Engine
  import opened Runs
  import opened WellFormed
  import opened Accounting
  import opened Snapshots

  // ----- Queues exist once declared -----

  /** The policy of the first declaration of a name among the first `i` events. */
  ghost function FirstPolicy(es: seq<Event>, n: Name, i: nat): Option<RetentionPolicy>
    requires i <= |es|
  {
    if i == 0 then None
    else if FirstPolicy(es, n, i - 1).Some? then FirstPolicy(es, n, i - 1)
    else if es[i - 1].Declaring? && es[i - 1].queue == n then Some(es[i - 1].policy)
    else None
  }

  /** The answer to a declaration and what it adds: nothing if the name is taken, else one queue with the given
      policy and nothing in it. */
  lemma DeclareIsExact(s: Manager, n: Name, policy: RetentionPolicy)
    ensures var (s', r) := Declare(s, n, policy);
            && (n in s.queues ==> r == Err(QueueAlreadyExists(n)) && s' == s)
            && (n !in s.queues ==>
                  && r == Ok(()) && s'.queues.Keys == s.queues.Keys + {n}
                  && (forall k | k in s.queues :: s'.queues[k] == s.queues[k])
                  && s'.queues[n].policy == policy && Weight(s'.queues[n], One) == 0 && |s'.queues[n].dedup| == 0
                  && s'.issued == s.issued && s'.currentBytes == s.currentBytes && s'.maxBytes == s.maxBytes)
  {
  }

  /** Any other operation on an unknown name is refused under that name and changes nothing. */
  lemma UnknownQueueIsRefused(s: Manager, e: Event)
    requires Enabled(s, e) && !e.Reopening? && !e.Declaring? && e.queue !in s.queues
    ensures Next(s, e) == s
    ensures match e
            case Publishing(_, _, _, _) => ReplyTo(s, e) == Published(Err(QueueNotFound(e.queue)))
            case Consuming(_) => ReplyTo(s, e) == Delivered(Err(QueueNotFound(e.queue)))
            case Acking(_, _) => ReplyTo(s, e) == Settled(Err(QueueNotFound(e.queue)))
            case Nacking(_, _, _) => ReplyTo(s, e) == Settled(Err(QueueNotFound(e.queue)))
            case Promoting(_, _, _) => ReplyTo(s, e) == Counted(Err(QueueNotFound(e.queue)))
            case Retaining(_, _) => ReplyTo(s, e) == Counted(Err(QueueNotFound(e.queue)))
  {
  }

  /** An ack or nack of a tag that is not outstanding is refused under that tag and touches no queue and no
      counter; the nack has drawn an id all the same. */
  lemma UnknownTagIsRefused(s: Manager, n: Name, tag: u64, id: u64)
    requires n in s.queues && Get(s.queues[n].inflight, Be64(tag)) == None && s.issued <= id
    ensures Ack(s, n, tag) == (s, Err(InvalidDeliveryTag(tag)))
    ensures Nack(s, n, tag, id) == (s.(issued := id + 1), Err(InvalidDeliveryTag(tag)))
  {
  }

  /** In a run from an empty manager a queue exists exactly if its name was declared, and its policy is for
      ever that of the first declaration. */
  lemma {:induction false} ExistsIffDeclared(ss: seq<Manager>, es: seq<Event>, n: Name, i: nat)
    requires IsRun(ss, es) && i <= |es| && ss[0].queues == map[]
    ensures n in ss[i].queues <==> FirstPolicy(es, n, i).Some?
    ensures n in ss[i].queues ==> FirstPolicy(es, n, i) == Some(ss[i].queues[n].policy)
  {
    hide IsRun, Enabled, FreshIds;
    if i > 0 {
      ExistsIffDeclared(ss, es, n, i - 1);
      RunAt(ss, es, i - 1);
      NamesAfter(ss[i - 1], es[i - 1], n);
    }
  }

  lemma NamesAfter(s: Manager, e: Event, n: Name)
    requires Admissible(s, e)
    ensures n in s.queues ==> n in Next(s, e).queues && Next(s, e).queues[n].policy == s.queues[n].policy
    ensures n !in s.queues ==>
              && (n in Next(s, e).queues <==> e.Declaring? && e.queue == n)
              && (n in Next(s, e).queues ==> Next(s, e).queues[n].policy == e.policy)
  {
    hide StoreMessage, TakeFirst, Return, PromoteDue, Retained, Recover, DueCount, Recount;
    if n in s.queues { PolicyStays(s, e, n); }
  }

  lemma PolicyStays(s: Manager, e: Event, n: Name)
    requires Admissible(s, e) && n in s.queues
    ensures n in Next(s, e).queues && Next(s, e).queues[n].policy == s.queues[n].policy
  {
    ChangeIsLegal(s, e, n);
    ChangeIsNext(s, e, n);
    hide Next, ChangeOf, Insert, Remove, InsertAll, Retained, DueCount, Be64, EncodeKey, EncodeScheduledKey;
  }

  // ----- The byte limit -----

  /** The limit in force: the one given at the last restart. */
  ghost function LimitInForce(es: seq<Event>, initial: Option<nat>, i: nat): Option<nat>
    requires i <= |es|
  {
    if i == 0 then initial
    else if es[i - 1].Reopening? then es[i - 1].limit
    else LimitInForce(es, initial, i - 1)
  }

  lemma {:induction false} LimitIsTheLastGiven(ss: seq<Manager>, es: seq<Event>, i: nat)
    requires IsRun(ss, es) && i <= |es|
    ensures ss[i].maxBytes == LimitInForce(es, ss[0].maxBytes, i)
  {
    hide IsRun, Enabled, FreshIds, Next;
    if i > 0 {
      LimitIsTheLastGiven(ss, es, i - 1);
      RunAt(ss, es, i - 1);
      NextLimit(ss[i - 1], es[i - 1]);
    }
  }

  /** A percentage rounded down and cut to eight bits. */
  ghost predicate IsPercent(pct: byte, used: nat, max: nat) {
    if max == 0 then pct == 100
    else exists over: nat :: (pct + 0x100 * over) * max <= 100 * used < (pct + 0x100 * over + 1) * max
  }

  lemma UsedPctIsPercent(used: nat, max: nat)
    ensures IsPercent(UsedPct(used, max), used, max)
    ensures 0 < max && used <= max ==> UsedPct(used, max) * max <= 100 * used < (UsedPct(used, max) + 1) * max
  {
    if max > 0 {
      var whole := used * 100 / max;
      RoundsDown(used * 100, max);
      assert UsedPct(used, max) + 0x100 * (whole / 0x100) == whole;
      if used <= max { AtMostAll(whole, used, max); }
    }
  }

  lemma RoundsDown(a: nat, b: nat)
    requires b > 0
    ensures (a / b) * b <= a < (a / b + 1) * b
  {
    assert a == (a / b) * b + a % b;
  }

  lemma AtMostAll(whole: nat, used: nat, max: nat)
    requires whole * max <= 100 * used && used <= max && max > 0
    ensures whole <= 100
  {
  }

  /** A publish to a declared queue has three answers.  It is a duplicate if a window is set and its key was
      recorded less than the window ago; else it is refused if it does not fit, and stored if it does. */
  lemma PublishAnswerIs(s: Manager, n: Name, m: Message, clock: Readings, id: u64)
    requires n in s.queues
    ensures var r, q := Publish(s, n, m, clock, id).1, s.queues[n];
            var window := q.policy.dedupWindowSecs;
            var duplicate :=
              && window.Some? && 0 < window.value && m.dedupKey.Some? && Get(q.dedup, m.dedupKey.value).Some?
              && WrapI64(clock.check - MillisOf(window.value)) < Get(q.dedup, m.dedupKey.value).value;
            var full := s.maxBytes.Some? && s.currentBytes + EncodedLen(m) > s.maxBytes.value;
            if duplicate then r == Ok(Deduplicated)
            else if full then
              && r.Err? && r.error.StorageLimitExceeded? && r.error.limitPct == 100
              && IsPercent(r.error.usedPct, s.currentBytes, s.maxBytes.value)
            else r == Ok(Stored(m.id))
  {
    hide UsedPct, IsPercent, StoreMessage;
    if s.maxBytes.Some? { UsedPctIsPercent(s.currentBytes, s.maxBytes.value); }
  }

  /** In a run from an exact counter, a publish to a declared queue that is no duplicate is refused exactly if
      a limit is in force and the message, with all messages stored and eight bytes for each key recorded
      before the last recount, exceeds it. */
  lemma RefusedIff(ss: seq<Manager>, es: seq<Event>, i: nat)
    requires IsRun(ss, es) && ManagerOk(ss[0]) && Recount(ss[0].queues) == ss[0].currentBytes && i < |es|
    requires es[i].Publishing? && es[i].queue in ss[i].queues
    requires ReplyTo(ss[i], es[i]) != Published(Ok(Deduplicated))
    ensures var limit, queues := LimitInForce(es, ss[0].maxBytes, i), ss[i].queues;
            var counted := Total(queues, MessageBytes)
                           + 8 * (Total(queues, DedupKeys) - PendingKeys(ss, es, i)) + EncodedLen(es[i].msg);
            if limit.Some? && counted > limit.value
            then ReplyTo(ss[i], es[i]).published.Err? && ReplyTo(ss[i], es[i]).published.error.StorageLimitExceeded?
            else ReplyTo(ss[i], es[i]) == Published(Ok(Stored(es[i].msg.id)))
  {
    LimitIsTheLastGiven(ss, es, i);
    CounterLagsByNewKeys(ss, es, i);
    RecountSplits(ss[i].queues);
    RunAt(ss, es, i);
    hide IsRun, ManagerOk, Total, Recount, PendingKeys, LimitInForce, EncodedLen, Publish, Get, WrapI64, MillisOf;
    hide IsPercent, Next, DedupKeys, MessageBytes;
    PublishAnswerIs(ss[i], es[i].queue, es[i].msg, es[i].clock, es[i].id);
  }

  /** A restore counts again, whatever the counter said before: message by message and eight bytes a key. */
  lemma RestoreRecounts(t: Manager, snap: Snapshot, draws: map<Name, Draws>, high: nat)
    requires forall n | n in snap :: n in draws && Fits(snap[n], draws[n])
    ensures var f := Restore(t, snap, draws, high);
            && f.currentBytes == Total(f.queues, MessageBytes) + 8 * Total(f.queues, DedupKeys) && CountOk(f, 0)
            && f.issued == high && f.maxBytes == t.maxBytes
  {
    hide RestoreQueue, Total, Fits;
    RecountSplits(Restore(t, snap, draws, high).queues);
  }
}
