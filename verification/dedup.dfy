/** The deduplication index against the history of publishes. */
module Dedup {
  import opened Bytes
  import opened Results
  import opened OrderedTree
  import opened Messages
  import opened Engine
  import opened Runs
  import opened WellFormed

  /** Event `k` is a publish of `key` to queue `n` that was answered Stored. */
  ghost predicate StoredKey(ss: seq<Manager>, es: seq<Event>, n: Name, key: Key, k: nat)
    requires IsRun(ss, es) && k < |es|
  {
    && es[k].Publishing? && es[k].queue == n && es[k].msg.dedupKey == Some(key)
    && ReplyTo(ss[k], es[k]) == Published(Ok(Stored(es[k].msg.id)))
  }

  /** The reading recorded by the last such publish among the first `i` events. */
  ghost function LastRecord(ss: seq<Manager>, es: seq<Event>, n: Name, key: Key, i: nat): Option<i64>
    requires IsRun(ss, es) && i <= |es|
  {
    if i == 0 then None
    else if StoredKey(ss, es, n, key, i - 1) then Some(es[i - 1].clock.record)
    else LastRecord(ss, es, n, key, i - 1)
  }

  lemma IndexAfter(q: QueueState, c: Change)
    requires Legal(q, c)
    ensures Apply(q, c).policy == q.policy
    ensures Apply(q, c).dedup ==
            if c.Stores? && RecordsDedup(q, c.msg) then Insert(q.dedup, c.msg.dedupKey.value, c.clock.record)
            else q.dedup
  {
  }

  lemma ChangeOfIndex(q: QueueState, c: Change, key: Key)
    requires Sorted(q.dedup) && Legal(q, c)
    ensures Apply(q, c).policy == q.policy
    ensures Get(Apply(q, c).dedup, key) ==
            if c.Stores? && RecordsDedup(q, c.msg) && c.msg.dedupKey == Some(key) then Some(c.clock.record)
            else Get(q.dedup, key)
  {
    hide Apply, Legal, Insert;
    IndexAfter(q, c);
    if c.Stores? && RecordsDedup(q, c.msg) { GetInsert(q.dedup, c.msg.dedupKey.value, c.clock.record, key); }
  }

  /** With deduplication enabled, the index holds exactly the last recorded time of each key. */
  lemma {:induction false} IndexIsLastRecord(ss: seq<Manager>, es: seq<Event>, n: Name, key: Key, i: nat)
    requires IsRun(ss, es) && ManagerOk(ss[0]) && i <= |es|
    requires n in ss[0].queues && ss[0].queues[n].policy.dedupWindowSecs.Some? && !Has(ss[0].queues[n].dedup, key)
    ensures n in ss[i].queues && ss[i].queues[n].policy == ss[0].queues[n].policy
    ensures Get(ss[i].queues[n].dedup, key) == LastRecord(ss, es, n, key, i)
  {
    hide IsRun, Next, Legal, Apply, DrawnBetween, ManagerOk;
    if i > 0 {
      IndexIsLastRecord(ss, es, n, key, i - 1);
      QueueStep(ss, es, n, i - 1);
      RunQueueOk(ss, es, n, i - 1);
      ChangeOfIndex(ss[i - 1].queues[n], ChangeOf(ss[i - 1], es[i - 1], n), key);
    }
  }

  /** A queue without a window records no key: over every run its index stays as it was. */
  lemma {:induction false} NoWindowNoRecord(ss: seq<Manager>, es: seq<Event>, n: Name, i: nat)
    requires IsRun(ss, es) && i <= |es| && n in ss[0].queues && ss[0].queues[n].policy.dedupWindowSecs.None?
    ensures n in ss[i].queues && ss[i].queues[n].policy == ss[0].queues[n].policy
    ensures ss[i].queues[n].dedup == ss[0].queues[n].dedup
  {
    hide IsRun, Next, Legal, Apply, DrawnBetween, Insert;
    if i > 0 {
      NoWindowNoRecord(ss, es, n, i - 1);
      QueueStep(ss, es, n, i - 1);
      IndexAfter(ss[i - 1].queues[n], ChangeOf(ss[i - 1], es[i - 1], n));
    }
  }

  /** The last record is the latest: no earlier one carries a later time. */
  lemma {:induction false} LastRecordIsLatest(
      ss: seq<Manager>, es: seq<Event>, ts: seq<millis>, n: Name, key: Key, i: nat)
    requires IsRun(ss, es) && Timed(es, ts) && i <= |es|
    ensures var last := LastRecord(ss, es, n, key, i);
            && (last.Some? ==> exists k :: 0 <= k < i && StoredKey(ss, es, n, key, k)
                                            && es[k].clock.record == last.value)
            && (forall k | 0 <= k < i && StoredKey(ss, es, n, key, k) ::
                  last.Some? && es[k].clock.record <= last.value <= ts[i])
            && (last.Some? ==> last.value <= ts[i])
  {
    hide IsRun, ReplyTo;
    if i > 0 {
      LastRecordIsLatest(ss, es, ts, n, key, i - 1);
      assert ReadsWithin(es[i - 1], ts[i - 1], ts[i]) && ts[i - 1] <= ts[i];
      if StoredKey(ss, es, n, key, i - 1) {
        assert es[i - 1].clock.record <= ts[i];
      }
    }
  }

  /** A publish is answered Deduplicated exactly when an earlier publish of the same key to the same queue
      was stored and recorded less than the window ago. */
  lemma DeduplicatedIff(ss: seq<Manager>, es: seq<Event>, ts: seq<millis>, n: Name, key: Key, i: nat, w: u64)
    requires IsRun(ss, es) && ManagerOk(ss[0]) && Timed(es, ts) && i < |es|
    requires n in ss[0].queues && ss[0].queues[n].policy.dedupWindowSecs == Some(w) && !Has(ss[0].queues[n].dedup, key)
    requires 0 < w && w * 1000 < TWO_63
    requires es[i].Publishing? && es[i].queue == n && es[i].msg.dedupKey == Some(key)
    ensures ReplyTo(ss[i], es[i]) == Published(Ok(Deduplicated)) <==>
            exists k :: 0 <= k < i && StoredKey(ss, es, n, key, k)
                        && es[i].clock.check - es[k].clock.record < w * 1000
  {
    IndexIsLastRecord(ss, es, n, key, i);
    LastRecordIsLatest(ss, es, ts, n, key, i);
    assert Admissible(ss[i], es[i]);
    var now := es[i].clock.check;
    var last := LastRecord(ss, es, n, key, i);
    assert WrapI64(now - MillisOf(w)) == now - w * 1000;
    assert IsDuplicate(ss[i].queues[n], es[i].msg, now) <==> last.Some? && last.value > now - w * 1000;
    assert ReplyTo(ss[i], es[i]) == Published(Ok(Deduplicated)) <==> IsDuplicate(ss[i].queues[n], es[i].msg, now);
  }

  /** Any two stored publishes of one key are recorded at least the window apart. */
  lemma StoredKeysAreSpaced(ss: seq<Manager>, es: seq<Event>, ts: seq<millis>, n: Name, key: Key, k: nat, i: nat,
                            w: u64)
    requires IsRun(ss, es) && ManagerOk(ss[0]) && Timed(es, ts) && k < i < |es|
    requires n in ss[0].queues && ss[0].queues[n].policy.dedupWindowSecs == Some(w) && !Has(ss[0].queues[n].dedup, key)
    requires 0 < w && w * 1000 < TWO_63
    requires StoredKey(ss, es, n, key, k) && StoredKey(ss, es, n, key, i)
    ensures es[i].clock.record - es[k].clock.record >= w * 1000
  {
    DeduplicatedIff(ss, es, ts, n, key, i, w);
    assert ReadsWithin(es[i], ts[i], ts[i + 1]);
  }

  /** A publish that is not stored, be it a duplicate or over the byte limit, changes nothing at all. */
  lemma RejectedPublishChangesNothing(s: Manager, n: Name, m: Message, clock: Readings, id: u64)
    requires Publish(s, n, m, clock, id).1 != Ok(Stored(m.id))
    ensures Publish(s, n, m, clock, id).0 == s
    ensures Publish(s, n, m, clock, id).1.Err? ==>
              n !in s.queues || (s.maxBytes.Some? && s.currentBytes + EncodedLen(m) > s.maxBytes.value)
  {
  }
}
