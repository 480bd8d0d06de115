/** Every run of a manager has a pair: a manager alike to it can do, step by step, what it does, as long as it
    has ids left. */
module Pairing {
  import opened Bytes
  import opened Results
  import opened Messages
  import opened Engine
  import opened Runs
  import opened WellFormed
  import opened Snapshots
  import opened Tags
  import opened Accounting
  import opened Renamings
  import opened Bisimulation
  import opened RestoredManager

  // ----- Operations -----

  function Consecutive(low: nat, n: nat): (ids: seq<u64>)
    requires low + n <= TWO_64
    ensures |ids| == n
  {
    seq(n, i requires 0 <= i < n => low + i)
  }

  /** The operation on the second manager that matches one on the first. */
  ghost function Matching(s2: Manager, e: Event, rho: map<Name, Renaming>): Event
    requires s2.issued < TWO_64
    requires e.Promoting? && e.queue in s2.queues ==>
               s2.issued + DueCount(s2.queues[e.queue].scheduled, e.now) <= TWO_64
  {
    match e
    case Publishing(q, m, clock, _) => Publishing(q, m, clock, s2.issued)
    case Acking(q, t) => Acking(q, MatchingTag(s2, q, t, rho))
    case Nacking(q, t, _) => Nacking(q, MatchingTag(s2, q, t, rho), s2.issued)
    case Promoting(q, now, _) =>
      Promoting(q, now, if q in s2.queues then Consecutive(s2.issued, DueCount(s2.queues[q].scheduled, now)) else [])
    case _ => e
  }

  /** The renamed tag; for any other the number itself, unless the second manager has handed it out, and then
      one that was never issued. */
  ghost function MatchingTag(s2: Manager, q: Name, t: u64, rho: map<Name, Renaming>): u64
    requires s2.issued < TWO_64
  {
    if q !in rho then t
    else if t in rho[q].there then rho[q].there[t]
    else if t !in rho[q].back then t
    else s2.issued
  }

  /** Until 64-bit ids run out, every operation on the first manager has a match on the second. */
  lemma EveryOperationHasAMatch(s1: Manager, s2: Manager, e: Event, rho: map<Name, Renaming>)
    requires Alike(s1, s2, rho) && Admissible(s1, e) && !e.Reopening? && s2.issued < TWO_64
    requires e.Publishing? ==> e.msg.dedupKey.None?
    requires e.Promoting? && e.queue in s2.queues ==>
               s2.issued + DueCount(s2.queues[e.queue].scheduled, e.now) <= TWO_64
    ensures Admissible(s2, Matching(s2, e, rho)) && SameEvent(e, Matching(s2, e, rho), rho)
  {
    hide QueueOk, SameMessages, SameDeliveries, OneToOne, DueCount, NotWaiting;
    if e.queue in rho {
      assert AlikeQueues(s1.queues[e.queue], s2.queues[e.queue], rho[e.queue], s1.issued, s2.issued);
    }
  }

  // ----- Restarts -----

  function InflightCount(q: QueueState): nat {
    |q.inflight|
  }

  /** Ids for every outstanding message of every queue, none of them twice. */
  lemma {:induction false} DrawForAll(queues: map<Name, QueueState>, low: nat) returns (drawn: map<Name, seq<u64>>)
    requires low + Total(queues, InflightCount) <= TWO_64
    ensures drawn.Keys == queues.Keys && DrawnApart(drawn)
    ensures forall n | n in queues :: |drawn[n]| == |queues[n].inflight| && AscendingFrom(drawn[n], low)
    ensures forall n, i | n in drawn && 0 <= i < |drawn[n]| :: drawn[n][i] < low + Total(queues, InflightCount)
    decreases queues.Keys
  {
    hide Total, DrawnApart;
    if queues.Keys == {} {
      drawn := map[];
      NothingApart();
    } else {
      var n :| n in queues;
      var mine := |queues[n].inflight|;
      TotalPick(queues, InflightCount, n);
      assert (queues - {n}).Keys < queues.Keys;
      var rest := DrawForAll(queues - {n}, low + mine);
      drawn := rest[n := Consecutive(low, mine)];
      OneMoreApart(rest, low, n, mine);
    }
  }

  lemma NothingApart()
    ensures DrawnApart(map[])
  {
  }

  lemma OneMoreApart(drawn: map<Name, seq<u64>>, low: nat, n: Name, mine: nat)
    requires DrawnApart(drawn) && n !in drawn && low + mine <= TWO_64
    requires forall m | m in drawn :: AscendingFrom(drawn[m], low + mine)
    ensures DrawnApart(drawn[n := Consecutive(low, mine)])
  {
    var ids := Consecutive(low, mine);
    forall m | m in drawn
      ensures NoneShared(ids, drawn[m]) && NoneShared(drawn[m], ids)
    {
      assert AscendingFrom(drawn[m], low + mine);
    }
    hide NoneShared, AscendingFrom;
  }

  /** And so has every restart without a byte limit. */
  lemma EveryRestartHasAMatch(s2: Manager, e: Event) returns (e2: Event)
    requires e.Reopening? && e.limit.None? && s2.issued + Total(s2.queues, InflightCount) <= TWO_64
    ensures Admissible(s2, e2) && SameRestart(e, e2)
    ensures Next(s2, e2).issued == s2.issued + Total(s2.queues, InflightCount)
  {
    hide Total;
    var drawn := DrawForAll(s2.queues, s2.issued);
    e2 := Reopening(None, drawn, s2.issued + Total(s2.queues, InflightCount));
  }

  // ----- Whole runs -----

  /** How many ids an event draws. */
  ghost function Needs(s: Manager, e: Event): nat {
    match e
    case Publishing(_, _, _, _) => 1
    case Nacking(_, _, _) => 1
    case Promoting(q, now, _) => if q in s.queues then DueCount(s.queues[q].scheduled, now) else 0
    case Reopening(_, _, _) => Total(s.queues, InflightCount)
    case _ => 0
  }

  ghost predicate IdsLast(s: Manager, e: Event) {
    s.issued < TWO_64 && s.issued + Needs(s, e) <= TWO_64
  }

  /** No deduplication key and no byte limit. */
  ghost predicate Unlimited(e: Event) {
    (e.Publishing? ==> e.msg.dedupKey.None?) && (e.Reopening? ==> e.limit.None?)
  }

  lemma ConsecutiveBump(low: nat, n: nat)
    requires low + n <= TWO_64
    ensures BumpAll(low, Consecutive(low, n)) == low + n
    decreases n
  {
    if n > 0 {
      assert Consecutive(low, n)[1..] == Consecutive(low + 1, n - 1);
      ConsecutiveBump(low + 1, n - 1);
    }
  }

  lemma MatchSpends(s2: Manager, e: Event, rho: map<Name, Renaming>)
    requires !e.Reopening? && IdsLast(s2, e) && Enabled(s2, Matching(s2, e, rho))
    ensures Next(s2, Matching(s2, e, rho)).issued <= s2.issued + Needs(s2, e)
  {
    hide StoreMessage, Nacked, PromoteDue, DueCount, Consecutive, MatchingTag;
    if e.Promoting? && e.queue in s2.queues {
      ConsecutiveBump(s2.issued, DueCount(s2.queues[e.queue].scheduled, e.now));
    }
  }

  /** Every step has a match that draws no more ids than it needs. */
  lemma EveryStepHasAMatch(s1: Manager, s2: Manager, e: Event, rho: map<Name, Renaming>) returns (e2: Event)
    requires Alike(s1, s2, rho) && Admissible(s1, e) && Unlimited(e) && IdsLast(s2, e)
    ensures Admissible(s2, e2) && SameStep(e, e2, rho)
    ensures Next(s2, e2).issued <= s2.issued + Needs(s2, e)
  {
    hide Alike, Admissible, Next, SameEvent, SameRestart, Total, DueCount;
    if e.Reopening? {
      e2 := EveryRestartHasAMatch(s2, e);
    } else {
      e2 := Matching(s2, e, rho);
      EveryOperationHasAMatch(s1, s2, e, rho);
      assert Enabled(s2, e2) by { assert Admissible(s2, e2); }
      MatchSpends(s2, e, rho);
    }
  }

  lemma PairOneMore(ss1: seq<Manager>, es1: seq<Event>, ss2: seq<Manager>, es2: seq<Event>,
                    rhos: seq<map<Name, Renaming>>, e1: Event, e2: Event)
    requires PairedRuns(ss1, es1, ss2, es2, rhos)
    requires Admissible(ss1[|es1|], e1) && Admissible(ss2[|es1|], e2) && SameStep(e1, e2, rhos[|es1|])
    requires Alike(ss1[|es1|], ss2[|es1|], rhos[|es1|])
    ensures PairedRuns(ss1 + [Next(ss1[|es1|], e1)], es1 + [e1], ss2 + [Next(ss2[|es1|], e2)], es2 + [e2],
                       rhos + [NextRho(ss1[|es1|], ss2[|es1|], e1, rhos[|es1|])])
  {
    hide SameStep, Enabled, FreshIds, Next, Alike, NextRho;
  }

  /** The second run follows the first to its end, or as far as its ids last; it draws no more than it needs. */
  ghost predicate FollowsWhileIdsLast(ss1: seq<Manager>, es1: seq<Event>, ss2: seq<Manager>, es2: seq<Event>,
                                      rhos: seq<map<Name, Renaming>>) {
    && |es2| <= |es1| && |ss1| == |es1| + 1
    && PairedRuns(ss1[..|es2| + 1], es1[..|es2|], ss2, es2, rhos)
    && (forall k | 0 <= k < |es2| :: ss2[k + 1].issued <= ss2[k].issued + Needs(ss2[k], es1[k]))
    && (|es2| < |es1| ==> !IdsLast(ss2[|es2|], es1[|es2|]))
  }

  /** Every run without deduplication keys and byte limits has a pair from a manager that is alike. */
  lemma {:induction false} EveryRunHasAPair(ss1: seq<Manager>, es1: seq<Event>, s2: Manager, rho: map<Name, Renaming>)
    returns (ss2: seq<Manager>, es2: seq<Event>, rhos: seq<map<Name, Renaming>>)
    requires IsRun(ss1, es1) && Alike(ss1[0], s2, rho) && forall k | 0 <= k < |es1| :: Unlimited(es1[k])
    requires Aligned(ss1[0], s2, rho) || forall k | 0 <= k < |es1| :: !es1[k].Reopening?
    ensures FollowsWhileIdsLast(ss1, es1, ss2, es2, rhos) && ss2[0] == s2 && rhos[0] == rho
    decreases |es1|
  {
    hide Alike, Aligned, Unlimited, IdsLast, Needs, Next, Admissible, SameStep;
    if es1 == [] {
      ss2, es2, rhos := [s2], [], [rho];
      assert ss1[..1] == ss1 && es1[..0] == [];
    } else {
      var last := |es1| - 1;
      var ss, es := ss1[..last + 1], es1[..last];
      assert IsRun(ss, es);
      ss2, es2, rhos := EveryRunHasAPair(ss, es, s2, rho);
      assert ss[..|es2| + 1] == ss1[..|es2| + 1] && es[..|es2|] == es1[..|es2|];
      if |es2| == last && IdsLast(ss2[last], es1[last]) {
        assert ss[..last + 1] == ss && es[..last] == es;
        ss2, es2, rhos := PairNext(ss1, es1, ss2, es2, rhos);
      }
    }
  }

  lemma PairNext(ss1: seq<Manager>, es1: seq<Event>, ss: seq<Manager>, es: seq<Event>, rs: seq<map<Name, Renaming>>)
    returns (ss2: seq<Manager>, es2: seq<Event>, rhos: seq<map<Name, Renaming>>)
    requires IsRun(ss1, es1) && es1 != [] && |es| == |es1| - 1 && PairedRuns(ss1[..|es1|], es1[..|es|], ss, es, rs)
    requires Alike(ss1[0], ss[0], rs[0])
    requires Aligned(ss1[0], ss[0], rs[0]) || forall k | 0 <= k < |es1| :: !es1[k].Reopening?
    requires forall k | 0 <= k < |es| :: ss[k + 1].issued <= ss[k].issued + Needs(ss[k], es1[k])
    requires Unlimited(es1[|es|]) && IdsLast(ss[|es|], es1[|es|])
    ensures FollowsWhileIdsLast(ss1, es1, ss2, es2, rhos) && ss2[0] == ss[0] && rhos[0] == rs[0]
  {
    hide Alike, Aligned, Unlimited, IdsLast, Needs, Next, NextRho, Enabled, FreshIds, SameStep, IsRun, PairedRuns;
    var k := |es|;
    RunAt(ss1, es1, k);
    PairedLengths(ss1[..k + 1], es1[..k], ss, es, rs);
    RunsStayAlike(ss1[..k + 1], es1[..k], ss, es, rs, k);
    var e2 := EveryStepHasAMatch(ss1[k], ss[k], es1[k], rs[k]);
    PairOneMore(ss1[..k + 1], es1[..k], ss, es, rs, es1[k], e2);
    ss2, es2, rhos := ss + [Next(ss[k], e2)], es + [e2], rs + [NextRho(ss1[k], ss[k], es1[k], rs[k])];
    assert ss1[..k + 1] + [Next(ss1[k], es1[k])] == ss1[..k + 2] && es1[..k] + [es1[k]] == es1[..k + 1];
  }

  /** One step is answered alike on both sides. */
  ghost predicate AnsweredAlike(s1: Manager, e1: Event, s2: Manager, e2: Event, rho: map<Name, Renaming>) {
    && Alike(s1, s2, rho) && Enabled(s1, e1) && Enabled(s2, e2)
    && if e1.Reopening? then e2.Reopening?
       else SameReply(ReplyTo(s1, e1), ReplyTo(s2, e2), RenamingAfter(s1, s2, e1, rho, e1.queue))
  }

  lemma PairAnswersAlike(ss1: seq<Manager>, es1: seq<Event>, ss2: seq<Manager>, es2: seq<Event>,
                         rhos: seq<map<Name, Renaming>>, i: nat)
    requires PairedRuns(ss1, es1, ss2, es2, rhos) && Alike(ss1[0], ss2[0], rhos[0]) && i < |es1|
    requires MayRestart(ss1, es1, ss2, rhos)
    ensures AnsweredAlike(ss1[i], es1[i], ss2[i], es2[i], rhos[i])
  {
    hide Alike, Aligned, PairedRuns, SameReply, ReplyTo, Enabled, RenamingAfter, MayRestart;
    RunsReplyAlike(ss1, es1, ss2, es2, rhos, i);
  }

  lemma AllAnsweredAlike(ss1: seq<Manager>, es1: seq<Event>, ss2: seq<Manager>, es2: seq<Event>,
                         rhos: seq<map<Name, Renaming>>)
    requires FollowsWhileIdsLast(ss1, es1, ss2, es2, rhos) && Alike(ss1[0], ss2[0], rhos[0])
    requires Aligned(ss1[0], ss2[0], rhos[0]) || forall k | 0 <= k < |es1| :: !es1[k].Reopening?
    ensures forall i | 0 <= i < |es2| :: AnsweredAlike(ss1[i], es1[i], ss2[i], es2[i], rhos[i])
  {
    hide Alike, Aligned, Needs, IdsLast, IsRun, PairedRuns, AnsweredAlike;
    PairedLengths(ss1[..|es2| + 1], es1[..|es2|], ss2, es2, rhos);
    forall i | 0 <= i < |es2|
      ensures AnsweredAlike(ss1[i], es1[i], ss2[i], es2[i], rhos[i])
    {
      PairAnswersAlike(ss1[..|es2| + 1], es1[..|es2|], ss2, es2, rhos, i);
    }
  }

  /** A manager restored from a snapshot can follow every later run of the original, as far as its ids last,
      and answers every step as the original did. */
  lemma RestoredManagerFollows(ss1: seq<Manager>, es1: seq<Event>, t: Manager, draws: map<Name, Draws>, high: nat)
    returns (ss2: seq<Manager>, es2: seq<Event>, rhos: seq<map<Name, Renaming>>)
    requires IsRun(ss1, es1) && RestoresWell(ss1[0], t, draws, high)
    requires forall k | 0 <= k < |es1| :: Unlimited(es1[k])
    requires RestoresAligned(ss1[0], draws) || forall k | 0 <= k < |es1| :: !es1[k].Reopening?
    ensures FollowsWhileIdsLast(ss1, es1, ss2, es2, rhos)
    ensures ss2[0] == Restore(t, Export(ss1[0]), draws, high) && rhos[0] == AllKeptTags(ss1[0])
    ensures forall i | 0 <= i < |es2| :: AnsweredAlike(ss1[i], es1[i], ss2[i], es2[i], rhos[i])
  {
    hide Alike, Aligned, Unlimited, Restore, AllKeptTags, Enabled, FreshIds, Next, FollowsWhileIdsLast, AnsweredAlike;
    RestoredManagerIsAlike(ss1[0], t, draws, high);
    if RestoresAligned(ss1[0], draws) { RestoredManagerIsAligned(ss1[0], t, draws, high); }
    ss2, es2, rhos := EveryRunHasAPair(ss1, es1, Restore(t, Export(ss1[0]), draws, high), AllKeptTags(ss1[0]));
    AllAnsweredAlike(ss1, es1, ss2, es2, rhos);
  }
}
