/** Crash recovery write by write.  A crash may strike between any two writes, any number of times;
    reopening starts over from whatever the trees then hold.  In one attempt a queue may also not be
    reached at all, which is a crash before its first write. */
module Recovery {
  import opened Bytes
  import opened OrderedTree
  import opened Messages
  import opened Engine
  import opened Runs
  import opened WellFormed
  import opened Conservation

  /** `entries` is the copy of the in-flight tree taken when the current attempt began. */
  datatype Progress = Progress(q: QueueState, issued: nat, entries: Tree<Message>, inserted: nat, removed: nat)

  datatype Action = Write(id: u64) | Erase | Crash

  function Start(q: QueueState, issued: nat): Progress {
    Progress(q, issued, q.inflight, 0, 0)
  }

  predicate Can(p: Progress, a: Action) {
    match a
    case Write(id) => p.inserted < |p.entries| && p.issued <= id
    case Erase => p.inserted == |p.entries| && p.removed < |p.entries|
    case Crash => true
  }

  function Do(p: Progress, a: Action): Progress
    requires Can(p, a)
  {
    match a
    case Write(id) =>
      p.(q := EnqueueMain(p.q, p.entries[p.inserted].val, id), issued := id + 1, inserted := p.inserted + 1)
    case Erase =>
      p.(q := p.q.(inflight := Remove(p.q.inflight, p.entries[p.removed].key)), removed := p.removed + 1)
    case Crash => Start(p.q, p.issued)
  }

  ghost predicate IsRecovery(ps: seq<Progress>, acts: seq<Action>, q: QueueState, issued: nat) {
    && |ps| == |acts| + 1 && ps[0] == Start(q, issued)
    && forall i | 0 <= i < |acts| :: Can(ps[i], acts[i]) && ps[i + 1] == Do(ps[i], acts[i])
  }

  predicate Completed(p: Progress) {
    p.inserted == |p.entries| == p.removed
  }

  /** The weight of the messages that are ready or in flight. */
  function Held(q: QueueState, f: Message -> nat): nat {
    Sum(f, Values(q.main)) + Sum(f, Values(q.inflight))
  }

  /** What every write keeps: the in-flight tree is what is left of the copy, nothing is erased before
      everything is inserted, and the main tree plus what is still to be inserted weighs `base`. */
  ghost predicate Midway(p: Progress, f: Message -> nat, base: nat) {
    && QueueOk(p.q, p.issued)
    && p.inserted <= |p.entries| && p.removed <= |p.entries|
    && (p.removed > 0 ==> p.inserted == |p.entries|)
    && p.q.inflight == p.entries[p.removed..]
    && Sum(f, Values(p.q.main)) + Sum(f, Values(p.entries[p.inserted..])) == base
  }

  lemma StartIsMidway(q: QueueState, issued: nat, f: Message -> nat)
    requires QueueOk(q, issued)
    ensures Midway(Start(q, issued), f, Held(q, f))
  {
    assert q.inflight[0..] == q.inflight;
  }

  lemma MidwayHolds(p: Progress, f: Message -> nat, base: nat)
    requires Midway(p, f, base)
    ensures Held(p.q, f) >= base
    ensures Completed(p) ==> p.q.inflight == [] && Sum(f, Values(p.q.main)) == base
  {
    if p.removed == 0 {
      assert p.entries == p.entries[..p.inserted] + p.entries[p.inserted..];
      ValuesConcat(p.entries[..p.inserted], p.entries[p.inserted..]);
      SumConcat(f, Values(p.entries[..p.inserted]), Values(p.entries[p.inserted..]));
      assert p.entries[0..] == p.entries;
    }
  }

  lemma WriteKeepsMidway(p: Progress, f: Message -> nat, base: nat, id: u64)
    requires Midway(p, f, base) && Can(p, Write(id))
    ensures Midway(Do(p, Write(id)), f, base)
  {
    hide Insert, EncodeKey, LaneTreeOk, TagTreeOk, IdsApart, ScheduleOk, Has;
    var m, rest := p.entries[p.inserted].val, p.entries[p.inserted..];
    EnqueueOk(p.q, p.issued, m, id);
    FreshKeyAbsent(p.q.main, p.issued, m, id);
    SumInsert(f, p.q.main, EncodeKey(m.priority, id), m);
    ValuesCons(rest);
    SumConcat(f, [m], Values(rest[1..]));
    assert rest[1..] == p.entries[p.inserted + 1..];
  }

  lemma EraseKeepsMidway(p: Progress, f: Message -> nat, base: nat)
    requires Midway(p, f, base) && Can(p, Erase)
    ensures Midway(Do(p, Erase), f, base)
  {
    var t := p.q.inflight;
    assert t[0] == p.entries[p.removed];
    RankAt(t, 0);
    assert Remove(t, t[0].key) == t[1..] == p.entries[p.removed + 1..];
    assert TagOk(t[0], p.issued);
    Be64Surjective(t[0].key);
    ReleaseOk(p.q, p.issued, FromBe64(t[0].key));
  }

  lemma RecoveryAt(ps: seq<Progress>, acts: seq<Action>, q: QueueState, issued: nat, i: nat)
    requires IsRecovery(ps, acts, q, issued) && i < |acts|
    ensures |ps| == |acts| + 1 && Can(ps[i], acts[i]) && ps[i + 1] == Do(ps[i], acts[i])
  {
    hide Can, Do;
  }

  lemma MidwayIsOk(p: Progress, f: Message -> nat, base: nat)
    requires Midway(p, f, base)
    ensures QueueOk(p.q, p.issued)
  {
    hide QueueOk, Sum;
  }

  /** Wherever recovery stands, after any number of crashes, nothing that was ready or in flight is lost. */
  lemma {:induction false} NothingLost(ps: seq<Progress>, acts: seq<Action>, q: QueueState, issued: nat,
                                       f: Message -> nat, i: nat) returns (base: nat)
    requires IsRecovery(ps, acts, q, issued) && QueueOk(q, issued) && i < |ps|
    ensures Midway(ps[i], f, base) && Held(q, f) <= base <= Held(ps[i].q, f)
    ensures (forall k | 0 <= k < i :: !acts[k].Crash?) ==> base == Held(q, f)
  {
    if i == 0 {
      StartIsMidway(q, issued, f);
      base := Held(q, f);
    } else {
      RecoveryAt(ps, acts, q, issued, i - 1);
      hide IsRecovery, Midway, Held, QueueOk, Can;
      var p, a := ps[i - 1], acts[i - 1];
      base := NothingLost(ps, acts, q, issued, f, i - 1);
      MidwayIsOk(p, f, base);
      match a {
        case Write(id) => WriteKeepsMidway(p, f, base, id);
        case Erase => EraseKeepsMidway(p, f, base);
        case Crash =>
          base := Held(p.q, f);
          StartIsMidway(p.q, p.issued, f);
      }
    }
    MidwayHolds(ps[i], f, base);
  }

  /** At-least-once: a recovery that completes, however often it was interrupted, leaves nothing in flight
      and every message that was ready or in flight ready again; without a crash, exactly once. */
  lemma CompletedRecoveryDeliversAll(ps: seq<Progress>, acts: seq<Action>, q: QueueState, issued: nat, x: Message)
    requires IsRecovery(ps, acts, q, issued) && QueueOk(q, issued) && Completed(ps[|acts|])
    ensures var q' := ps[|acts|].q;
            && q'.inflight == []
            && Sum(CopiesOf(x), Values(q'.main)) >= Held(q, CopiesOf(x))
            && ((forall k | 0 <= k < |acts| :: !acts[k].Crash?) ==>
                  Sum(CopiesOf(x), Values(q'.main)) == Held(q, CopiesOf(x)))
            && q'.scheduled == q.scheduled && q'.dlq == q.dlq && q'.dedup == q.dedup && q'.policy == q.policy
  {
    var base := NothingLost(ps, acts, q, issued, CopiesOf(x), |acts|);
    MidwayHolds(ps[|acts|], CopiesOf(x), base);
    OtherTreesKept(ps, acts, q, issued, |acts|);
  }

  lemma {:induction false} OtherTreesKept(ps: seq<Progress>, acts: seq<Action>, q: QueueState, issued: nat, i: nat)
    requires IsRecovery(ps, acts, q, issued) && i < |ps|
    ensures ps[i].q == q.(main := ps[i].q.main, inflight := ps[i].q.inflight)
  {
    if i > 0 {
      OtherTreesKept(ps, acts, q, issued, i - 1);
      assert Can(ps[i - 1], acts[i - 1]);
    }
  }

  /** After the insert loop the main tree is the one of `Engine.Recover`. */
  lemma {:induction false} UninterruptedIsRecover(ps: seq<Progress>, acts: seq<Action>, q: QueueState, issued: nat,
                                                  ids: seq<u64>, i: nat)
    requires IsRecovery(ps, acts, q, issued) && QueueOk(q, issued) && |ids| == |q.inflight| && i < |ps|
    requires |acts| == 2 * |ids|
    requires forall k | 0 <= k < |acts| :: acts[k] == if k < |ids| then Write(ids[k]) else Erase
    ensures var p := ps[i];
            && p.entries == q.inflight
            && p.inserted == (if i < |ids| then i else |ids|) && p.removed == (if i < |ids| then 0 else i - |ids|)
            && InsertAll(p.q.main, Values(q.inflight)[p.inserted..], ids[p.inserted..]) == Recover(q, ids).main
            && (i == |acts| ==> p.q == Recover(q, ids))
  {
    if i == 0 {
      assert Values(q.inflight)[0..] == Values(q.inflight) && ids[0..] == ids;
    } else {
      UninterruptedIsRecover(ps, acts, q, issued, ids, i - 1);
      assert Can(ps[i - 1], acts[i - 1]);
      var p := ps[i - 1];
      if i <= |ids| {
        var vs, ds := Values(q.inflight)[i - 1..], ids[i - 1..];
        assert vs[1..] == Values(q.inflight)[i..] && ds[1..] == ids[i..];
      }
    }
    if i == |acts| {
      var base := NothingLost(ps, acts, q, issued, EncodedLen, i);
      MidwayHolds(ps[i], EncodedLen, base);
      OtherTreesKept(ps, acts, q, issued, i);
    }
  }
}
