/** The replicated log as stored: entries keyed by big-endian index, and the id of the last purged entry.
    It is compared with the log as the consensus algorithm sees it. */
module RaftLog {
  import opened Bytes
  import opened Results
  import opened OrderedTree
  import opened Replica

  datatype Bound = Included(index: u64) | Excluded(index: u64) | Unbounded

  function SaturatingNext(i: u64): u64 {
    if i == TWO_64 - 1 then i else i + 1
  }

  /** The first index a range scan visits. */
  function ScanStart(b: Bound): u64 {
    match b
    case Included(i) => i
    case Excluded(i) => SaturatingNext(i)
    case Unbounded => 0
  }

  /** The index before which a range scan stops. */
  function ScanEnd(b: Bound): u64 {
    match b
    case Included(i) => SaturatingNext(i)
    case Excluded(i) => i
    case Unbounded => TWO_64 - 1
  }

  predicate InRange(start: Bound, end: Bound, i: u64) {
    && (match start case Included(a) => a <= i case Excluded(a) => a < i case Unbounded => true)
    && (match end case Included(b) => i <= b case Excluded(b) => i < b case Unbounded => true)
  }

  function Index(e: LogEntry): u64 {
    e.logId.index
  }

  /** The entries with an index from `lo` up to but excluding `hi`, in order. */
  function Select(es: seq<LogEntry>, lo: nat, hi: nat): seq<LogEntry> {
    if es == [] then []
    else (if lo <= Index(es[0]) < hi then [es[0]] else []) + Select(es[1..], lo, hi)
  }

  /** The entries the caller of a range read asks for. */
  function Wanted(es: seq<LogEntry>, start: Bound, end: Bound): seq<LogEntry> {
    if es == [] then []
    else (if InRange(start, end, Index(es[0])) then [es[0]] else []) + Wanted(es[1..], start, end)
  }

  ghost predicate Keyed(t: Tree<LogEntry>) {
    Sorted(t) && forall i | 0 <= i < |t| :: t[i].key == Be64(Index(t[i].val))
  }

  function StoreAll(t: Tree<LogEntry>, es: seq<LogEntry>): Tree<LogEntry>
    decreases |es|
  {
    if es == [] then t else StoreAll(Insert(t, Be64(Index(es[0])), es[0]), es[1..])
  }

  // ----- Keys and indices -----

  lemma KeysAreIndices(t: Tree<LogEntry>, i: nat, k: u64)
    requires Keyed(t) && i < |t|
    ensures Less(t[i].key, Be64(k)) <==> Index(t[i].val) < k
    ensures t[i].key == Be64(k) <==> Index(t[i].val) == k
  {
    hide Be64, Less;
    Be64Order(Index(t[i].val), k);
  }

  lemma IndicesAscend(t: Tree<LogEntry>, i: nat, j: nat)
    requires Keyed(t) && i < j < |t|
    ensures Index(t[i].val) < Index(t[j].val)
  {
    hide Be64, Less;
    KeysAreIndices(t, i, Index(t[j].val));
  }

  /** The rank of an index separates the smaller from the other indices. */
  lemma RankCuts(t: Tree<LogEntry>, k: u64)
    requires Keyed(t)
    ensures forall i | 0 <= i < Rank(t, Be64(k)) :: Index(t[i].val) < k
    ensures forall i | Rank(t, Be64(k)) <= i < |t| :: k <= Index(t[i].val)
  {
    hide Be64, Less, Keyed;
    var r := Rank(t, Be64(k));
    forall i | 0 <= i < r
      ensures Index(t[i].val) < k
    {
      KeysAreIndices(t, i, k);
    }
    forall i | r <= i < |t|
      ensures k <= Index(t[i].val)
    {
      KeysAreIndices(t, r, k);
      if r < i { IndicesAscend(t, r, i); }
    }
  }

  lemma {:induction false} SelectConcat(a: seq<LogEntry>, b: seq<LogEntry>, lo: nat, hi: nat)
    ensures Select(a + b, lo, hi) == Select(a, lo, hi) + Select(b, lo, hi)
  {
    if a == [] {
      assert a + b == b;
    } else {
      assert (a + b)[1..] == a[1..] + b;
      SelectConcat(a[1..], b, lo, hi);
    }
  }

  lemma {:induction false} SelectAll(es: seq<LogEntry>, lo: nat, hi: nat)
    requires forall i | 0 <= i < |es| :: lo <= Index(es[i]) < hi
    ensures Select(es, lo, hi) == es
  {
    if es != [] {
      SelectAll(es[1..], lo, hi);
    }
  }

  lemma {:induction false} SelectNone(es: seq<LogEntry>, lo: nat, hi: nat)
    requires forall i | 0 <= i < |es| :: !(lo <= Index(es[i]) < hi)
    ensures Select(es, lo, hi) == []
  {
    if es != [] {
      SelectNone(es[1..], lo, hi);
    }
  }

  /** When the wanted entries stand together, they are that slice. */
  lemma SelectIsSlice(es: seq<LogEntry>, lo: nat, hi: nat, a: nat, b: nat)
    requires a <= b <= |es|
    requires forall i | 0 <= i < a :: Index(es[i]) < lo
    requires forall i | a <= i < b :: lo <= Index(es[i]) < hi
    requires forall i | b <= i < |es| :: hi <= Index(es[i])
    ensures Select(es, lo, hi) == es[a..b]
  {
    hide Select;
    assert es == es[..a] + (es[a..b] + es[b..]);
    SelectConcat(es[..a], es[a..b] + es[b..], lo, hi);
    SelectConcat(es[a..b], es[b..], lo, hi);
    SelectNone(es[..a], lo, hi);
    SelectAll(es[a..b], lo, hi);
    SelectNone(es[b..], lo, hi);
  }

  // ----- Reading -----

  /** No entry in the range has the largest 64-bit index. */
  ghost predicate WithinReach(es: seq<LogEntry>, start: Bound, end: Bound) {
    forall i | 0 <= i < |es| :: InRange(start, end, Index(es[i])) ==> Index(es[i]) < TWO_64 - 1
  }

  /** A range read returns exactly the entries asked for, in order, if and only if no entry in the range
      has the largest 64-bit index. */
  lemma {:induction false} RangeReadIsExactIff(es: seq<LogEntry>, start: Bound, end: Bound)
    ensures Select(es, ScanStart(start), ScanEnd(end)) == Wanted(es, start, end) <==> WithinReach(es, start, end)
  {
    if es != [] {
      var i, rest := Index(es[0]), es[1..];
      RangeReadIsExactIff(rest, start, end);
      ReadsAtMost(rest, start, end);
      ReachSplits(es, start, end);
      assert ScanStart(start) <= i < ScanEnd(end) <==> InRange(start, end, i) && i < TWO_64 - 1;
      hide WithinReach, ScanStart, ScanEnd, InRange;
      var got, wanted := Select(rest, ScanStart(start), ScanEnd(end)), Wanted(rest, start, end);
      assert ([es[0]] + got)[1..] == got && ([es[0]] + wanted)[1..] == wanted;
      assert [] + got == got && [] + wanted == wanted;
    }
  }

  lemma ReachSplits(es: seq<LogEntry>, start: Bound, end: Bound)
    requires es != []
    ensures WithinReach(es, start, end) <==>
            (InRange(start, end, Index(es[0])) ==> Index(es[0]) < TWO_64 - 1) && WithinReach(es[1..], start, end)
  {
    hide InRange;
    var rest := es[1..];
    if WithinReach(rest, start, end) {
      forall i | 1 <= i < |es|
        ensures InRange(start, end, Index(es[i])) ==> Index(es[i]) < TWO_64 - 1
      {
        assert rest[i - 1] == es[i];
      }
    }
  }

  lemma {:induction false} ReadsAtMost(es: seq<LogEntry>, start: Bound, end: Bound)
    ensures |Select(es, ScanStart(start), ScanEnd(end))| <= |Wanted(es, start, end)|
  {
    if es != [] {
      ReadsAtMost(es[1..], start, end);
    }
  }

  // ----- Writing -----

  lemma InsertKeyed(t: Tree<LogEntry>, e: LogEntry)
    requires Keyed(t)
    ensures Keyed(Insert(t, Be64(Index(e)), e))
  {
    hide Be64, Less;
    var k := Be64(Index(e));
    InsertSorted(t, k, e);
    forall i | 0 <= i < |Insert(t, k, e)|
      ensures Insert(t, k, e)[i].key == Be64(Index(Insert(t, k, e)[i].val))
    {
      InsertOrigin(t, k, e, i);
    }
  }

  lemma {:induction false} StoreAllKeyed(t: Tree<LogEntry>, es: seq<LogEntry>)
    requires Keyed(t)
    ensures Keyed(StoreAll(t, es))
    decreases |es|
  {
    hide Keyed, Insert, Be64;
    if es != [] {
      InsertKeyed(t, es[0]);
      StoreAllKeyed(Insert(t, Be64(Index(es[0])), es[0]), es[1..]);
    }
  }

  /** An entry with a larger index than every stored one goes to the end. */
  lemma InsertLast(t: Tree<LogEntry>, e: LogEntry)
    requires Keyed(t) && (t != [] ==> Index(t[|t| - 1].val) < Index(e))
    ensures Insert(t, Be64(Index(e)), e) == t + [Entry(Be64(Index(e)), e)]
  {
    hide Be64, Less;
    var r := Rank(t, Be64(Index(e)));
    if r < |t| {
      KeysAreIndices(t, r, Index(e));
      if r < |t| - 1 { IndicesAscend(t, r, |t| - 1); }
    }
  }

  // ----- The log as the consensus algorithm sees it -----

  /** The ids of the purged entries, and the entries after them. */
  datatype Log = Log(past: seq<LogId>, entries: seq<LogEntry>)

  function Ids(es: seq<LogEntry>): (ids: seq<LogId>)
    ensures |ids| == |es| && forall i | 0 <= i < |es| :: ids[i] == es[i].logId
  {
    seq(|es|, i requires 0 <= i < |es| => es[i].logId)
  }

  /** One entry for every index of an interval. */
  ghost predicate Contiguous(ids: seq<LogId>) {
    forall i, j | 0 <= i <= j < |ids| :: ids[j].index == ids[i].index + (j - i)
  }

  ghost predicate LogOk(l: Log) {
    Contiguous(l.past + Ids(l.entries))
  }

  function Last(ids: seq<LogId>): Option<LogId> {
    if ids == [] then None else Some(ids[|ids| - 1])
  }

  datatype LogCall =
    | Appending(es: seq<LogEntry>)
    | Truncating(since: LogId)
    | Purging(upto: LogId)

  /** How the consensus algorithm calls the store: it appends right after the last entry, never truncates
      what was purged, and purges up to an entry of the log or past its end. */
  ghost predicate Disciplined(l: Log, c: LogCall) {
    match c
    case Appending(es) => Contiguous(l.past + Ids(l.entries + es))
    case Truncating(id) => l.past != [] ==> l.past[|l.past| - 1].index < id.index
    case Purging(id) =>
      || Last(l.past) == Some(id)
      || (exists k :: 0 <= k < |l.entries| && l.entries[k].logId == id)
      || (forall k | 0 <= k < |l.past + Ids(l.entries)| :: (l.past + Ids(l.entries))[k].index < id.index)
  }

  /** How many entries have an index up to and including the given one. */
  function CountUpto(es: seq<LogEntry>, i: u64): (n: nat)
    ensures n <= |es|
    ensures forall k | 0 <= k < n :: Index(es[k]) <= i
    ensures n < |es| ==> i < Index(es[n])
  {
    if es == [] || i < Index(es[0]) then 0 else 1 + CountUpto(es[1..], i)
  }

  /** Truncation drops a suffix; a purge turns a prefix into past, or replaces the whole log when it goes
      past the end. */
  ghost function LogNext(l: Log, c: LogCall): Log {
    match c
    case Appending(es) => l.(entries := l.entries + es)
    case Truncating(id) =>
      l.(entries := if id.index == 0 then [] else l.entries[..CountUpto(l.entries, id.index - 1)])
    case Purging(id) =>
      if Last(l.past) == Some(id) then l
      else
        var n := CountUpto(l.entries, id.index);
        if n > 0 && l.entries[n - 1].logId == id then Log(l.past + Ids(l.entries[..n]), l.entries[n..])
        else Log([id], [])
  }

  datatype Stored = Stored(tree: Tree<LogEntry>, lastPurged: Option<LogId>)

  ghost function StoredNext(s: Stored, c: LogCall): Stored {
    match c
    case Appending(es) => s.(tree := StoreAll(s.tree, es))
    case Truncating(id) => s.(tree := s.tree[..Rank(s.tree, Be64(id.index))])
    case Purging(id) => Stored(s.tree[RankAfter(s.tree, id.index)..], Some(id))
  }

  /** How many entries of the tree have an index up to and including the given one. */
  function RankAfter(t: Tree<LogEntry>, i: u64): (n: nat)
    ensures n <= |t|
  {
    var r := Rank(t, Be64(i));
    if r < |t| && t[r].key == Be64(i) then r + 1 else r
  }

  /** `get_log_state`: the last purged id and the last id. */
  function LogState(s: Stored): (Option<LogId>, Option<LogId>) {
    (s.lastPurged, if s.tree == [] then s.lastPurged else Some(s.tree[|s.tree| - 1].val.logId))
  }

  ghost predicate Holds(s: Stored, l: Log) {
    Keyed(s.tree) && Values(s.tree) == l.entries && s.lastPurged == Last(l.past) && LogOk(l)
  }

  /** The stored log reports the true end of the log, also when every entry is purged. */
  lemma LogStateIsTrue(s: Stored, l: Log)
    requires Holds(s, l)
    ensures LogState(s) == (Last(l.past), Last(l.past + Ids(l.entries)))
  {
    hide Keyed, LogOk;
  }

  /** The stored keys are one interval, right after the last purged index. */
  lemma KeysAreOneInterval(s: Stored, l: Log, i: nat)
    requires Holds(s, l) && i < |s.tree|
    ensures s.tree[i].key == Be64(Index(s.tree[i].val))
    ensures Index(s.tree[i].val) == Index(s.tree[0].val) + i
    ensures s.lastPurged.Some? ==> Index(s.tree[i].val) == s.lastPurged.value.index + 1 + i
  {
    hide Be64, Less;
    var ids, p := l.past + Ids(l.entries), |l.past|;
    assert s.tree[i].val == l.entries[i] && s.tree[0].val == l.entries[0];
    assert ids[p + i] == l.entries[i].logId && ids[p] == l.entries[0].logId;
    if p > 0 { assert ids[p - 1] == l.past[p - 1]; }
  }

  /** A range read of a stored log returns exactly the wanted entries of the log, when it holds no entry
      with the largest 64-bit index. */
  lemma ReadsTheLog(s: Stored, l: Log, start: Bound, end: Bound)
    requires Holds(s, l) && forall i | 0 <= i < |l.entries| :: Index(l.entries[i]) < TWO_64 - 1
    ensures Select(Values(s.tree), ScanStart(start), ScanEnd(end)) == Wanted(l.entries, start, end)
  {
    hide Keyed, LogOk, ScanStart, ScanEnd, InRange;
    RangeReadIsExactIff(l.entries, start, end);
  }

  // ----- Every call keeps the correspondence -----

  lemma StoreOneAppends(t: Tree<LogEntry>, e: LogEntry)
    requires Keyed(t) && (t != [] ==> Index(t[|t| - 1].val) < Index(e))
    ensures Keyed(Insert(t, Be64(Index(e)), e))
    ensures Values(Insert(t, Be64(Index(e)), e)) == Values(t) + [e]
  {
    InsertLast(t, e);
    InsertKeyed(t, e);
    hide Insert, Keyed, Be64;
  }

  lemma {:induction false} StoreAllAppends(t: Tree<LogEntry>, es: seq<LogEntry>)
    requires Keyed(t) && Contiguous(Ids(Values(t) + es))
    ensures Values(StoreAll(t, es)) == Values(t) + es
    decreases |es|
  {
    hide Keyed, Insert, Be64;
    if es == [] {
      assert Values(t) + es == Values(t);
    } else {
      var ids := Ids(Values(t) + es);
      if t != [] {
        assert ids[|t| - 1] == t[|t| - 1].val.logId && ids[|t|] == es[0].logId;
      }
      hide Contiguous;
      StoreOneAppends(t, es[0]);
      assert Values(t) + es == (Values(t) + [es[0]]) + es[1..];
      StoreAllAppends(Insert(t, Be64(Index(es[0])), es[0]), es[1..]);
    }
  }

  lemma ContiguousPart(ids: seq<LogId>, a: nat, b: nat)
    requires Contiguous(ids) && a <= b <= |ids|
    ensures Contiguous(ids[a..b])
  {
  }

  lemma AppendHolds(s: Stored, l: Log, es: seq<LogEntry>)
    requires Holds(s, l) && Disciplined(l, Appending(es))
    ensures Holds(StoredNext(s, Appending(es)), LogNext(l, Appending(es)))
  {
    var ids := l.past + Ids(l.entries + es);
    assert ids[|l.past|..|ids|] == Ids(l.entries + es);
    ContiguousPart(ids, |l.past|, |ids|);
    hide Contiguous, Keyed, StoreAll;
    StoreAllAppends(s.tree, es);
    StoreAllKeyed(s.tree, es);
  }

  lemma PrefixHolds(s: Stored, l: Log, n: nat)
    requires Holds(s, l) && n <= |s.tree|
    ensures Holds(s.(tree := s.tree[..n]), l.(entries := l.entries[..n]))
  {
    hide Be64, Less, Contiguous;
    assert Values(s.tree[..n]) == l.entries[..n];
    var ids := l.past + Ids(l.entries);
    ContiguousPart(ids, 0, |l.past| + n);
    assert ids[0..|l.past| + n] == l.past + Ids(l.entries[..n]);
  }

  /** The tree and the log count alike. */
  lemma CountsAgree(t: Tree<LogEntry>, es: seq<LogEntry>, i: u64, n: nat)
    requires Values(t) == es && n <= |t|
    requires forall k | 0 <= k < n :: Index(t[k].val) <= i
    requires forall k | n <= k < |t| :: i < Index(t[k].val)
    ensures CountUpto(es, i) == n
  {
    var m := CountUpto(es, i);
    hide CountUpto;
    if m < |t| { assert es[m] == t[m].val; }
    if n < |t| { assert es[n] == t[n].val; }
  }

  lemma TruncateHolds(s: Stored, l: Log, id: LogId)
    requires Holds(s, l) && Disciplined(l, Truncating(id))
    ensures Holds(StoredNext(s, Truncating(id)), LogNext(l, Truncating(id)))
  {
    RankCuts(s.tree, id.index);
    var r := Rank(s.tree, Be64(id.index));
    if id.index > 0 { CountsAgree(s.tree, l.entries, id.index - 1, r); }
    PrefixHolds(s, l, r);
    hide Be64, Rank, Holds, CountUpto;
    assert l.entries[..0] == [];
  }

  lemma RankAfterCuts(t: Tree<LogEntry>, i: u64)
    requires Keyed(t)
    ensures forall k | 0 <= k < RankAfter(t, i) :: Index(t[k].val) <= i
    ensures forall k | RankAfter(t, i) <= k < |t| :: i < Index(t[k].val)
  {
    hide Be64, Less;
    RankCuts(t, i);
    var r := Rank(t, Be64(i));
    if r < |t| { KeysAreIndices(t, r, i); }
    forall k | RankAfter(t, i) <= k < |t|
      ensures i < Index(t[k].val)
    {
      if r < k { IndicesAscend(t, r, k); }
    }
  }

  lemma SuffixHolds(s: Stored, l: Log, n: nat, id: LogId, past: seq<LogId>)
    requires Holds(s, l) && n <= |s.tree| && Last(past) == Some(id) && LogOk(Log(past, l.entries[n..]))
    ensures Holds(Stored(s.tree[n..], Some(id)), Log(past, l.entries[n..]))
  {
    hide Be64, Less, Contiguous;
    assert Values(s.tree[n..]) == l.entries[n..];
  }

  /** Where a purge may cut the log: at the last purged entry, at an entry of the log, or past its end. */
  lemma PurgeCases(l: Log, id: LogId)
    requires LogOk(l) && Disciplined(l, Purging(id))
    ensures var n := CountUpto(l.entries, id.index);
            || (Last(l.past) == Some(id) && n == 0)
            || (Last(l.past) != Some(id) && n > 0 && l.entries[n - 1].logId == id)
            || (Last(l.past) != Some(id) && n == |l.entries|)
  {
    if k :| 0 <= k < |l.entries| && l.entries[k].logId == id {
      CountsUpTo(l, id, k, CountUpto(l.entries, id.index));
    }
    if |l.past| > 0 && |l.entries| > 0 { PastIsBefore(l); }
    var n, ids := CountUpto(l.entries, id.index), l.past + Ids(l.entries);
    if n < |l.entries| { assert ids[|l.past| + n] == l.entries[n].logId; }
    hide CountUpto, LogOk;
  }

  lemma PastIsBefore(l: Log)
    requires LogOk(l) && |l.past| > 0 && |l.entries| > 0
    ensures Index(l.entries[0]) == l.past[|l.past| - 1].index + 1
  {
    var ids, p := l.past + Ids(l.entries), |l.past|;
    assert ids[p - 1] == l.past[p - 1] && ids[p] == l.entries[0].logId;
  }

  lemma CountsUpTo(l: Log, id: LogId, k: nat, n: nat)
    requires LogOk(l) && k < |l.entries| && l.entries[k].logId == id && n == CountUpto(l.entries, id.index)
    ensures n == k + 1
  {
    if n < |l.entries| { EntryIndex(l, k, n); }
    if n > 0 { EntryIndex(l, k, n - 1); }
    hide CountUpto, LogOk;
  }

  lemma EntryIndex(l: Log, j: nat, k: nat)
    requires LogOk(l) && j < |l.entries| && k < |l.entries|
    ensures Index(l.entries[k]) == Index(l.entries[j]) + (k - j)
  {
    var ids, p := l.past + Ids(l.entries), |l.past|;
    assert ids[p + j] == l.entries[j].logId && ids[p + k] == l.entries[k].logId;
  }

  lemma PurgeHolds(s: Stored, l: Log, id: LogId)
    requires Holds(s, l) && Disciplined(l, Purging(id))
    ensures Holds(StoredNext(s, Purging(id)), LogNext(l, Purging(id)))
  {
    RankAfterCuts(s.tree, id.index);
    var n := RankAfter(s.tree, id.index);
    CountsAgree(s.tree, l.entries, id.index, n);
    PurgeCases(l, id);
    assert n <= |l.entries|;
    hide RankAfter, CountUpto, LogOk, Keyed, Disciplined;
    if Last(l.past) == Some(id) {
      assert l.entries[0..] == l.entries;
      SuffixHolds(s, l, n, id, l.past);
    } else if n > 0 && l.entries[n - 1].logId == id {
      PurgedAt(l, n);
      SuffixHolds(s, l, n, id, l.past + Ids(l.entries[..n]));
    } else {
      assert l.entries[n..] == [];
      AllPurged(id);
      SuffixHolds(s, l, n, id, [id]);
    }
  }

  lemma PurgedAt(l: Log, n: nat)
    requires LogOk(l) && n <= |l.entries|
    ensures LogOk(Log(l.past + Ids(l.entries[..n]), l.entries[n..]))
  {
    hide Contiguous;
    assert l.past + Ids(l.entries) == (l.past + Ids(l.entries[..n])) + Ids(l.entries[n..]);
  }

  lemma AllPurged(id: LogId)
    ensures LogOk(Log([id], []))
  {
  }

  lemma CallHolds(s: Stored, l: Log, c: LogCall)
    requires Holds(s, l) && Disciplined(l, c)
    ensures Holds(StoredNext(s, c), LogNext(l, c))
  {
    hide Holds, Disciplined, StoredNext, LogNext;
    match c
    case Appending(es) => AppendHolds(s, l, es);
    case Truncating(id) => TruncateHolds(s, l, id);
    case Purging(id) => PurgeHolds(s, l, id);
  }

  // ----- Runs of calls -----

  ghost predicate IsLogRun(ls: seq<Log>, cs: seq<LogCall>) {
    && |ls| == |cs| + 1
    && forall i | 0 <= i < |cs| :: Disciplined(ls[i], cs[i]) && ls[i + 1] == LogNext(ls[i], cs[i])
  }

  ghost function StoredAfter(s: Stored, cs: seq<LogCall>): Stored {
    if cs == [] then s else StoredNext(StoredAfter(s, cs[..|cs| - 1]), cs[|cs| - 1])
  }

  /** After every run of disciplined calls on an empty store, the keyed tree holds exactly the log. */
  lemma {:induction false} RunHolds(ls: seq<Log>, cs: seq<LogCall>, i: nat)
    requires IsLogRun(ls, cs) && ls[0] == Log([], []) && i <= |cs|
    ensures Holds(StoredAfter(Stored([], None), cs[..i]), ls[i])
  {
    if i == 0 {
      assert cs[..0] == [];
      assert Values<LogEntry>([]) == [];
    } else {
      RunHolds(ls, cs, i - 1);
      assert cs[..i][..i - 1] == cs[..i - 1];
      assert Disciplined(ls[i - 1], cs[i - 1]) && ls[i - 1 + 1] == LogNext(ls[i - 1], cs[i - 1]);
      hide Holds, Disciplined, LogNext, StoredNext, IsLogRun;
      CallHolds(StoredAfter(Stored([], None), cs[..i - 1]), ls[i - 1], cs[i - 1]);
    }
  }
}
