/** A sled tree: an ordered map from byte strings to values, iterated in key order.

    A tree is represented by its entries in iteration order.  `Rank` finds the place of a key;
    the laws below show that `Get`, `Insert` and `Remove` behave as the operations of a map. */
module OrderedTree {
  import opened Bytes
  import opened Results

  datatype Entry<+V> = Entry(key: Key, val: V)

  type Tree<+V> = seq<Entry<V>>

  ghost predicate Sorted<V>(t: Tree<V>) {
    forall i, j | 0 <= i < j < |t| :: Less(t[i].key, t[j].key)
  }

  /** The number of leading entries with a smaller key. */
  function Rank<V>(t: Tree<V>, k: Key): (r: nat)
    ensures r <= |t|
    ensures forall i | 0 <= i < r :: Less(t[i].key, k)
    ensures r < |t| ==> !Less(t[r].key, k)
  {
    if t == [] || !Less(t[0].key, k) then 0 else 1 + Rank(t[1..], k)
  }

  predicate Has<V>(t: Tree<V>, k: Key) {
    var r := Rank(t, k);
    r < |t| && t[r].key == k
  }

  function Get<V>(t: Tree<V>, k: Key): (o: Option<V>) {
    var r := Rank(t, k);
    if r < |t| && t[r].key == k then Some(t[r].val) else None
  }

  function Insert<V>(t: Tree<V>, k: Key, v: V): (t': Tree<V>) {
    var r := Rank(t, k);
    t[..r] + [Entry(k, v)] + t[if Has(t, k) then r + 1 else r..]
  }

  function Remove<V>(t: Tree<V>, k: Key): (t': Tree<V>) {
    var r := Rank(t, k);
    if Has(t, k) then t[..r] + t[r + 1..] else t
  }

  function Values<V>(t: Tree<V>): (vs: seq<V>)
    ensures |vs| == |t|
    ensures forall i | 0 <= i < |t| :: vs[i] == t[i].val
  {
    seq(|t|, i requires 0 <= i < |t| => t[i].val)
  }

  // ----- Laws -----

  /** A key of a sorted tree is found where it stands. */
  lemma RankAt<V>(t: Tree<V>, i: nat)
    requires Sorted(t) && i < |t|
    ensures Rank(t, t[i].key) == i
    ensures Has(t, t[i].key) && Get(t, t[i].key) == Some(t[i].val)
  {
    LessIrreflexive(t[i].key);
    assert forall j | 0 <= j < i :: Less(t[j].key, t[i].key);
  }

  /** Everything from the rank on is not smaller, and is greater when the key is absent. */
  lemma RankSplits<V>(t: Tree<V>, k: Key)
    requires Sorted(t)
    ensures forall i | Rank(t, k) <= i < |t| :: t[i].key == k || Less(k, t[i].key)
    ensures forall i | Rank(t, k) < i < |t| :: Less(k, t[i].key)
    ensures !Has(t, k) ==> forall i | 0 <= i < |t| :: t[i].key != k
  {
    var r := Rank(t, k);
    if r < |t| {
      LessTotal(t[r].key, k);
      forall i | r < i < |t|
        ensures Less(k, t[i].key)
      {
        assert Less(t[r].key, t[i].key);
        if t[r].key != k { LessTransitive(k, t[r].key, t[i].key); }
      }
      forall i | 0 <= i < |t| && !Has(t, k)
        ensures t[i].key != k
      {
        LessIrreflexive(k);
      }
    } else {
      LessIrreflexive(k);
    }
  }

  /** A cut between smaller and not smaller keys is the rank. */
  lemma RankIsCut<V>(t: Tree<V>, k: Key, r: nat)
    requires Sorted(t) && r <= |t|
    requires forall i | 0 <= i < r :: Less(t[i].key, k)
    requires forall i | r <= i < |t| :: !Less(t[i].key, k)
    ensures Rank(t, k) == r
  {
    assert r < |t| ==> !Less(t[r].key, k);
    assert Rank(t, k) < |t| ==> !Less(t[Rank(t, k)].key, k);
  }

  lemma InsertSorted<V>(t: Tree<V>, k: Key, v: V)
    requires Sorted(t)
    ensures Sorted(Insert(t, k, v))
  {
    RankSplits(t, k);
    var t' := Insert(t, k, v);
    var r := Rank(t, k);
    var shift := if Has(t, k) then 0 else 1;
    forall i, j | 0 <= i < j < |t'|
      ensures Less(t'[i].key, t'[j].key)
    {
      if i < r < j {
        assert t'[i] == t[i] && t'[j] == t[j - shift];
        if shift == 1 { LessTransitive(t[i].key, k, t[j - shift].key); }
      }
    }
  }

  lemma RemoveSorted<V>(t: Tree<V>, k: Key)
    requires Sorted(t)
    ensures Sorted(Remove(t, k))
  {
  }

  /** Where an entry of the old tree stands after an insertion under another key. */
  lemma InsertKeeps<V>(t: Tree<V>, k: Key, v: V, i: nat)
    requires i < |t| && t[i].key != k
    ensures var i' := if i < Rank(t, k) || Has(t, k) then i else i + 1;
            i' < |Insert(t, k, v)| && Insert(t, k, v)[i'] == t[i]
  {
  }

  /** Every entry after an insertion is the new one or was there before. */
  lemma InsertOrigin<V>(t: Tree<V>, k: Key, v: V, i: nat)
    requires i < |Insert(t, k, v)|
    ensures Insert(t, k, v)[i] == Entry(k, v) || Insert(t, k, v)[i] in t
  {
  }

  lemma GetInsert<V>(t: Tree<V>, k: Key, v: V, j: Key)
    requires Sorted(t)
    ensures Get(Insert(t, k, v), j) == if j == k then Some(v) else Get(t, j)
  {
    var t' := Insert(t, k, v);
    var r := Rank(t, k);
    InsertSorted(t, k, v);
    RankAt(t', r);
    if j != k {
      if Has(t, j) {
        var i := Rank(t, j);
        InsertKeeps(t, k, v, i);
        RankAt(t', if i < r || Has(t, k) then i else i + 1);
      } else if Has(t', j) {
        InsertOrigin(t, k, v, Rank(t', j));
        var i :| 0 <= i < |t| && t[i].key == j;
        RankAt(t, i);
      }
    }
  }

  lemma GetRemove<V>(t: Tree<V>, k: Key, j: Key)
    requires Sorted(t)
    ensures Get(Remove(t, k), j) == if j == k then None else Get(t, j)
  {
    var t' := Remove(t, k);
    var r := Rank(t, k);
    RemoveSorted(t, k);
    RankSplits(t, k);
    if Has(t, k) {
      if Has(t', j) {
        var i' := Rank(t', j);
        var i := if i' < r then i' else i' + 1;
        assert t'[i'] == t[i];
        RankAt(t, i);
        RankAt(t, r);
      } else if j != k && Has(t, j) {
        var i := Rank(t, j);
        var i' := if i < r then i else i - 1;
        assert t'[i'] == t[i];
        RankAt(t', i');
      }
    }
  }

  /** Two sorted trees that answer every lookup alike are the same tree. */
  lemma {:induction false} ExtensionalByGet<V>(a: Tree<V>, b: Tree<V>)
    requires Sorted(a) && Sorted(b)
    requires forall k :: Get(a, k) == Get(b, k)
    ensures a == b
    decreases |a|
  {
    EmptyByGet(a, b);
    EmptyByGet(b, a);
    if a != [] {
      FirstIsLeast(a, b);
      forall k ensures Get(a[1..], k) == Get(b[1..], k) {
        RankAt(a, 0);
        RankAt(b, 0);
        assert Remove(a, a[0].key) == a[1..] && Remove(b, b[0].key) == b[1..];
        GetRemove(a, a[0].key, k);
        GetRemove(b, b[0].key, k);
        assert Get(a, k) == Get(b, k);
      }
      ExtensionalByGet(a[1..], b[1..]);
      assert a == [a[0]] + a[1..] && b == [b[0]] + b[1..];
    }
  }

  lemma EmptyByGet<V>(a: Tree<V>, b: Tree<V>)
    requires Sorted(a)
    requires forall k :: Get(a, k) == Get(b, k)
    ensures b == [] ==> a == []
  {
    if a != [] {
      RankAt(a, 0);
      assert Get(b, a[0].key).Some?;
    }
  }

  lemma FirstIsLeast<V>(a: Tree<V>, b: Tree<V>)
    requires Sorted(a) && Sorted(b) && a != [] && b != []
    requires forall k :: Get(a, k) == Get(b, k)
    ensures a[0] == b[0]
  {
    RankAt(a, 0);
    RankAt(b, 0);
    assert Get(a, a[0].key) == Get(b, a[0].key);
    assert Get(a, b[0].key) == Get(b, b[0].key);
    var i, j := Rank(b, a[0].key), Rank(a, b[0].key);
    if i > 0 && j > 0 {
      LessAsymmetric(b[0].key, a[0].key);
    }
  }

  lemma ValuesConcat<V>(a: Tree<V>, b: Tree<V>)
    ensures Values(a + b) == Values(a) + Values(b)
  {
  }

  lemma ValuesCons<V>(t: Tree<V>)
    requires t != []
    ensures Values(t) == [t[0].val] + Values(t[1..])
  {
  }

  /** Inserting an absent key places its value among the others, which keep their order. */
  lemma ValuesInsert<V>(t: Tree<V>, k: Key, v: V)
    requires !Has(t, k)
    ensures Values(Insert(t, k, v)) == Values(t)[..Rank(t, k)] + [v] + Values(t)[Rank(t, k)..]
  {
  }

  lemma ValuesRemove<V>(t: Tree<V>, k: Key)
    requires Has(t, k)
    ensures Values(Remove(t, k)) == Values(t)[..Rank(t, k)] + Values(t)[Rank(t, k) + 1..]
  {
  }
}

/** Optional values and results, as in the Rust standard library. */
module Results {
  datatype Option<+T> = None | Some(value: T)
  datatype Result<+T, +E> = Ok(value: T) | Err(error: E)
}
