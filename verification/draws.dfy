/** Ids as the engine draws them: one after the other from a generator that depends only on how far it
    has been drawn. */
module Draw {
  import opened Bytes
  import opened Messages
  import opened OrderedTree
  import opened Engine
  import opened Runs

  function DrawIds(gen: nat -> u64, issued: nat, n: nat): (ids: seq<u64>)
    ensures |ids| == n
    decreases n
  {
    if n == 0 then [] else [gen(issued)] + DrawIds(gen, Bump(issued, gen(issued)), n - 1)
  }

  /** Until the 64-bit ids run out, the generator yields an id that was not drawn before. */
  ghost predicate Ascending(gen: nat -> u64) {
    forall issued: nat :: issued < TWO_64 ==> issued <= gen(issued)
  }

  lemma {:induction false} DrawOneMore(gen: nat -> u64, issued: nat, n: nat)
    ensures var ids := DrawIds(gen, issued, n);
            && DrawIds(gen, issued, n + 1) == ids + [gen(BumpAll(issued, ids))]
            && BumpAll(issued, DrawIds(gen, issued, n + 1)) == Bump(BumpAll(issued, ids), gen(BumpAll(issued, ids)))
    decreases n
  {
    var id := gen(issued);
    if n > 0 {
      DrawOneMore(gen, Bump(issued, id), n - 1);
      var rest := DrawIds(gen, Bump(issued, id), n - 1);
      assert DrawIds(gen, issued, n) == [id] + rest;
      assert ([id] + rest)[1..] == rest;
      assert DrawIds(gen, issued, n + 1)[1..] == DrawIds(gen, Bump(issued, id), n);
    } else {
      assert DrawIds(gen, issued, 1) == [id];
      assert [id][1..] == [];
    }
  }

  /** Ids drawn before the generator is exhausted are fresh and ascending. */
  lemma {:induction false} DrawnIdsAreFresh(gen: nat -> u64, issued: nat, n: nat)
    requires Ascending(gen)
    requires n > 0 ==> BumpAll(issued, DrawIds(gen, issued, n - 1)) < TWO_64
    ensures AscendingFrom(DrawIds(gen, issued, n), issued)
  {
    if n > 0 {
      var ids := DrawIds(gen, issued, n - 1);
      DrawOneMore(gen, issued, n - 1);
      BumpAllBounds(issued, ids);
      if n > 1 { DrawOneMore(gen, issued, n - 2); }
      DrawnIdsAreFresh(gen, issued, n - 1);
    }
  }

  lemma {:induction false} InsertOneMore(t: Tree<Message>, ms: seq<Message>, ids: seq<u64>, m: Message, id: u64)
    requires |ids| == |ms|
    ensures InsertAll(t, ms + [m], ids + [id]) == Insert(InsertAll(t, ms, ids), EncodeKey(m.priority, id), m)
    decreases |ms|
  {
    if ms == [] {
      assert (ms + [m])[1..] == [] && (ids + [id])[1..] == [];
    } else {
      assert (ms + [m])[1..] == ms[1..] + [m] && (ids + [id])[1..] == ids[1..] + [id];
      InsertOneMore(Insert(t, EncodeKey(ms[0].priority, ids[0]), ms[0]), ms[1..], ids[1..], m, id);
    }
  }
}
