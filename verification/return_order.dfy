/** The order in which a restart returns outstanding messages: by tag.  Two sets of deliveries whose tags
    are renamed in order within each lane return each lane in the same order. */
module ReturnOrder {
  import opened Bytes
  import opened Messages
  import opened DeliveryOrder
  import opened Lanes

  /** The deliveries of one lane. */
  ghost function InLane(o: map<u64, Message>, p: nat): map<u64, Message> {
    map t | t in o && Lane(o[t]) == p :: o[t]
  }

  lemma LeastIs(tags: set<u64>, t: u64)
    requires t in tags && forall u | u in tags :: t <= u
    ensures Least(tags) == t
  {
  }

  /** One lane of the tag order is the tag order of that lane. */
  lemma {:induction false} LaneOfTagOrder(o: map<u64, Message>, p: nat)
    ensures Between(InTagOrder(o), p, p) == InTagOrder(InLane(o, p))
    decreases o.Keys
  {
    if o.Keys == {} {
      assert InLane(o, p).Keys == {};
    } else {
      hide InTagOrder, InLane, Between, Lane;
      var t := Least(o.Keys);
      var rest := o - {t};
      assert rest.Keys == o.Keys - {t};
      LaneOfTagOrder(rest, p);
      FirstOfTagOrder(o);
      BetweenConcat([o[t]], InTagOrder(rest), p, p);
      BetweenOne(o[t], p);
      FirstOfLane(o, p);
      if Lane(o[t]) == p {
        FirstOfTagOrder(InLane(o, p));
      } else {
        assert [] + InTagOrder(InLane(rest, p)) == InTagOrder(InLane(rest, p));
      }
    }
  }

  lemma FirstOfLane(o: map<u64, Message>, p: nat)
    requires o.Keys != {}
    ensures var t := Least(o.Keys);
            if Lane(o[t]) == p
            then t in InLane(o, p) && InLane(o, p)[t] == o[t] && Least(InLane(o, p).Keys) == t
                 && InLane(o, p) - {t} == InLane(o - {t}, p)
            else InLane(o, p) == InLane(o - {t}, p)
  {
    var t := Least(o.Keys);
    if Lane(o[t]) == p { LeastIs(InLane(o, p).Keys, t); }
  }

  lemma FirstOfTagOrder(o: map<u64, Message>)
    requires o.Keys != {}
    ensures var t := Least(o.Keys); InTagOrder(o) == [o[t]] + InTagOrder(o - {t})
  {
  }

  /** The deliveries of one side, under their new names, are those of the other, and the names keep order. */
  ghost predicate RenamedInOrder(a: map<u64, Message>, b: map<u64, Message>,
                                 there: map<u64, u64>, back: map<u64, u64>) {
    && (forall t | t in a :: t in there && there[t] in b && b[there[t]] == a[t])
    && (forall u | u in b :: u in back && back[u] in a && back[u] in there && there[back[u]] == u)
    && (forall t, u | t in a && u in a && t in there && u in there && t < u :: there[t] < there[u])
  }

  lemma RenamedLeast(a: map<u64, Message>, b: map<u64, Message>, there: map<u64, u64>, back: map<u64, u64>)
    requires RenamedInOrder(a, b, there, back) && a.Keys != {}
    ensures var t := Least(a.Keys);
            t in there && there[t] in b && b[there[t]] == a[t] && Least(b.Keys) == there[t]
  {
    var t := Least(a.Keys);
    var u := there[t];
    forall v | v in b
      ensures u <= v
    {
      assert back[v] in a && there[back[v]] == v;
    }
    LeastIs(b.Keys, u);
  }

  lemma RenamedRest(a: map<u64, Message>, b: map<u64, Message>, there: map<u64, u64>, back: map<u64, u64>, t: u64)
    requires RenamedInOrder(a, b, there, back) && t in a && t in there
    ensures RenamedInOrder(a - {t}, b - {there[t]}, there, back)
  {
    forall w | w in a - {t}
      ensures there[w] in b - {there[t]}
    {
      assert t < w || w < t;
    }
    assert forall v | v in b - {there[t]} :: there[back[v]] == v;
  }

  lemma {:induction false} RenamedReturnsAlike(
      a: map<u64, Message>, b: map<u64, Message>, there: map<u64, u64>, back: map<u64, u64>)
    requires RenamedInOrder(a, b, there, back)
    ensures InTagOrder(a) == InTagOrder(b)
    decreases a.Keys
  {
    if a.Keys == {} {
      assert forall u | u in b :: back[u] in a;
      assert b.Keys == {};
    } else {
      RenamedLeast(a, b, there, back);
      hide RenamedInOrder;
      var t := Least(a.Keys);
      RenamedRest(a, b, there, back, t);
      assert (a - {t}).Keys == a.Keys - {t};
      RenamedReturnsAlike(a - {t}, b - {there[t]}, there, back);
      FirstOfTagOrder(a);
      FirstOfTagOrder(b);
    }
  }
}
