/** The MQTT bridge: sixteen-bit packet identifiers stand for deliveries that await acknowledgement. */
module Mqtt {
  import opened Bytes
  import opened Results
  import opened Messages

  const IDS: nat := 65536

  /** A delivery as the engine knows it. */
  datatype Delivered = Delivered(queue: Name, tag: u64)

  /** One connection: the identifier to use next and the deliveries waiting under theirs. */
  class Connection {
    var nextPkid: u16
    var inflight: map<u16, Delivered>

    constructor ()
      ensures nextPkid == 1 && inflight == map[]
    {
      nextPkid := 1;
      inflight := map[];
    }

    ghost function Model(): Conn
      reads this
    {
      Conn(nextPkid, inflight)
    }

    /** A delivery goes out under the next identifier. */
    method Outgoing(d: Delivered) returns (pkid: u16)
      modifies this
      ensures pkid == old(nextPkid)
      ensures Model() == ConnNext(old(Model()), Sending(d))
    {
      pkid := nextPkid;
      nextPkid := if nextPkid == IDS - 1 then 0 else nextPkid + 1;
      inflight := inflight[pkid := d];
    }

    /** A PUBACK takes the delivery from under its identifier; the delivery is then acknowledged. */
    method PubAck(pkid: u16) returns (toAck: Option<Delivered>)
      modifies this`inflight
      ensures toAck == AckAttempt(old(Model()), Acking(pkid))
      ensures Model() == ConnNext(old(Model()), Acking(pkid))
    {
      if pkid in inflight {
        toAck := Some(inflight[pkid]);
        inflight := inflight - {pkid};
      } else {
        toAck := None;
      }
    }
  }

  datatype Conn = Conn(nextPkid: u16, inflight: map<u16, Delivered>)

  datatype Packet = Sending(d: Delivered) | Acking(pkid: u16)

  function ConnNext(c: Conn, p: Packet): Conn {
    match p
    case Sending(d) => Conn((c.nextPkid + 1) % IDS, c.inflight[c.nextPkid := d])
    case Acking(pkid) => c.(inflight := c.inflight - {pkid})
  }

  /** The engine acknowledgement a packet leads to. */
  function AckAttempt(c: Conn, p: Packet): Option<Delivered> {
    if p.Acking? && p.pkid in c.inflight then Some(c.inflight[p.pkid]) else None
  }

  ghost predicate IsConnRun(cs: seq<Conn>, ps: seq<Packet>) {
    && |cs| == |ps| + 1
    && cs[0] == Conn(1, map[])
    && forall i | 0 <= i < |ps| :: cs[i + 1] == ConnNext(cs[i], ps[i])
  }

  // ----- The history of a connection -----

  /** How many deliveries were sent in the first `i` packets. */
  function Sent(ps: seq<Packet>, i: nat): nat
    requires i <= |ps|
  {
    if i == 0 then 0 else Sent(ps, i - 1) + (if ps[i - 1].Sending? then 1 else 0)
  }

  /** The identifier of the delivery with this number. */
  function Pkid(n: nat): u16 {
    (n + 1) % IDS
  }

  /** Packet `k` sent a delivery that no later packet before `i` acknowledged by its identifier. */
  ghost predicate Unacknowledged(ps: seq<Packet>, k: nat, i: nat) {
    && k < i <= |ps| && ps[k].Sending?
    && forall j | k < j < i :: ps[j] != Acking(Pkid(Sent(ps, k)))
  }

  /** At every delivery, each unacknowledged one is at most 65535 deliveries old. */
  ghost predicate KeepsUp(ps: seq<Packet>) {
    forall k, i | 0 <= k < i < |ps| && ps[i].Sending? && Unacknowledged(ps, k, i) ::
      Sent(ps, i) - Sent(ps, k) < IDS
  }

  lemma {:induction false} NextPkid(cs: seq<Conn>, ps: seq<Packet>, i: nat)
    requires IsConnRun(cs, ps) && i <= |ps|
    ensures cs[i].nextPkid == Pkid(Sent(ps, i))
  {
    if i > 0 {
      NextPkid(cs, ps, i - 1);
      assert cs[i - 1 + 1] == ConnNext(cs[i - 1], ps[i - 1]);
    }
  }

  lemma {:induction false} SentGrows(ps: seq<Packet>, k: nat, i: nat)
    requires k <= i <= |ps|
    ensures Sent(ps, k) <= Sent(ps, i)
    ensures k < i && ps[k].Sending? ==> Sent(ps, k) < Sent(ps, i)
    decreases i
  {
    if k < i { SentGrows(ps, k, i - 1); }
  }

  /** Two numbers less than 65536 apart share an identifier only if they are equal. */
  lemma PkidsApart(a: nat, b: nat)
    requires a <= b < a + IDS && Pkid(a) == Pkid(b)
    ensures a == b
  {
    var qa, qb := (a + 1) / IDS, (b + 1) / IDS;
    assert a + 1 == qa * IDS + Pkid(a) && b + 1 == qb * IDS + Pkid(b);
    assert (qb - qa) * IDS == b - a;
    assert 0 <= (qb - qa) * 65536 < 65536;
  }

  /** What waits under an identifier is an unacknowledged delivery sent under it, and the latest one. */
  ghost predicate Waits(ps: seq<Packet>, i: nat, id: u16, d: Delivered, k: nat) {
    && Unacknowledged(ps, k, i) && ps[k] == Sending(d) && Pkid(Sent(ps, k)) == id
    && forall j | k < j < i && ps[j].Sending? :: Pkid(Sent(ps, j)) != id
  }

  lemma {:induction false} WaitingWasSent(cs: seq<Conn>, ps: seq<Packet>, i: nat, id: u16) returns (k: nat)
    requires IsConnRun(cs, ps) && i <= |ps| && id in cs[i].inflight
    ensures Waits(ps, i, id, cs[i].inflight[id], k)
  {
    assert i > 0;
    assert cs[i - 1 + 1] == ConnNext(cs[i - 1], ps[i - 1]);
    NextPkid(cs, ps, i - 1);
    if ps[i - 1].Sending? && id == cs[i - 1].nextPkid {
      k := i - 1;
    } else {
      k := WaitingWasSent(cs, ps, i - 1, id);
    }
  }

  /** An unacknowledged delivery waits under its identifier until 65536 more have been sent. */
  lemma {:induction false} UnacknowledgedWaits(cs: seq<Conn>, ps: seq<Packet>, k: nat, i: nat)
    requires IsConnRun(cs, ps) && Unacknowledged(ps, k, i) && Sent(ps, i) <= Sent(ps, k) + IDS
    ensures var id := Pkid(Sent(ps, k)); id in cs[i].inflight && cs[i].inflight[id] == ps[k].d
    decreases i
  {
    assert cs[i - 1 + 1] == ConnNext(cs[i - 1], ps[i - 1]);
    NextPkid(cs, ps, i - 1);
    if k < i - 1 {
      UnacknowledgedWaits(cs, ps, k, i - 1);
      SentGrows(ps, k, i - 1);
      if ps[i - 1].Sending? && Pkid(Sent(ps, k)) == Pkid(Sent(ps, i - 1)) {
        PkidsApart(Sent(ps, k), Sent(ps, i - 1));
        assert false;
      }
    }
  }

  /** The packet that sent a given delivery. */
  lemma {:induction false} SenderOf(ps: seq<Packet>, i: nat, n: nat) returns (j: nat)
    requires i <= |ps| && n < Sent(ps, i)
    ensures j < i && ps[j].Sending? && Sent(ps, j) == n
    decreases i
  {
    if ps[i - 1].Sending? && Sent(ps, i - 1) == n { j := i - 1; } else { j := SenderOf(ps, i - 1, n); }
  }

  /** Packet `k` sent the delivery 65536 before the one packet `i` sends, and it is unacknowledged. */
  ghost predicate WrapsOnto(ps: seq<Packet>, i: nat, k: nat) {
    Unacknowledged(ps, k, i) && Sent(ps, k) + IDS == Sent(ps, i)
  }

  /** A delivery overwrites a waiting one exactly when the delivery 65536 before it is unacknowledged. */
  lemma OverwritesIff(cs: seq<Conn>, ps: seq<Packet>, i: nat)
    requires IsConnRun(cs, ps) && i < |ps| && ps[i].Sending?
    ensures cs[i].nextPkid in cs[i].inflight <==> exists k :: WrapsOnto(ps, i, k)
  {
    NextPkid(cs, ps, i);
    if cs[i].nextPkid in cs[i].inflight {
      var k := WaitingWasSent(cs, ps, i, cs[i].nextPkid);
      LatestIsOneTurnBack(ps, i, k, cs[i].inflight[cs[i].nextPkid]);
    }
    if k :| WrapsOnto(ps, i, k) {
      UnacknowledgedWaits(cs, ps, k, i);
      SameTurn(Sent(ps, k));
    }
  }

  lemma SameTurn(n: nat)
    ensures Pkid(n + IDS) == Pkid(n)
  {
  }

  lemma LatestIsOneTurnBack(ps: seq<Packet>, i: nat, k: nat, d: Delivered)
    requires i < |ps| && Waits(ps, i, Pkid(Sent(ps, i)), d, k)
    ensures WrapsOnto(ps, i, k)
  {
    SentGrows(ps, k, i);
    var a, b := Sent(ps, k), Sent(ps, i);
    if b < a + IDS {
      PkidsApart(a, b);
    } else if a + IDS < b {
      var j := SenderOf(ps, i, a + IDS);
      SameTurn(a);
      if j < k { SentGrows(ps, j, k); }
    }
  }

  /** No delivery ever overwrites a waiting one exactly when, at every delivery, each unacknowledged one is
      at most 65535 deliveries old. */
  lemma NothingOverwrittenIff(cs: seq<Conn>, ps: seq<Packet>)
    requires IsConnRun(cs, ps)
    ensures (forall i | 0 <= i < |ps| && ps[i].Sending? :: cs[i].nextPkid !in cs[i].inflight) <==> KeepsUp(ps)
  {
    forall i | 0 <= i < |ps| && ps[i].Sending?
      ensures cs[i].nextPkid in cs[i].inflight <==> exists k :: WrapsOnto(ps, i, k)
    {
      OverwritesIff(cs, ps, i);
    }
    hide IsConnRun;
    if !KeepsUp(ps) {
      var k, i :| 0 <= k < i < |ps| && ps[i].Sending? && Unacknowledged(ps, k, i) && Sent(ps, i) - Sent(ps, k) >= IDS;
      var j := FirstWrap(ps, k, i);
      assert WrapsOnto(ps, j, k);
    }
  }

  lemma FirstWrap(ps: seq<Packet>, k: nat, i: nat) returns (j: nat)
    requires i < |ps| && ps[i].Sending? && Unacknowledged(ps, k, i) && Sent(ps, k) + IDS <= Sent(ps, i)
    ensures j <= i && ps[j].Sending? && WrapsOnto(ps, j, k)
  {
    if Sent(ps, k) + IDS == Sent(ps, i) {
      j := i;
    } else {
      j := SenderOf(ps, i, Sent(ps, k) + IDS);
      if j <= k { SentGrows(ps, j, k); }
    }
  }

  /** An unacknowledged delivery of a connection that keeps up is at most 65536 deliveries old. */
  lemma {:induction false} KeepsUpBounds(ps: seq<Packet>, k: nat, i: nat)
    requires KeepsUp(ps) && Unacknowledged(ps, k, i)
    ensures Sent(ps, i) <= Sent(ps, k) + IDS
    decreases i
  {
    if k < i - 1 {
      if ps[i - 1].Sending? {
        assert Unacknowledged(ps, k, i - 1);
      } else {
        KeepsUpBounds(ps, k, i - 1);
      }
    }
  }

  /** A PUBACK on a connection that keeps up leads to an acknowledgement of exactly the unacknowledged
      delivery sent under its identifier, and to none when there is no such delivery. */
  lemma RoutingIsExact(cs: seq<Conn>, ps: seq<Packet>, i: nat)
    requires IsConnRun(cs, ps) && KeepsUp(ps) && i < |ps| && ps[i].Acking?
    ensures forall k: nat | Unacknowledged(ps, k, i) && Pkid(Sent(ps, k)) == ps[i].pkid ::
              AckAttempt(cs[i], ps[i]) == Some(ps[k].d)
    ensures AckAttempt(cs[i], ps[i]).Some? ==>
              exists k: nat :: Unacknowledged(ps, k, i) && Pkid(Sent(ps, k)) == ps[i].pkid
  {
    forall k: nat | Unacknowledged(ps, k, i) && Pkid(Sent(ps, k)) == ps[i].pkid
      ensures AckAttempt(cs[i], ps[i]) == Some(ps[k].d)
    {
      KeepsUpBounds(ps, k, i);
      UnacknowledgedWaits(cs, ps, k, i);
    }
    if ps[i].pkid in cs[i].inflight {
      var k := WaitingWasSent(cs, ps, i, ps[i].pkid);
    }
  }

  /** At most one delivery is unacknowledged under an identifier, so the acknowledged one is unique. */
  lemma OneDeliveryPerIdentifier(ps: seq<Packet>, i: nat, k: nat, l: nat)
    requires KeepsUp(ps) && Unacknowledged(ps, k, i) && Unacknowledged(ps, l, i)
    requires k <= l && Pkid(Sent(ps, k)) == Pkid(Sent(ps, l))
    ensures k == l
  {
    if k < l {
      assert Unacknowledged(ps, k, l);
      SentGrows(ps, k, l);
      PkidsApart(Sent(ps, k), Sent(ps, l));
      assert false;
    }
  }

  /** Packet `i` leads to the acknowledgement of the delivery that packet `k` sent. */
  ghost predicate Acknowledges(cs: seq<Conn>, ps: seq<Packet>, i: nat, k: nat)
    requires IsConnRun(cs, ps) && i < |ps| && k < |ps| && ps[k].Sending?
  {
    AckAttempt(cs[i], ps[i]) == Some(ps[k].d) && Waits(ps, i, ps[i].pkid, ps[k].d, k)
  }

  /** Whether or not the connection keeps up, every acknowledgement is of one delivery sent before under
      that identifier, and the engine is asked at most once to acknowledge it. */
  lemma AcknowledgedAtMostOnce(cs: seq<Conn>, ps: seq<Packet>, i: nat) returns (k: nat)
    requires IsConnRun(cs, ps) && i < |ps| && AckAttempt(cs[i], ps[i]).Some?
    ensures k < i && ps[k].Sending? && Acknowledges(cs, ps, i, k)
    ensures forall j: nat | j < |ps| && Acknowledges(cs, ps, j, k) :: j == i
    ensures forall l: nat | l < |ps| && ps[l].Sending? && Acknowledges(cs, ps, i, l) :: l == k
  {
    k := WaitingWasSent(cs, ps, i, ps[i].pkid);
  }
}
