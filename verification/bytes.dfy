/** Machine integers, byte strings and the key encodings of the sled trees.

    The delivery order of the engine is nowhere stored: it is the unsigned
    lexicographic order of the keys built here.  The lemmas of this module say
    what that order means for each kind of key. */
module Bytes {

  const TWO_32: int := 0x1_0000_0000
  const TWO_63: int := 0x8000_0000_0000_0000
  const TWO_64: int := 0x1_0000_0000_0000_0000

  type byte = x: int | 0 <= x < 0x100
  type u16 = x: int | 0 <= x < 0x1_0000
  type u32 = x: int | 0 <= x < 0x1_0000_0000
  type u64 = x: int | 0 <= x < 0x1_0000_0000_0000_0000
  type i64 = x: int | -0x8000_0000_0000_0000 <= x < 0x8000_0000_0000_0000

  /** A clock reading: milliseconds since the Unix epoch, never negative. */
  type millis = x: int | 0 <= x < 0x8000_0000_0000_0000

  type Key = seq<byte>

  // ----- Casts and wrapping arithmetic -----

  /** `x as u64` of an i64: two's complement reinterpretation. */
  function AsU64(x: i64): (r: u64) {
    if x < 0 then x + TWO_64 else x
  }

  /** The i64 that 64-bit wrapping arithmetic leaves of an integer. */
  function WrapI64(x: int): (r: i64)
    ensures -TWO_63 <= x < TWO_63 ==> r == x
  {
    (x + TWO_63) % TWO_64 - TWO_63
  }

  /** Wrapping takes away a whole number of turns, and there is one such i64 only. */
  lemma WrapIsTheTurn(x: int, r: i64, turns: int)
    requires r == x - turns * TWO_64
    ensures WrapI64(x) == r
  {
  }

  // ----- Lexicographic order -----

  /** Strict lexicographic order on byte strings, the iteration order of a sled tree. */
  predicate Less(a: Key, b: Key)
    decreases |a|
  {
    b != [] && (a == [] || a[0] < b[0] || (a[0] == b[0] && Less(a[1..], b[1..])))
  }

  lemma {:induction false} LessIrreflexive(a: Key)
    ensures !Less(a, a)
    decreases |a|
  {
    if a != [] { LessIrreflexive(a[1..]); }
  }

  lemma {:induction false} LessTotal(a: Key, b: Key)
    ensures a == b || Less(a, b) || Less(b, a)
    decreases |a|
  {
    if a != [] && b != [] && a[0] == b[0] {
      LessTotal(a[1..], b[1..]);
      assert a == [a[0]] + a[1..] && b == [b[0]] + b[1..];
    }
  }

  lemma {:induction false} LessTransitive(a: Key, b: Key, c: Key)
    requires Less(a, b) && Less(b, c)
    ensures Less(a, c)
    decreases |a|
  {
    if a != [] && a[0] == b[0] && b[0] == c[0] { LessTransitive(a[1..], b[1..], c[1..]); }
  }

  lemma LessAsymmetric(a: Key, b: Key)
    requires Less(a, b)
    ensures !Less(b, a) && a != b
  {
    if Less(b, a) { LessTransitive(a, b, a); }
    LessIrreflexive(a);
  }

  /** Prefixes of equal length are compared first. */
  lemma {:induction false} LessConcat(a: Key, b: Key, c: Key, d: Key)
    requires |a| == |b|
    ensures Less(a + c, b + d) <==> Less(a, b) || (a == b && Less(c, d))
    decreases |a|
  {
    if a == [] {
      assert a + c == c && b + d == d;
    } else {
      assert (a + c)[1..] == a[1..] + c && (b + d)[1..] == b[1..] + d;
      assert a == [a[0]] + a[1..] && b == [b[0]] + b[1..];
      LessConcat(a[1..], b[1..], c, d);
    }
  }

  // ----- Big-endian integers -----

  function Pow256(w: nat): (p: nat)
    ensures p >= 1
  {
    if w == 0 then 1 else 256 * Pow256(w - 1)
  }

  lemma Pow256Of8()
    ensures Pow256(8) == TWO_64
  {
    assert Pow256(4) == 0x1_0000_0000;
    assert Pow256(6) == 0x1_0000_0000_0000;
  }

  /** The `w` low-order bytes of `n`, most significant byte first. */
  function ToBe(n: nat, w: nat): (s: Key)
    ensures |s| == w
  {
    if w == 0 then [] else ToBe(n / 256, w - 1) + [n % 256]
  }

  function FromBe(s: Key): (n: nat)
    ensures n < Pow256(|s|)
  {
    if s == [] then 0 else FromBe(s[..|s| - 1]) * 256 + s[|s| - 1]
  }

  lemma {:induction false} BeRoundTrip(n: nat, w: nat)
    requires n < Pow256(w)
    ensures FromBe(ToBe(n, w)) == n
  {
    if w > 0 {
      BeRoundTrip(n / 256, w - 1);
      assert ToBe(n, w)[..w - 1] == ToBe(n / 256, w - 1);
    }
  }

  /** Byte order is numeric order on strings of one length. */
  lemma {:induction false} LessIsNumeric(a: Key, b: Key)
    requires |a| == |b|
    ensures Less(a, b) <==> FromBe(a) < FromBe(b)
    ensures a == b <==> FromBe(a) == FromBe(b)
    decreases |a|
  {
    if a != [] {
      var n := |a| - 1;
      LessIsNumeric(a[..n], b[..n]);
      assert a == a[..n] + [a[n]] && b == b[..n] + [b[n]];
      LessConcat(a[..n], b[..n], [a[n]], [b[n]]);
      assert Less([a[n]], [b[n]]) <==> a[n] < b[n];
    }
  }

  /** `u64::to_be_bytes` */
  function Be64(n: u64): (s: Key)
    ensures |s| == 8
  {
    ToBe(n, 8)
  }

  /** `u64::from_be_bytes` */
  function FromBe64(s: Key): (n: u64)
    requires |s| == 8
  {
    Pow256Of8();
    FromBe(s)
  }

  lemma Be64RoundTrip(n: u64)
    ensures FromBe64(Be64(n)) == n
  {
    Pow256Of8();
    BeRoundTrip(n, 8);
  }

  lemma Be64Surjective(s: Key)
    requires |s| == 8
    ensures Be64(FromBe64(s)) == s
  {
    Be64RoundTrip(FromBe64(s));
    LessIsNumeric(s, Be64(FromBe64(s)));
  }

  lemma Be64Order(a: u64, b: u64)
    ensures Less(Be64(a), Be64(b)) <==> a < b
    ensures Be64(a) == Be64(b) <==> a == b
  {
    Be64RoundTrip(a);
    Be64RoundTrip(b);
    LessIsNumeric(Be64(a), Be64(b));
  }

  // ----- Queue keys: inverted priority, then id -----

  /** The lane of a priority: values above 9 are treated as 9. */
  function Class(priority: byte): (c: nat)
    ensures c <= 9
  {
    if priority < 9 then priority else 9
  }

  function EncodeKey(priority: byte, id: u64): (k: Key)
    ensures |k| == 9
  {
    [9 - Class(priority)] + Be64(id)
  }

  /** The id read back from the last eight bytes of a queue key.  Every key that occurs in a
      well-formed queue has nine bytes. */
  function KeyId(k: Key): (id: u64) {
    if |k| == 9 then FromBe64(k[1..]) else 0
  }

  lemma KeyIdRoundTrip(priority: byte, id: u64)
    ensures KeyId(EncodeKey(priority, id)) == id
    ensures EncodeKey(priority, id)[0] == 9 - Class(priority)
  {
    assert EncodeKey(priority, id)[1..] == Be64(id);
    Be64RoundTrip(id);
  }

  /** Nine-byte keys are ordered by their first byte, then by id. */
  lemma QueueKeyOrder(a: Key, b: Key)
    requires |a| == |b| == 9
    ensures Less(a, b) <==> a[0] < b[0] || (a[0] == b[0] && KeyId(a) < KeyId(b))
    ensures a == b <==> a[0] == b[0] && KeyId(a) == KeyId(b)
  {
    assert a == [a[0]] + a[1..] && b == [b[0]] + b[1..];
    LessConcat([a[0]], [b[0]], a[1..], b[1..]);
    LessIsNumeric(a[1..], b[1..]);
    assert Less([a[0]], [b[0]]) <==> a[0] < b[0];
  }

  /** The second priority is the more urgent: the higher number, where all numbers from 9 on count as one. */
  predicate Outranked(p: byte, q: byte) {
    p < q && p < 9
  }

  /** A higher priority is a smaller key; within a priority the older id is. */
  lemma EncodeKeyOrder(p: byte, i: u64, q: byte, j: u64)
    ensures Less(EncodeKey(p, i), EncodeKey(q, j)) <==> Outranked(q, p) || (!Outranked(p, q) && i < j)
    ensures EncodeKey(p, i) == EncodeKey(q, j) <==> (p == q || (p >= 9 && q >= 9)) && i == j
    ensures Class(p) < Class(q) <==> Outranked(p, q)
  {
    KeyIdRoundTrip(p, i);
    KeyIdRoundTrip(q, j);
    QueueKeyOrder(EncodeKey(p, i), EncodeKey(q, j));
  }

  // ----- Schedule keys: delivery time, then id -----

  function EncodeScheduledKey(deliverAt: i64, id: u64): (k: Key)
    ensures |k| == 16
  {
    Be64(AsU64(deliverAt)) + Be64(id)
  }

  /** The delivery time as `promote_scheduled` reads it: eight big-endian bytes cast to i64. */
  function ScheduledTime(k: Key): (t: i64) {
    if |k| == 16 then WrapI64(FromBe64(k[..8])) else 0
  }

  function ScheduledId(k: Key): (id: u64) {
    if |k| == 16 then FromBe64(k[8..]) else 0
  }

  lemma ScheduledKeyRoundTrip(t: i64, id: u64)
    ensures ScheduledTime(EncodeScheduledKey(t, id)) == t
    ensures ScheduledId(EncodeScheduledKey(t, id)) == id
  {
    var k := EncodeScheduledKey(t, id);
    assert k[..8] == Be64(AsU64(t)) && k[8..] == Be64(id);
    Be64RoundTrip(AsU64(t));
    Be64RoundTrip(id);
  }

  /** Schedule keys sort by the unsigned image of the time, then by id. */
  lemma EncodeScheduledKeyOrder(t: i64, i: u64, u: i64, j: u64)
    ensures Less(EncodeScheduledKey(t, i), EncodeScheduledKey(u, j)) <==>
            AsU64(t) < AsU64(u) || (t == u && i < j)
  {
    LessConcat(Be64(AsU64(t)), Be64(AsU64(u)), Be64(i), Be64(j));
    Be64Order(AsU64(t), AsU64(u));
    Be64Order(i, j);
  }

  /** Byte order agrees with time order exactly when the two times have the same sign:
      a negative time sorts behind every non-negative one. */
  lemma ScheduledOrderIsTimeOrderIff(t: i64, i: u64, u: i64, j: u64)
    requires t != u
    ensures (Less(EncodeScheduledKey(t, i), EncodeScheduledKey(u, j)) <==> t < u) <==> (t < 0 <==> u < 0)
  {
    EncodeScheduledKeyOrder(t, i, u, j);
  }
}
