/** The stored form of a message: field by field, integers in little-endian order and of fixed width, byte
    strings and lists behind their length in eight bytes, options behind one byte.  The engine counts its
    length, and reading it gives the message back. */
module Encoding {
  import opened Bytes
  import opened Results
  import opened Messages

  type Header = (seq<byte>, seq<byte>)

  // ----- Writing -----

  function Le(n: nat, w: nat): (s: seq<byte>)
    ensures |s| == w
  {
    if w == 0 then [] else [n % 256] + Le(n / 256, w - 1)
  }

  function Text(t: seq<byte>): seq<byte> {
    Le(|t|, 8) + t
  }

  function HeaderList(hs: seq<Header>): seq<byte> {
    if hs == [] then [] else Text(hs[0].0) + (Text(hs[0].1) + HeaderList(hs[1..]))
  }

  function Time(t: Option<i64>): seq<byte> {
    if t.Some? then [1] + Le(AsU64(t.value), 8) else [0]
  }

  function OptionalText(t: Option<seq<byte>>): seq<byte> {
    if t.Some? then [1] + Text(t.value) else [0]
  }

  function Encode(m: Message): seq<byte> {
    Text(Le(m.id, 16)) + (Text(m.payload) + (Le(|m.headers|, 8) + (HeaderList(m.headers)
    + (Le(AsU64(m.timestamp), 8) + (Le(m.attempts, 4) + ([m.priority] + (Time(m.deliverAt)
    + OptionalText(m.dedupKey))))))))
  }

  // ----- Its length -----

  lemma {:induction false} HeaderListLength(hs: seq<Header>)
    ensures |HeaderList(hs)| == HeaderBytes(hs)
    decreases |hs|
  {
    if hs != [] { HeaderListLength(hs[1..]); }
  }

  /** The bytes the engine counts for a message are the bytes it stores. */
  lemma EncodedLenIsLength(m: Message)
    ensures |Encode(m)| == EncodedLen(m)
  {
    hide Le, HeaderList, HeaderBytes;
    HeaderListLength(m.headers);
  }

  // ----- Reading -----

  function FromLe(s: seq<byte>): nat {
    if s == [] then 0 else s[0] + 256 * FromLe(s[1..])
  }

  /** A number of `w` bytes and what follows it. */
  function ReadNumber(s: seq<byte>, w: nat): Option<(nat, seq<byte>)> {
    if |s| < w then None else Some((FromLe(s[..w]), s[w..]))
  }

  function ReadText(s: seq<byte>): Option<(seq<byte>, seq<byte>)> {
    match ReadNumber(s, 8)
    case None => None
    case Some((n, rest)) => if |rest| < n then None else Some((rest[..n], rest[n..]))
  }

  function ReadHeaders(s: seq<byte>, n: nat): Option<(seq<Header>, seq<byte>)>
    decreases n
  {
    if n == 0 then Some(([], s))
    else
      match ReadText(s)
      case None => None
      case Some((name, rest)) =>
        match ReadText(rest)
        case None => None
        case Some((value, rest')) =>
          match ReadHeaders(rest', n - 1)
          case None => None
          case Some((hs, rest'')) => Some(([(name, value)] + hs, rest''))
  }

  function ReadTime(s: seq<byte>): Option<(Option<i64>, seq<byte>)> {
    if s == [] || s[0] > 1 then None
    else if s[0] == 0 then Some((None, s[1..]))
    else
      match ReadNumber(s[1..], 8)
      case None => None
      case Some((n, rest)) => Some((Some(WrapI64(n)), rest))
  }

  function ReadOptionalText(s: seq<byte>): Option<(Option<seq<byte>>, seq<byte>)> {
    if s == [] || s[0] > 1 then None
    else if s[0] == 0 then Some((None, s[1..]))
    else
      match ReadText(s[1..])
      case None => None
      case Some((t, rest)) => Some((Some(t), rest))
  }

  /** The last four fields. */
  function ReadRest(s: seq<byte>): Option<(u32, byte, Option<i64>, Option<seq<byte>>)> {
    match ReadNumber(s, 4)
    case None => None
    case Some((attempts, a)) =>
      if a == [] || attempts >= TWO_32 then None
      else
        match ReadTime(a[1..])
        case None => None
        case Some((deliverAt, b)) =>
          match ReadOptionalText(b)
          case None => None
          case Some((dedupKey, _)) => Some((attempts, a[0], deliverAt, dedupKey))
  }

  function Decode(s: seq<byte>): Option<Message> {
    match ReadText(s)
    case None => None
    case Some((id, a)) =>
      match ReadText(a)
      case None => None
      case Some((payload, b)) =>
        match ReadNumber(b, 8)
        case None => None
        case Some((n, c)) =>
          match ReadHeaders(c, n)
          case None => None
          case Some((headers, d)) =>
            match ReadNumber(d, 8)
            case None => None
            case Some((time, e)) =>
              match ReadRest(e)
              case None => None
              case Some((attempts, priority, deliverAt, dedupKey)) =>
                Some(Message(FromLe(id), payload, headers, WrapI64(time), attempts, priority, deliverAt, dedupKey))
  }

  // ----- Reading what was written -----

  lemma {:induction false} LeRoundTrip(n: nat, w: nat)
    requires n < Pow256(w)
    ensures FromLe(Le(n, w)) == n
    decreases w
  {
    if w > 0 {
      LeRoundTrip(n / 256, w - 1);
      assert Le(n, w)[1..] == Le(n / 256, w - 1);
    }
  }

  lemma NumberBack(n: nat, w: nat, rest: seq<byte>)
    requires n < Pow256(w)
    ensures ReadNumber(Le(n, w) + rest, w) == Some((n, rest))
  {
    hide Le, FromLe;
    LeRoundTrip(n, w);
    assert (Le(n, w) + rest)[..w] == Le(n, w) && (Le(n, w) + rest)[w..] == rest;
  }

  lemma TextBack(t: seq<byte>, rest: seq<byte>)
    requires |t| < TWO_64
    ensures ReadText(Text(t) + rest) == Some((t, rest))
  {
    hide Le, ReadNumber;
    Pow256Of8();
    NumberBack(|t|, 8, t + rest);
    assert Text(t) + rest == Le(|t|, 8) + (t + rest);
    assert (t + rest)[..|t|] == t && (t + rest)[|t|..] == rest;
  }

  ghost predicate ShortHeaders(hs: seq<Header>) {
    forall i | 0 <= i < |hs| :: |hs[i].0| < TWO_64 && |hs[i].1| < TWO_64
  }

  lemma {:induction false} HeadersBack(hs: seq<Header>, rest: seq<byte>)
    requires ShortHeaders(hs)
    ensures ReadHeaders(HeaderList(hs) + rest, |hs|) == Some((hs, rest))
    decreases |hs|
  {
    hide Text, ReadText;
    if hs == [] {
      assert HeaderList(hs) + rest == rest;
    } else {
      var tail := HeaderList(hs[1..]) + rest;
      assert HeaderList(hs) + rest == Text(hs[0].0) + (Text(hs[0].1) + tail);
      TextBack(hs[0].0, Text(hs[0].1) + tail);
      TextBack(hs[0].1, tail);
      HeadersBack(hs[1..], rest);
      assert [(hs[0].0, hs[0].1)] + hs[1..] == hs;
    }
  }

  lemma CastBack(t: i64)
    ensures WrapI64(AsU64(t)) == t
  {
  }

  lemma TimeBack(t: Option<i64>, rest: seq<byte>)
    ensures ReadTime(Time(t) + rest) == Some((t, rest))
  {
    hide Le, ReadNumber, WrapI64, AsU64;
    if t.Some? {
      Pow256Of8();
      NumberBack(AsU64(t.value), 8, rest);
      CastBack(t.value);
      assert (Time(t) + rest)[1..] == Le(AsU64(t.value), 8) + rest;
    } else {
      assert (Time(t) + rest)[1..] == rest;
    }
  }

  lemma OptionalTextBack(t: Option<seq<byte>>)
    requires t.Some? ==> |t.value| < TWO_64
    ensures ReadOptionalText(OptionalText(t)) == Some((t, []))
  {
    hide Text, ReadText;
    if t.Some? {
      TextBack(t.value, []);
      assert OptionalText(t)[1..] == Text(t.value) + [];
    } else {
      assert OptionalText(t)[1..] == [];
    }
  }

  /** Identifiers of sixteen bytes, and lengths that fit in eight. */
  ghost predicate Encodable(m: Message) {
    && m.id < Pow256(16) && |m.payload| < TWO_64 && |m.headers| < TWO_64 && ShortHeaders(m.headers)
    && (m.dedupKey.Some? ==> |m.dedupKey.value| < TWO_64)
  }

  lemma RestBack(attempts: u32, priority: byte, deliverAt: Option<i64>, dedupKey: Option<seq<byte>>)
    requires dedupKey.Some? ==> |dedupKey.value| < TWO_64
    ensures ReadRest(Le(attempts, 4) + ([priority] + (Time(deliverAt) + OptionalText(dedupKey))))
            == Some((attempts, priority, deliverAt, dedupKey))
  {
    hide Le, ReadNumber, Time, ReadTime, OptionalText, ReadOptionalText;
    assert Pow256(4) == TWO_32;
    var c := Time(deliverAt) + OptionalText(dedupKey);
    NumberBack(attempts, 4, [priority] + c);
    assert ([priority] + c)[1..] == c;
    TimeBack(deliverAt, OptionalText(dedupKey));
    OptionalTextBack(dedupKey);
  }

  /** Decoding gives back what was encoded. */
  lemma DecodeEncode(m: Message)
    requires Encodable(m)
    ensures Decode(Encode(m)) == Some(m)
  {
    hide Le, FromLe, Text, HeaderList, Time, OptionalText, ReadText, ReadNumber, ReadHeaders, ReadRest, WrapI64, AsU64;
    var e := Le(m.attempts, 4) + ([m.priority] + (Time(m.deliverAt) + OptionalText(m.dedupKey)));
    var d := Le(AsU64(m.timestamp), 8) + e;
    var c := HeaderList(m.headers) + d;
    var b := Le(|m.headers|, 8) + c;
    Pow256Of8();
    TextBack(Le(m.id, 16), Text(m.payload) + b);
    LeRoundTrip(m.id, 16);
    TextBack(m.payload, b);
    NumberBack(|m.headers|, 8, c);
    HeadersBack(m.headers, d);
    NumberBack(AsU64(m.timestamp), 8, e);
    CastBack(m.timestamp);
    RestBack(m.attempts, m.priority, m.deliverAt, m.dedupKey);
  }
}
