/**
 The wire format (nip77/negentropy/encoding.go) as functions: base-128 varints, timestamps as
 deltas with zero for infinity, bounds, ranges and whole messages; and the round trip.
 */
module NegentropyCodec {
  import opened ByteStrings
  import opened NegentropyTypes

  const TWO_63: int := 0x8000_0000_0000_0000
  const TWO_64: int := 0x1_0000_0000_0000_0000

  const SKIP_MODE: byte := 0
  const FINGERPRINT_MODE: byte := 1
  const ID_LIST_MODE: byte := 2

  /** The signed 64-bit value with the same low 64 bits. */
  function Wrap64(x: int): int {
    if -TWO_63 <= x < TWO_63 then x else (x + TWO_63) % TWO_64 - TWO_63
  }

  /** The unsigned 64-bit value with the same low 64 bits. */
  function Unsigned64(x: int): nat {
    if 0 <= x < TWO_64 then x else x % TWO_64
  }

  datatype Parsed<+T> = Fail | Got(value: T, rest: seq<byte>)

  // ---- varints ----

  /** The seven-bit groups of `n`, most significant first, each marked as continued. */
  function Continued(n: nat): seq<byte> {
    if n == 0 then [] else Continued(n / 128) + [128 + n % 128]
  }

  function VarInt(n: nat): seq<byte> {
    Continued(n / 128) + [n % 128]
  }

  function ReadVarFrom(s: seq<byte>, acc: int): (p: Parsed<int>)
    ensures p.Got? ==> |p.rest| < |s| && -TWO_63 <= p.value < TWO_63
  {
    if s == [] then Fail
    else
      var res := Wrap64(acc * 128 + s[0] % 128);
      if s[0] < 128 then Got(res, s[1..]) else ReadVarFrom(s[1..], res)
  }

  function ReadVar(s: seq<byte>): (p: Parsed<int>)
    ensures p.Got? ==> |p.rest| < |s| && -TWO_63 <= p.value < TWO_63
  {
    ReadVarFrom(s, 0)
  }

  /** One group read on top of the groups before it. */
  lemma {:induction false} ReadGroup(n: nat, b: byte, t: seq<byte>)
    requires n < TWO_63 && b % 128 == n % 128
    ensures ReadVarFrom([b] + t, n / 128) == if b < 128 then Got(n, t) else ReadVarFrom(t, n)
  {
    assert ([b] + t)[1..] == t;
    assert (n / 128) * 128 + b % 128 == n;
  }

  lemma {:induction false} ContinuedAccumulates(n: nat, t: seq<byte>)
    requires n < TWO_63
    ensures ReadVarFrom(Continued(n) + t, 0) == ReadVarFrom(t, n)
  {
    if n == 0 {
      assert Continued(n) + t == t;
    } else {
      var b: byte := 128 + n % 128;
      assert Continued(n) + t == Continued(n / 128) + ([b] + t);
      ContinuedAccumulates(n / 128, [b] + t);
      ReadGroup(n, b, t);
    }
  }

  /** Varints below 2^63 are read back. */
  lemma {:induction false} VarIntRoundTrip(n: nat, t: seq<byte>)
    requires n < TWO_63
    ensures ReadVar(VarInt(n) + t) == Got(n, t)
  {
    var b: byte := n % 128;
    assert VarInt(n) + t == Continued(n / 128) + ([b] + t);
    ContinuedAccumulates(n / 128, [b] + t);
    ReadGroup(n, b, t);
  }

  // ---- fixed-size reads ----

  /** `bytes.Reader.Read` into `n` bytes: an error only at the end, a short read leaves zeroes. */
  function ReadBytes(s: seq<byte>, n: nat): (p: Parsed<seq<byte>>)
    ensures p.Got? ==> |p.value| == n && |p.rest| <= |s|
  {
    if s == [] then Fail
    else if n <= |s| then Got(s[..n], s[n..])
    else Got(s + seq(n - |s|, i => 0), [])
  }

  lemma {:induction false} ReadBytesBack(b: seq<byte>, t: seq<byte>)
    requires b + t != []
    ensures ReadBytes(b + t, |b|) == Got(b, t)
  {
  }

  // ---- bounds ----

  function EncodeTimestamp(ts: int, last: int): seq<byte> {
    if ts == MAX_TIMESTAMP then VarInt(0) else VarInt(Unsigned64(Unsigned64(ts - last) + 1))
  }

  function ReadTimestamp(s: seq<byte>, last: int): (p: Parsed<int>)
    ensures p.Got? ==> |p.rest| < |s|
  {
    match ReadVar(s)
    case Fail => Fail
    case Got(delta, rest) =>
      Got(if delta == 0 then MAX_TIMESTAMP else Wrap64(last + Wrap64(delta - 1)), rest)
  }

  function EncodeBound(b: Bound, last: int): seq<byte> {
    EncodeTimestamp(b.ts, last) + VarInt(|b.prefix|) + b.prefix
  }

  function ReadBound(s: seq<byte>, last: int): (p: Parsed<Bound>)
    ensures p.Got? ==> |p.rest| < |s| && |p.value.prefix| < TWO_63
  {
    match ReadTimestamp(s, last)
    case Fail => Fail
    case Got(ts, s1) =>
      match ReadVar(s1)
      case Fail => Fail
      case Got(length, s2) =>
        if length < 0 then Fail
        else
          match ReadBytes(s2, length)
          case Fail => Fail
          case Got(prefix, s3) => Got(Bound(ts, prefix), s3)
  }

  // ---- ranges ----

  function Flatten(ids: seq<Id>): seq<byte> {
    if ids == [] then [] else Flatten(ids[..|ids| - 1]) + ids[|ids| - 1]
  }

  function EncodePayload(p: Payload): seq<byte> {
    match p
    case Skip => [SKIP_MODE]
    case Fingerprint(digest) => [FINGERPRINT_MODE] + digest
    case IdList(ids) => [ID_LIST_MODE] + VarInt(|ids|) + Flatten(ids)
  }

  function EncodeRange(r: Range, last: int): seq<byte> {
    EncodeBound(r.upper, last) + EncodePayload(r.payload)
  }

  function LastTimestamp(msg: Message, last: int): int {
    if msg == [] then last else msg[|msg| - 1].upper.ts
  }

  function EncodeRanges(msg: Message, last: int): seq<byte> {
    if msg == [] then []
    else EncodeRange(msg[0], last) + EncodeRanges(msg[1..], msg[0].upper.ts)
  }

  function ReadIds(s: seq<byte>, n: int): (p: Parsed<seq<Id>>)
    ensures p.Got? ==> |p.rest| <= |s|
    decreases n
  {
    if n <= 0 then Got([], s)
    else
      match ReadBytes(s, 32)
      case Fail => Fail
      case Got(id, s1) =>
        match ReadIds(s1, n - 1)
        case Fail => Fail
        case Got(ids, s2) =>
          var first: Id := id;
          Got([first] + ids, s2)
  }

  function ReadIdList(s: seq<byte>): (p: Parsed<Payload>)
    ensures p.Got? ==> |p.rest| <= |s|
  {
    match ReadVar(s)
    case Fail => Fail
    case Got(n, s1) =>
      match ReadIds(s1, n)
      case Fail => Fail
      case Got(ids, s2) => Got(IdList(ids), s2)
  }

  function ReadDigest(s: seq<byte>): (p: Parsed<Payload>)
    ensures p.Got? ==> |p.rest| <= |s|
  {
    match ReadBytes(s, 16)
    case Fail => Fail
    case Got(digest, s1) => Got(Fingerprint(digest), s1)
  }

  /** What follows the mode, which is cut down to one byte. */
  function ReadBody(mode: int, s: seq<byte>): (p: Parsed<Payload>)
    ensures p.Got? ==> |p.rest| <= |s|
  {
    if mode % 256 == SKIP_MODE then Got(Skip, s)
    else if mode % 256 == FINGERPRINT_MODE then ReadDigest(s)
    else if mode % 256 == ID_LIST_MODE then ReadIdList(s)
    else Fail
  }

  function ReadPayload(s: seq<byte>): (p: Parsed<Payload>)
    ensures p.Got? ==> |p.rest| <= |s|
  {
    match ReadVar(s)
    case Fail => Fail
    case Got(mode, s1) => ReadBody(mode, s1)
  }

  function ReadRange(s: seq<byte>, last: int): (p: Parsed<Range>)
    ensures p.Got? ==> |p.rest| < |s| && |p.value.upper.prefix| < TWO_63
  {
    match ReadBound(s, last)
    case Fail => Fail
    case Got(upper, s1) =>
      match ReadPayload(s1)
      case Fail => Fail
      case Got(payload, s2) => Got(Range(upper, payload), s2)
  }

  /** All ranges up to the first malformed one, and whether the whole string was read. */
  function ParseRanges(s: seq<byte>, last: int): (Message, bool)
    decreases |s|
  {
    if s == [] then ([], true)
    else
      match ReadRange(s, last)
      case Fail => ([], false)
      case Got(r, rest) =>
        var (ranges, complete) := ParseRanges(rest, r.upper.ts);
        ([r] + ranges, complete)
  }

  // ---- round trip ----

  /** What the wire format carries: rising timestamps from `last` on, and sizes below 2^63. */
  ghost predicate Transmissible(msg: Message, last: int) {
    && 0 <= last <= MAX_TIMESTAMP
    && (forall i :: 0 <= i < |msg| ==> last <= msg[i].upper.ts <= MAX_TIMESTAMP)
    && (forall i, j :: 0 <= i < j < |msg| ==> msg[i].upper.ts <= msg[j].upper.ts)
    && (forall i :: 0 <= i < |msg| ==> |msg[i].upper.prefix| < TWO_63)
    && (forall i :: 0 <= i < |msg| && msg[i].payload.IdList? ==> |msg[i].payload.ids| < TWO_63)
  }

  lemma {:induction false} TimestampRoundTrip(ts: int, last: int, t: seq<byte>)
    requires 0 <= last <= ts <= MAX_TIMESTAMP
    ensures ReadTimestamp(EncodeTimestamp(ts, last) + t, last) == Got(ts, t)
  {
    if ts == MAX_TIMESTAMP {
      VarIntRoundTrip(0, t);
    } else {
      VarIntRoundTrip(ts - last + 1, t);
    }
  }

  lemma {:induction false} BoundRoundTrip(b: Bound, last: int, t: seq<byte>)
    requires 0 <= last <= b.ts <= MAX_TIMESTAMP && |b.prefix| < TWO_63 && t != []
    ensures ReadBound(EncodeBound(b, last) + t, last) == Got(b, t)
  {
    var s1 := VarInt(|b.prefix|) + (b.prefix + t);
    assert EncodeBound(b, last) + t == EncodeTimestamp(b.ts, last) + s1;
    TimestampRoundTrip(b.ts, last, s1);
    VarIntRoundTrip(|b.prefix|, b.prefix + t);
    ReadBytesBack(b.prefix, t);
  }

  lemma {:induction false} FlattenHead(ids: seq<Id>)
    requires ids != []
    ensures Flatten(ids) == ids[0] + Flatten(ids[1..])
  {
    var n := |ids| - 1;
    if n > 0 {
      FlattenHead(ids[..n]);
      assert ids[..n][1..] == ids[1..][..n - 1];
    }
  }

  lemma {:induction false} IdsRoundTrip(ids: seq<Id>, t: seq<byte>)
    ensures ReadIds(Flatten(ids) + t, |ids|) == Got(ids, t)
  {
    if ids != [] {
      var s1 := Flatten(ids[1..]) + t;
      FlattenHead(ids);
      assert Flatten(ids) + t == ids[0] + s1;
      ReadBytesBack(ids[0], s1);
      IdsRoundTrip(ids[1..], t);
      assert ids == [ids[0]] + ids[1..];
    } else {
      assert Flatten(ids) + t == t;
    }
  }

  lemma {:induction false} ModeByte(mode: byte, t: seq<byte>)
    requires mode < 128
    ensures ReadVar([mode] + t) == Got(mode as int, t)
  {
    assert VarInt(mode) == [mode];
    VarIntRoundTrip(mode, t);
  }

  lemma {:induction false} IdListRoundTrip(ids: seq<Id>, t: seq<byte>)
    requires |ids| < TWO_63
    ensures ReadIdList(VarInt(|ids|) + Flatten(ids) + t) == Got(IdList(ids), t)
  {
    assert VarInt(|ids|) + Flatten(ids) + t == VarInt(|ids|) + (Flatten(ids) + t);
    VarIntRoundTrip(|ids|, Flatten(ids) + t);
    IdsRoundTrip(ids, t);
  }

  lemma {:induction false} PayloadRoundTrip(p: Payload, t: seq<byte>)
    requires p.IdList? ==> |p.ids| < TWO_63
    ensures ReadPayload(EncodePayload(p) + t) == Got(p, t)
  {
    match p
    case Skip =>
      ModeByte(SKIP_MODE, t);
    case Fingerprint(digest) =>
      assert EncodePayload(p) + t == [FINGERPRINT_MODE] + (digest + t);
      ModeByte(FINGERPRINT_MODE, digest + t);
      ReadBytesBack(digest, t);
    case IdList(ids) =>
      var s2 := VarInt(|ids|) + Flatten(ids) + t;
      assert EncodePayload(p) + t == [ID_LIST_MODE] + s2;
      ModeByte(ID_LIST_MODE, s2);
      IdListRoundTrip(ids, t);
  }

  lemma {:induction false} RangeRoundTrip(r: Range, last: int, t: seq<byte>)
    requires Transmissible([r], last)
    ensures ReadRange(EncodeRange(r, last) + t, last) == Got(r, t)
  {
    assert [r][0] == r;
    var s1 := EncodePayload(r.payload) + t;
    assert EncodeRange(r, last) + t == EncodeBound(r.upper, last) + s1;
    BoundRoundTrip(r.upper, last, s1);
    PayloadRoundTrip(r.payload, t);
  }

  lemma {:induction false} EncodeAppend(front: Message, back: Message, last: int)
    ensures EncodeRanges(front + back, last) ==
            EncodeRanges(front, last) + EncodeRanges(back, LastTimestamp(front, last))
  {
    if front == [] {
      assert front + back == back;
    } else {
      assert (front + back)[0] == front[0] && (front + back)[1..] == front[1..] + back;
      EncodeAppend(front[1..], back, front[0].upper.ts);
      Reassociate(EncodeRange(front[0], last), EncodeRanges(front[1..], front[0].upper.ts),
                  EncodeRanges(back, LastTimestamp(front, last)));
    }
  }

  lemma {:induction false} Reassociate(a: seq<byte>, b: seq<byte>, c: seq<byte>)
    ensures a + (b + c) == (a + b) + c
  {
  }

  /** Writing one more range at the end. */
  lemma {:induction false} EncodeLast(front: Message, r: Range, last: int)
    ensures EncodeRanges(front + [r], last) == EncodeRanges(front, last) + EncodeRange(r, LastTimestamp(front, last))
  {
    EncodeAppend(front, [r], last);
    assert [r][0] == r && [r][1..] == [];
  }

  lemma {:induction false} EncodeNext(msg: Message, i: nat, last: int)
    requires i < |msg|
    ensures EncodeRanges(msg[..i + 1], last)
         == EncodeRanges(msg[..i], last) + EncodeRange(msg[i], LastTimestamp(msg[..i], last))
    ensures LastTimestamp(msg[..i + 1], last) == msg[i].upper.ts
  {
    assert msg[..i + 1] == msg[..i] + [msg[i]];
    EncodeLast(msg[..i], msg[i], last);
  }

  lemma {:induction false} TransmissibleTail(msg: Message, last: int)
    requires Transmissible(msg, last) && msg != []
    ensures Transmissible([msg[0]], last) && Transmissible(msg[1..], msg[0].upper.ts)
  {
    assert forall i :: 0 <= i < |msg[1..]| ==> msg[1..][i] == msg[i + 1];
  }

  /** Whatever rising sequence of ranges is written, the receiver reads the same ranges. */
  lemma {:induction false} MessageRoundTrip(msg: Message, last: int)
    requires Transmissible(msg, last)
    ensures ParseRanges(EncodeRanges(msg, last), last) == (msg, true)
  {
    if msg != [] {
      TransmissibleTail(msg, last);
      var t := EncodeRanges(msg[1..], msg[0].upper.ts);
      RangeRoundTrip(msg[0], last, t);
      MessageRoundTrip(msg[1..], msg[0].upper.ts);
      ParseStep(EncodeRange(msg[0], last) + t, last, msg[0], t);
      assert msg == [msg[0]] + msg[1..];
    }
  }

  lemma {:induction false} ParseStep(s: seq<byte>, last: int, r: Range, rest: seq<byte>)
    requires ReadRange(s, last) == Got(r, rest)
    ensures ParseRanges(s, last) == ([r] + ParseRanges(rest, r.upper.ts).0, ParseRanges(rest, r.upper.ts).1)
  {
  }
}
