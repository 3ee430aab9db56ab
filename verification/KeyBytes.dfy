/**
 The byte form of pebbledb2 keys (eventstore/pebbledb2/keys.go): distinct keys have distinct
 bytes, byte order is timeline order, and range bounds cut out exactly the intended keys.
 */
module KeyBytes {
  import opened ByteStrings
  import opened NostrEvents
  import opened StoreKeys

  // ---- big-endian numbers ----

  function Pow256(w: nat): (r: nat)
    ensures r >= 1
  {
    if w == 0 then 1 else 256 * Pow256(w - 1)
  }

  function BigEndian(n: nat, w: nat): (r: seq<byte>)
    ensures |r| == w
  {
    if w == 0 then [] else BigEndian(n / 256, w - 1) + [n % 256]
  }

  function FromBigEndian(b: seq<byte>): nat {
    if b == [] then 0 else 256 * FromBigEndian(b[..|b| - 1]) + b[|b| - 1]
  }

  lemma {:induction false} BigEndianRoundTrip(n: nat, w: nat)
    requires n < Pow256(w)
    ensures FromBigEndian(BigEndian(n, w)) == n
  {
    if w > 0 {
      BigEndianRoundTrip(n / 256, w - 1);
      assert BigEndian(n, w)[..w - 1] == BigEndian(n / 256, w - 1);
    }
  }

  /** Equal lengths in front leave the comparison to what follows. */
  lemma {:induction false} LexAppend(a: seq<byte>, b: seq<byte>, x: seq<byte>, y: seq<byte>)
    requires |a| == |b|
    ensures LexLess(a + x, b + y) <==> LexLess(a, b) || (a == b && LexLess(x, y))
  {
    if a == [] {
      assert a + x == x && b + y == y;
    } else {
      assert (a + x)[1..] == a[1..] + x && (b + y)[1..] == b[1..] + y;
      LexAppend(a[1..], b[1..], x, y);
      assert a == [a[0]] + a[1..] && b == [b[0]] + b[1..];
    }
  }

  /** Big-endian byte order is number order. */
  lemma {:induction false} BigEndianOrder(m: nat, n: nat, w: nat)
    requires m < Pow256(w) && n < Pow256(w)
    ensures LexLess(BigEndian(m, w), BigEndian(n, w)) <==> m < n
  {
    if w > 0 {
      BigEndianOrder(m / 256, n / 256, w - 1);
      BigEndianRoundTrip(m / 256, w - 1);
      BigEndianRoundTrip(n / 256, w - 1);
      LexAppend(BigEndian(m / 256, w - 1), BigEndian(n / 256, w - 1), [m % 256], [n % 256]);
    }
  }

  lemma {:induction false} Widths()
    ensures Pow256(1) == 0x100 && Pow256(2) == 0x1_0000 && Pow256(4) == TWO_32
    ensures Pow256(8) == 0x1_0000_0000_0000_0000
  {
    assert Pow256(2) == 256 * Pow256(1);
    assert Pow256(3) == 256 * Pow256(2);
    assert Pow256(4) == 256 * Pow256(3);
    assert Pow256(5) == 256 * Pow256(4);
    assert Pow256(6) == 256 * Pow256(5);
    assert Pow256(7) == 256 * Pow256(6);
    assert Pow256(8) == 256 * Pow256(7);
  }

  // ---- keys ----

  const LOCATOR: byte := 0x65    // 'e'
  const BODY: byte := 0x76       // 'v'
  const PUBKEY: byte := 0x70     // 'p'
  const PUBKEY_KIND: byte := 0x63 // 'c'
  const KIND: byte := 0x6B       // 'k'
  const TAG: byte := 0x74        // 't'
  const TIME: byte := 0x54       // 'T'
  const BLOOM: byte := 0x46      // 'F'
  const COUNTER: byte := 0x4E    // 'N'

  predicate FitsTag(name: Str, value: Str) {
    |name| <= 255 && |value| <= 65535
  }

  /** Prefixes the store writes: tag names and values within their length fields. */
  predicate FitsPrefix(p: Prefix) {
    p.ByTag? ==> FitsTag(p.name, p.value)
  }

  predicate FitsPos(p: Pos) {
    0 <= p.ts <= MAX_INT64
  }

  function TagPrefix(name: Str, value: Str): seq<byte>
    requires FitsTag(name, value)
  {
    [TAG, |name|] + name + BigEndian(|value|, 2) + value
  }

  function PrefixBytes(p: Prefix): seq<byte>
    requires FitsPrefix(p)
  {
    match p
    case ByAuthor(pk) => [PUBKEY] + pk
    case ByAuthorKind(pk, kind) => [PUBKEY_KIND] + pk + BigEndian(kind, 4)
    case ByKind(kind) => [KIND] + BigEndian(kind, 4)
    case ByTag(name, value) => TagPrefix(name, value)
    case ByTime => [TIME]
  }

  function Tail(p: Pos): (r: seq<byte>)
    requires FitsPos(p)
    ensures |r| == 40
  {
    BigEndian(p.ts, 8) + p.id
  }

  predicate FitsBucket(b: Bucket) {
    match b
    case KindDay(_, n) => n < TWO_32
    case Day(n) => n < TWO_32
    case KindHour(_, n) => n < TWO_32
    case Hour(n) => n < TWO_32
    case AuthorKind(_, _) => true
  }

  function BucketBytes(b: Bucket): seq<byte>
    requires FitsBucket(b)
  {
    match b
    case KindDay(kind, n) => [COUNTER, 1] + BigEndian(kind, 4) + BigEndian(n, 4)
    case Day(n) => [COUNTER, 2] + BigEndian(n, 4)
    case KindHour(kind, n) => [COUNTER, 3] + BigEndian(kind, 4) + BigEndian(n, 4)
    case Hour(n) => [COUNTER, 4] + BigEndian(n, 4)
    case AuthorKind(pk, kind) => [COUNTER, 5] + pk + BigEndian(kind, 4)
  }

  predicate Writable(k: Key) {
    match k
    case Locator(_) => true
    case Body(at) => FitsPos(at)
    case Signature(at) => FitsPos(at)
    case Index(p, at) => FitsPrefix(p) && FitsPos(at)
    case Counter(b) => FitsBucket(b)
  }

  function Encode(k: Key): seq<byte>
    requires Writable(k)
  {
    match k
    case Locator(id) => [LOCATOR] + id
    case Body(at) => [BODY] + Tail(at)
    case Signature(at) => [BLOOM] + Tail(at)
    case Index(p, at) => PrefixBytes(p) + Tail(at)
    case Counter(b) => BucketBytes(b)
  }

  function NumberAt(b: seq<byte>, at: nat, w: nat): nat
    requires at + w <= |b|
  {
    FromBigEndian(b[at..at + w])
  }

  predicate EndsAt(b: seq<byte>, at: Pos) {
    |b| >= 40 && b[|b| - 32..] == at.id && NumberAt(b, |b| - 40, 8) == at.ts
  }

  /** The fields of a key, byte by byte: what stands where, and how long the key is. */
  ghost predicate LaidOut(k: Key, b: seq<byte>) {
    match k
    case Locator(id) => |b| == 33 && b[0] == 0x65 && b[1..] == id
    case Body(at) => |b| == 41 && b[0] == 0x76 && EndsAt(b, at)
    case Signature(at) => |b| == 41 && b[0] == 0x46 && EndsAt(b, at)
    case Index(ByAuthor(pk), at) => |b| == 73 && b[0] == 0x70 && b[1..33] == pk && EndsAt(b, at)
    case Index(ByAuthorKind(pk, kind), at) =>
      |b| == 77 && b[0] == 0x63 && b[1..33] == pk && NumberAt(b, 33, 4) == kind && EndsAt(b, at)
    case Index(ByKind(kind), at) => |b| == 45 && b[0] == 0x6B && NumberAt(b, 1, 4) == kind && EndsAt(b, at)
    case Index(ByTag(name, value), at) =>
      var n := |name|;
      && |b| == 44 + n + |value| && b[0] == 0x74 && b[1] == n && b[2..2 + n] == name
      && NumberAt(b, 2 + n, 2) == |value| && b[4 + n..4 + n + |value|] == value && EndsAt(b, at)
    case Index(ByTime, at) => |b| == 41 && b[0] == 0x54 && EndsAt(b, at)
    case Counter(KindDay(kind, n)) =>
      |b| == 10 && b[..2] == [0x4E, 1] && NumberAt(b, 2, 4) == kind && NumberAt(b, 6, 4) == n
    case Counter(Day(n)) => |b| == 6 && b[..2] == [0x4E, 2] && NumberAt(b, 2, 4) == n
    case Counter(KindHour(kind, n)) =>
      |b| == 10 && b[..2] == [0x4E, 3] && NumberAt(b, 2, 4) == kind && NumberAt(b, 6, 4) == n
    case Counter(Hour(n)) => |b| == 6 && b[..2] == [0x4E, 4] && NumberAt(b, 2, 4) == n
    case Counter(AuthorKind(pk, kind)) =>
      |b| == 38 && b[..2] == [0x4E, 5] && b[2..34] == pk && NumberAt(b, 34, 4) == kind
  }

  /** Where a number has been written it can be read. */
  lemma {:induction false} NumberThere(b: seq<byte>, at: nat, n: nat, w: nat)
    requires n < Pow256(w) && at + w <= |b| && b[at..at + w] == BigEndian(n, w)
    ensures NumberAt(b, at, w) == n
  {
    BigEndianRoundTrip(n, w);
  }

  lemma {:induction false} TailThere(front: seq<byte>, at: Pos)
    requires FitsPos(at)
    ensures EndsAt(front + Tail(at), at)
  {
    hide BigEndian, FromBigEndian;
    Widths();
    var b := front + Tail(at);
    assert b[|front|..|front| + 8] == BigEndian(at.ts, 8);
    NumberThere(b, |front|, at.ts, 8);
    assert b[|b| - 32..] == at.id;
  }

  /** Every key is laid out so. */
  lemma {:induction false} KeyLayout(k: Key)
    requires Writable(k)
    ensures LaidOut(k, Encode(k))
  {
    hide BigEndian, FromBigEndian, Tail;
    Widths();
    var b := Encode(k);
    match k
    case Locator(id) =>
    case Body(at) => TailThere([BODY], at);
    case Signature(at) => TailThere([BLOOM], at);
    case Index(p, at) =>
      hide EndsAt;
      TailThere(PrefixBytes(p), at);
      IndexLayout(p, at);
    case Counter(bucket) => CounterLayout(bucket);
  }

  lemma {:induction false} IndexLayout(p: Prefix, at: Pos)
    requires FitsPrefix(p) && FitsPos(at) && EndsAt(PrefixBytes(p) + Tail(at), at)
    ensures LaidOut(Index(p, at), Encode(Index(p, at)))
  {
    hide BigEndian, FromBigEndian, Tail, EndsAt, NumberAt;
    Widths();
    var b := PrefixBytes(p) + Tail(at);
    match p
    case ByAuthor(pk) => assert b[1..33] == pk;
    case ByAuthorKind(pk, kind) =>
      assert b[1..33] == pk && b[33..37] == BigEndian(kind, 4);
      NumberThere(b, 33, kind, 4);
    case ByKind(kind) =>
      assert b[1..5] == BigEndian(kind, 4);
      NumberThere(b, 1, kind, 4);
    case ByTag(name, value) =>
      var n := |name|;
      assert b[2..2 + n] == name && b[2 + n..4 + n] == BigEndian(|value|, 2);
      assert b[4 + n..4 + n + |value|] == value;
      NumberThere(b, 2 + n, |value|, 2);
    case ByTime =>
  }

  lemma {:induction false} CounterLayout(bucket: Bucket)
    requires FitsBucket(bucket)
    ensures LaidOut(Counter(bucket), BucketBytes(bucket))
  {
    hide BigEndian, FromBigEndian, NumberAt;
    Widths();
    var b := BucketBytes(bucket);
    match bucket
    case KindDay(kind, n) =>
      assert b[2..6] == BigEndian(kind, 4) && b[6..10] == BigEndian(n, 4);
      NumberThere(b, 2, kind, 4);
      NumberThere(b, 6, n, 4);
    case Day(n) =>
      assert b[2..6] == BigEndian(n, 4);
      NumberThere(b, 2, n, 4);
    case KindHour(kind, n) =>
      assert b[2..6] == BigEndian(kind, 4) && b[6..10] == BigEndian(n, 4);
      NumberThere(b, 2, kind, 4);
      NumberThere(b, 6, n, 4);
    case Hour(n) =>
      assert b[2..6] == BigEndian(n, 4);
      NumberThere(b, 2, n, 4);
    case AuthorKind(pk, kind) =>
      assert b[2..34] == pk && b[34..38] == BigEndian(kind, 4);
      NumberThere(b, 34, kind, 4);
  }

  // ---- prefixes ----

  predicate StartsWith(s: seq<byte>, prefix: seq<byte>) {
    |prefix| <= |s| && s[..|prefix|] == prefix
  }

  lemma {:induction false} BigEndianInjective(m: nat, n: nat, w: nat)
    requires m < Pow256(w) && n < Pow256(w)
    ensures BigEndian(m, w) == BigEndian(n, w) ==> m == n
  {
    BigEndianRoundTrip(m, w);
    BigEndianRoundTrip(n, w);
  }

  /** Explicit lengths make tag prefixes a prefix-free code. */
  lemma {:induction false} TagPrefixFree(name: Str, value: Str, name': Str, value': Str)
    requires FitsTag(name, value) && FitsTag(name', value')
    requires StartsWith(TagPrefix(name', value'), TagPrefix(name, value))
    ensures name == name' && value == value'
  {
    hide BigEndian;
    Widths();
    var a, b := TagPrefix(name, value), TagPrefix(name', value');
    assert a[1] == |name| && b[1] == |name'|;
    assert a[1] == b[1];
    var n := |name|;
    assert a[2..2 + n] == name && b[2..2 + n] == name';
    assert a[2..2 + n] == b[..|a|][2..2 + n];
    assert a[2 + n..4 + n] == BigEndian(|value|, 2) && b[2 + n..4 + n] == BigEndian(|value'|, 2);
    assert a[2 + n..4 + n] == b[..|a|][2 + n..4 + n];
    BigEndianInjective(|value|, |value'|, 2);
    assert a[4 + n..] == value && b[4 + n..] == value';
    assert a == b[..|a|] && |a| == |b|;
  }

  /** No index prefix begins another. */
  lemma {:induction false} PrefixFree(p: Prefix, q: Prefix)
    requires FitsPrefix(p) && FitsPrefix(q)
    requires StartsWith(PrefixBytes(q), PrefixBytes(p))
    ensures p == q
  {
    hide BigEndian;
    Widths();
    var a, b := PrefixBytes(p), PrefixBytes(q);
    assert a[0] == b[0];
    match p
    case ByAuthor(pk) =>
      assert a[1..] == pk && b[1..] == q.pubkey;
      assert b[..33] == b;
    case ByAuthorKind(pk, kind) =>
      assert a[1..33] == pk && b[1..33] == q.pubkey;
      assert a[33..] == BigEndian(kind, 4) && b[33..] == BigEndian(q.kind, 4);
      assert b[..37] == b;
      BigEndianInjective(kind, q.kind, 4);
    case ByKind(kind) =>
      assert a[1..] == BigEndian(kind, 4) && b[1..] == BigEndian(q.kind, 4);
      assert b[..5] == b;
      BigEndianInjective(kind, q.kind, 4);
    case ByTag(name, value) => TagPrefixFree(name, value, q.name, q.value);
    case ByTime =>
  }

  /** Where neither string begins the other, what follows does not matter. */
  lemma {:induction false} DifferEarly(a: seq<byte>, b: seq<byte>, x: seq<byte>, y: seq<byte>)
    requires !StartsWith(a, b) && !StartsWith(b, a)
    ensures LexLess(a + x, b + y) <==> LexLess(a, b)
    ensures a + x != b + y
  {
    assert a != [] && b != [];
    assert (a + x)[0] == a[0] && (b + y)[0] == b[0];
    if a[0] == b[0] {
      assert (a + x)[1..] == a[1..] + x && (b + y)[1..] == b[1..] + y;
      StartsStep(a, b);
      StartsStep(b, a);
      DifferEarly(a[1..], b[1..], x, y);
      TailsApart(a + x, b + y);
    }
  }

  lemma {:induction false} TailsApart(s: seq<byte>, t: seq<byte>)
    ensures s != [] && t != [] && s[1..] != t[1..] ==> s != t
  {
  }

  lemma {:induction false} TailsInjective(a: Pos, b: Pos)
    requires FitsPos(a) && FitsPos(b) && Tail(a) == Tail(b)
    ensures a == b
  {
    hide BigEndian;
    Widths();
    assert Tail(a)[..8] == BigEndian(a.ts, 8) && Tail(b)[..8] == BigEndian(b.ts, 8);
    assert Tail(a)[8..] == a.id && Tail(b)[8..] == b.id;
    BigEndianInjective(a.ts, b.ts, 8);
  }

  /** The timestamp and id that every index, body and signature key ends with are read back from it. */
  lemma {:induction false} TailReadBack(front: seq<byte>, p: Pos)
    requires FitsPos(p)
    ensures var k := front + Tail(p);
            && FromBigEndian(k[|k| - 40..|k| - 32]) == p.ts
            && k[|k| - 32..] == p.id
  {
    hide BigEndian;
    Widths();
    var k := front + Tail(p);
    BigEndianRoundTrip(p.ts, 8);
    assert k[|k| - 40..|k| - 32] == BigEndian(p.ts, 8);
  }

  /** Under one prefix, byte order is timeline order. */
  lemma {:induction false} IndexOrder(front: seq<byte>, a: Pos, b: Pos)
    requires FitsPos(a) && FitsPos(b)
    ensures LexLess(front + Tail(a), front + Tail(b)) <==> PosLess(a, b)
  {
    hide BigEndian;
    Widths();
    LexAppend(front, front, Tail(a), Tail(b));
    LexIrreflexive(front);
    LexAppend(BigEndian(a.ts, 8), BigEndian(b.ts, 8), a.id, b.id);
    BigEndianOrder(a.ts, b.ts, 8);
    BigEndianInjective(a.ts, b.ts, 8);
  }

  /** Index keys under different prefixes never mix. */
  lemma {:induction false} IndexApart(p: Prefix, q: Prefix, x: seq<byte>, y: seq<byte>)
    requires FitsPrefix(p) && FitsPrefix(q) && p != q
    ensures PrefixBytes(p) + x != PrefixBytes(q) + y
    ensures LexLess(PrefixBytes(p) + x, PrefixBytes(q) + y) <==> LexLess(PrefixBytes(p), PrefixBytes(q))
  {
    hide PrefixBytes;
    var a, b := PrefixBytes(p), PrefixBytes(q);
    if StartsWith(a, b) {
      PrefixFree(q, p);
    }
    if StartsWith(b, a) {
      PrefixFree(p, q);
    }
    DifferEarly(a, b, x, y);
  }

  function Kindred(k: Key): byte {
    match k
    case Locator(_) => LOCATOR
    case Body(_) => BODY
    case Signature(_) => BLOOM
    case Counter(_) => COUNTER
    case Index(p, _) =>
      match p
      case ByAuthor(_) => PUBKEY
      case ByAuthorKind(_, _) => PUBKEY_KIND
      case ByKind(_) => KIND
      case ByTag(_, _) => TAG
      case ByTime => TIME
  }

  lemma {:induction false} FirstByte(k: Key)
    requires Writable(k)
    ensures Encode(k) != [] && Encode(k)[0] == Kindred(k)
  {
  }

  lemma {:induction false} BucketsInjective(a: Bucket, b: Bucket)
    requires FitsBucket(a) && FitsBucket(b) && BucketBytes(a) == BucketBytes(b)
    ensures a == b
  {
    hide BigEndian;
    Widths();
    var x, y := BucketBytes(a), BucketBytes(b);
    assert x[1] == y[1];
    match a
    case KindDay(kind, n) =>
      assert x[2..6] == BigEndian(kind, 4) && y[2..6] == BigEndian(b.kind, 4);
      assert x[6..] == BigEndian(n, 4) && y[6..] == BigEndian(b.day, 4);
      BigEndianInjective(kind, b.kind, 4);
      BigEndianInjective(n, b.day, 4);
    case Day(n) =>
      assert x[2..] == BigEndian(n, 4) && y[2..] == BigEndian(b.day, 4);
      BigEndianInjective(n, b.day, 4);
    case KindHour(kind, n) =>
      assert x[2..6] == BigEndian(kind, 4) && y[2..6] == BigEndian(b.kind, 4);
      assert x[6..] == BigEndian(n, 4) && y[6..] == BigEndian(b.hour, 4);
      BigEndianInjective(kind, b.kind, 4);
      BigEndianInjective(n, b.hour, 4);
    case Hour(n) =>
      assert x[2..] == BigEndian(n, 4) && y[2..] == BigEndian(b.hour, 4);
      BigEndianInjective(n, b.hour, 4);
    case AuthorKind(pk, kind) =>
      assert x[2..34] == pk && y[2..34] == b.pubkey;
      assert x[34..] == BigEndian(kind, 4) && y[34..] == BigEndian(b.kind, 4);
      BigEndianInjective(kind, b.kind, 4);
  }

  /** Distinct keys are written as distinct byte strings: the key spaces never collide. */
  lemma {:induction false} KeysInjective(a: Key, b: Key)
    requires Writable(a) && Writable(b) && Encode(a) == Encode(b)
    ensures a == b
  {
    FirstByte(a);
    FirstByte(b);
    hide Tail, PrefixBytes, BucketBytes;
    match a
    case Locator(id) =>
      assert Encode(a)[1..] == id && Encode(b)[1..] == b.id;
    case Body(at) =>
      assert Encode(a)[1..] == Tail(at) && Encode(b)[1..] == Tail(b.at);
      TailsInjective(at, b.at);
    case Signature(at) =>
      assert Encode(a)[1..] == Tail(at) && Encode(b)[1..] == Tail(b.at);
      TailsInjective(at, b.at);
    case Index(p, at) =>
      if p != b.prefix {
        IndexApart(p, b.prefix, Tail(at), Tail(b.at));
      }
      var front := PrefixBytes(p);
      assert Encode(a)[|front|..] == Tail(at) && Encode(b)[|front|..] == Tail(b.at);
      TailsInjective(at, b.at);
    case Counter(x) => BucketsInjective(x, b.bucket);
  }

  // ---- sketches ----

  const HLL: byte := 0x48        // 'H'

  /** A HyperLogLog sketch counts the references of one kind to an id or author in one tag. */
  datatype Sketch = Sketch(tagKey: byte, kind: Kind, ref: Id)

  function SketchBytes(s: Sketch): seq<byte> {
    [HLL, s.tagKey] + BigEndian(s.kind, 4) + s.ref
  }

  /** Sketches have keys of their own, apart from all other key spaces. */
  lemma {:induction false} SketchesApart(a: Sketch, b: Sketch, k: Key)
    requires Writable(k)
    ensures SketchBytes(a) == SketchBytes(b) ==> a == b
    ensures SketchBytes(a) != Encode(k)
  {
    FirstByte(k);
    hide BigEndian, Encode;
    Widths();
    var x, y := SketchBytes(a), SketchBytes(b);
    assert x[0] == HLL && x[1] == a.tagKey && y[1] == b.tagKey;
    assert x[2..6] == BigEndian(a.kind, 4) && y[2..6] == BigEndian(b.kind, 4);
    assert x[6..] == a.ref && y[6..] == b.ref;
    BigEndianInjective(a.kind, b.kind, 4);
  }

  lemma {:induction false} SketchLayout(s: Sketch)
    ensures var b := SketchBytes(s);
            |b| == 38 && b[0] == 0x48 && b[1] == s.tagKey && NumberAt(b, 2, 4) == s.kind && b[6..] == s.ref
  {
    hide BigEndian, FromBigEndian;
    Widths();
    var b := SketchBytes(s);
    assert b[2..6] == BigEndian(s.kind, 4);
    NumberThere(b, 2, s.kind, 4);
  }

  // ---- bounds ----

  /** The least key above every key that starts with the prefix; none when the prefix is all 0xFF. */
  method PrefixSuccessor(prefix: seq<byte>) returns (s: Option<seq<byte>>)
    ensures s.None? ==> forall k :: StartsWith(k, prefix) <==> LexLe(prefix, k)
    ensures s.Some? ==> forall k :: StartsWith(k, prefix) <==> LexLe(prefix, k) && LexLess(k, s.value)
    ensures s.None? <==> forall i :: 0 <= i < |prefix| ==> prefix[i] == 0xFF
  {
    var i := |prefix| - 1;
    while i >= 0
      invariant -1 <= i < |prefix|
      invariant forall j :: i < j < |prefix| ==> prefix[j] == 0xFF
    {
      if prefix[i] != 0xFF {
        s := Some(prefix[..i] + [prefix[i] + 1]);
        forall k ensures StartsWith(k, prefix) <==> LexLe(prefix, k) && LexLess(k, s.value) {
          Bounded(prefix, i, k);
        }
        return;
      }
      i := i - 1;
    }
    s := None;
    forall k ensures StartsWith(k, prefix) <==> LexLe(prefix, k) {
      Unbounded(prefix, k);
    }
  }

  lemma {:induction false} Unbounded(prefix: seq<byte>, k: seq<byte>)
    requires forall i :: 0 <= i < |prefix| ==> prefix[i] == 0xFF
    ensures StartsWith(k, prefix) <==> LexLe(prefix, k)
  {
    if prefix != [] && k != [] {
      Unbounded(prefix[1..], k[1..]);
      StartsStep(k, prefix);
    }
  }

  lemma {:induction false} StartsStep(k: seq<byte>, prefix: seq<byte>)
    requires k != [] && prefix != []
    ensures StartsWith(k, prefix) <==> k[0] == prefix[0] && StartsWith(k[1..], prefix[1..])
  {
    if |prefix| <= |k| {
      assert k[..|prefix|] == [k[0]] + k[1..][..|prefix| - 1];
      assert prefix == [prefix[0]] + prefix[1..];
    }
  }

  lemma {:induction false} Bounded(prefix: seq<byte>, i: nat, k: seq<byte>)
    requires i < |prefix| && prefix[i] != 0xFF
    requires forall j :: i < j < |prefix| ==> prefix[j] == 0xFF
    ensures StartsWith(k, prefix) <==> LexLe(prefix, k) && LexLess(k, prefix[..i] + [prefix[i] + 1])
  {
    var s := prefix[..i] + [prefix[i] + 1];
    if k != [] {
      StartsStep(k, prefix);
      if i == 0 {
        Unbounded(prefix[1..], k[1..]);
      } else {
        assert s[1..] == prefix[1..][..i - 1] + [prefix[1..][i - 1] + 1];
        Bounded(prefix[1..], i - 1, k[1..]);
      }
    }
  }

  /** The bounds of a scan over creation times `[since, until]`, as unsigned 64-bit numbers. */
  method TimeBounds(prefix: seq<byte>, since: nat, until: nat) returns (lower: seq<byte>, upper: Option<seq<byte>>)
    requires since < 0x1_0000_0000_0000_0000 && until < 0x1_0000_0000_0000_0000
    ensures lower == prefix + BigEndian(since, 8)
    ensures until < 0xFFFF_FFFF_FFFF_FFFF ==> upper == Some(prefix + BigEndian(until + 1, 8))
    ensures until == 0xFFFF_FFFF_FFFF_FFFF && upper.Some? ==>
              forall k :: StartsWith(k, prefix) <==> LexLe(prefix, k) && LexLess(k, upper.value)
    ensures until == 0xFFFF_FFFF_FFFF_FFFF && upper.None? ==> forall k :: StartsWith(k, prefix) <==> LexLe(prefix, k)
  {
    lower := prefix + BigEndian(since, 8);
    if until == 0xFFFF_FFFF_FFFF_FFFF {
      upper := PrefixSuccessor(prefix);
    } else {
      upper := Some(prefix + BigEndian(until + 1, 8));
    }
  }

  /**
   An index key lies within the time bounds of a prefix exactly when it was built from that
   prefix with a creation time in the range.
   */
  lemma {:induction false} InTimeBounds(p: Prefix, since: nat, until: nat, q: Prefix, at: Pos)
    requires FitsPrefix(p) && FitsPrefix(q) && FitsPos(at) && since <= MAX_INT64 && until <= MAX_INT64
    ensures var key := Encode(Index(q, at));
            LexLe(PrefixBytes(p) + BigEndian(since, 8), key) && LexLess(key, PrefixBytes(p) + BigEndian(until + 1, 8))
            <==> q == p && since <= at.ts <= until
  {
    hide BigEndian, PrefixBytes;
    Widths();
    var front, key := PrefixBytes(p), Encode(Index(q, at));
    if q != p {
      IndexApart(q, p, Tail(at), BigEndian(until + 1, 8));
      IndexApart(p, q, BigEndian(since, 8), Tail(at));
      IndexApart(q, p, Tail(at), BigEndian(since, 8));
    } else {
      InWindow(front, since, until, at);
    }
  }

  lemma {:induction false} InWindow(front: seq<byte>, since: nat, until: nat, at: Pos)
    requires FitsPos(at) && since <= MAX_INT64 && until <= MAX_INT64
    ensures var key := front + Tail(at);
            LexLe(front + BigEndian(since, 8), key) && LexLess(key, front + BigEndian(until + 1, 8))
            <==> since <= at.ts <= until
  {
    hide BigEndian;
    Widths();
    LexIrreflexive(front);
    LexAppend(front, front, Tail(at), BigEndian(since, 8));
    LexAppend(front, front, Tail(at), BigEndian(until + 1, 8));
    LexAppend(BigEndian(at.ts, 8), BigEndian(since, 8), at.id, []);
    LexAppend(BigEndian(at.ts, 8), BigEndian(until + 1, 8), at.id, []);
    assert BigEndian(since, 8) + [] == BigEndian(since, 8);
    assert BigEndian(until + 1, 8) + [] == BigEndian(until + 1, 8);
    BigEndianOrder(at.ts, since, 8);
    BigEndianOrder(at.ts, until + 1, 8);
  }

  // ---- counters ----

  /** The counters that are told apart by a day or hour number. */
  datatype Family = KindDays(kind: Kind) | AllDays | KindHours(kind: Kind) | AllHours

  function FamilyBytes(f: Family): seq<byte> {
    match f
    case KindDays(kind) => [COUNTER, 1] + BigEndian(kind, 4)
    case AllDays => [COUNTER, 2]
    case KindHours(kind) => [COUNTER, 3] + BigEndian(kind, 4)
    case AllHours => [COUNTER, 4]
  }

  function Numbered(f: Family, n: nat): Bucket {
    match f
    case KindDays(kind) => KindDay(kind, n)
    case AllDays => Day(n)
    case KindHours(kind) => KindHour(kind, n)
    case AllHours => Hour(n)
  }

  /** A key begins with the prefix of a family exactly when it is one of its counters. */
  lemma {:induction false} FamilyApart(f: Family, k: Key)
    requires Writable(k)
    ensures StartsWith(Encode(k), FamilyBytes(f)) <==> exists n: nat :: k == Counter(Numbered(f, n))
    ensures StartsWith(FamilyBytes(f), Encode(k)) ==> StartsWith(Encode(k), FamilyBytes(f))
    ensures forall n: nat :: k == Counter(Numbered(f, n)) ==>
                               n < TWO_32 && Encode(k) == FamilyBytes(f) + BigEndian(n, 4)
  {
    FirstByte(k);
    hide BigEndian, Tail, PrefixBytes;
    Widths();
    var p, key := FamilyBytes(f), Encode(k);
    if k.Counter? {
      assert StartsWith(key, p) ==> key[1] == p[1];
      match k.bucket
      case KindDay(kind, n) =>
        KindIn(key, 1, kind, n);
        if f.KindDays? {
          KindPrefix(key, 1, kind, n, f.kind);
        }
        assert f == KindDays(kind) ==> k == Counter(Numbered(f, n));
      case Day(n) =>
        assert key[..2] == [COUNTER, 2];
        assert f == AllDays ==> k == Counter(Numbered(f, n));
      case KindHour(kind, n) =>
        KindIn(key, 3, kind, n);
        if f.KindHours? {
          KindPrefix(key, 3, kind, n, f.kind);
        }
        assert f == KindHours(kind) ==> k == Counter(Numbered(f, n));
      case Hour(n) =>
        assert key[..2] == [COUNTER, 4];
        assert f == AllHours ==> k == Counter(Numbered(f, n));
      case AuthorKind(_, _) =>
    }
  }

  lemma {:induction false} KindIn(key: seq<byte>, tier: byte, kind: Kind, n: nat)
    requires key == [COUNTER, tier] + BigEndian(kind, 4) + BigEndian(n, 4)
    ensures |key| == 10 && key[0] == COUNTER && key[1] == tier
  {
  }

  lemma {:induction false} KindPrefix(key: seq<byte>, tier: byte, kind: Kind, n: nat, other: Kind)
    requires key == [COUNTER, tier] + BigEndian(kind, 4) + BigEndian(n, 4)
    ensures StartsWith(key, [COUNTER, tier] + BigEndian(other, 4)) <==> kind == other
  {
    hide BigEndian;
    Widths();
    assert key[..6] == [COUNTER, tier] + BigEndian(kind, 4);
    assert key[..6][2..] == BigEndian(kind, 4) && ([COUNTER, tier] + BigEndian(other, 4))[2..] == BigEndian(other, 4);
    BigEndianInjective(kind, other, 4);
  }

  /** The least key above the counters of a family up to number `y`. */
  ghost predicate IsUpper(f: Family, y: nat, upper: Option<seq<byte>>) {
    if y < TWO_32 - 1 then upper == Some(FamilyBytes(f) + BigEndian(y + 1, 4))
    else
      && upper.Some?
      && forall k :: StartsWith(k, FamilyBytes(f)) <==> LexLe(FamilyBytes(f), k) && LexLess(k, upper.value)
  }

  /** The bounds of a scan over the counters of a family numbered `[x, y]`, as unsigned 32-bit numbers. */
  method CounterBounds(f: Family, x: nat, y: nat) returns (lower: seq<byte>, upper: Option<seq<byte>>)
    requires x < TWO_32 && y < TWO_32
    ensures lower == FamilyBytes(f) + BigEndian(x, 4) && IsUpper(f, y, upper)
  {
    var prefix := FamilyBytes(f);
    lower := prefix + BigEndian(x, 4);
    if y == TWO_32 - 1 {
      assert prefix[0] != 0xFF;
      upper := PrefixSuccessor(prefix);
    } else {
      upper := Some(prefix + BigEndian(y + 1, 4));
    }
  }

  /**
   Of all the keys of the database, those within the bounds of a counter family are its own with a
   number in the range.
   */
  lemma {:induction false} InCounterBounds(f: Family, x: nat, y: nat, upper: Option<seq<byte>>, k: Key)
    requires x < TWO_32 && y < TWO_32 && IsUpper(f, y, upper) && Writable(k)
    ensures LexLe(FamilyBytes(f) + BigEndian(x, 4), Encode(k)) && LexLess(Encode(k), upper.value)
       <==> exists n: nat :: x <= n <= y && k == Counter(Numbered(f, n))
  {
    hide BigEndian, FamilyBytes, Encode;
    Widths();
    var front, key := FamilyBytes(f), Encode(k);
    FamilyApart(f, k);
    if StartsWith(key, front) {
      var n: nat :| k == Counter(Numbered(f, n));
      InNumbers(front, x, y, n);
      NumberedOnce(f, n);
    } else {
      DifferEarly(key, front, [], BigEndian(x, 4));
      assert key + [] == key;
      if y < TWO_32 - 1 {
        DifferEarly(key, front, [], BigEndian(y + 1, 4));
      }
    }
  }

  lemma {:induction false} NumberedOnce(f: Family, n: nat)
    ensures forall m: nat :: Numbered(f, m) == Numbered(f, n) ==> m == n
  {
  }

  lemma {:induction false} InNumbers(front: seq<byte>, x: nat, y: nat, n: nat)
    requires x < TWO_32 && y < TWO_32 && n < TWO_32
    ensures x <= n <==> LexLe(front + BigEndian(x, 4), front + BigEndian(n, 4))
    ensures y < TWO_32 - 1 ==> (n <= y <==> LexLess(front + BigEndian(n, 4), front + BigEndian(y + 1, 4)))
    ensures LexLe(front, front + BigEndian(n, 4)) && StartsWith(front + BigEndian(n, 4), front)
  {
    hide BigEndian;
    Widths();
    LexIrreflexive(front);
    LexAppend(front, front, BigEndian(n, 4), BigEndian(x, 4));
    BigEndianOrder(n, x, 4);
    if y < TWO_32 - 1 {
      LexAppend(front, front, BigEndian(n, 4), BigEndian(y + 1, 4));
      BigEndianOrder(n, y + 1, 4);
    }
    LexAppend(front, front, BigEndian(n, 4), []);
    assert front + [] == front;
  }

  /** From the global timeline onwards the greatest key of the database is its newest body. */
  lemma {:induction false} BodiesComeLast(k: Key, at: Pos)
    requires Writable(k) && FitsPos(at)
    requires LexLe(Encode(Body(at)), Encode(k))
    ensures k.Body? && (k.at == at || PosLess(at, k.at))
  {
    hide Tail, PrefixBytes, BucketBytes;
    FirstByte(k);
    FirstByte(Body(at));
    if k.Body? {
      IndexOrder([BODY], k.at, at);
      PosTotal(k.at, at);
    }
  }
}
