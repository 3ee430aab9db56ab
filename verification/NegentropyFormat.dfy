/**
 The wire format of NIP-77 in numbers, apart from the functions that write and read it: base-128
 varints, timestamps, bounds, the three modes, and the opening message.
 */
module NegentropyFormat {
  import opened ByteStrings
  import opened NegentropyTypes
  import opened NegentropyCodec
  import opened NegentropyReconcile
  import opened NegentropyWire
  import opened NegentropyNode

  // ---- varints ----

  /** The number that seven-bit groups stand for, most significant first. */
  function Base128(b: seq<byte>): nat {
    if b == [] then 0 else Base128(b[..|b| - 1]) * 128 + b[|b| - 1] % 128
  }

  /** The shortest varint of a number: all bytes but the last have the high bit. */
  predicate IsVarInt(b: seq<byte>, n: nat) {
    && b != [] && Base128(b) == n
    && b[|b| - 1] < 128
    && (forall i :: 0 <= i < |b| - 1 ==> b[i] >= 128)
    && (|b| > 1 ==> b[0] != 128)
  }

  lemma {:induction false} Base128Append(front: seq<byte>, g: byte)
    ensures Base128(front + [g]) == Base128(front) * 128 + g % 128
  {
    assert (front + [g])[..|front|] == front;
  }

  lemma {:induction false} Groups(base: nat, low: nat)
    requires low < 128
    ensures (base * 128 + low) / 128 == base && (base * 128 + low) % 128 == low && (128 + low) % 128 == low
  {
  }

  lemma {:induction false} ContinuedIs(n: nat)
    ensures var c := Continued(n);
            && Base128(c) == n && (c == [] <==> n == 0)
            && (forall i :: 0 <= i < |c| ==> c[i] >= 128)
            && (c != [] ==> c[0] != 128)
  {
    if n > 0 {
      var base, low := n / 128, n % 128;
      ContinuedIs(base);
      Groups(base, low);
      Base128Append(Continued(base), 128 + low);
      hide Base128;
      assert Continued(n) == Continued(base) + [128 + low];
    }
  }

  lemma {:induction false} ContinuedUnique(b: seq<byte>)
    requires forall i :: 0 <= i < |b| ==> b[i] >= 128
    requires b != [] ==> b[0] != 128
    ensures b == Continued(Base128(b))
    ensures b != [] ==> Base128(b) > 0
  {
    hide Base128, Continued;
    if b == [] {
      NoGroups();
    } else {
      var front, last := b[..|b| - 1], b[|b| - 1];
      ContinuedUnique(front);
      assert b == front + [last];
      Base128Append(front, last);
      NoGroups();
      ContinuedStep(Base128(front), last - 128);
    }
  }

  lemma {:induction false} NoGroups()
    ensures Base128([]) == 0 && Continued(0) == []
  {
  }

  lemma {:induction false} ContinuedStep(base: nat, low: nat)
    requires low < 128 && base * 128 + low > 0
    ensures Continued(base * 128 + low) == Continued(base) + [128 + low]
  {
    Groups(base, low);
  }

  lemma {:induction false} VarIntStep(base: nat, low: nat)
    requires low < 128
    ensures VarInt(base * 128 + low) == Continued(base) + [low]
  {
    Groups(base, low);
  }

  lemma {:induction false} VarIntIs(n: nat)
    ensures IsVarInt(VarInt(n), n)
  {
    var base, low := n / 128, n % 128;
    var front := Continued(base);
    ContinuedIs(base);
    Base128Append(front, low);
    assert VarInt(n) == front + [low];
    hide Base128, Continued, VarInt;
    assert forall i :: 0 <= i < |front| ==> (front + [low])[i] == front[i];
  }

  /** A string is the varint of a number if and only if it is the shortest one. */
  lemma {:induction false} VarIntIff(b: seq<byte>, n: nat)
    ensures b == VarInt(n) <==> IsVarInt(b, n)
  {
    hide Base128, Continued, VarInt;
    VarIntIs(n);
    if IsVarInt(b, n) {
      var front, last := b[..|b| - 1], b[|b| - 1];
      ContinuedUnique(front);
      assert b == front + [last];
      Base128Append(front, last);
      VarIntStep(Base128(front), last);
    }
  }

  lemma {:induction false} Base128Grows(b: seq<byte>, i: nat)
    requires i <= |b|
    ensures Base128(b[..i]) <= Base128(b)
  {
    if i < |b| {
      Base128Grows(b[..|b| - 1], i);
      assert b[..|b| - 1][..i] == b[..i];
    } else {
      assert b[..i] == b;
    }
  }

  /** Any string of groups that ends where it should is read as the number it stands for, shortest or not. */
  lemma {:induction false} VarIntRead(done: seq<byte>, b: seq<byte>, t: seq<byte>)
    requires b != [] && b[|b| - 1] < 128 && forall i :: 0 <= i < |b| - 1 ==> b[i] >= 128
    requires Base128(done + b) < 0x8000_0000_0000_0000
    ensures ReadVarFrom(b + t, Base128(done)) == Got(Base128(done + b), t)
    decreases |b|
  {
    hide Base128;
    var next := done + [b[0]];
    Base128Append(done, b[0]);
    assert (b + t)[1..] == b[1..] + t && (b + t)[0] == b[0];
    assert next + b[1..] == done + b;
    Base128Grows(done + b, |next|);
    assert (done + b)[..|next|] == next;
    assert Wrap64(Base128(next)) == Base128(next);
    hide Wrap64;
    if |b| > 1 {
      VarIntRead(next, b[1..], t);
    } else {
      assert next == done + b;
    }
  }

  // ---- ranges ----

  /** Ids one after the other, 32 bytes each. */
  predicate IsIdString(b: seq<byte>, ids: seq<Id>) {
    |b| == 32 * |ids| && forall i :: 0 <= i < |ids| ==> b[32 * i..32 * i + 32] == ids[i]
  }

  lemma {:induction false} IdStringIff(b: seq<byte>, ids: seq<Id>)
    ensures b == Flatten(ids) <==> IsIdString(b, ids)
  {
    FlattenIs(ids);
    if IsIdString(b, ids) {
      FlattenUnique(b, ids);
    }
  }

  lemma {:induction false} FlattenIs(ids: seq<Id>)
    ensures IsIdString(Flatten(ids), ids)
  {
    if ids != [] {
      var n := |ids| - 1;
      FlattenIs(ids[..n]);
      var b := Flatten(ids);
      assert b == Flatten(ids[..n]) + ids[n];
      forall i | 0 <= i < |ids| ensures b[32 * i..32 * i + 32] == ids[i] {
        if i < n {
          assert b[32 * i..32 * i + 32] == Flatten(ids[..n])[32 * i..32 * i + 32] == ids[..n][i];
        }
      }
    }
  }

  lemma {:induction false} FlattenUnique(b: seq<byte>, ids: seq<Id>)
    requires IsIdString(b, ids)
    ensures b == Flatten(ids)
  {
    if ids != [] {
      var n := |ids| - 1;
      var front := b[..32 * n];
      forall i | 0 <= i < n ensures front[32 * i..32 * i + 32] == ids[..n][i] {
        assert front[32 * i..32 * i + 32] == b[32 * i..32 * i + 32];
      }
      FlattenUnique(front, ids[..n]);
      assert b[32 * n..32 * n + 32] == ids[n];
      assert b == front + b[32 * n..];
    }
  }

  /** What stands for the timestamp: zero for the infinite one, else the distance from the last and one. */
  function Delta(ts: int, last: int): int {
    if ts == 0x7FFF_FFFF_FFFF_FFFF then 0 else ts - last + 1
  }

  /** Mode 0 is a skip, mode 1 a fingerprint of 16 bytes, mode 2 a list of ids after their number. */
  ghost predicate IsPayload(b: seq<byte>, p: Payload) {
    match p
    case Skip => b == [0]
    case Fingerprint(digest) => b == [1] + digest && |digest| == 16
    case IdList(ids) => exists n, list :: IsVarInt(n, |ids|) && IsIdString(list, ids) && b == [2] + n + list
  }

  /** The timestamp, the length of the prefix, the prefix, and the payload. */
  ghost predicate IsRange(b: seq<byte>, r: Range, last: int) {
    exists ts, n, payload ::
      && 0 <= Delta(r.upper.ts, last) && IsVarInt(ts, Delta(r.upper.ts, last))
      && IsVarInt(n, |r.upper.prefix|) && IsPayload(payload, r.payload)
      && b == ts + n + r.upper.prefix + payload
  }

  lemma {:induction false} PayloadIff(b: seq<byte>, p: Payload)
    ensures b == EncodePayload(p) <==> IsPayload(b, p)
  {
    if p.IdList? {
      VarIntIff(VarInt(|p.ids|), |p.ids|);
      IdStringIff(Flatten(p.ids), p.ids);
      if IsPayload(b, p) {
        var n, list :| IsVarInt(n, |p.ids|) && IsIdString(list, p.ids) && b == [2] + n + list;
        VarIntIff(n, |p.ids|);
        IdStringIff(list, p.ids);
      }
    }
  }

  /** The bytes of a range are what the format asks for and nothing else. */
  lemma {:induction false} RangeIff(b: seq<byte>, r: Range, last: int)
    requires 0 <= last <= r.upper.ts <= 0x7FFF_FFFF_FFFF_FFFF
    ensures b == EncodeRange(r, last) <==> IsRange(b, r, last)
  {
    hide VarInt, IsVarInt, IsPayload, EncodePayload;
    var d, ts := Delta(r.upper.ts, last), EncodeTimestamp(r.upper.ts, last);
    assert ts == VarInt(d);
    VarIntIff(ts, d);
    VarIntIff(VarInt(|r.upper.prefix|), |r.upper.prefix|);
    PayloadIff(EncodePayload(r.payload), r.payload);
    assert EncodeRange(r, last) == ts + VarInt(|r.upper.prefix|) + r.upper.prefix + EncodePayload(r.payload);
    if IsRange(b, r, last) {
      var t, n, payload :| IsVarInt(t, d) && IsVarInt(n, |r.upper.prefix|) && IsPayload(payload, r.payload)
                           && b == t + n + r.upper.prefix + payload;
      VarIntIff(t, d);
      VarIntIff(n, |r.upper.prefix|);
      PayloadIff(payload, r.payload);
    }
  }

  // ---- opening ----

  /** Fewer than 32 items are listed at once. */
  lemma {:induction false} ShortOpening(p: Party, hash: Hash)
    requires |p.items| < 32
    ensures Opening(p, hash) == [Range(Bound(0x7FFF_FFFF_FFFF_FFFF, []), IdList(Ids(p.items)))]
    ensures [PROTOCOL_VERSION] + EncodeRanges(Opening(p, hash), 0) ==
            [0x61, 0, 0, 2, |p.items|] + Flatten(Ids(p.items))
  {
    var msg := Opening(p, hash);
    assert p.items[0..|p.items|] == p.items;
    assert msg[1..] == [];
    assert Continued(0) == [];
    assert VarInt(0) == [0] && VarInt(|p.items|) == [|p.items|];
    assert EncodeRanges(msg, 0) == EncodeRange(msg[0], 0) + [];
  }

  /** Where the bucket `i` of `n` items ends: the first `n % 16` buckets hold one more than the others. */
  function BucketEnd(n: nat, i: nat): nat {
    (i + 1) * (n / 16) + if i + 1 < n % 16 then i + 1 else n % 16
  }

  function BucketFrom(n: nat, i: nat): nat {
    if i == 0 then 0 else BucketEnd(n, i - 1)
  }

  /** Range `i` of an opening: the fingerprint of one bucket, up to the bound before the next. */
  ghost predicate OpensWith(p: Party, hash: Hash, r: Range, i: nat) {
    var n, start, end := |p.items|, BucketFrom(|p.items|, i), BucketEnd(|p.items|, i);
    && start < end <= n && (end == n <==> i == 15)
    && r.payload == Fingerprint(hash(Ids(p.items[start..end])))
    && r.upper == if i == 15 then Bound(0x7FFF_FFFF_FFFF_FFFF, []) else MinimalBound(p.items[end - 1], p.items[end])
  }

  /** From 32 items on there are sixteen fingerprints, the last up to infinity. */
  lemma {:induction false} LongOpening(p: Party, hash: Hash)
    requires |p.items| >= 32
    ensures |Opening(p, hash)| == 16
    ensures forall i :: 0 <= i < 16 ==> OpensWith(p, hash, Opening(p, hash)[i], i)
  {
    hide Opening, OpensWith;
    OpeningCount(p, hash);
    forall i | 0 <= i < 16 ensures OpensWith(p, hash, Opening(p, hash)[i], i) {
      OpeningBucket(p, hash, i);
    }
  }

  lemma {:induction false} OpeningCount(p: Party, hash: Hash)
    requires |p.items| >= 32
    ensures |Opening(p, hash)| == 16
  {
  }

  lemma {:induction false} OpeningBucket(p: Party, hash: Hash, i: nat)
    requires |p.items| >= 32 && i < 16 && |Opening(p, hash)| == 16
    ensures OpensWith(p, hash, Opening(p, hash)[i], i)
  {
    hide BucketStart, MinimalBound;
    var n := |p.items|;
    SplitBuckets(p.items, hash, 0, n, INFINITE_BOUND);
    BucketSizes(0, n, i);
    BucketEnds(n, i);
    if i > 0 {
      BucketEnds(n, i - 1);
    } else {
      assert BucketStart(0, n, 0) == 0 by { FirstStart(n); }
    }
    assert Opening(p, hash)[i] == Bucket(p.items, hash, 0, n, INFINITE_BOUND, i);
  }

  lemma {:induction false} FirstStart(n: nat)
    ensures BucketStart(0, n, 0) == 0
  {
  }

  lemma {:induction false} BucketEnds(n: nat, i: nat)
    ensures BucketStart(0, n, i + 1) == BucketEnd(n, i)
  {
    BucketStartClosed(0, n, i + 1);
  }

  // ---- bounds between neighbours ----

  /**
   Between neighbours of different times the bound is the time of the second alone. Otherwise it has
   the second's id up to the first byte where the two differ, and no bound with a shorter prefix lies
   above the first and not above the second.
   */
  lemma {:induction false} MinimalBoundIs(prev: Item, curr: Item)
    requires ItemLess(prev, curr)
    ensures var b := MinimalBound(prev, curr);
            && b.ts == curr.ts
            && (prev.ts != curr.ts ==> b.prefix == [])
            && (prev.ts == curr.ts ==>
                  var n := |b.prefix| - 1;
                  && 0 <= n < 32 && b.prefix == curr.id[..n + 1]
                  && prev.id[..n] == curr.id[..n] && prev.id[n] != curr.id[n])
            && forall c: Bound :: Below(prev, c) && !Below(curr, c) && prev.ts == curr.ts ==> |c.prefix| >= |b.prefix|
  {
    var b := MinimalBound(prev, curr);
    if prev.ts == curr.ts {
      var n := |b.prefix| - 1;
      assert forall k :: 0 <= k < n ==> prev.id[k] == curr.id[k];
      assert prev.id[..n] == curr.id[..n];
      if n == 31 && prev.id[31] == curr.id[31] {
        assert prev.id == curr.id;
        LexIrreflexive(curr.id);
      }
      forall c: Bound | Below(prev, c) && !Below(curr, c) ensures |c.prefix| >= |b.prefix| {
        BetweenIsLong(prev.id, curr.id, c.prefix, n);
      }
    }
  }

  /** Two strings with a common front have no shorter string between them. */
  lemma {:induction false} BetweenIsLong(x: seq<byte>, y: seq<byte>, s: seq<byte>, n: nat)
    requires n < |x| && n < |y| && x[..n] == y[..n]
    requires LexLess(x, s) && !LexLess(y, s)
    ensures |s| > n
  {
    if n > 0 {
      assert x[0] == x[..n][0] == y[..n][0] == y[0];
      if s[0] == x[0] {
        assert x[1..][..n - 1] == x[..n][1..] == y[..n][1..] == y[1..][..n - 1];
        BetweenIsLong(x[1..], y[1..], s[1..], n - 1);
      }
    }
  }

  // ---- replies ----

  /** A message of another version is answered by a server with its own version, and refused by a client. */
  lemma {:induction false} ForeignVersion(p: Party, hash: Hash, msg: seq<byte>)
    requires msg != [] && msg[0] != 0x61
    ensures var (result, haves, haveNots) := Reply(p, hash, msg);
            result == (if p.isClient then Err else Ok([0x61])) && haves == haveNots == multiset{}
  {
  }

  /** A reply is refused, or begins with the version and goes on with the ranges of the answer. */
  lemma {:induction false} ReplyShape(p: Party, hash: Hash, msg: seq<byte>)
    requires msg != [] && msg[0] == 0x61
    ensures var (result, haves, haveNots) := Reply(p, hash, msg);
            var (ranges, complete) := ParseRanges(msg[1..], 0);
            && (result.Ok? <==> complete)
            && (complete ==> result.value == [0x61] + EncodeRanges(Handle(p, hash, ranges).out, 0))
  {
  }

  /** After the bound a range has the mode 0, 1 or 2; any other below 128 is refused. */
  lemma {:induction false} UnknownMode(mode: byte, rest: seq<byte>)
    requires 3 <= mode < 128
    ensures ReadPayload([mode] + rest) == Fail
  {
    assert ([mode] + rest)[1..] == rest;
    assert ReadVar([mode] + rest) == Got(mode, rest);
  }
}
