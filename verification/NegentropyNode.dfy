/**
 The `Negentropy` object (nip77/negentropy/negentropy.go): it reads a message byte by byte,
 keeps the cached timestamps, the skip flag and the report channels up to date, and writes the
 answer, exactly as the functions of `NegentropyReconcile` and `NegentropyCodec` say.
 */
module NegentropyNode {
  import opened ByteStrings
  import opened NegentropyTypes
  import opened NegentropyReconcile
  import opened NegentropyCodec
  import opened NegentropyWire

  const PROTOCOL_VERSION: byte := 0x61

  class Negentropy {
    const storage: seq<Item>
    const hash: Hash
    const up: bool
    const down: bool
    var isClient: bool
    var lastTimestampIn: int
    var lastTimestampOut: int
    var haves: seq<Id>
    var haveNots: seq<Id>
    var closed: bool

    ghost predicate Valid()
      reads this
    {
      Sealed(storage) && |storage| < TWO_63
    }

    /** This party in the role given by the `isClient` flag. */
    function As(client: bool): (p: Party) {
      Party(storage, client, up, down)
    }

    constructor (storage: seq<Item>, hash: Hash, up: bool, down: bool)
      requires Sealed(storage) && |storage| < TWO_63
      ensures Valid() && this.storage == storage && this.hash == hash && this.up == up && this.down == down
      ensures !isClient && haves == [] && haveNots == [] && !closed
    {
      this.storage, this.hash, this.up, this.down := storage, hash, up, down;
      isClient, closed := false, false;
      lastTimestampIn, lastTimestampOut := 0, 0;
      haves, haveNots := [], [];
    }

    /** Binary search from `begin` for the first item not below the bound. */
    method FindLowerBound(begin: nat, bound: Bound) returns (index: nat)
      requires Valid() && begin <= |storage|
      ensures index == IndexAfter(storage, begin, bound)
    {
      var i, j := begin, |storage|;
      while i < j
        invariant begin <= i <= j <= |storage|
        invariant forall k :: begin <= k < i ==> Below(storage[k], bound)
        invariant forall k :: j <= k < |storage| ==> !Below(storage[k], bound)
      {
        var h := (i + j) / 2;
        if Below(storage[h], bound) {
          forall k | begin <= k < h ensures Below(storage[k], bound) {
            BelowDownward(storage[k], storage[h], bound);
          }
          i := h + 1;
        } else {
          forall k | h < k < |storage| ensures !Below(storage[k], bound) {
            if Below(storage[k], bound) {
              BelowDownward(storage[h], storage[k], bound);
            }
          }
          j := h;
        }
      }
      CutUnique(storage[begin..], bound, i - begin);
      index := i;
    }

    // ---- reading ----

    method ReadTimestamp(reader: ByteReader) returns (result: Result<int>)
      requires reader.Valid()
      modifies reader, this`lastTimestampIn
      ensures reader.Reads(NegentropyCodec.ReadTimestamp(old(reader.Rest()), old(lastTimestampIn)), result)
      ensures result.Ok? ==> lastTimestampIn == result.value
    {
      var delta := ReadVarInt(reader);
      if delta.Err? {
        return Err;
      }
      var timestamp := if delta.value == 0 then MAX_TIMESTAMP
      else Wrap64(lastTimestampIn + Wrap64(delta.value - 1));
      lastTimestampIn := timestamp;
      result := Ok(timestamp);
    }

    method ReadBound(reader: ByteReader) returns (result: Result<Bound>)
      requires reader.Valid()
      modifies reader, this`lastTimestampIn
      ensures reader.Reads(NegentropyCodec.ReadBound(old(reader.Rest()), old(lastTimestampIn)), result)
      ensures result.Ok? ==> lastTimestampIn == result.value.ts
    {
      var timestamp := ReadTimestamp(reader);
      if timestamp.Err? {
        return Err;
      }
      var length := ReadVarInt(reader);
      if length.Err? || length.value < 0 {
        return Err;
      }
      var prefix := reader.Read(length.value);
      if prefix.Err? {
        return Err;
      }
      result := Ok(Bound(timestamp.value, prefix.value));
    }

    method ReadIds(reader: ByteReader, n: int) returns (result: Result<seq<Id>>)
      requires reader.Valid()
      modifies reader
      ensures reader.Reads(NegentropyCodec.ReadIds(old(reader.Rest()), n), result)
    {
      var ids: seq<Id> := [];
      var i := 0;
      while i < n
        invariant reader.Valid()
        invariant i == 0 || i <= n
        invariant var whole := NegentropyCodec.ReadIds(old(reader.Rest()), n);
                  var more := NegentropyCodec.ReadIds(reader.Rest(), n - i);
                  && (whole.Fail? <==> more.Fail?)
                  && (whole.Got? ==> whole.value == ids + more.value && whole.rest == more.rest)
      {
        var id := reader.Read(32);
        if id.Err? {
          return Err;
        }
        ids := ids + [id.value];
        i := i + 1;
      }
      assert ids + [] == ids;
      result := Ok(ids);
    }

    method ReadPayload(reader: ByteReader) returns (result: Result<Payload>)
      requires reader.Valid()
      modifies reader
      ensures reader.Reads(NegentropyCodec.ReadPayload(old(reader.Rest())), result)
    {
      var mode := ReadVarInt(reader);
      if mode.Err? {
        return Err;
      }
      if mode.value % 256 == SKIP_MODE {
        result := Ok(Skip);
      } else if mode.value % 256 == FINGERPRINT_MODE {
        var digest := reader.Read(16);
        if digest.Err? {
          return Err;
        }
        result := Ok(Fingerprint(digest.value));
      } else if mode.value % 256 == ID_LIST_MODE {
        var numIds := ReadVarInt(reader);
        if numIds.Err? {
          return Err;
        }
        var ids := ReadIds(reader, numIds.value);
        if ids.Err? {
          return Err;
        }
        result := Ok(IdList(ids.value));
      } else {
        result := Err;
      }
    }

    method ReadRange(reader: ByteReader) returns (result: Result<Range>)
      requires reader.Valid()
      modifies reader, this`lastTimestampIn
      ensures reader.Reads(NegentropyCodec.ReadRange(old(reader.Rest()), old(lastTimestampIn)), result)
      ensures result.Ok? ==> lastTimestampIn == result.value.upper.ts
    {
      var bound := ReadBound(reader);
      if bound.Err? {
        return Err;
      }
      var payload := ReadPayload(reader);
      if payload.Err? {
        return Err;
      }
      result := Ok(Range(bound.value, payload.value));
    }

    // ---- writing ----

    method WriteTimestamp(w: ByteBuffer, ts: int)
      modifies w, this`lastTimestampOut
      ensures w.data == old(w.data) + EncodeTimestamp(ts, old(lastTimestampOut))
      ensures lastTimestampOut == ts
    {
      if ts == MAX_TIMESTAMP {
        lastTimestampOut := MAX_TIMESTAMP;
        WriteVarInt(w, 0);
        return;
      }
      var delta := ts - lastTimestampOut;
      lastTimestampOut := ts;
      WriteVarInt(w, Unsigned64(Unsigned64(delta) + 1));
    }

    method WriteBound(w: ByteBuffer, b: Bound)
      requires |b.prefix| < TWO_63
      modifies w, this`lastTimestampOut
      ensures w.data == old(w.data) + EncodeBound(b, old(lastTimestampOut))
      ensures lastTimestampOut == b.ts
    {
      WriteTimestamp(w, b.ts);
      WriteVarInt(w, |b.prefix|);
      w.Write(b.prefix);
    }

    /** Appends one range: its bound, the mode byte and the payload. */
    method WriteRange(w: ByteBuffer, r: Range)
      requires |r.upper.prefix| < TWO_63 && (r.payload.IdList? ==> |r.payload.ids| < TWO_63)
      modifies w, this`lastTimestampOut
      ensures w.data == old(w.data) + EncodeRange(r, old(lastTimestampOut))
      ensures lastTimestampOut == r.upper.ts
    {
      WriteBound(w, r.upper);
      WritePayload(w, r.payload);
      Reassociate(old(w.data), EncodeBound(r.upper, old(lastTimestampOut)), EncodePayload(r.payload));
    }

    method WritePayload(w: ByteBuffer, payload: Payload)
      requires payload.IdList? ==> |payload.ids| < TWO_63
      modifies w
      ensures w.data == old(w.data) + EncodePayload(payload)
    {
      hide VarInt, Flatten;
      match payload
      case Skip =>
        w.Write([SKIP_MODE]);
      case Fingerprint(digest) =>
        w.Write([FINGERPRINT_MODE]);
        w.Write(digest);
      case IdList(ids) =>
        WriteIdList(w, ids);
    }

    method WriteIdList(w: ByteBuffer, ids: seq<Id>)
      requires |ids| < TWO_63
      modifies w
      ensures w.data == old(w.data) + ([ID_LIST_MODE] + VarInt(|ids|) + Flatten(ids))
    {
      hide VarInt, Flatten;
      w.Write([ID_LIST_MODE]);
      WriteVarInt(w, |ids|);
      WriteIds(w, ids);
      Reassociate(old(w.data), [ID_LIST_MODE] + VarInt(|ids|), Flatten(ids));
      Reassociate(old(w.data), [ID_LIST_MODE], VarInt(|ids|));
    }

    method WriteIds(w: ByteBuffer, ids: seq<Id>)
      modifies w
      ensures w.data == old(w.data) + Flatten(ids)
    {
      var i := 0;
      assert ids[..0] == [];
      while i < |ids|
        invariant 0 <= i <= |ids|
        invariant w.data == old(w.data) + Flatten(ids[..i])
      {
        assert ids[..i + 1][..i] == ids[..i];
        w.Write(ids[i]);
        i := i + 1;
      }
      assert ids[..|ids|] == ids;
    }

    // ---- splitting ----

    method SplitRange(lower: nat, upper: nat, bound: Bound, w: ByteBuffer)
      requires |storage| < TWO_63 && lower <= upper <= |storage| && |bound.prefix| < TWO_63
      modifies w, this`lastTimestampOut
      ensures w.data == old(w.data)
                        + EncodeRanges(Split(storage, hash, lower, upper, bound), old(lastTimestampOut))
      ensures lastTimestampOut == LastTimestamp(Split(storage, hash, lower, upper, bound), old(lastTimestampOut))
    {
      if upper - lower < 2 * BUCKETS {
        ghost var split := Split(storage, hash, lower, upper, bound);
        assert split[..0] == [] && split[..1] == split;
        EncodeNext(split, 0, lastTimestampOut);
        WriteRange(w, Range(bound, IdList(Ids(storage[lower..upper]))));
      } else {
        WriteBuckets(lower, upper, bound, w);
      }
    }

    method WriteBuckets(lower: nat, upper: nat, bound: Bound, w: ByteBuffer)
      requires lower <= upper <= |storage| && |bound.prefix| < TWO_63
      requires upper - lower >= 2 * BUCKETS
      modifies w, this`lastTimestampOut
      ensures w.data == old(w.data)
                        + EncodeRanges(Split(storage, hash, lower, upper, bound), old(lastTimestampOut))
      ensures lastTimestampOut == LastTimestamp(Split(storage, hash, lower, upper, bound), old(lastTimestampOut))
    {
      ghost var split := Split(storage, hash, lower, upper, bound);
      SplitBuckets(storage, hash, lower, upper, bound);
      WriteSplit(lower, upper, bound, w, split);
      assert split[..BUCKETS] == split;
    }

    method WriteSplit(lower: nat, upper: nat, bound: Bound, w: ByteBuffer, ghost split: Message)
      requires lower <= upper <= |storage| && |bound.prefix| < TWO_63
      requires upper - lower >= 2 * BUCKETS && |split| == BUCKETS
      requires forall i :: 0 <= i < BUCKETS ==> split[i] == Bucket(storage, hash, lower, upper, bound, i)
      modifies w, this`lastTimestampOut
      ensures w.data == old(w.data) + EncodeRanges(split[..BUCKETS], old(lastTimestampOut))
      ensures lastTimestampOut == LastTimestamp(split[..BUCKETS], old(lastTimestampOut))
    {
      var itemsPerBucket := (upper - lower) / BUCKETS;
      var bucketsWithExtra := (upper - lower) % BUCKETS;
      var curr := lower;
      var i := 0;
      ghost var last := lastTimestampOut;
      while i < BUCKETS
        invariant 0 <= i <= BUCKETS
        invariant curr == BucketStart(lower, upper - lower, i)
        invariant w.data == old(w.data) + EncodeRanges(split[..i], last)
        invariant lastTimestampOut == LastTimestamp(split[..i], last)
      {
        var bucketSize := itemsPerBucket + (if i < bucketsWithExtra then 1 else 0);
        BucketSizes(lower, upper - lower, i);
        EncodeNext(split, i, last);
        Reassociate(old(w.data), EncodeRanges(split[..i], last), EncodeRange(split[i], lastTimestampOut));
        assert bucketSize == BucketSize(upper - lower, i);
        ghost var bucket := split[i];
        assert bucket == Bucket(storage, hash, lower, upper, bound, i);
        BucketAsRange(storage, hash, lower, upper, bound, i, curr, bucketSize);
        curr := WriteBucket(upper, bound, curr, bucketSize, w, bucket);
        i := i + 1;
      }
    }

    method WriteBucket(upper: nat, bound: Bound, curr: nat, bucketSize: nat, w: ByteBuffer,
                       ghost bucket: Range) returns (next: nat)
      requires 0 < bucketSize && curr + bucketSize <= upper <= |storage| && |bound.prefix| < TWO_63
      requires bucket == BucketRange(storage, hash, upper, bound, curr, curr + bucketSize)
      modifies w, this`lastTimestampOut
      ensures next == curr + bucketSize
      ensures w.data == old(w.data) + EncodeRange(bucket, old(lastTimestampOut))
      ensures lastTimestampOut == bucket.upper.ts
    {
      var ourFingerprint := hash(Ids(storage[curr..curr + bucketSize]));
      next := curr + bucketSize;
      var nextBound := if next == upper then bound else MinimalBound(storage[next - 1], storage[next]);
      WriteRange(w, Range(nextBound, Fingerprint(ourFingerprint)));
    }

    // ---- answering one range ----

    /** Ends the pending run of skips, if there is one. */
    method FinishSkipping(skipping: bool, prevBound: Bound, w: ByteBuffer) returns (ghost written: Message)
      requires |prevBound.prefix| < TWO_63
      modifies w, this`lastTimestampOut
      ensures written == if skipping then [Range(prevBound, Skip)] else []
      ensures w.data == old(w.data) + EncodeRanges(written, old(lastTimestampOut))
      ensures lastTimestampOut == LastTimestamp(written, old(lastTimestampOut))
    {
      written := [];
      if skipping {
        written := [Range(prevBound, Skip)];
        assert written[..0] == [] && written[..1] == written;
        EncodeNext(written, 0, lastTimestampOut);
        WriteRange(w, Range(prevBound, Skip));
      }
    }

    /** Strikes our ids out of theirs, reporting those they do not have. */
    method StrikeOut(ours: seq<Item>, theirs: set<Id>) returns (left: set<Id>)
      modifies this`haves
      ensures left == Compare(ours, theirs).1
      ensures multiset(haves) == multiset(old(haves))
                                 + (if isClient && up then Compare(ours, theirs).0 else multiset{})
    {
      hide Compare;
      left := theirs;
      var i := 0;
      CompareNone(ours, theirs);
      while i < |ours|
        invariant 0 <= i <= |ours|
        invariant left == Compare(ours[..i], theirs).1
        invariant multiset(haves) == multiset(old(haves))
                                     + (if isClient && up then Compare(ours[..i], theirs).0 else multiset{})
      {
        CompareStep(ours, theirs, i);
        if ours[i].id in left {
          left := left - {ours[i].id};
        } else if isClient && up {
          haves := haves + [ours[i].id];
        }
        i := i + 1;
      }
      assert ours[..|ours|] == ours;
    }

    /** Reports the ids that were not struck out, in no particular order. */
    method ReportMissing(left: set<Id>)
      modifies this`haveNots
      ensures multiset(haveNots) == multiset(old(haveNots)) + multiset(left)
    {
      var rest := left;
      while rest != {}
        invariant rest <= left
        invariant multiset(haveNots) + multiset(rest) == multiset(old(haveNots)) + multiset(left)
        decreases |rest|
      {
        var id :| id in rest;
        assert multiset(rest) == multiset(rest - {id}) + multiset{id};
        rest := rest - {id};
        haveNots := haveNots + [id];
      }
    }

    /** What answering appends: `added`, encoded from the timestamp written last. */
    twostate predicate Wrote(w: ByteBuffer, added: Message)
      reads this, w
    {
      && w.data == old(w.data) + EncodeRanges(added, old(lastTimestampOut))
      && lastTimestampOut == LastTimestamp(added, old(lastTimestampOut))
    }

    /** Writes the pending run of skips and then the pieces of a split range. */
    method ReplaceBySplit(prevIndex: nat, upper: nat, bound: Bound, prevBound: Bound, skipping: bool, w: ByteBuffer)
      returns (ghost added: Message)
      requires |storage| < TWO_63 && |bound.prefix| < TWO_63 && |prevBound.prefix| < TWO_63
      requires prevIndex <= upper <= |storage|
      modifies w, this`lastTimestampOut
      ensures Wrote(w, added)
      ensures added == Replacement(prevBound, skipping, Split(storage, hash, prevIndex, upper, bound))
    {
      ghost var last := lastTimestampOut;
      ghost var written := FinishSkipping(skipping, prevBound, w);
      ghost var pieces := Split(storage, hash, prevIndex, upper, bound);
      SplitRange(prevIndex, upper, bound, w);
      added := written + pieces;
      EncodeAppend(written, pieces, last);
      Reassociate(old(w.data), EncodeRanges(written, last), EncodeRanges(pieces, LastTimestamp(written, last)));
    }

    /** Writes the pending run of skips and then our ids for the same range. */
    method ReplaceByList(ids: seq<Id>, bound: Bound, prevBound: Bound, skipping: bool, w: ByteBuffer)
      returns (ghost added: Message)
      requires |ids| < TWO_63 && |bound.prefix| < TWO_63 && |prevBound.prefix| < TWO_63
      modifies w, this`lastTimestampOut
      ensures Wrote(w, added)
      ensures added == Replacement(prevBound, skipping, [Range(bound, IdList(ids))])
    {
      ghost var last := lastTimestampOut;
      ghost var written := FinishSkipping(skipping, prevBound, w);
      ghost var r := Range(bound, IdList(ids));
      added := written + [r];
      EncodeLast(written, r, last);
      Reassociate(old(w.data), EncodeRanges(written, last), EncodeRange(r, lastTimestampOut));
      WriteRange(w, Range(bound, IdList(ids)));
    }

    method AnswerFingerprint(r: Range, theirs: Digest, prevIndex: nat, upper: nat, prevBound: Bound, skipping: bool,
                             w: ByteBuffer) returns (skips: bool, ghost added: Message)
      requires |storage| < TWO_63 && |r.upper.prefix| < TWO_63 && |prevBound.prefix| < TWO_63
      requires prevIndex <= upper <= |storage|
      modifies w, this`lastTimestampOut
      ensures Wrote(w, added)
      ensures var e := FingerprintEffect(As(isClient), hash, prevIndex, upper, prevBound, skipping, r, theirs);
              skips == e.skips && added == e.added && e.haves == e.haveNots == multiset{}
    {
      added := [];
      skips := theirs == hash(Ids(storage[prevIndex..upper]));
      if !skips {
        added := ReplaceBySplit(prevIndex, upper, r.upper, prevBound, skipping, w);
      }
    }

    method AnswerIdList(r: Range, theirs: seq<Id>, prevIndex: nat, upper: nat, prevBound: Bound, skipping: bool,
                        w: ByteBuffer) returns (skips: bool, ghost added: Message)
      requires |storage| < TWO_63 && |r.upper.prefix| < TWO_63 && |prevBound.prefix| < TWO_63
      requires prevIndex <= upper <= |storage|
      modifies w, this`lastTimestampOut, this`haves, this`haveNots
      ensures Wrote(w, added)
      ensures var e := IdListEffect(As(isClient), prevIndex, upper, prevBound, skipping, r, theirs);
              && skips == e.skips && added == e.added
              && multiset(haves) == multiset(old(haves)) + e.haves
              && multiset(haveNots) == multiset(old(haveNots)) + e.haveNots
    {
      added := [];
      var ours := storage[prevIndex..upper];
      var left := StrikeOut(ours, set id | id in theirs);
      skips := isClient && down;
      if skips {
        ReportMissing(left);
      } else {
        added := ReplaceByList(Ids(ours), r.upper, prevBound, skipping, w);
      }
    }

    /** Answers one range: writes the new ranges, reports ids, and says whether it is now skipped. */
    method Answer(r: Range, prevIndex: nat, upper: nat, prevBound: Bound, skipping: bool, w: ByteBuffer)
      returns (skips: bool, ghost added: Message)
      requires |storage| < TWO_63 && |r.upper.prefix| < TWO_63 && |prevBound.prefix| < TWO_63
      requires prevIndex <= upper <= |storage|
      modifies w, this`lastTimestampOut, this`haves, this`haveNots
      ensures Wrote(w, added)
      ensures var e := EffectOf(As(isClient), hash, prevIndex, upper, prevBound, skipping, r);
              && skips == e.skips && added == e.added
              && multiset(haves) == multiset(old(haves)) + e.haves
              && multiset(haveNots) == multiset(old(haveNots)) + e.haveNots
    {
      match r.payload
      case Skip =>
        skips, added := true, [];
      case Fingerprint(theirs) =>
        skips, added := AnswerFingerprint(r, theirs, prevIndex, upper, prevBound, skipping, w);
      case IdList(theirs) =>
        skips, added := AnswerIdList(r, theirs, prevIndex, upper, prevBound, skipping, w);
    }

    // ---- answering a message ----

    /** The loop variables as one value; `haves0` and `haveNots0` were reported before the message. */
    function Loop(index: nat, bound: Bound, skipping: bool, output: seq<byte>,
                  haves0: multiset<Id>, haveNots0: multiset<Id>): LoopState
      reads this
    {
      LoopState(index, bound, skipping, output, lastTimestampOut, multiset(haves), multiset(haveNots), haves0,
                haveNots0)
    }

    /** Answers one range and appends the partial output. */
    method AnswerInto(r: Range, prevIndex: nat, prevBound: Bound, skipping: bool,
                      fullOutput: ByteBuffer, partialOutput: ByteBuffer,
                      ghost haves0: multiset<Id>, ghost haveNots0: multiset<Id>)
      returns (upper: nat, skips: bool)
      requires Valid() && fullOutput != partialOutput
      requires prevIndex <= |storage| && |prevBound.prefix| < TWO_63 && |r.upper.prefix| < TWO_63
      modifies this`lastTimestampOut, this`haves, this`haveNots, fullOutput, partialOutput
      ensures Loop(upper, r.upper, skips, fullOutput.data, haves0, haveNots0)
           == LoopStep(As(isClient), hash,
                       old(Loop(prevIndex, prevBound, skipping, fullOutput.data, haves0, haveNots0)), r)
    {
      hide EffectOf, EncodeRanges, IndexAfter, Sealed, LastTimestamp;
      partialOutput.Reset();
      upper := FindLowerBound(prevIndex, r.upper);
      ghost var added;
      skips, added := Answer(r, prevIndex, upper, prevBound, skipping, partialOutput);
      fullOutput.Write(partialOutput.data);
    }

    method ReconcileAux(msg: seq<byte>) returns (result: Result<seq<byte>>)
      requires Valid()
      modifies this`lastTimestampIn, this`lastTimestampOut, this`haves, this`haveNots
      ensures var reply := Reply(As(isClient), hash, msg);
              && result == reply.0
              && multiset(haves) == multiset(old(haves)) + reply.1
              && multiset(haveNots) == multiset(old(haveNots)) + reply.2
    {
      hide ReplyToRanges, Sealed;
      lastTimestampIn, lastTimestampOut := 0, 0;
      var reader := new ByteReader(msg);
      var pv := reader.ReadByte();
      if pv.Err? {
        return Err;
      }
      if pv.value != PROTOCOL_VERSION {
        return if isClient then Err else Ok([PROTOCOL_VERSION]);
      }
      result := ReconcileRanges(reader);
    }

    /** Opens the run as the client. */
    method Start() returns (msg: seq<byte>)
      requires Valid() && lastTimestampOut == 0
      modifies this`isClient, this`lastTimestampOut
      ensures isClient
      ensures msg == [PROTOCOL_VERSION] + EncodeRanges(Opening(As(true), hash), 0)
    {
      hide EncodeRanges, Split, Sealed;
      isClient := true;
      var output := new ByteBuffer();
      output.Write([PROTOCOL_VERSION]);
      SplitRange(0, |storage|, INFINITE_BOUND, output);
      msg := output.data;
    }

    /** The reply to a message; the client answers an empty string when it closes its channels. */
    method Reconcile(msg: seq<byte>) returns (result: Result<seq<byte>>)
      requires Valid()
      modifies this`lastTimestampIn, this`lastTimestampOut, this`haves, this`haveNots, this`closed
      ensures var reply := Reply(As(isClient), hash, msg);
              var closes := isClient && reply.0.Ok? && |reply.0.value| == 1;
              && result == (if closes then Ok([]) else reply.0)
              && closed == (old(closed) || closes)
              && multiset(haves) == multiset(old(haves)) + reply.1
              && multiset(haveNots) == multiset(old(haveNots)) + reply.2
    {
      hide Reply, Sealed;
      result := ReconcileAux(msg);
      if result.Ok? && |result.value| == 1 && isClient {
        closed := true;
        result := Ok([]);
      }
    }

    method ReconcileRanges(reader: ByteReader) returns (result: Result<seq<byte>>)
      requires Valid() && reader.Valid() && lastTimestampIn == lastTimestampOut == 0
      modifies this`lastTimestampIn, this`lastTimestampOut, this`haves, this`haveNots, reader
      ensures var reply := ReplyToRanges(As(isClient), hash, old(reader.Rest()));
              && result == reply.0
              && multiset(haves) == multiset(old(haves)) + reply.1
              && multiset(haveNots) == multiset(old(haveNots)) + reply.2
    {
      hide LoopStep, EncodeRange, NegentropyCodec.ReadRange, StepRange, Sealed;
      ghost var body, haves0, haveNots0 := reader.Rest(), multiset(haves), multiset(haveNots);
      var prevIndex: nat, prevBound, skipping := 0, Bound(0, []), false;
      var fullOutput := new ByteBuffer();
      var partialOutput := new ByteBuffer();
      fullOutput.Write([PROTOCOL_VERSION]);
      ghost var done: Message := [];
      assert forall more: Message :: done + more == more;
      while reader.pos < |reader.data|
        modifies this`lastTimestampIn, this`lastTimestampOut, this`haves, this`haveNots, reader, fullOutput,
        partialOutput
        invariant reader.Valid() && |prevBound.prefix| < TWO_63
        invariant ReadSoFar(body, done, reader.Rest(), lastTimestampIn)
        invariant Records(Handle(As(isClient), hash, done),
                          Loop(prevIndex, prevBound, skipping, fullOutput.data, haves0, haveNots0))
        decreases |reader.data| - reader.pos
      {
        ghost var rest, lastIn := reader.Rest(), lastTimestampIn;
        var r := ReadRange(reader);
        if r.Err? {
          assert done + [] == done;
          return Err;
        }
        ReadOneMore(body, done, rest, lastIn, r.value, reader.Rest());
        RecordsOneMore(As(isClient), hash, done, r.value,
                       Loop(prevIndex, prevBound, skipping, fullOutput.data, haves0, haveNots0));
        prevIndex, skipping := AnswerInto(r.value, prevIndex, prevBound, skipping, fullOutput, partialOutput,
                                          haves0, haveNots0);
        prevBound := r.value.upper;
        done := done + [r.value];
      }
      assert done + [] == done;
      result := Ok(fullOutput.data);
    }
  }

  /** What a party replies to the ranges that follow the version byte, and what it reports. */
  function ReplyToRanges(p: Party, hash: Hash, body: seq<byte>): (Result<seq<byte>>, multiset<Id>, multiset<Id>) {
    var (ranges, complete) := ParseRanges(body, 0);
    var st := Handle(p, hash, ranges);
    (if complete then Ok([PROTOCOL_VERSION] + EncodeRanges(st.out, 0)) else Err, st.haves, st.haveNots)
  }

  function Reply(p: Party, hash: Hash, msg: seq<byte>): (Result<seq<byte>>, multiset<Id>, multiset<Id>) {
    if msg == [] then (Err, multiset{}, multiset{})
    else if msg[0] != PROTOCOL_VERSION then
      (if p.isClient then Err else Ok([PROTOCOL_VERSION]), multiset{}, multiset{})
    else ReplyToRanges(p, hash, msg[1..])
  }

  /** `done` is what has been read of `body` so far. */
  ghost predicate ReadSoFar(body: seq<byte>, done: Message, rest: seq<byte>, lastIn: int) {
    var (more, complete) := ParseRanges(rest, lastIn);
    ParseRanges(body, 0) == (done + more, complete)
  }

  lemma {:induction false} ReadOneMore(body: seq<byte>, done: Message, rest: seq<byte>, lastIn: int, r: Range,
                                       after: seq<byte>)
    requires ReadSoFar(body, done, rest, lastIn) && ReadRange(rest, lastIn) == Got(r, after)
    ensures ReadSoFar(body, done + [r], after, r.upper.ts)
  {
    ParseStep(rest, lastIn, r, after);
    AppendOne(done, r, ParseRanges(after, r.upper.ts).0);
  }

  lemma {:induction false} AppendOne(done: Message, r: Range, more: Message)
    ensures done + ([r] + more) == done + [r] + more
  {
  }

  datatype LoopState = LoopState(
    index: nat, bound: Bound, skipping: bool, output: seq<byte>, lastOut: int,
    haves: multiset<Id>, haveNots: multiset<Id>, haves0: multiset<Id>, haveNots0: multiset<Id>)

  /** One turn of the loop. */
  function LoopStep(p: Party, hash: Hash, l: LoopState, r: Range): LoopState
    requires l.index <= |p.items|
  {
    var upper := IndexAfter(p.items, l.index, r.upper);
    var e := EffectOf(p, hash, l.index, upper, l.bound, l.skipping, r);
    LoopState(upper, r.upper, e.skips, l.output + EncodeRanges(e.added, l.lastOut), LastTimestamp(e.added, l.lastOut),
              l.haves + e.haves, l.haveNots + e.haveNots, l.haves0, l.haveNots0)
  }

  /** The loop variables are those of the state `st`. */
  ghost predicate Records(st: Progress, l: LoopState) {
    && st.index == l.index && st.bound == l.bound && st.skipping == l.skipping
    && l.output == [PROTOCOL_VERSION] + EncodeRanges(st.out, 0)
    && l.lastOut == LastTimestamp(st.out, 0)
    && l.haves == l.haves0 + st.haves
    && l.haveNots == l.haveNots0 + st.haveNots
  }

  lemma {:induction false} RecordsOneMore(p: Party, hash: Hash, done: Message, r: Range, l: LoopState)
    requires Records(Handle(p, hash, done), l)
    ensures Records(Handle(p, hash, done + [r]), LoopStep(p, hash, l, r))
  {
    var st := Handle(p, hash, done);
    HandleOneMore(p, hash, done, r);
    var next := StepRange(p, hash, done, r);
    RecordsAppend(st, next, l, EffectOf(p, hash, st.index, next.index, st.bound, st.skipping, r),
                  LoopStep(p, hash, l, r));
  }

  lemma {:induction false} RecordsAppend(st: Progress, next: Progress, l: LoopState, e: Effect, l': LoopState)
    requires Records(st, l)
    requires next.out == st.out + e.added && next.haves == st.haves + e.haves
             && next.haveNots == st.haveNots + e.haveNots
    requires l' == LoopState(next.index, next.bound, next.skipping, l.output + EncodeRanges(e.added, l.lastOut),
                             LastTimestamp(e.added, l.lastOut), l.haves + e.haves, l.haveNots + e.haveNots,
                             l.haves0, l.haveNots0)
    ensures Records(next, l')
  {
    EncodeAppend(st.out, e.added, 0);
    Reassociate([PROTOCOL_VERSION], EncodeRanges(st.out, 0), EncodeRanges(e.added, l.lastOut));
    assert LastTimestamp(st.out + e.added, 0) == LastTimestamp(e.added, l.lastOut);
  }

  lemma {:induction false} HandleOneMore(p: Party, hash: Hash, done: Message, r: Range)
    ensures Handle(p, hash, done + [r]) == StepRange(p, hash, done, r)
  {
    assert (done + [r])[..|done|] == done;
  }
}
