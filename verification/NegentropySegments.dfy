/**
 How a message cuts a sealed list into segments, what makes a message honest about its
 sender's list, and why every answer of `Handle` is honest again.
 */
module NegentropySegments {
  import opened ByteStrings
  import opened NegentropyTypes
  import opened NegentropyReconcile

  // ---- segments ----

  function Slice(items: seq<Item>, lo: nat, hi: nat): seq<Item> {
    if lo <= hi <= |items| then items[lo..hi] else []
  }

  /** Where range `i` of a message that starts at `lower` begins in a list. */
  function CutFrom(items: seq<Item>, lower: nat, msg: Message, i: nat): nat
    requires i <= |msg|
  {
    if i == 0 then lower else Cut(items, msg[i - 1].upper)
  }

  function SegmentFrom(items: seq<Item>, lower: nat, msg: Message, i: nat): seq<Item>
    requires i < |msg|
  {
    Slice(items, CutFrom(items, lower, msg, i), CutFrom(items, lower, msg, i + 1))
  }

  function Segment(items: seq<Item>, msg: Message, i: nat): seq<Item>
    requires i < |msg|
  {
    SegmentFrom(items, 0, msg, i)
  }

  /** The items right of a message's last bound: the part it leaves out, which means "skip". */
  function Tail(items: seq<Item>, msg: Message): seq<Item> {
    Slice(items, CutFrom(items, 0, msg, |msg|), |items|)
  }

  ghost predicate Monotone(msg: Message) {
    forall i, j :: 0 <= i < j < |msg| ==> BoundLe(msg[i].upper, msg[j].upper)
  }

  // ---- honesty ----

  /** The range says the truth about the sender's segment. */
  ghost predicate HonestPayload(payload: Payload, hash: Hash, segment: seq<Item>) {
    match payload
    case Skip => true
    case Fingerprint(digest) => digest == hash(Ids(segment))
    case IdList(ids) => ids == Ids(segment)
  }

  ghost predicate HonestAt(items: seq<Item>, hash: Hash, lower: nat, msg: Message, i: nat)
    requires i < |msg|
  {
    HonestPayload(msg[i].payload, hash, SegmentFrom(items, lower, msg, i))
  }

  ghost predicate HonestFrom(items: seq<Item>, hash: Hash, lower: nat, msg: Message) {
    forall i :: 0 <= i < |msg| ==> HonestAt(items, hash, lower, msg, i)
  }

  /** What a party that holds `items` may send. */
  ghost predicate Honest(items: seq<Item>, hash: Hash, msg: Message) {
    Monotone(msg) && HonestFrom(items, hash, 0, msg)
  }

  predicate NoSkips(msg: Message) {
    forall i :: 0 <= i < |msg| ==> !msg[i].payload.Skip?
  }

  lemma {:induction false} MonotoneAppend(front: Message, pieces: Message)
    requires Monotone(front) && Monotone(pieces)
    requires front != [] && pieces != [] ==> BoundLe(front[|front| - 1].upper, pieces[0].upper)
    ensures Monotone(front + pieces)
  {
    var all := front + pieces;
    forall i, j | 0 <= i < j < |all| ensures BoundLe(all[i].upper, all[j].upper) {
      if i < |front| <= j {
        var last := front[|front| - 1].upper;
        BoundLeReflexive(last);
        BoundLeReflexive(pieces[0].upper);
        BoundLeTransitive(all[i].upper, last, pieces[0].upper);
        BoundLeTransitive(all[i].upper, pieces[0].upper, all[j].upper);
      }
    }
  }

  lemma {:induction false} HonestAppend(items: seq<Item>, hash: Hash, lower: nat, front: Message, pieces: Message)
    requires HonestFrom(items, hash, lower, front)
    requires HonestFrom(items, hash, CutFrom(items, lower, front, |front|), pieces)
    ensures HonestFrom(items, hash, lower, front + pieces)
  {
    forall i | 0 <= i < |front + pieces| ensures HonestAt(items, hash, lower, front + pieces, i) {
      if i < |front| {
        HonestPrefix(items, hash, lower, front, front + pieces, i);
      } else {
        HonestSuffix(items, hash, lower, front, pieces, i - |front|);
      }
    }
  }

  /** A segment depends on its own two bounds only, not on what comes before or after them. */
  lemma {:induction false} SegmentPrefix(items: seq<Item>, lower: nat, front: Message, all: Message, i: nat)
    requires front <= all && i < |front|
    ensures SegmentFrom(items, lower, front, i) == SegmentFrom(items, lower, all, i)
  {
    assert front[i] == all[i] && (i > 0 ==> front[i - 1] == all[i - 1]);
  }

  lemma {:induction false} SegmentSuffix(items: seq<Item>, lower: nat, front: Message, pieces: Message, i: nat)
    requires i < |pieces|
    ensures SegmentFrom(items, lower, front + pieces, |front| + i)
         == SegmentFrom(items, CutFrom(items, lower, front, |front|), pieces, i)
  {
    var all, mid := front + pieces, CutFrom(items, lower, front, |front|);
    assert all[|front| + i] == pieces[i];
    assert CutFrom(items, lower, all, |front| + i) == CutFrom(items, mid, pieces, i);
    assert CutFrom(items, lower, all, |front| + i + 1) == CutFrom(items, mid, pieces, i + 1);
  }

  lemma {:induction false} HonestPrefix(items: seq<Item>, hash: Hash, lower: nat, front: Message, all: Message, i: nat)
    requires front <= all && i < |front|
    ensures HonestAt(items, hash, lower, front, i) == HonestAt(items, hash, lower, all, i)
  {
    SegmentPrefix(items, lower, front, all, i);
    assert front[i] == all[i];
  }

  lemma {:induction false} HonestSuffix(items: seq<Item>, hash: Hash, lower: nat, front: Message, pieces: Message,
                                        i: nat)
    requires i < |pieces|
    ensures HonestAt(items, hash, lower, front + pieces, |front| + i)
         == HonestAt(items, hash, CutFrom(items, lower, front, |front|), pieces, i)
  {
    SegmentSuffix(items, lower, front, pieces, i);
    assert (front + pieces)[|front| + i] == pieces[i];
  }

  // ---- the minimal bound ----

  lemma {:induction false} LexStrip(a: seq<byte>, b: seq<byte>, n: nat)
    requires n <= |a| && n <= |b| && a[..n] == b[..n]
    ensures LexLess(a, b) == LexLess(a[n..], b[n..])
  {
    if n > 0 {
      assert a[0] == a[..n][0] == b[..n][0] == b[0];
      assert a[1..][..n - 1] == a[..n][1..] == b[..n][1..] == b[1..][..n - 1];
      LexStrip(a[1..], b[1..], n - 1);
      assert a[1..][n - 1..] == a[n..] && b[1..][n - 1..] == b[n..];
    } else {
      assert a[n..] == a && b[n..] == b;
    }
  }

  /** The bound written between two neighbours separates them. */
  lemma {:induction false} MinimalBoundSeparates(prev: Item, curr: Item)
    requires ItemLess(prev, curr)
    ensures Below(prev, MinimalBound(prev, curr))
    ensures !Below(curr, MinimalBound(prev, curr))
  {
    if prev.ts == curr.ts {
      var n := SharedPrefix(curr.id, prev.id, 0);
      var p := curr.id[..n + 1];
      assert prev.id[..n] == curr.id[..n] == p[..n];
      LexStrip(prev.id, curr.id, n);
      LexStrip(prev.id, p, n);
      LexStrip(curr.id, p, n);
      assert p[n..] == [curr.id[n]];
      assert curr.id[n..][1..] == curr.id[n + 1..] && prev.id[n..][1..] == prev.id[n + 1..];
      assert prev.id[n] < curr.id[n] by {
        assert n == 31 ==> prev.id[n..] == [prev.id[n]] && curr.id[n..] == [curr.id[n]];
      }
    }
  }

  /** ... so whoever holds the two neighbours cuts exactly between them. */
  lemma {:induction false} MinimalBoundCuts(items: seq<Item>, k: nat)
    requires Sealed(items) && 0 < k < |items|
    ensures Cut(items, MinimalBound(items[k - 1], items[k])) == k
  {
    var b := MinimalBound(items[k - 1], items[k]);
    MinimalBoundSeparates(items[k - 1], items[k]);
    forall i | 0 <= i < k ensures Below(items[i], b) {
      if i < k - 1 {
        BelowDownward(items[i], items[k - 1], b);
      }
    }
    CutUnique(items, b, k);
  }

  // ---- splitting is honest ----

  /** A bound that cuts further right is the greater one. */
  lemma {:induction false} CutOrders(items: seq<Item>, a: Bound, b: Bound)
    requires Cut(items, a) < Cut(items, b)
    ensures BoundLe(a, b)
  {
    CutSpec(items, a);
    CutSpec(items, b);
    BetweenBounds(items[Cut(items, a)], a, b);
  }

  /** Range `i` fingerprints bucket `i` of the items, and its bound cuts the list at the bucket's end. */
  ghost predicate BucketAt(items: seq<Item>, hash: Hash, lower: nat, upper: nat, pieces: Message, i: nat)
    requires i < |pieces| && lower <= upper
  {
    var start, end := BucketStart(lower, upper - lower, i), BucketStart(lower, upper - lower, i + 1);
    && Cut(items, pieces[i].upper) == end
    && pieces[i].payload == Fingerprint(hash(Ids(Slice(items, start, end))))
  }

  /** What is to know about the message `Split` makes of 32 or more items. */
  ghost predicate Bucketed(items: seq<Item>, hash: Hash, lower: nat, upper: nat, bound: Bound, pieces: Message) {
    && lower + 2 * BUCKETS <= upper == Cut(items, bound)
    && |pieces| == BUCKETS && pieces[BUCKETS - 1].upper == bound
    && forall i :: 0 <= i < BUCKETS ==> BucketAt(items, hash, lower, upper, pieces, i)
  }

  lemma {:induction false} BucketCuts(items: seq<Item>, hash: Hash, lower: nat, upper: nat, bound: Bound, i: nat)
    requires Sealed(items) && lower + 2 * BUCKETS <= upper == Cut(items, bound) && i < BUCKETS
    ensures Cut(items, Bucket(items, hash, lower, upper, bound, i).upper) == BucketStart(lower, upper - lower, i + 1)
    ensures i == BUCKETS - 1 ==> Bucket(items, hash, lower, upper, bound, i).upper == bound
  {
    BucketSizes(lower, upper - lower, i);
    if i < BUCKETS - 1 {
      MinimalBoundCuts(items, BucketStart(lower, upper - lower, i + 1));
    }
  }

  lemma {:induction false} SplitBucketed(items: seq<Item>, hash: Hash, lower: nat, upper: nat, bound: Bound)
    requires Sealed(items) && lower + 2 * BUCKETS <= upper == Cut(items, bound)
    ensures Bucketed(items, hash, lower, upper, bound, Split(items, hash, lower, upper, bound))
  {
    SplitBuckets(items, hash, lower, upper, bound);
    BucketsBucketed(items, hash, lower, upper, bound, Split(items, hash, lower, upper, bound));
  }

  lemma {:induction false} BucketsBucketed(items: seq<Item>, hash: Hash, lower: nat, upper: nat, bound: Bound,
                                           pieces: Message)
    requires Sealed(items) && lower + 2 * BUCKETS <= upper == Cut(items, bound)
    requires |pieces| == BUCKETS
    requires forall i :: 0 <= i < BUCKETS ==> pieces[i] == Bucket(items, hash, lower, upper, bound, i)
    ensures Bucketed(items, hash, lower, upper, bound, pieces)
  {
    forall i | 0 <= i < BUCKETS ensures BucketAt(items, hash, lower, upper, pieces, i) {
      BucketCuts(items, hash, lower, upper, bound, i);
      BucketSizes(lower, upper - lower, i);
      assert pieces[i] == Bucket(items, hash, lower, upper, bound, i);
    }
    BucketCuts(items, hash, lower, upper, bound, BUCKETS - 1);
    assert pieces[BUCKETS - 1] == Bucket(items, hash, lower, upper, bound, BUCKETS - 1);
  }

  lemma {:induction false} BucketedOrders(items: seq<Item>, hash: Hash, lower: nat, upper: nat, bound: Bound,
                                          pieces: Message, i: nat, j: nat)
    requires Bucketed(items, hash, lower, upper, bound, pieces) && i < j < BUCKETS
    ensures BoundLe(pieces[i].upper, pieces[j].upper)
  {
    assert BucketAt(items, hash, lower, upper, pieces, i);
    assert BucketAt(items, hash, lower, upper, pieces, j);
    StartsIncrease(lower, upper - lower, i + 1, j + 1);
    CutOrders(items, pieces[i].upper, pieces[j].upper);
  }

  lemma {:induction false} BucketedHonest(items: seq<Item>, hash: Hash, lower: nat, upper: nat, bound: Bound,
                                          pieces: Message)
    requires Bucketed(items, hash, lower, upper, bound, pieces)
    ensures HonestFrom(items, hash, lower, pieces) && NoSkips(pieces) && Monotone(pieces)
  {
    forall i | 0 <= i < |pieces|
      ensures HonestAt(items, hash, lower, pieces, i) && !pieces[i].payload.Skip?
    {
      assert BucketAt(items, hash, lower, upper, pieces, i);
      if i > 0 {
        assert BucketAt(items, hash, lower, upper, pieces, i - 1);
      }
    }
    forall i, j | 0 <= i < j < |pieces| ensures BoundLe(pieces[i].upper, pieces[j].upper) {
      BucketedOrders(items, hash, lower, upper, bound, pieces, i, j);
    }
  }

  lemma {:induction false} BucketedAfter(items: seq<Item>, hash: Hash, prev: Bound, upper: nat, bound: Bound,
                                         pieces: Message)
    requires Bucketed(items, hash, Cut(items, prev), upper, bound, pieces)
    ensures BoundLe(prev, pieces[0].upper)
  {
    var lower := Cut(items, prev);
    assert BucketAt(items, hash, lower, upper, pieces, 0);
    StartsIncrease(lower, upper - lower, 0, 1);
    CutOrders(items, prev, pieces[0].upper);
  }

  /** The message made of a range: honest, without skips, rising, and ending at the range's bound. */
  lemma {:induction false} SplitHonest(items: seq<Item>, hash: Hash, lower: nat, upper: nat, bound: Bound)
    requires Sealed(items) && lower <= upper == Cut(items, bound)
    ensures var pieces := Split(items, hash, lower, upper, bound);
            && HonestFrom(items, hash, lower, pieces) && NoSkips(pieces) && Monotone(pieces)
            && pieces != [] && pieces[|pieces| - 1].upper == bound
  {
    if upper - lower >= 2 * BUCKETS {
      SplitBucketed(items, hash, lower, upper, bound);
      BucketedHonest(items, hash, lower, upper, bound, Split(items, hash, lower, upper, bound));
    } else {
      assert HonestAt(items, hash, lower, Split(items, hash, lower, upper, bound), 0);
    }
  }

  /** Its bounds also stay right of the bound left of the range. */
  lemma {:induction false} SplitAfter(items: seq<Item>, hash: Hash, prev: Bound, upper: nat, bound: Bound)
    requires Sealed(items) && BoundLe(prev, bound)
    requires Cut(items, prev) <= upper == Cut(items, bound)
    ensures BoundLe(prev, Split(items, hash, Cut(items, prev), upper, bound)[0].upper)
  {
    if upper - Cut(items, prev) >= 2 * BUCKETS {
      SplitBucketed(items, hash, Cut(items, prev), upper, bound);
      BucketedAfter(items, hash, prev, upper, bound, Split(items, hash, Cut(items, prev), upper, bound));
    }
  }

  // ---- answering is honest ----

  /** `FindLowerBound` from where the last range ended is the cut in the whole list. */
  lemma {:induction false} IndexAfterIsCut(items: seq<Item>, prev: Bound, bound: Bound, index: nat)
    requires Sealed(items) && index <= Cut(items, bound)
    ensures IndexAfter(items, index, bound) == Cut(items, bound)
  {
    var n := Cut(items, bound);
    var rest := items[index..];
    CutSpec(items, bound);
    forall i | 0 <= i < n - index ensures Below(rest[i], bound) {
      assert rest[i] == items[index + i];
    }
    CutUnique(rest, bound, n - index);
  }

  /** The shape of the output part-way through: no dangling skip, and it reaches `st.bound`. */
  ghost predicate Shaped(st: Progress, msg: Message) {
    && (FinishSkip(st) == [] <==> msg == [])
    && (st.out == [] || !st.out[|st.out| - 1].payload.Skip?)
    && (FinishSkip(st) != [] ==> FinishSkip(st)[|FinishSkip(st)| - 1].upper == st.bound)
    && (msg == [] ==> st == START)
  }

  lemma {:induction false} HandleHonest(p: Party, hash: Hash, msg: Message)
    requires Sealed(p.items) && Monotone(msg)
    ensures var st := Handle(p, hash, msg);
            && st.index == CutFrom(p.items, 0, msg, |msg|)
            && Shaped(st, msg)
            && Honest(p.items, hash, FinishSkip(st))
  {
    if msg != [] {
      var n := |msg| - 1;
      var before, r := msg[..n], msg[n];
      HandleHonest(p, hash, before);
      var st0 := Handle(p, hash, before);
      assert st0.index == CutFrom(p.items, 0, msg, n);
      if n > 0 {
        CutMonotone(p.items, st0.bound, r.upper);
      }
      IndexAfterIsCut(p.items, st0.bound, r.upper, st0.index);
      StepShape(p, hash, before, r);
      StepHonest(p, hash, before, st0, r, Handle(p, hash, msg));
    }
  }

  lemma {:induction false} StepHonest(p: Party, hash: Hash, before: Message, st0: Progress, r: Range, st: Progress)
    requires Sealed(p.items)
    requires st0.index == CutFrom(p.items, 0, before, |before|)
    requires st0.bound == if before == [] then Bound(0, []) else before[|before| - 1].upper
    requires Shaped(st0, before)
    requires Honest(p.items, hash, FinishSkip(st0))
    requires before != [] ==> BoundLe(st0.bound, r.upper)
    requires IndexAfter(p.items, st0.index, r.upper) == Cut(p.items, r.upper)
    requires st.bound == r.upper && Stepped(p, hash, st0, r, st)
    ensures Shaped(st, before + [r])
    ensures Honest(p.items, hash, FinishSkip(st))
  {
    if st.skipping {
      ExtendSkip(p.items, hash, before, st0, r.upper);
    } else {
      var pieces := Pieces(p, hash, st0.index, r);
      PiecesHonest(p, hash, before, st0.index, st0.bound, r);
      MonotoneAppend(FinishSkip(st0), pieces);
      HonestAppend(p.items, hash, 0, FinishSkip(st0), pieces);
    }
  }

  /** What replaces a range that is not skipped. */
  function Pieces(p: Party, hash: Hash, lower: nat, r: Range): Message
    requires lower <= |p.items|
  {
    var upper := IndexAfter(p.items, lower, r.upper);
    if r.payload.IdList? then [Range(r.upper, IdList(Ids(p.items[lower..upper])))]
    else Split(p.items, hash, lower, upper, r.upper)
  }

  /** A step either leaves the range skipped or writes its pieces. */
  ghost predicate Stepped(p: Party, hash: Hash, st0: Progress, r: Range, st: Progress) {
    st0.index <= |p.items| &&
    if st.skipping then st.out == st0.out
    else st.out == FinishSkip(st0) + Pieces(p, hash, st0.index, r) && !r.payload.Skip?
  }

  lemma {:induction false} StepShape(p: Party, hash: Hash, before: Message, r: Range)
    ensures Stepped(p, hash, Handle(p, hash, before), r, StepRange(p, hash, before, r))
  {
    hide Handle, Split, FinishSkip, Replacement, Compare;
    var st := Handle(p, hash, before);
    if !StepRange(p, hash, before, r).skipping {
      ReplacementAppends(st, Pieces(p, hash, st.index, r));
    }
  }

  lemma {:induction false} ReplacementAppends(st: Progress, pieces: Message)
    ensures st.out + Replacement(st.bound, st.skipping, pieces) == FinishSkip(st) + pieces
  {
  }

  lemma {:induction false} PiecesHonest(p: Party, hash: Hash, before: Message, lower: nat, prev: Bound, r: Range)
    requires Sealed(p.items)
    requires lower == CutFrom(p.items, 0, before, |before|)
    requires before != [] ==> prev == before[|before| - 1].upper && BoundLe(prev, r.upper)
    requires IndexAfter(p.items, lower, r.upper) == Cut(p.items, r.upper)
    ensures var pieces := Pieces(p, hash, lower, r);
            && pieces != [] && pieces[|pieces| - 1].upper == r.upper
            && NoSkips(pieces) && Monotone(pieces)
            && HonestFrom(p.items, hash, lower, pieces)
            && (before != [] ==> BoundLe(prev, pieces[0].upper))
  {
    if !r.payload.IdList? {
      SplitHonest(p.items, hash, lower, Cut(p.items, r.upper), r.upper);
      if before != [] {
        SplitAfter(p.items, hash, prev, Cut(p.items, r.upper), r.upper);
      }
    } else {
      var pieces := Pieces(p, hash, lower, r);
      assert HonestAt(p.items, hash, lower, pieces, 0);
    }
  }

  /** Writing one skip up to `upper`, merging it with the pending skip if there is one. */
  lemma {:induction false} ExtendSkip(items: seq<Item>, hash: Hash, before: Message, st0: Progress, upper: Bound)
    requires Shaped(st0, before)
    requires st0.bound == if before == [] then Bound(0, []) else before[|before| - 1].upper
    requires Honest(items, hash, FinishSkip(st0))
    requires before != [] ==> BoundLe(st0.bound, upper)
    ensures Honest(items, hash, st0.out + [Range(upper, Skip)])
  {
    var eff := FinishSkip(st0);
    assert st0.out == eff[..|st0.out|];
    assert Honest(items, hash, st0.out) by {
      forall i | 0 <= i < |st0.out| ensures HonestAt(items, hash, 0, st0.out, i) {
        HonestPrefix(items, hash, 0, st0.out, eff, i);
        assert HonestAt(items, hash, 0, eff, i);
      }
    }
    if st0.out != [] {
      var last := |st0.out| - 1;
      BoundLeReflexive(st0.bound);
      assert eff[last] == st0.out[last];
      BoundLeTransitive(st0.out[last].upper, st0.bound, upper);
    }
    MonotoneAppend(st0.out, [Range(upper, Skip)]);
    HonestAppend(items, hash, 0, st0.out, [Range(upper, Skip)]);
  }
}
