/**
 What one party answers to one message (nip77/negentropy/negentropy.go), as a fold over the
 message's ranges. The byte-level methods are proved against these functions, and the
 two-party protocol is built on them.
 */
module NegentropyReconcile {
  import opened ByteStrings
  import opened NegentropyTypes

  const BUCKETS := 16

  /** A party and its sealed items. `up` and `down` say which of the two report channels exist. */
  datatype Party = Party(items: seq<Item>, isClient: bool, up: bool, down: bool)

  type Hash = seq<Id> -> Digest

  // ---- splitting a range ----

  /** How many leading bytes the ids share, looking at no more than the first 31. */
  function SharedPrefix(a: Id, b: Id, i: nat): (n: nat)
    requires i <= 31
    ensures i <= n <= 31
    ensures forall k :: i <= k < n ==> a[k] == b[k]
    ensures n < 31 ==> a[n] != b[n]
    decreases 31 - i
  {
    if i < 31 && a[i] == b[i] then SharedPrefix(a, b, i + 1) else i
  }

  function MinimalBound(prev: Item, curr: Item): Bound {
    if curr.ts != prev.ts then Bound(curr.ts, [])
    else Bound(curr.ts, curr.id[..SharedPrefix(curr.id, prev.id, 0) + 1])
  }

  /** How many of `n` items go into bucket `i`: the first `n % 16` buckets get one more. */
  function BucketSize(n: nat, i: nat): nat {
    n / BUCKETS + (if i < n % BUCKETS then 1 else 0)
  }

  /** Where bucket `i` of `n` items starting at `lower` begins. */
  function BucketStart(lower: nat, n: nat, i: nat): nat {
    if i == 0 then lower else BucketStart(lower, n, i - 1) + BucketSize(n, i - 1)
  }

  lemma {:induction false} BucketStartClosed(lower: nat, n: nat, i: nat)
    ensures BucketStart(lower, n, i) == lower + i * (n / BUCKETS) + (if i < n % BUCKETS then i else n % BUCKETS)
  {
    if i > 0 {
      BucketStartClosed(lower, n, i - 1);
      assert i * (n / BUCKETS) == (i - 1) * (n / BUCKETS) + n / BUCKETS;
    }
  }

  lemma {:induction false} BucketsCover(lower: nat, n: nat)
    ensures BucketStart(lower, n, BUCKETS) == lower + n
  {
    BucketStartClosed(lower, n, BUCKETS);
  }

  lemma {:induction false} StartsIncrease(lower: nat, n: nat, i: nat, j: nat)
    requires n >= 2 * BUCKETS && i < j
    ensures BucketStart(lower, n, i) < BucketStart(lower, n, j)
  {
    if i + 1 < j {
      StartsIncrease(lower, n, i, j - 1);
    }
  }

  /** Sixteen buckets, none empty, each a sixteenth of the items rounded up at most. */
  lemma {:induction false} BucketSizes(lower: nat, n: nat, i: nat)
    requires n >= 2 * BUCKETS
    requires i < BUCKETS
    ensures lower <= BucketStart(lower, n, i) < BucketStart(lower, n, i + 1) <= lower + n
    ensures BucketStart(lower, n, i + 1) == lower + n <==> i + 1 == BUCKETS
    ensures BucketStart(lower, n, i + 1) - BucketStart(lower, n, i) <= (n + 15) / 16 < n
  {
    BucketsCover(lower, n);
    if i > 0 {
      StartsIncrease(lower, n, 0, i);
    }
    if i + 1 < BUCKETS {
      StartsIncrease(lower, n, i + 1, BUCKETS);
    }
  }

  /** The range of one bucket `[start, end)` of a range that ends at `upper` with `bound`. */
  function BucketRange(items: seq<Item>, hash: Hash, upper: nat, bound: Bound, start: nat, end: nat): Range
    requires start < end <= upper <= |items|
  {
    Range(if end == upper then bound else MinimalBound(items[end - 1], items[end]),
          Fingerprint(hash(Ids(items[start..end]))))
  }

  function Bucket(items: seq<Item>, hash: Hash, lower: nat, upper: nat, bound: Bound, i: nat): Range
    requires lower <= upper <= |items| && upper - lower >= 2 * BUCKETS
    requires i < BUCKETS
  {
    BucketSizes(lower, upper - lower, i);
    BucketRange(items, hash, upper, bound,
                BucketStart(lower, upper - lower, i), BucketStart(lower, upper - lower, i + 1))
  }

  function Split(items: seq<Item>, hash: Hash, lower: nat, upper: nat, bound: Bound): Message
    requires lower <= upper <= |items|
  {
    if upper - lower < 2 * BUCKETS then
      [Range(bound, IdList(Ids(items[lower..upper])))]
    else
      seq(BUCKETS, i requires 0 <= i < BUCKETS => Bucket(items, hash, lower, upper, bound, i))
  }

  lemma {:induction false} BucketAsRange(items: seq<Item>, hash: Hash, lower: nat, upper: nat, bound: Bound, i: nat,
                                         curr: nat, size: nat)
    requires lower <= upper <= |items| && upper - lower >= 2 * BUCKETS && i < BUCKETS
    requires curr == BucketStart(lower, upper - lower, i) && size == BucketSize(upper - lower, i)
    ensures 0 < size && curr + size <= upper
    ensures curr + size == BucketStart(lower, upper - lower, i + 1)
    ensures Bucket(items, hash, lower, upper, bound, i) == BucketRange(items, hash, upper, bound, curr, curr + size)
  {
    BucketSizes(lower, upper - lower, i);
  }

  lemma {:induction false} SplitBuckets(items: seq<Item>, hash: Hash, lower: nat, upper: nat, bound: Bound)
    requires lower <= upper <= |items| && upper - lower >= 2 * BUCKETS
    ensures var split := Split(items, hash, lower, upper, bound);
            |split| == BUCKETS &&
            forall i :: 0 <= i < BUCKETS ==> split[i] == Bucket(items, hash, lower, upper, bound, i)
  {
  }

  // ---- comparing an id list ----

  /** Ids of ours the other side did not list, and of theirs what we could not strike out. */
  function Compare(ours: seq<Item>, theirs: set<Id>): (multiset<Id>, set<Id>) {
    if ours == [] then (multiset{}, theirs)
    else
      var (missing, left) := Compare(ours[..|ours| - 1], theirs);
      var id := ours[|ours| - 1].id;
      if id in left then (missing, left - {id}) else (missing + multiset{id}, left)
  }

  lemma {:induction false} CompareNone(ours: seq<Item>, theirs: set<Id>)
    ensures Compare(ours[..0], theirs) == (multiset{}, theirs)
  {
  }

  lemma {:induction false} CompareStep(ours: seq<Item>, theirs: set<Id>, i: nat)
    requires i < |ours|
    ensures var (missing, left) := Compare(ours[..i], theirs);
            var id := ours[i].id;
            Compare(ours[..i + 1], theirs) ==
            if id in left then (missing, left - {id}) else (missing + multiset{id}, left)
  {
    assert ours[..i + 1][..i] == ours[..i];
  }

  // ---- one message ----

  /** The loop state of a party part-way through a message. */
  datatype Progress = Progress(
    index: nat,
    bound: Bound,
    skipping: bool,
    out: Message,
    haves: multiset<Id>,
    haveNots: multiset<Id>)

  const START := Progress(0, Bound(0, []), false, [], multiset{}, multiset{})

  function IndexAfter(items: seq<Item>, index: nat, bound: Bound): (n: nat)
    requires index <= |items|
    ensures index <= n <= |items|
  {
    index + Cut(items[index..], bound)
  }

  /** The output with a pending run of skips written down. */
  function FinishSkip(st: Progress): Message {
    if st.skipping then st.out + [Range(st.bound, Skip)] else st.out
  }

  /** What one range does: whether it is skipped from now on, what is written, what is reported. */
  datatype Effect = Effect(skips: bool, added: Message, haves: multiset<Id>, haveNots: multiset<Id>)

  /** New ranges for the old one, after the pending run of skips. */
  function Replacement(bound: Bound, skipping: bool, pieces: Message): Message {
    (if skipping then [Range(bound, Skip)] else []) + pieces
  }

  function FingerprintEffect(p: Party, hash: Hash, index: nat, upper: nat, bound: Bound, skipping: bool,
                             r: Range, digest: Digest): Effect
    requires index <= upper <= |p.items|
  {
    if digest == hash(Ids(p.items[index..upper])) then Effect(true, [], multiset{}, multiset{})
    else Effect(false, Replacement(bound, skipping, Split(p.items, hash, index, upper, r.upper)), multiset{},
                multiset{})
  }

  function IdListEffect(p: Party, index: nat, upper: nat, bound: Bound, skipping: bool,
                        r: Range, ids: seq<Id>): Effect
    requires index <= upper <= |p.items|
  {
    var ours := p.items[index..upper];
    var (missing, left) := Compare(ours, set id | id in ids);
    var haves := if p.isClient && p.up then missing else multiset{};
    if p.isClient && p.down then Effect(true, [], haves, multiset(left))
    else Effect(false, Replacement(bound, skipping, [Range(r.upper, IdList(Ids(ours)))]), haves, multiset{})
  }

  function EffectOf(p: Party, hash: Hash, index: nat, upper: nat, bound: Bound, skipping: bool, r: Range): Effect
    requires index <= upper <= |p.items|
  {
    match r.payload
    case Skip => Effect(true, [], multiset{}, multiset{})
    case Fingerprint(digest) => FingerprintEffect(p, hash, index, upper, bound, skipping, r, digest)
    case IdList(ids) => IdListEffect(p, index, upper, bound, skipping, r, ids)
  }

  /** The state after the ranges in `before` and one more. */
  function StepRange(p: Party, hash: Hash, before: Message, r: Range): (next: Progress)
    ensures next.index <= |p.items| && next.bound == r.upper
    decreases |before|, 1
  {
    var st := Handle(p, hash, before);
    var upper := IndexAfter(p.items, st.index, r.upper);
    var e := EffectOf(p, hash, st.index, upper, st.bound, st.skipping, r);
    Progress(upper, r.upper, e.skips, st.out + e.added, st.haves + e.haves, st.haveNots + e.haveNots)
  }

  /** The state after a whole message. */
  function Handle(p: Party, hash: Hash, msg: Message): (st: Progress)
    ensures st.index <= |p.items|
    ensures st.bound == if msg == [] then Bound(0, []) else msg[|msg| - 1].upper
    decreases |msg|, 0
  {
    if msg == [] then START
    else StepRange(p, hash, msg[..|msg| - 1], msg[|msg| - 1])
  }

  /** The client's opening message. */
  function Opening(p: Party, hash: Hash): Message {
    Split(p.items, hash, 0, |p.items|, INFINITE_BOUND)
  }
}
