/** Text search over time shards with signature skipping (eventstore/pebbledb2/search.go). */
module StoreSearch {
  import opened AsciiText
  import opened NostrEvents
  import opened StoreKeys
  import opened StoreTables
  import opened StoreSpec
  import opened StoreCommit
  import opened StoreCounts
  import opened StoreRollupLaws
  import opened StoreSources
  import opened StoreCursor
  import opened StoreQuery
  import opened StoreMeaning
  import opened Horspool

  // ---- shards ----

  const TWO_64 := 0x1_0000_0000_0000_0000
  const MIN_INT64 := -0x8000_0000_0000_0000

  function U64(x: int): nat {
    x % TWO_64
  }

  /** Two's complement reading of 64 bits. */
  function I64(u: int): int {
    var r := u % TWO_64;
    if r <= MAX_INT64 then r else r - TWO_64
  }

  datatype Piece = Piece(lo: int, hi: int)

  ghost predicate Joined(pieces: seq<Piece>, i: nat)
    requires i + 1 < |pieces|
  {
    pieces[i + 1].lo == pieces[i].hi + 1
  }

  /** The pieces are nonempty, adjacent, and run from `a` to `b`. */
  ghost predicate Partition(pieces: seq<Piece>, a: int, b: int) {
    && pieces != [] && pieces[0].lo == a && pieces[|pieces| - 1].hi == b
    && (forall i :: 0 <= i < |pieces| ==> pieces[i].lo <= pieces[i].hi)
    && (forall i: nat :: i + 1 < |pieces| ==> Joined(pieces, i))
  }

  lemma {:induction false} MulMono(a: nat, b: nat, w: nat)
    requires a <= b
    ensures a * w <= b * w
  {
    assert b * w == a * w + (b - a) * w;
    assert 0 <= (b - a) * w;
  }

  lemma {:induction false} PositiveFactor(q: nat, n: nat)
    ensures q * n > 0 ==> q > 0
  {
  }

  lemma {:induction false} WidthFits(width: nat, n: nat)
    requires 1 <= n <= width
    ensures 1 <= width / n && n * (width / n) <= width
  {
    var q := width / n;
    assert width == q * n + width % n;
    PositiveFactor(q, n);
  }

  /** Reading a sum of 64-bit patterns back as a signed number. */
  lemma {:induction false} Unsigned(a: int, b: int, c: int)
    requires MIN_INT64 <= a <= MAX_INT64 && MIN_INT64 <= a + b <= MAX_INT64 && MIN_INT64 <= a + b + c <= MAX_INT64
    ensures I64(U64(U64(a) + b)) == a + b
    ensures I64(U64(U64(U64(a) + b) + c)) == a + b + c
  {
  }

  /** How many pieces, and how wide. */
  method PieceWidth(dMin: int, dMax: int, n0: nat) returns (n: nat, w: nat)
    requires MIN_INT64 <= dMin <= dMax <= MAX_INT64 && 1 <= n0 <= MAX_INT64
    ensures n == if dMax - dMin + 1 < n0 then dMax - dMin + 1 else n0
    ensures 1 <= w && n * w <= dMax - dMin + 1
  {
    n := n0;
    var width := U64(U64(dMax) - U64(dMin) + 1);
    ghost var points := dMax - dMin + 1;
    assert width == if points == TWO_64 then 0 else points;
    if width != 0 && width < n {
      n := width;
    }
    w := width / n;
    if width != 0 {
      WidthFits(width, n);
    }
    if w == 0 {
      w := 1;
    }
  }

  ghost predicate Even(out: seq<Piece>, dMin: int, w: nat, j: nat)
    requires j < |out|
  {
    out[j] == Piece(dMin + j * w, dMin + j * w + w - 1)
  }

  /** Contiguous pieces of a range, computed in unsigned 64-bit arithmetic. */
  method SplitRange(dMin: int, dMax: int, n0: nat) returns (out: seq<Piece>)
    requires MIN_INT64 <= dMin <= MAX_INT64 && MIN_INT64 <= dMax <= MAX_INT64 && 1 <= n0 <= MAX_INT64
    ensures dMax < dMin ==> out == []
    ensures dMin <= dMax ==> Partition(out, dMin, dMax)
    ensures dMin <= dMax ==> |out| == if dMax - dMin + 1 < n0 then dMax - dMin + 1 else n0
  {
    hide U64, I64, Partition;
    if dMax < dMin {
      return [];
    }
    var n, w := PieceWidth(dMin, dMax, n0);
    out := [];
    var i := 0;
    while i < n
      invariant 0 <= i <= n && |out| == i
      invariant forall j: nat :: j < i && j < n - 1 ==> Even(out, dMin, w, j)
      invariant i == n ==> out[n - 1] == Piece(dMin + (n - 1) * w, dMax)
    {
      PieceEnds(dMin, dMax, i, n, w);
      var lo := U64(U64(dMin) + i * w);
      var hi := U64(lo + w - 1);
      if i == n - 1 {
        hi := U64(dMax);
      }
      ghost var before := out;
      out := out + [Piece(I64(lo), I64(hi))];
      forall j: nat | j < i + 1 && j < n - 1 ensures Even(out, dMin, w, j) {
        assert j < i ==> Even(before, dMin, w, j);
      }
      i := i + 1;
    }
    PieceEnds(dMin, dMax, n - 1, n, w);
    EvenPieces(out, dMin, dMax, w);
  }

  lemma {:induction false} PieceEnds(dMin: int, dMax: int, i: nat, n: nat, w: nat)
    requires MIN_INT64 <= dMin <= dMax <= MAX_INT64 && i < n && 1 <= w && n * w <= dMax - dMin + 1
    ensures var lo := U64(U64(dMin) + i * w);
            I64(lo) == dMin + i * w && I64(U64(lo + w - 1)) == dMin + i * w + w - 1
    ensures I64(U64(dMax)) == dMax && dMin + i * w <= dMax
  {
    MulMono(i + 1, n, w);
    assert (i + 1) * w == i * w + w;
    assert 0 <= i * w by {
      MulMono(0, i, w);
    }
    EndsAt(dMin, dMax, i * w, w);
  }

  lemma {:induction false} EndsAt(dMin: int, dMax: int, x: nat, w: nat)
    requires MIN_INT64 <= dMin <= dMax <= MAX_INT64 && 1 <= w && x + w <= dMax - dMin + 1
    ensures var lo := U64(U64(dMin) + x);
            I64(lo) == dMin + x && I64(U64(lo + w - 1)) == dMin + x + w - 1
    ensures I64(U64(dMax)) == dMax
  {
    Unsigned(dMin, x, w - 1);
    Unsigned(dMax, 0, 0);
  }

  lemma {:induction false} EvenPieces(out: seq<Piece>, dMin: int, dMax: int, w: nat)
    requires out != [] && w >= 1
    requires forall j: nat :: j < |out| - 1 ==> Even(out, dMin, w, j)
    requires out[|out| - 1] == Piece(dMin + (|out| - 1) * w, dMax) && dMin + (|out| - 1) * w <= dMax
    ensures Partition(out, dMin, dMax)
  {
    forall i: nat | i + 1 < |out| ensures Joined(out, i) {
      assert Even(out, dMin, w, i);
      assert i + 1 < |out| - 1 ==> Even(out, dMin, w, i + 1);
      assert (i + 1) * w == i * w + w;
    }
    if |out| > 1 {
      assert Even(out, dMin, w, 0);
    }
    forall i | 0 <= i < |out| ensures out[i].lo <= out[i].hi {
      assert i < |out| - 1 ==> Even(out, dMin, w, i);
    }
  }

  /** Every point of the range lies in exactly one piece. */
  lemma {:induction false} OnePiece(pieces: seq<Piece>, a: int, b: int, x: int)
    requires Partition(pieces, a, b) && a <= x <= b
    ensures exists i :: 0 <= i < |pieces| && pieces[i].lo <= x <= pieces[i].hi
    ensures forall i, j :: 0 <= i < j < |pieces| ==> pieces[i].hi < pieces[j].lo
  {
    var last := pieces[|pieces| - 1];
    if |pieces| > 1 {
      var front := pieces[..|pieces| - 1];
      assert Joined(pieces, |pieces| - 2);
      forall i: nat | i + 1 < |front| ensures Joined(front, i) {
        assert Joined(pieces, i);
      }
      var mid := front[|front| - 1].hi;
      if x <= mid {
        FrontReaches(front, a, mid);
        OnePiece(front, a, mid, x);
        var i :| 0 <= i < |front| && front[i].lo <= x <= front[i].hi;
        assert pieces[i] == front[i];
      } else {
        FrontReaches(front, a, mid);
        OnePiece(front, a, mid, mid);
      }
      forall i, j | 0 <= i < j < |pieces| ensures pieces[i].hi < pieces[j].lo {
        if j < |front| {
          assert front[i].hi < front[j].lo;
        } else if i < |front| - 1 {
          assert front[i].hi < front[|front| - 1].lo;
        }
      }
    }
  }

  lemma {:induction false} FrontReaches(front: seq<Piece>, a: int, mid: int)
    requires Partition(front, a, mid)
    ensures a <= mid
  {
    if |front| > 1 {
      var shorter := front[..|front| - 1];
      assert Joined(front, |front| - 2);
      forall i: nat | i + 1 < |shorter| ensures Joined(shorter, i) {
        assert Joined(front, i);
      }
      FrontReaches(shorter, a, shorter[|shorter| - 1].hi);
    }
  }

  // ---- one shard ----

  /** The hits created in `[lo, hi]`. */
  ghost function HitsIn(evs: Events, f: Filter, pattern: Pattern, lo: int, hi: int): set<Pos> {
    set p | p in Hits(evs, f, pattern) && lo <= p.ts <= hi
  }

  function SignedAt(db: Db): set<Pos> {
    set k | k in db && k.Signature? :: k.at
  }

  function Between(ps: set<Pos>, lo: int, hi: int): set<Pos> {
    set p | p in ps && lo <= p.ts <= hi
  }

  /** Signatures sit where stored events do. */
  lemma {:induction false} SignedAreStored(rule: TagRule, db: Db, evs: Events, p: Pos)
    requires Keyed(evs) && Legible(rule, db, evs)
    ensures p in SignedAt(db) ==> p.id in evs && PosOf(evs[p.id]) == p
    ensures p in Positions(db, ByTime) <==> p.id in evs && PosOf(evs[p.id]) == p
    ensures p in SignedAt(db) <==> Signature(p) in db
  {
    var k := Signature(p);
    assert k in db ==> Get(db, k) == Expected(rule, evs, k);
    hide Legible, Positions, SignedAt;
    PositionsAre(rule, db, evs, ByTime);
    hide Prefixes, Row;
    assert p in SignedAt(db) <==> Signature(p) in db by {
      SignedIs(db, p);
    }
    forall id | id in evs ensures ByTime in Prefixes(rule, evs[id]) {
      NonTagPrefix(rule, evs[id], ByTime);
    }
  }

  lemma {:induction false} SignedIs(db: Db, p: Pos)
    ensures p in SignedAt(db) <==> Signature(p) in db
  {
  }

  lemma {:induction false} DescendingAt(ps: seq<Pos>, j: nat, k: nat)
    requires Descending(ps) && j < |ps| && k < |ps|
    ensures j < k ==> PosLess(ps[k], ps[j])
  {
  }

  /**
   The signature stream stands at its first entry not before the current body: it is at the
   body exactly when the body has a signature.
   */
  lemma {:induction false} MergeFinds(sigs: seq<Pos>, at: nat, p: Pos)
    requires Descending(sigs) && at <= |sigs|
    requires forall j :: at <= j < |sigs| ==> PosLess(sigs[j], p)
    requires at > 0 ==> !PosLess(sigs[at - 1], p)
    ensures at > 0 && sigs[at - 1] == p <==> p in sigs
  {
    PosIrreflexive(p);
    if p in sigs {
      var j :| 0 <= j < |sigs| && sigs[j] == p;
      assert j < at;
      DescendingAt(sigs, j, at - 1);
    }
  }

  /** Counts the distinct positions of a list. */
  ghost predicate NoRepeats(ps: seq<Pos>) {
    |AsSet(ps)| == |ps|
  }

  lemma {:induction false} AsSetAppend(a: seq<Pos>, b: seq<Pos>)
    ensures AsSet(a + b) == AsSet(a) + AsSet(b)
    ensures NoRepeats(a) && NoRepeats(b) && AsSet(a) !! AsSet(b) ==> NoRepeats(a + b)
  {
  }

  /** `sort.Slice`, newest first. */
  method SortDesc(ps: seq<Pos>) returns (r: seq<Pos>)
    requires NoRepeats(ps)
    ensures r == Timeline(AsSet(ps)) && |r| == |ps|
  {
    r := Timeline(AsSet(ps));
  }

  lemma {:induction false} TimelineDistinct(s: set<Pos>)
    ensures NoRepeats(Timeline(s)) && AsSet(Timeline(s)) == s
  {
    TimelineIs(s);
    assert AsSet(Timeline(s)) == s;
  }

  lemma {:induction false} CutDistinct(s: set<Pos>, limit: nat)
    ensures NoRepeats(Cut(Timeline(s), limit)) && AsSet(Cut(Timeline(s), limit)) <= s
  {
    TimelineDistinct(s);
    var all := Timeline(s);
    if 0 < limit < |all| {
      DistinctFront(all, limit);
    }
  }

  lemma {:induction false} DistinctFront(ps: seq<Pos>, n: nat)
    requires NoRepeats(ps) && n <= |ps|
    ensures NoRepeats(ps[..n]) && AsSet(ps[..n]) <= AsSet(ps)
  {
    var a, b := ps[..n], ps[n..];
    assert ps == a + b;
    AsSetAppend(a, b);
    FewAsSet(a);
    FewAsSet(b);
    Union(AsSet(a), AsSet(b));
  }

  lemma {:induction false} FewAsSet(ps: seq<Pos>)
    ensures |AsSet(ps)| <= |ps|
  {
    if ps != [] {
      FewAsSet(ps[1..]);
      assert ps == [ps[0]] + ps[1..];
      AsSetAppend([ps[0]], ps[1..]);
      assert AsSet([ps[0]]) == {ps[0]};
    }
  }

  lemma {:induction false} Union(a: set<Pos>, b: set<Pos>)
    ensures |a + b| <= |a| + |b|
  {
  }

  class Searching {
    const store: PebbleStore
    const f: Filter
    const pattern: Str
    const search: Searcher
    const grams: seq<Bloom.Gram>
    const limit: nat
    const budget: nat
    const query: bool
    var scanned: nat

    ghost predicate Fits()
      reads store
    {
      && store.Readable()
      && search.Valid() && search.patLen > 0 && search.Needle() == Lower(pattern)
      && Bloom.GramsOf(pattern, grams) && grams != []
    }

    constructor (store: PebbleStore, f: Filter, pattern: Str, search: Searcher, grams: seq<Bloom.Gram>,
                 limit: nat, budget: nat, query: bool)
      requires store.Readable() && search.Valid() && search.patLen > 0 && search.Needle() == Lower(pattern)
      requires Bloom.GramsOf(pattern, grams) && grams != []
      ensures this.store == store && this.f == f && this.pattern == pattern && this.limit == limit
      ensures this.budget == budget && this.query == query && scanned == 0 && Fits()
    {
      this.store, this.f, this.pattern, this.search, this.grams := store, f, pattern, search, grams;
      this.limit, this.budget, this.query, scanned := limit, budget, query, 0;
    }

    /** Whether the body at a position is a hit; a signature that cannot hold the pattern spares the read. */
    method Examine(p: Pos, hasSig: bool) returns (hit: bool)
      requires Fits() && p.id in store.events && PosOf(store.events[p.id]) == p
      requires hasSig <==> Signature(p) in store.db
      ensures hit <==> p in Hits(store.events, f, Some(pattern))
    {
      hide Matches, Legible, Occurs, Lower, Bloom.GramsOf, Bloom.MayContain, Bloom.SignatureOf, Hits, Keyed;
      InHits(store.events, f, Some(pattern), p);
      SignatureRow(store.rule, store.db, store.events, p);
      BodyAt(store.rule, store.db, store.events, p);
      var body: Stored := store.db[Body(p)].ev;
      if hasSig && !Bloom.MayContain(store.db[Signature(p)].bits, grams) {
        SkippedMisses(body.content, pattern, grams);
        return false;
      }
      var contained := search.Contains(body.content);
      hit := contained && Matches(f, body);
    }

    /** Merges the bodies of one shard, oldest first, with their signatures. */
    method SearchTask(lo: int, hi: int) returns (cands: seq<Pos>, count: nat, err: bool)
      requires Fits()
      modifies this`scanned
      ensures !err ==> scanned == old(scanned) + |Between(Positions(store.db, ByTime), lo, hi)|
      ensures err ==> budget < scanned <= old(scanned) + |Between(Positions(store.db, ByTime), lo, hi)|
      ensures !err && query ==> Reported(cands, HitsIn(store.events, f, Some(pattern), lo, hi), limit)
      ensures !err && !query ==> cands == [] && count == |HitsIn(store.events, f, Some(pattern), lo, hi)|
    {
      hide Legible, Positions, SignedAt, Hits, Keyed, TypedCounters, Timeline, AsSet, HitsAt;
      var keys := Between(Positions(store.db, ByTime), lo, hi);
      var bodies := Timeline(keys);
      var sigs := Timeline(Between(SignedAt(store.db), lo, hi));
      TimelineIs(keys);
      TimelineIs(Between(SignedAt(store.db), lo, hi));
      ghost var hits := Hits(store.events, f, Some(pattern));
      var b, s := |bodies|, |sigs|;
      cands, count, err := [], 0, false;
      NoneVisited(bodies, hits);
      while b > 0
        invariant 0 <= b <= |bodies| && 0 <= s <= |sigs|
        invariant scanned == old(scanned) + |bodies| - b
        invariant forall j, k :: s <= j < |sigs| && 0 <= k < b ==> PosLess(sigs[j], bodies[k])
        invariant query ==> NoRepeats(cands) && AsSet(cands) == HitsAt(bodies, b, hits) && count == 0
        invariant !query ==> cands == [] && count == |HitsAt(bodies, b, hits)|
        modifies this`scanned
      {
        var p := bodies[b - 1];
        scanned := scanned + 1;
        if scanned > budget {
          return [], 0, true;
        }
        while s > 0 && PosLess(sigs[s - 1], p)
          invariant 0 <= s <= |sigs|
          invariant forall j :: s <= j < |sigs| ==> PosLess(sigs[j], p)
          decreases s
        {
          s := s - 1;
        }
        var hasSig := s > 0 && sigs[s - 1] == p;
        MergeFinds(sigs, s, p);
        assert p in keys;
        SignedAreStored(store.rule, store.db, store.events, p);
        var hit := Examine(p, hasSig);
        VisitOne(bodies, b, hits);
        if hit {
          if query {
            OneMore(cands, p);
            cands := cands + [p];
          } else {
            count := count + 1;
          }
        }
        forall j, k | s <= j < |sigs| && 0 <= k < b - 1 ensures PosLess(sigs[j], bodies[k]) {
          assert PosLess(bodies[b - 1], bodies[k]);
          PosTransitive(sigs[j], p, bodies[k]);
        }
        b := b - 1;
      }
      AllVisited(store.rule, store.db, store.events, f, Some(pattern), bodies, lo, hi);
      if query {
        cands := Shorten(cands, HitsIn(store.events, f, Some(pattern), lo, hi));
      }
    }

    /** A shard with too many hits reports the newest. */
    method Shorten(found: seq<Pos>, ghost hits: set<Pos>) returns (cands: seq<Pos>)
      requires NoRepeats(found) && AsSet(found) == hits
      ensures Reported(cands, hits, limit)
    {
      cands := found;
      TimelineDistinct(hits);
      CutDistinct(hits, limit);
      if limit > 0 && |found| > limit {
        var sorted := SortDesc(found);
        cands := sorted[..limit];
      }
    }
  }

  /** A shard's report: the newest `limit` of its hits, in some order. */
  ghost predicate Reported(cands: seq<Pos>, hits: set<Pos>, limit: nat) {
    NoRepeats(cands) && AsSet(cands) == AsSet(Cut(Timeline(hits), limit))
  }

  /** The hits among the bodies from index `b` on. */
  ghost function HitsAt(bodies: seq<Pos>, b: nat, hits: set<Pos>): set<Pos>
    requires b <= |bodies|
  {
    set k | b <= k < |bodies| && bodies[k] in hits :: bodies[k]
  }

  lemma {:induction false} NoneVisited(bodies: seq<Pos>, hits: set<Pos>)
    ensures HitsAt(bodies, |bodies|, hits) == {} && NoRepeats([]) && AsSet<Pos>([]) == {}
  {
  }

  lemma {:induction false} OneMore(cands: seq<Pos>, p: Pos)
    ensures AsSet(cands + [p]) == AsSet(cands) + {p}
    ensures NoRepeats(cands) && p !in AsSet(cands) ==> NoRepeats(cands + [p])
  {
  }

  lemma {:induction false} VisitOne(bodies: seq<Pos>, b: nat, hits: set<Pos>)
    requires Descending(bodies) && 0 < b <= |bodies|
    ensures bodies[b - 1] !in HitsAt(bodies, b, hits)
    ensures HitsAt(bodies, b - 1, hits) ==
            HitsAt(bodies, b, hits) + (if bodies[b - 1] in hits then {bodies[b - 1]} else {})
  {
    if bodies[b - 1] in HitsAt(bodies, b, hits) {
      var k :| b <= k < |bodies| && bodies[k] == bodies[b - 1];
      assert PosLess(bodies[k], bodies[b - 1]);
      PosIrreflexive(bodies[k]);
    }
  }

  lemma {:induction false} AllVisited(rule: TagRule, db: Db, evs: Events, f: Filter, pattern: Pattern, bodies: seq<Pos>,
                                      lo: int, hi: int)
    requires Keyed(evs) && Legible(rule, db, evs)
    requires forall p :: p in bodies <==> p in Between(Positions(db, ByTime), lo, hi)
    ensures HitsAt(bodies, 0, Hits(evs, f, pattern)) == HitsIn(evs, f, pattern, lo, hi)
  {
    hide Legible, Positions, Wanted;
    var hits := Hits(evs, f, pattern);
    forall p | p in HitsIn(evs, f, pattern, lo, hi) ensures p in HitsAt(bodies, 0, hits) {
      HitIsStored(evs, f, pattern, p);
      SignedAreStored(rule, db, evs, p);
      assert p in bodies;
    }
    forall p | p in HitsAt(bodies, 0, hits) ensures p in HitsIn(evs, f, pattern, lo, hi) {
      assert p in bodies;
    }
  }

  lemma {:induction false} HitIsStored(evs: Events, f: Filter, pattern: Pattern, p: Pos)
    requires Keyed(evs) && p in Hits(evs, f, pattern)
    ensures p.id in evs && PosOf(evs[p.id]) == p
  {
    hide Wanted;
  }

  // ---- the shards together ----

  /** What leads a set leads any part of it. */
  lemma {:induction false} TopOfPart(all: set<Pos>, part: set<Pos>, limit: nat, p: Pos)
    requires part <= all && p in part && p in Cut(Timeline(all), limit)
    ensures p in Cut(Timeline(part), limit)
  {
    TimelineIs(part);
    KeepTimeline(all, part);
    hide Timeline, Keep, Descending;
    var ps := Timeline(all);
    if limit > 0 {
      var r :| 0 <= r < |ps| && ps[r] == p && r < limit;
      KeepEarly(ps, part, r);
    }
  }

  /** Filtering does not move an element back. */
  lemma {:induction false} KeepEarly(ps: seq<Pos>, part: set<Pos>, r: nat)
    requires r < |ps| && ps[r] in part
    ensures exists k :: 0 <= k <= r && k < |Keep(ps, part)| && Keep(ps, part)[k] == ps[r]
  {
    var front := Keep(ps[..r + 1], part);
    KeepStep(ps, part, r);
    KeepShort(ps[..r + 1], part);
    hide Keep;
    KeepAppend(ps[..r + 1], ps[r + 1..], part);
    assert ps == ps[..r + 1] + ps[r + 1..];
    assert front[|front| - 1] == ps[r];
    assert Keep(ps, part)[|front| - 1] == ps[r];
  }

  lemma {:induction false} KeepShort(ps: seq<Pos>, s: set<Pos>)
    ensures |Keep(ps, s)| <= |ps|
  {
    if ps != [] {
      KeepShort(ps[..|ps| - 1], s);
    }
  }

  lemma {:induction false} KeepAll(ps: seq<Pos>, s: set<Pos>)
    requires forall p :: p in ps ==> p in s
    ensures Keep(ps, s) == ps
  {
    if ps != [] {
      assert forall p :: p in ps[..|ps| - 1] ==> p in ps;
      KeepAll(ps[..|ps| - 1], s);
    }
  }

  /** A part that holds the leaders has the same leaders. */
  lemma {:induction false} SameTop(all: set<Pos>, part: set<Pos>, limit: nat)
    requires part <= all && forall p :: p in Cut(Timeline(all), limit) ==> p in part
    ensures Cut(Timeline(part), limit) == Cut(Timeline(all), limit)
  {
    KeepTimeline(all, part);
    var ps := Timeline(all);
    if 0 < limit < |ps| {
      assert ps == ps[..limit] + ps[limit..];
      KeepAppend(ps[..limit], ps[limit..], part);
      KeepAll(ps[..limit], part);
    } else {
      KeepAll(ps, part);
    }
  }

  /** The candidates gathered so far hold the leaders of the hits gathered so far. */
  ghost predicate Gathered(all: seq<Pos>, hits: set<Pos>, limit: nat) {
    && NoRepeats(all) && AsSet(all) <= hits
    && forall p :: p in Cut(Timeline(hits), limit) ==> p in AsSet(all)
  }

  lemma {:induction false} GatherOne(all: seq<Pos>, hits: set<Pos>, cands: seq<Pos>, more: set<Pos>, limit: nat)
    requires Gathered(all, hits, limit) && Reported(cands, more, limit) && hits !! more
    ensures Gathered(all + cands, hits + more, limit)
  {
    hide Timeline, AsSet;
    CutDistinct(more, limit);
    AsSetAppend(all, cands);
    CutDistinct(hits + more, limit);
    forall p | p in Cut(Timeline(hits + more), limit) ensures p in AsSet(all + cands) {
      InAsSet(Cut(Timeline(hits + more), limit), p);
      if p in hits {
        TopOfPart(hits + more, hits, limit, p);
      } else {
        TopOfPart(hits + more, more, limit, p);
        InAsSet(Cut(Timeline(more), limit), p);
      }
    }
  }

  lemma {:induction false} InAsSet(ps: seq<Pos>, p: Pos)
    ensures p in AsSet(ps) <==> p in ps
  {
  }

  lemma {:induction false} HitsSplit(evs: Events, f: Filter, pattern: Pattern, a: int, b: int, c: int)
    requires a - 1 <= b <= c
    ensures HitsIn(evs, f, pattern, a, c) == HitsIn(evs, f, pattern, a, b) + HitsIn(evs, f, pattern, b + 1, c)
    ensures HitsIn(evs, f, pattern, a, b) !! HitsIn(evs, f, pattern, b + 1, c)
  {
    hide Hits;
  }

  lemma {:induction false} BetweenSplit(ps: set<Pos>, a: int, b: int, c: int)
    requires a - 1 <= b <= c
    ensures |Between(ps, a, c)| == |Between(ps, a, b)| + |Between(ps, b + 1, c)|
  {
    assert Between(ps, a, c) == Between(ps, a, b) + Between(ps, b + 1, c);
    assert Between(ps, a, b) !! Between(ps, b + 1, c);
  }

  // ---- a whole search ----

  lemma {:induction false} NoEvents(evs: Events, it: seq<Pos>)
    requires forall id :: id in evs ==> PosOf(evs[id]) in it
    ensures it == [] ==> evs == map[]
  {
    if it == [] {
      assert forall id :: id !in evs;
    }
  }

  /** The oldest and newest creation times stored, or an empty range. */
  method DataTimeRange(store: PebbleStore) returns (min: int, max: int)
    requires store.Readable()
    ensures store.events == map[] ==> min == 0 && max == -1
    ensures store.events != map[] ==> 0 <= min <= max <= MAX_INT64
    ensures forall id :: id in store.events ==> min <= store.events[id].createdAt <= max
  {
    hide Legible, Positions, SignedAt, Keyed, TypedCounters, Timeline;
    var keys := Positions(store.db, ByTime);
    var it := Timeline(keys);
    TimelineIs(keys);
    forall id | id in store.events ensures PosOf(store.events[id]) in it {
      StoredPos(store.events, id);
      SignedAreStored(store.rule, store.db, store.events, PosOf(store.events[id]));
    }
    if it == [] {
      NoEvents(store.events, it);
      return 0, -1;
    }
    min, max := it[|it| - 1].ts, it[0].ts;
    forall k | 0 <= k < |it| ensures it[k].id in store.events && PosOf(store.events[it[k].id]) == it[k] {
      assert it[k] in keys;
      SignedAreStored(store.rule, store.db, store.events, it[k]);
    }
    assert it[0].id in store.events && it[|it| - 1].id in store.events;
    forall k | 0 <= k < |it| ensures min <= it[k].ts <= max {
      if k > 0 {
        assert PosLess(it[k], it[0]);
      }
      if k < |it| - 1 {
        assert PosLess(it[|it| - 1], it[k]);
      }
    }
    forall id | id in store.events ensures min <= store.events[id].createdAt <= max {
      assert PosOf(store.events[id]) in it;
    }
  }

  /** Time shards that cover every stored event the filter's bounds admit. */
  ghost predicate Covers(tasks: seq<Piece>, evs: Events, since: int, until: int) {
    if tasks == [] then forall id :: id in evs ==> !(since <= evs[id].createdAt <= until)
    else
      var a, b := tasks[0].lo, tasks[|tasks| - 1].hi;
      && Partition(tasks, a, b) && since <= a <= b <= until
      && forall id :: id in evs && since <= evs[id].createdAt <= until ==> a <= evs[id].createdAt <= b
  }

  method SearchTasks(store: PebbleStore, since: int, until: int) returns (tasks: seq<Piece>)
    requires store.Readable() && 0 <= since <= MAX_INT64 && 0 <= until <= MAX_INT64
    ensures Covers(tasks, store.events, since, until) && |tasks| <= 8
  {
    hide Legible, Keyed, TypedCounters;
    if since > until {
      return [];
    }
    var dMin, dMax := DataTimeRange(store);
    if dMax < 0 || dMax < since || dMin > until {
      return [];
    }
    var lo := if since > dMin then since else dMin;
    var hi := if until < dMax then until else dMax;
    if lo > hi {
      return [];
    }
    tasks := SplitRange(lo, hi, 8);
  }

  /** The filter has nothing but time bounds: the plan is the global timeline. */
  predicate TimeOnly(f: Filter) {
    var g := Lax(f);
    g.ids.None? && g.authors.None? && g.kinds.None? && g.tags == map[]
  }

  /**
   Search over all shards. The newest `limit` of the shards' newest `limit` are the newest
   `limit` of all hits; a count is the number of hits.
   */
  method SearchRun(store: PebbleStore, fold: Fold, f: Filter, pattern: Str, limit: nat, budget: nat, query: bool)
    returns (result: seq<Stored>, total: nat, err: bool)
    requires store.Readable() && TimeOnly(f) && f.since <= MAX_INT64 && f.until <= MAX_INT64
    requires FoldsAlike(pattern, fold(pattern)) && |pattern| >= 3
    ensures !err && query ==> result == Answer(store.events, f, Some(pattern), limit)
    ensures !err && query ==> IsAnswer(store.events, f, Some(pattern), limit, result)
    ensures !err && !query ==> total == |Hits(store.events, f, Some(pattern))|
    ensures !err && !query ==> total == CountOf(store.events, f, Some(pattern))
    ensures err ==> budget < |store.events|
  {
    hide Legible, Hits, HitsIn, Keyed, TypedCounters, Timeline, Gathered, Partition, Bloom.GramsOf, Lower, IsAnswer,
      CountOf;
    AnswerIs(store.events, f, Some(pattern), limit);
    HitsCounted(store.events, f, Some(pattern));
    var tasks := SearchTasks(store, SinceOf(f), UntilOf(f));
    var search := new Searcher(pattern, fold(pattern));
    var grams := Bloom.BuildSearchGrams(pattern);
    var run := new Searching(store, f, pattern, search, grams, limit, budget, query);
    var all: seq<Pos>;
    all, total, err := AllTasks(run, tasks);
    if err {
      return [], 0, true;
    }
    CoveredHits(store.events, f, Some(pattern), tasks);
    result := [];
    if query {
      result := Collect(store, f, pattern, limit, all);
    }
  }

  function First(tasks: seq<Piece>): int {
    if tasks == [] then 0 else tasks[0].lo
  }

  /** The candidates, or the number, of the hits of some adjacent shards. */
  ghost predicate Tallied(run: Searching, all: seq<Pos>, total: nat, lo: int, hi: int)
    reads run.store
  {
    var hits := HitsIn(run.store.events, run.f, Some(run.pattern), lo, hi);
    if run.query then Gathered(all, hits, run.limit) else total == |hits|
  }

  lemma {:induction false} TallyNone(run: Searching, a: int)
    ensures Tallied(run, [], 0, a, a - 1)
  {
    hide Hits;
    NothingGathered(run.store.events, run.f, Some(run.pattern), a, run.limit);
  }

  lemma {:induction false} TallyOne(run: Searching, all: seq<Pos>, total: nat, a: int, t: Piece, cands: seq<Pos>,
                                    count: nat)
    requires a <= t.lo <= t.hi && Tallied(run, all, total, a, t.lo - 1)
    requires run.query ==> Reported(cands, HitsIn(run.store.events, run.f, Some(run.pattern), t.lo, t.hi), run.limit)
    requires !run.query ==> count == |HitsIn(run.store.events, run.f, Some(run.pattern), t.lo, t.hi)|
    ensures Tallied(run, all + cands, total + count, a, t.hi)
  {
    hide HitsIn, Gathered, Reported;
    HitsSplit(run.store.events, run.f, Some(run.pattern), a, t.lo - 1, t.hi);
    if run.query {
      GatherOne(all, HitsIn(run.store.events, run.f, Some(run.pattern), a, t.lo - 1), cands,
                HitsIn(run.store.events, run.f, Some(run.pattern), t.lo, t.hi), run.limit);
    }
  }

  /** Runs the shards one after the other. */
  method AllTasks(run: Searching, tasks: seq<Piece>) returns (all: seq<Pos>, total: nat, err: bool)
    requires run.Fits() && run.scanned == 0
    requires tasks != [] ==> Partition(tasks, tasks[0].lo, tasks[|tasks| - 1].hi)
    modifies run
    ensures !err ==> Tallied(run, all, total, First(tasks), Reach(tasks, |tasks|) - 1)
    ensures err ==> run.budget < |run.store.events|
  {
    hide Legible, Positions, HitsIn, Keyed, TypedCounters, Reported, Tallied, Between, Partition, SearchSuits, Lower,
      Bloom.GramsOf;
    ghost var a := First(tasks);
    all, total, err := [], 0, false;
    TallyNone(run, a);
    NothingBetween(Positions(run.store.db, ByTime), a);
    var i := 0;
    while i < |tasks|
      invariant 0 <= i <= |tasks| && run.Fits() && !err
      invariant run.scanned == |Between(Positions(run.store.db, ByTime), a, Reach(tasks, i) - 1)|
      invariant Tallied(run, all, total, a, Reach(tasks, i) - 1)
      modifies run
    {
      var t := tasks[i];
      ReachStep(tasks, a, i);
      BetweenSplit(Positions(run.store.db, ByTime), a, t.lo - 1, t.hi);
      var cands, count, failed := run.SearchTask(t.lo, t.hi);
      if failed {
        ByTimeFew(run.store.rule, run.store.db, run.store.events, a, t.hi);
        return [], 0, true;
      }
      TallyOne(run, all, total, a, t, cands, count);
      total := total + count;
      all := all + cands;
      i := i + 1;
    }
  }

  /** Sorts the gathered candidates, cuts them, and loads the events. */
  method Collect(store: PebbleStore, f: Filter, pattern: Str, limit: nat, all: seq<Pos>) returns (result: seq<Stored>)
    requires store.Readable() && Gathered(all, Hits(store.events, f, Some(pattern)), limit)
    ensures result == Answer(store.events, f, Some(pattern), limit)
  {
    hide Legible, Hits, Keyed, TypedCounters, Timeline, AsSet, Occurs;
    var hits := AsSet(all);
    var sorted := SortDesc(all);
    SameTopOf(store.events, f, Some(pattern), all, limit);
    var top := Cut(sorted, limit);
    HitsStored(store.events, f, Some(pattern), limit);
    result := [];
    var i := 0;
    while i < |top|
      invariant 0 <= i <= |top| && AllStored(store.events, top[..i])
      invariant result == EventsAt(store.events, top[..i])
    {
      HitIsStored(store.events, f, Some(pattern), top[i]) by {
        assert top[i] in Cut(Timeline(Hits(store.events, f, Some(pattern))), limit);
        TopIsHit(Hits(store.events, f, Some(pattern)), limit, top[i]);
      }
      BodyAt(store.rule, store.db, store.events, top[i]);
      assert top[..i + 1] == top[..i] + [top[i]];
      result := result + [store.db[Body(top[i])].ev];
      i := i + 1;
    }
    assert top[..|top|] == top;
  }

  lemma {:induction false} TopIsHit(hits: set<Pos>, limit: nat, p: Pos)
    requires p in Cut(Timeline(hits), limit)
    ensures p in hits
  {
    TimelineIs(hits);
  }

  lemma {:induction false} SameTopOf(evs: Events, f: Filter, pattern: Pattern, all: seq<Pos>, limit: nat)
    requires Gathered(all, Hits(evs, f, pattern), limit)
    ensures Cut(Timeline(AsSet(all)), limit) == Cut(Timeline(Hits(evs, f, pattern)), limit)
  {
    hide Hits, Timeline, AsSet;
    SameTop(Hits(evs, f, pattern), AsSet(all), limit);
  }

  /** Where the first `i` shards end. */
  function Reach(tasks: seq<Piece>, i: nat): int
    requires i <= |tasks|
  {
    if tasks == [] then 0 else if i == 0 then tasks[0].lo else tasks[i - 1].hi + 1
  }

  lemma {:induction false} ReachStep(tasks: seq<Piece>, a: int, i: nat)
    requires i < |tasks| && Partition(tasks, a, tasks[|tasks| - 1].hi)
    ensures Reach(tasks, i) == tasks[i].lo && Reach(tasks, i + 1) == tasks[i].hi + 1
    ensures a <= tasks[i].lo <= tasks[i].hi
    decreases i
  {
    if i > 0 {
      assert Joined(tasks, i - 1);
      ReachStep(tasks, a, i - 1);
    }
  }

  lemma {:induction false} NothingGathered(evs: Events, f: Filter, pattern: Pattern, a: int, limit: nat)
    ensures HitsIn(evs, f, pattern, a, a - 1) == {} && Gathered([], HitsIn(evs, f, pattern, a, a - 1), limit)
  {
    hide Hits;
  }

  lemma {:induction false} NothingBetween(ps: set<Pos>, a: int)
    ensures Between(ps, a, a - 1) == {}
  {
  }

  lemma {:induction false} ByTimeFew(rule: TagRule, db: Db, evs: Events, a: int, b: int)
    requires Keyed(evs) && Legible(rule, db, evs)
    ensures |Between(Positions(db, ByTime), a, b)| <= |evs|
  {
    hide Legible, Positions;
    RangedFew(rule, db, evs, ByTime, a, b);
    assert Between(Positions(db, ByTime), a, b) == Ranged(db, ByTime, a, b);
  }

  /** The shards hold every hit. */
  lemma {:induction false} CoveredHits(evs: Events, f: Filter, pattern: Pattern, tasks: seq<Piece>)
    requires Keyed(evs) && Covers(tasks, evs, SinceOf(f), UntilOf(f))
    ensures var a := if tasks == [] then 0 else tasks[0].lo;
            HitsIn(evs, f, pattern, a, Reach(tasks, |tasks|) - 1) == Hits(evs, f, pattern)
  {
    hide Occurs, Partition;
    var a := if tasks == [] then 0 else tasks[0].lo;
    forall p | p in Hits(evs, f, pattern) ensures p in HitsIn(evs, f, pattern, a, Reach(tasks, |tasks|) - 1) {
      var id :| id in evs && Wanted(f, pattern, evs[id]) && p == PosOf(evs[id]);
      assert SinceOf(f) <= evs[id].createdAt <= UntilOf(f);
    }
  }
}
