/**
 COUNT from the hour and day counters (eventstore/pebbledb2/query.go, `countRollup`): full days,
 full hours of the two edge days and partial edge hours.
 */
module StoreRollup {
  import opened ByteStrings
  import opened NostrEvents
  import opened StoreKeys
  import opened StoreTables
  import opened StoreSpec
  import opened StoreCommit
  import opened StoreCounts

  /** No kinds in the filter means every kind. */
  type Kinds = Option<set<Kind>>

  function KindsOf(kinds: seq<Kind>): Kinds {
    if kinds == [] then None else Some(AsSet(kinds))
  }

  predicate KindOk(ks: Kinds, kind: Kind) {
    ks.Some? ==> kind in ks.value
  }

  function Max(a: int, b: int): int {
    if a > b then a else b
  }

  function Min(a: int, b: int): int {
    if a < b then a else b
  }

  /** Addition of 32-bit numbers. */
  function Add32(a: nat, b: nat): nat {
    (a + b) % TWO_32
  }

  // ---- sets of events ----

  /** The events of some kinds created in `[a, b]`. */
  ghost function IdsIn(evs: Events, ks: Kinds, a: int, b: int): set<Id> {
    set id | id in evs && KindOk(ks, evs[id].kind) && a <= evs[id].createdAt <= b
  }

  datatype Unit = Days | Hours

  function NumberOf(u: Unit, ts: nat): nat {
    if u.Days? then DayOf(ts) else HourOf(ts)
  }

  /** The events of some kinds whose day or hour number, truncated to 32 bits, is in `[x, y]`. */
  ghost function NumbersIn(evs: Events, ks: Kinds, u: Unit, x: int, y: int): set<Id> {
    set id | id in evs && KindOk(ks, evs[id].kind) && x <= NumberOf(u, evs[id].createdAt) <= y
  }

  /** The counters under one prefix: all kinds, or one. */
  function BucketAt(u: Unit, kind: Option<Kind>, n: nat): Bucket {
    if u.Days? then (if kind.Some? then KindDay(kind.value, n) else Day(n))
    else (if kind.Some? then KindHour(kind.value, n) else Hour(n))
  }

  function Number(b: Bucket): nat
    requires !b.AuthorKind?
  {
    match b
    case KindDay(_, n) => n
    case Day(n) => n
    case KindHour(_, n) => n
    case Hour(n) => n
  }

  function One(kind: Option<Kind>): Kinds {
    if kind.Some? then Some({kind.value}) else None
  }

  /** The counters that exist under a prefix, with numbers in `[x, y]`. */
  function Present(db: Db, u: Unit, kind: Option<Kind>, x: int, y: int): set<nat> {
    set k | k in db && k.Counter? && !k.bucket.AuthorKind?
            && k.bucket == BucketAt(u, kind, Number(k.bucket)) && x <= Number(k.bucket) <= y
      :: Number(k.bucket)
  }

  ghost function NumbersAmong(evs: Events, ks: Kinds, u: Unit, ns: set<nat>): set<Id> {
    set id | id in evs && KindOk(ks, evs[id].kind) && NumberOf(u, evs[id].createdAt) in ns
  }

  lemma {:induction false} BucketHolds(evs: Events, u: Unit, kind: Option<Kind>, n: nat)
    ensures InBucket(evs, BucketAt(u, kind, n)) == NumbersAmong(evs, One(kind), u, {n})
  {
    hide DayOf, HourOf;
  }

  lemma {:induction false} NumbersAmongMore(evs: Events, ks: Kinds, u: Unit, ns: set<nat>, n: nat)
    requires n !in ns
    ensures |NumbersAmong(evs, ks, u, ns + {n})| == |NumbersAmong(evs, ks, u, ns)| + |NumbersAmong(evs, ks, u, {n})|
  {
    hide NumberOf;
    var a, b := NumbersAmong(evs, ks, u, ns), NumbersAmong(evs, ks, u, {n});
    assert NumbersAmong(evs, ks, u, ns + {n}) == a + b;
    assert a !! b;
  }

  /** Absent counters count nothing. */
  lemma {:induction false} PresentSuffice(rule: TagRule, db: Db, evs: Events, u: Unit, kind: Option<Kind>, x: int,
                                          y: int)
    requires forall b :: CounterOf(db, b) == Count(evs, b)
    ensures NumbersAmong(evs, One(kind), u, Present(db, u, kind, x, y)) == NumbersIn(evs, One(kind), u, x, y)
  {
    hide NumberOf, CounterOf, Count;
    forall id | id in NumbersIn(evs, One(kind), u, x, y)
      ensures NumberOf(u, evs[id].createdAt) in Present(db, u, kind, x, y)
    {
      var n := NumberOf(u, evs[id].createdAt);
      BucketHolds(evs, u, kind, n);
      CountedIsPresent(db, evs, BucketAt(u, kind, n), id);
      assert Number(BucketAt(u, kind, n)) == n;
      assert Counter(BucketAt(u, kind, n)) in db;
    }
  }

  lemma {:induction false} CountedIsPresent(db: Db, evs: Events, b: Bucket, id: Id)
    requires CounterOf(db, b) == Count(evs, b) && id in InBucket(evs, b)
    ensures Counter(b) in db
  {
    hide Buckets;
    assert Count(evs, b) > 0;
  }

  // ---- disjoint ranges ----

  lemma {:induction false} RangeSplit(evs: Events, ks: Kinds, a: int, b: int, c: int)
    requires a - 1 <= b <= c
    ensures |IdsIn(evs, ks, a, c)| == |IdsIn(evs, ks, a, b)| + |IdsIn(evs, ks, b + 1, c)|
  {
    assert IdsIn(evs, ks, a, c) == IdsIn(evs, ks, a, b) + IdsIn(evs, ks, b + 1, c);
    assert IdsIn(evs, ks, a, b) !! IdsIn(evs, ks, b + 1, c);
  }

  lemma {:induction false} KindSplit(evs: Events, ks: set<Kind>, kind: Kind, a: int, b: int)
    requires kind !in ks
    ensures |IdsIn(evs, Some(ks + {kind}), a, b)| == |IdsIn(evs, Some(ks), a, b)| + |IdsIn(evs, Some({kind}), a, b)|
  {
    assert IdsIn(evs, Some(ks + {kind}), a, b) == IdsIn(evs, Some(ks), a, b) + IdsIn(evs, Some({kind}), a, b);
    assert IdsIn(evs, Some(ks), a, b) !! IdsIn(evs, Some({kind}), a, b);
  }

  lemma {:induction false} NumberKindSplit(evs: Events, ks: set<Kind>, kind: Kind, u: Unit, x: int, y: int)
    requires kind !in ks
    ensures |NumbersIn(evs, Some(ks + {kind}), u, x, y)|
         == |NumbersIn(evs, Some(ks), u, x, y)| + |NumbersIn(evs, Some({kind}), u, x, y)|
  {
    hide NumberOf;
    var a, b := NumbersIn(evs, Some(ks), u, x, y), NumbersIn(evs, Some({kind}), u, x, y);
    assert NumbersIn(evs, Some(ks + {kind}), u, x, y) == a + b;
    assert a !! b;
  }

  lemma {:induction false} NoKinds(evs: Events, u: Unit, x: int, y: int)
    ensures NumbersIn(evs, Some({}), u, x, y) == {} && IdsIn(evs, Some({}), x, y) == {}
  {
  }

  // ---- what the code adds up ----

  /** One edge day. With kinds, the later edge hour finds every kind already marked as counted. */
  ghost function EdgeDayValue(evs: Events, ks: Kinds, day: nat, since: nat, until: nat): int {
    var lo := Max(since, day * SECONDS_PER_DAY);
    var hi := Min(until, day * SECONDS_PER_DAY + SECONDS_PER_DAY - 1);
    var h0, h1 := HourOf(lo), HourOf(hi);
    (if h1 > Add32(h0, 1) then |NumbersIn(evs, ks, Hours, Add32(h0, 1), h1 - 1)| else 0)
    + EdgeHourValue(evs, ks, h0, lo, hi)
    + (if h1 != h0 && ks.None? then EdgeHourValue(evs, ks, h1, lo, hi) else 0)
  }

  ghost function EdgeHourValue(evs: Events, ks: Kinds, h: nat, lo: int, hi: int): int {
    |IdsIn(evs, ks, Max(h * SECONDS_PER_HOUR, lo), Min(h * SECONDS_PER_HOUR + SECONDS_PER_HOUR - 1, hi))|
  }

  ghost function RollupValue(evs: Events, ks: Kinds, since: nat, until: nat): int {
    var d0, d1 := DayOf(since), DayOf(until);
    (if d1 > Add32(d0, 1) then |NumbersIn(evs, ks, Days, Add32(d0, 1), d1 - 1)| else 0)
    + EdgeDayValue(evs, ks, d0, since, until)
    + (if d1 != d0 then EdgeDayValue(evs, ks, d1, since, until) else 0)
  }

  /** The number of index keys the edge hours scan may not exceed a budget. */
  class FilterRun {
    const store: PebbleStore
    const budget: nat
    var scanned: nat

    constructor (store: PebbleStore, budget: nat)
      ensures this.store == store && this.budget == budget && scanned == 0
    {
      this.store := store;
      this.budget := budget;
      scanned := 0;
    }

    /** Counts the index keys of a prefix with a creation time in `[since, until]`. */
    method ScanCountKeys(prefix: Prefix, since: int, until: int) returns (n: int, err: bool)
      requires scanned <= budget
      modifies this`scanned
      ensures scanned <= budget
      ensures var total := |set p | p in Positions(store.db, prefix) && since <= p.ts <= until|;
              && (err <==> old(scanned) + total > budget)
              && (!err ==> n == total && scanned == old(scanned) + total)
    {
      var keys := set p | p in Positions(store.db, prefix) && since <= p.ts <= until;
      var it := Timeline(keys);
      n := 0;
      while n < |it|
        invariant 0 <= n <= |it|
        invariant scanned == old(scanned) + n <= budget
        modifies this`scanned
      {
        if scanned >= budget {
          return 0, true;
        }
        scanned := scanned + 1;
        n := n + 1;
      }
      err := false;
    }

    /** Adds up the counters under one prefix with numbers in `[x, y]`. */
    method SumCounters(u: Unit, kind: Option<Kind>, x: int, y: int) returns (sum: int)
      requires store.CountersExact()
      ensures sum == |NumbersIn(store.events, One(kind), u, x, y)|
    {
      hide Count, CounterOf, NumberOf;
      var todo := Present(store.db, u, kind, x, y);
      ghost var seen: set<nat> := {};
      sum := 0;
      assert NumbersAmong(store.events, One(kind), u, {}) == {};
      while todo != {}
        invariant seen + todo == Present(store.db, u, kind, x, y) && seen !! todo
        invariant sum == |NumbersAmong(store.events, One(kind), u, seen)|
        decreases todo
      {
        var n :| n in todo;
        BucketHolds(store.events, u, kind, n);
        CountIs(store.events, BucketAt(u, kind, n));
        NumbersAmongMore(store.events, One(kind), u, seen, n);
        assert CounterOf(store.db, BucketAt(u, kind, n)) == Count(store.events, BucketAt(u, kind, n));
        sum := sum + CounterOf(store.db, BucketAt(u, kind, n));
        todo, seen := todo - {n}, seen + {n};
      }
      PresentSuffice(store.rule, store.db, store.events, u, kind, x, y);
    }

    /** The same over every kind of the filter, each once. */
    method SumKinds(u: Unit, kinds: seq<Kind>, x: int, y: int) returns (sum: int)
      requires store.CountersExact()
      ensures sum == |NumbersIn(store.events, KindsOf(kinds), u, x, y)|
    {
      hide NumbersIn;
      if kinds == [] {
        sum := SumCounters(u, None, x, y);
        return;
      }
      sum := 0;
      var seenK: set<Kind> := {};
      NoKinds(store.events, u, x, y);
      var i := 0;
      while i < |kinds|
        invariant 0 <= i <= |kinds| && seenK == AsSet(kinds[..i])
        invariant sum == |NumbersIn(store.events, Some(seenK), u, x, y)|
      {
        assert kinds[..i + 1] == kinds[..i] + [kinds[i]];
        if kinds[i] !in seenK {
          NumberKindSplit(store.events, seenK, kinds[i], u, x, y);
          seenK := seenK + {kinds[i]};
          var n := SumCounters(u, Some(kinds[i]), x, y);
          sum := sum + n;
        }
        assert seenK == AsSet(kinds[..i + 1]);
        i := i + 1;
      }
      assert kinds[..|kinds|] == kinds;
    }

    /** One edge hour, skipping the kinds already counted for this day. */
    method EdgeHour(h: nat, lo: int, hi: int, kinds: seq<Kind>, edgeKinds: set<Kind>)
      returns (sum: int, edgeKinds': set<Kind>, err: bool)
      requires store.Readable() && scanned <= budget
      modifies this`scanned
      ensures scanned <= budget
      ensures !err ==> edgeKinds' == edgeKinds + AsSet(kinds)
      ensures !err ==> sum ==
                       EdgeHourValue(store.events,
                                     if kinds == [] then None else Some(AsSet(kinds) - edgeKinds), h, lo, hi)
    {
      hide IdsIn, Positions, AsSet;
      var hlo := Max(h * SECONDS_PER_HOUR, lo);
      var hhi := Min(h * SECONDS_PER_HOUR + SECONDS_PER_HOUR - 1, hi);
      edgeKinds' := edgeKinds;
      AsSetGrows(kinds);
      if kinds == [] {
        sum, err := ScanCountKeys(ByTime, hlo, hhi);
        ScanIs(store.rule, store.db, store.events, None, hlo, hhi);
        return;
      }
      sum := 0;
      NoKinds(store.events, Hours, hlo, hhi);
      var i := 0;
      assert AsSet(kinds[..0]) - edgeKinds == {};
      while i < |kinds|
        invariant 0 <= i <= |kinds| && scanned <= budget
        invariant edgeKinds' == edgeKinds + AsSet(kinds[..i])
        invariant sum == |IdsIn(store.events, Some(AsSet(kinds[..i]) - edgeKinds), hlo, hhi)|
        modifies this`scanned
      {
        var kind := kinds[i];
        assert AsSet(kinds[..i + 1]) == AsSet(kinds[..i]) + {kind};
        if kind in edgeKinds' {
          assert AsSet(kinds[..i + 1]) - edgeKinds == AsSet(kinds[..i]) - edgeKinds;
        } else {
          assert AsSet(kinds[..i + 1]) - edgeKinds == (AsSet(kinds[..i]) - edgeKinds) + {kind};
          KindSplit(store.events, AsSet(kinds[..i]) - edgeKinds, kind, hlo, hhi);
          edgeKinds' := edgeKinds' + {kind};
          var n, failed := ScanCountKeys(ByKind(kind), hlo, hhi);
          ScanIs(store.rule, store.db, store.events, Some(kind), hlo, hhi);
          if failed {
            return 0, edgeKinds', true;
          }
          sum := sum + n;
        }
        i := i + 1;
      }
      assert kinds[..|kinds|] == kinds;
      err := false;
    }

    method EdgeDay(day: nat, since: nat, until: nat, kinds: seq<Kind>) returns (sum: int, err: bool)
      requires store.Readable() && store.CountersExact() && scanned <= budget
      modifies this`scanned
      ensures scanned <= budget
      ensures !err ==> sum == EdgeDayValue(store.events, KindsOf(kinds), day, since, until)
    {
      hide IdsIn, NumbersIn, Positions, HourOf, Count, Add32;
      sum := 0;
      var lo := Max(since, day * SECONDS_PER_DAY);
      var hi := Min(until, day * SECONDS_PER_DAY + SECONDS_PER_DAY - 1);
      var h0, h1 := HourOf(lo), HourOf(hi);
      if h1 > Add32(h0, 1) {
        sum := SumKinds(Hours, kinds, Add32(h0, 1), h1 - 1);
      }
      var n0, edgeKinds, err0 := EdgeHour(h0, lo, hi, kinds, {});
      if err0 {
        return 0, true;
      }
      assert AsSet(kinds) - {} == AsSet(kinds);
      sum := sum + n0;
      if h1 != h0 {
        var n1, _, err1 := EdgeHour(h1, lo, hi, kinds, edgeKinds);
        if err1 {
          return 0, true;
        }
        assert AsSet(kinds) - edgeKinds == {} by {
          assert edgeKinds == AsSet(kinds);
        }
        NoKinds(store.events, Hours, Max(h1 * SECONDS_PER_HOUR, lo),
                Min(h1 * SECONDS_PER_HOUR + SECONDS_PER_HOUR - 1, hi));
        sum := sum + n1;
      }
      err := false;
    }

    /** `ok` false leaves the count to a plain scan. */
    method CountRollup(since: nat, until: nat, kinds: seq<Kind>) returns (sum: int, ok: bool, err: bool)
      requires store.Readable() && store.CountersExact() && scanned <= budget
      modifies this`scanned
      ensures scanned <= budget
      ensures ok && !err ==> sum == if since > until then 0 else RollupValue(store.events, KindsOf(kinds), since, until)
      ensures !ok <==> since <= until && DayOf(since) == DayOf(until) && HourOf(until) < Add32(HourOf(since), 2)
    {
      hide IdsIn, NumbersIn, Positions, HourOf, DayOf, Count, Add32, EdgeDayValue;
      if since > until {
        return 0, true, false;
      }
      var d0, d1 := DayOf(since), DayOf(until);
      if d0 == d1 && HourOf(until) < Add32(HourOf(since), 2) {
        return 0, false, false;
      }
      sum := 0;
      if d1 > Add32(d0, 1) {
        sum := SumKinds(Days, kinds, Add32(d0, 1), d1 - 1);
      }
      var n0, err0 := EdgeDay(d0, since, until, kinds);
      if err0 {
        return 0, true, true;
      }
      sum := sum + n0;
      if d1 != d0 {
        var n1, err1 := EdgeDay(d1, since, until, kinds);
        if err1 {
          return 0, true, true;
        }
        sum := sum + n1;
      }
      return sum, true, false;
    }
  }

  lemma {:induction false} CountIs(evs: Events, b: Bucket)
    ensures Count(evs, b) == |InBucket(evs, b)|
  {
  }

  lemma {:induction false} AsSetGrows(kinds: seq<Kind>)
    ensures forall i :: 0 <= i < |kinds| ==> AsSet(kinds[..i + 1]) == AsSet(kinds[..i]) + {kinds[i]}
    ensures AsSet(kinds[..0]) == {}
  {
    forall i | 0 <= i < |kinds| ensures AsSet(kinds[..i + 1]) == AsSet(kinds[..i]) + {kinds[i]} {
      assert kinds[..i + 1] == kinds[..i] + [kinds[i]];
    }
  }

  /** Scanning a time or kind index in a range counts the events in it. */
  lemma {:induction false} ScanIs(rule: TagRule, db: Db, evs: Events, kind: Option<Kind>, a: int, b: int)
    requires Keyed(evs) && Legible(rule, db, evs)
    ensures var prefix := if kind.Some? then ByKind(kind.value) else ByTime;
            |set p | p in Positions(db, prefix) && a <= p.ts <= b| == |IdsIn(evs, One(kind), a, b)|
  {
    hide Legible, Positions;
    var prefix := if kind.Some? then ByKind(kind.value) else ByTime;
    PositionsAre(rule, db, evs, prefix);
    forall id | id in evs ensures prefix in Prefixes(rule, evs[id]) <==> KindOk(One(kind), evs[id].kind) {
    }
    hide Prefixes;
    var ids := IdsIn(evs, One(kind), a, b);
    PositionsSize(evs, ids);
    assert (set p | p in Positions(db, prefix) && a <= p.ts <= b) == PositionsOf(evs, ids);
  }
}
