/** The store's two questions (eventstore/pebbledb2/query.go, `QueryEvents` and `CountEvents`). */
module StoreService {
  import opened NostrEvents
  import opened StoreKeys
  import opened StoreTables
  import opened StoreSpec
  import opened StoreCommit
  import opened StoreCounts
  import opened StoreRollup
  import opened StoreRollupLaws
  import opened StoreSources
  import opened StoreCursor
  import opened StoreQuery
  import opened StoreMeaning
  import opened StoreSearch

  /** What the key format and the text search ask of a question. */
  ghost predicate Answerable(fold: Fold, f: Filter, pattern: Pattern) {
    && f.since <= MAX_INT64 && f.until <= MAX_INT64 && Searchable(fold, pattern)
    && (Lax(f).ids.None? ==> Drivable(f))
  }

  /** A text search over the global timeline, with a pattern long enough for trigrams. */
  predicate BySignature(f: Filter, pattern: Pattern) {
    pattern.Some? && |pattern.value| >= 3 && TimeOnly(f)
  }

  /** The work a query may need: one key per iterator and stored event. */
  ghost predicate Affordable(evs: Events, f: Filter, budget: nat) {
    |evs| <= budget && (forall n: nat :: Fans(f, n) ==> n * |evs| <= budget)
  }

  /** Where no tag drives and candidates are checked, what is found is what matches. */
  lemma {:induction false} FoundByCheck(rule: TagRule, evs: Events, f: Filter, pattern: Pattern)
    requires Lax(f).ids.Some? || (TimeOnly(f) && pattern.Some?)
    ensures Found(rule, evs, f, pattern) == Hits(evs, f, pattern)
  {
    hide Hits;
    assert Indexed(rule, Lax(f));
  }

  /**
   Whatever the plan and whatever signatures there are, a query within budget answers with what it
   finds; that is the brute-force answer exactly where the filter is faithful.
   */
  method QueryEvents(store: PebbleStore, fold: Fold, f: Filter, pattern: Pattern, limit: nat, budget: nat)
    returns (result: seq<Stored>, err: bool)
    requires store.Readable() && Answerable(fold, f, pattern)
    ensures !err ==> result == FoundAnswer(store.rule, store.events, f, pattern, limit)
    ensures !err && Faithful(store.rule, store.events, f, pattern) ==> result == Answer(store.events, f, pattern, limit)
    ensures !err && AlwaysFaithful(store.rule, f, pattern) ==> result == Answer(store.events, f, pattern, limit)
    ensures !err && Ordinary(store.rule, f) ==> IsAnswer(store.events, f, pattern, limit, result)
    ensures Affordable(store.events, f, budget) ==> !err
  {
    hide Legible, Hits, Keyed, TypedCounters, Fans, Drivable, Found, Leading, Faithful, AlwaysFaithful, Lax,
      Ordinary, IsAnswer;
    FoundStored(store.rule, store.events, f, pattern);
    HitsStored(store.events, f, pattern, limit);
    FoundExactIff(store.rule, store.events, f, pattern);
    FoundExactAlways(store.rule, f, pattern);
    if Ordinary(store.rule, f) {
      OrdinaryFaithful(store.rule, store.events, f, pattern);
    }
    AnswerIs(store.events, f, pattern, limit);
    if BySignature(f, pattern) {
      FoundByCheck(store.rule, store.events, f, pattern);
      var total;
      result, total, err := SearchRun(store, fold, f, pattern.value, limit, budget, true);
    } else if Lax(f).ids.Some? {
      FoundByCheck(store.rule, store.events, f, pattern);
      LaxIds(f);
      result := RunIDs(store, fold, f, pattern, limit);
      err := false;
    } else {
      result, err := QueryScan(store, fold, f, pattern, limit, budget);
    }
  }

  lemma {:induction false} LaxIds(f: Filter)
    ensures Lax(f).ids.Some? ==> f.ids.Some? && f.ids.value != []
  {
  }

  /** Counts by kind and time take the rollup path, counts of authors and kinds the point reads. */
  predicate ByRollup(f: Filter, pattern: Pattern) {
    var g := Lax(f);
    pattern.None? && g.ids.None? && g.authors.None? && g.tags == map[]
  }

  predicate ByCounters(f: Filter, pattern: Pattern) {
    var g := Lax(f);
    pattern.None? && g.ids.None? && g.authors.Some? && g.kinds.Some? && g.tags == map[] && f.since <= 0 && f.until <= 0
  }

  /** Where neither the ids nor a text nor a second tag is asked for, the plan's reading is what is found. */
  lemma {:induction false} FoundUnchecked(rule: TagRule, evs: Events, f: Filter)
    requires Lax(f).ids.None? && Lax(f).tags == map[]
    ensures Found(rule, evs, f, None) == Selected(evs, Lax(f))
  {
    hide Matches;
    assert Indexed(rule, Lax(f));
    assert forall id :: id in evs ==> (Wanted(Lax(f), None, evs[id]) <==> Matches(Lax(f), evs[id]));
  }

  /** Less than two full hours of one day are scanned rather than summed. */
  predicate Narrow(since: nat, until: nat) {
    since <= until && DayOf(since) == DayOf(until) && HourOf(until) < Add32(HourOf(since), 2)
  }

  lemma {:induction false} AnswerSize(evs: Events, f: Filter, pattern: Pattern)
    requires Keyed(evs)
    ensures |Answer(evs, f, pattern, 0)| == |Hits(evs, f, pattern)|
  {
    hide Hits;
    HitsStored(evs, f, pattern, 0);
  }

  /** The number of events found, except where the rollup path departs from it. */
  method CountEvents(store: PebbleStore, fold: Fold, f: Filter, pattern: Pattern, budget: nat)
    returns (n: int, err: bool)
    requires store.Readable() && store.CountersExact() && Answerable(fold, f, pattern)
    ensures var found := |Found(store.rule, store.events, f, pattern)|;
            !err ==> n == if KindsAndTimes(f, pattern) && !Narrow(SinceOf(f), UntilOf(f)) && SinceOf(f) <= UntilOf(f)
                          then RollupValue(store.events, KindsOf(KindList(f)), SinceOf(f), UntilOf(f)) else found
    ensures !err && !KindsAndTimes(f, pattern) ==> n == |Found(store.rule, store.events, f, pattern)|
    ensures !err && InNumbers(store.events, f) ==>
              n == |Found(store.rule, store.events, f, pattern)| + CountDrift(store.events, f, pattern)
    ensures !err && Ordinary(store.rule, f) && InNumbers(store.events, f) ==>
              n == CountOf(store.events, f, pattern) + CountDrift(store.events, f, pattern)
    ensures !KindsAndTimes(f, pattern) && Affordable(store.events, f, budget) ==> !err
  {
    hide Legible, Hits, Keyed, TypedCounters, Fans, Drivable, Answer, RollupValue, Selected, Count, DayOf, HourOf,
      Add32, Found, Lax, CountDrift, CountOf, Ordinary, KindsAndTimes, InNumbers;
    KindsAndTimesIff(f, pattern);
    CountDriftIs(store.rule, store.events, f, pattern);
    OrdinaryCount(store.rule, store.events, f, pattern);
    if BySignature(f, pattern) {
      FoundByCheck(store.rule, store.events, f, pattern);
      var found;
      found, n, err := SearchRun(store, fold, f, pattern.value, 0, budget, false);
    } else if Lax(f).ids.Some? {
      FoundByCheck(store.rule, store.events, f, pattern);
      LaxIds(f);
      var found := RunIDs(store, fold, f, pattern, 0);
      AnswerSize(store.events, f, pattern);
      return |found|, false;
    } else if ByCounters(f, pattern) {
      FoundUnchecked(store.rule, store.events, f);
      n := CountAuthorKinds(store, f);
      err := false;
    } else {
      if ByRollup(f, pattern) {
        FoundUnchecked(store.rule, store.events, f);
        var run := new FilterRun(store, budget);
        var ok;
        n, ok, err := run.CountRollup(SinceOf(f), UntilOf(f), KindList(f));
        if ok || err {
          NothingBetweenBounds(store.events, f);
          return;
        }
      }
      n, err := CountScan(store, fold, f, pattern, budget);
    }
  }

  /** All events and both bounds lie below 3600 * 2^32, the first time with no 32-bit hour number. */
  ghost predicate InNumbers(evs: Events, f: Filter) {
    && f.since < 15461882265600 && f.until < 15461882265600
    && forall id :: id in evs ==> evs[id].createdAt < 15461882265600
  }

  lemma {:induction false} KindsAndTimesIff(f: Filter, pattern: Pattern)
    ensures KindsAndTimes(f, pattern) <==> ByRollup(f, pattern)
  {
    var g := Lax(f);
    assert g.tags == map[] ==> forall name :: name in f.tags ==> f.tags[name] == [] by {
      if name :| name in f.tags && f.tags[name] != [] {
        assert name in g.tags;
      }
    }
    if forall name :: name in f.tags ==> f.tags[name] == [] {
      assert forall name :: name !in g.tags;
    }
  }

  lemma {:induction false} OrdinaryCount(rule: TagRule, evs: Events, f: Filter, pattern: Pattern)
    requires Keyed(evs)
    ensures Ordinary(rule, f) ==> |Found(rule, evs, f, pattern)| == CountOf(evs, f, pattern)
  {
    hide Found, Hits, CountOf, Ordinary, Faithful;
    if Ordinary(rule, f) {
      OrdinaryFaithful(rule, evs, f, pattern);
      FoundExactIff(rule, evs, f, pattern);
      HitsCounted(evs, f, pattern);
    }
  }

  lemma {:induction false} NarrowIff(since: nat, until: nat)
    requires since < 15461882265600
    ensures until < 15461882265600 ==> (Narrow(since, until) <==> InOneGo(since, until))
    ensures !Narrow(since, MAX_INT64)
  {
    HourOfSmall(since);
    LastDayNumber();
    if until < 15461882265600 {
      HourOfSmall(until);
    }
  }

  /** The path a COUNT takes departs from the number of events found by the stated number. */
  lemma {:induction false} CountDriftIs(rule: TagRule, evs: Events, f: Filter, pattern: Pattern)
    requires Keyed(evs)
    ensures var found := |Found(rule, evs, f, pattern)|;
            InNumbers(evs, f) ==>
              (if ByRollup(f, pattern) && !Narrow(SinceOf(f), UntilOf(f)) && SinceOf(f) <= UntilOf(f)
               then RollupValue(evs, KindsOf(KindList(f)), SinceOf(f), UntilOf(f)) else found) ==
              found + CountDrift(evs, f, pattern)
  {
    hide Found, RollupValue, Lax, Narrow, KindsAndTimes, BoundedDrift, OpenDrift, Selected, IdsIn;
    KindsAndTimesIff(f, pattern);
    if InNumbers(evs, f) && ByRollup(f, pattern) {
      FoundUnchecked(rule, evs, f);
      RangeIsSelected(evs, f);
      NarrowIff(SinceOf(f), UntilOf(f));
      if f.until > 0 {
        NoBoundedDrift(evs, f, SinceOf(f), f.until);
        if SinceOf(f) <= f.until && !InOneGo(SinceOf(f), f.until) {
          BoundedDriftIs(evs, f, SinceOf(f), f.until);
        }
      } else {
        OpenDriftIs(evs, f, SinceOf(f));
      }
    }
  }

  lemma {:induction false} NoBoundedDrift(evs: Events, f: Filter, since: nat, until: nat)
    ensures since > until || InOneGo(since, until) ==> BoundedDrift(evs, f, since, until) == 0
  {
  }

  lemma {:induction false} NothingBetweenBounds(evs: Events, f: Filter)
    requires Keyed(evs)
    ensures SinceOf(f) > UntilOf(f) ==> Selected(evs, Lax(f)) == {}
  {
    if SinceOf(f) > UntilOf(f) {
      forall id | id in evs ensures !Matches(Lax(f), evs[id]) {
        InTime(Lax(f), evs[id]);
      }
    }
  }
}
