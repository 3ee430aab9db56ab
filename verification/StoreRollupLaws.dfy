/** What the rollup COUNT adds up to, and exactly when that is the number of matching events. */
module StoreRollupLaws {
  import opened ByteStrings
  import opened NostrEvents
  import opened StoreKeys
  import opened StoreTables
  import opened StoreSpec
  import opened StoreCounts
  import opened StoreRollup

  /** The first creation time whose hour number no longer fits in 32 bits. */
  const LIMIT := SECONDS_PER_HOUR * TWO_32
  /** The last day that starts below the limit. */
  const LAST_DAY := 178956970
  /** Where the truncated last hours of an unbounded count fall. */
  const ALIAS_FROM := SECONDS_PER_HOUR * 1011703393
  const ALIAS_TO := SECONDS_PER_HOUR * 1011703415 - 1

  ghost predicate Within(evs: Events) {
    forall id :: id in evs ==> evs[id].createdAt < LIMIT
  }

  function Span(u: Unit): nat {
    if u.Days? then SECONDS_PER_DAY else SECONDS_PER_HOUR
  }

  lemma {:induction false} NumbersAreRange(evs: Events, ks: Kinds, u: Unit, x: nat, y: int)
    requires Within(evs)
    ensures NumbersIn(evs, ks, u, x, y) == IdsIn(evs, ks, x * Span(u), y * Span(u) + Span(u) - 1)
  {
    hide KindOk;
    forall id | id in evs
      ensures x <= NumberOf(u, evs[id].createdAt) <= y <==>
              x * Span(u) <= evs[id].createdAt <= y * Span(u) + Span(u) - 1
    {
      var ts: nat := evs[id].createdAt;
      if u.Days? {
        QuotientBounds(ts, SECONDS_PER_DAY, x, y);
      } else {
        QuotientBounds(ts, SECONDS_PER_HOUR, x, y);
      }
    }
  }

  lemma {:induction false} QuotientBounds(ts: nat, span: nat, x: nat, y: int)
    requires span == SECONDS_PER_DAY || span == SECONDS_PER_HOUR
    requires ts < LIMIT
    ensures ts / span % TWO_32 == ts / span
    ensures x <= ts / span <= y <==> x * span <= ts <= y * span + span - 1
  {
  }

  /** The events a kind-filtered edge day leaves out: those of its later edge hour. */
  ghost function Missed(evs: Events, ks: Kinds, lo: nat, hi: nat): set<Id> {
    if ks.Some? && lo / SECONDS_PER_HOUR != hi / SECONDS_PER_HOUR
    then IdsIn(evs, ks, hi / SECONDS_PER_HOUR * SECONDS_PER_HOUR, hi)
    else {}
  }

  /** Edge hour, full hours, edge hour: a cover of the range without overlap. */
  lemma {:induction false} HoursCover(evs: Events, ks: Kinds, lo: nat, hi: nat, h0: nat, h1: nat)
    requires Within(evs) && lo <= hi && h0 == lo / SECONDS_PER_HOUR && h1 == hi / SECONDS_PER_HOUR
    ensures |IdsIn(evs, ks, lo, hi)| ==
            EdgeHourValue(evs, ks, h0, lo, hi)
            + (if h1 > h0 + 1 then |NumbersIn(evs, ks, Hours, h0 + 1, h1 - 1)| else 0)
            + (if h1 != h0 then EdgeHourValue(evs, ks, h1, lo, hi) else 0)
    ensures h1 != h0 ==> EdgeHourValue(evs, ks, h1, lo, hi) == |IdsIn(evs, ks, h1 * SECONDS_PER_HOUR, hi)|
  {
    hide IdsIn, NumbersIn;
    assert h0 * SECONDS_PER_HOUR <= lo < (h0 + 1) * SECONDS_PER_HOUR;
    assert h1 * SECONDS_PER_HOUR <= hi < (h1 + 1) * SECONDS_PER_HOUR;
    if h1 != h0 {
      assert (h0 + 1) * SECONDS_PER_HOUR <= h1 * SECONDS_PER_HOUR;
      RangeSplit(evs, ks, lo, h1 * SECONDS_PER_HOUR - 1, hi);
      RangeSplit(evs, ks, lo, (h0 + 1) * SECONDS_PER_HOUR - 1, h1 * SECONDS_PER_HOUR - 1);
      NumbersAreRange(evs, ks, Hours, h0 + 1, h1 - 1);
      if h1 == h0 + 1 {
        EmptyRange(evs, ks, (h0 + 1) * SECONDS_PER_HOUR, h1 * SECONDS_PER_HOUR - 1);
      }
    }
  }

  lemma {:induction false} EmptyRange(evs: Events, ks: Kinds, a: int, b: int)
    requires b < a
    ensures IdsIn(evs, ks, a, b) == {}
  {
  }

  lemma {:induction false} HourOfSmall(ts: nat)
    requires ts < LIMIT
    ensures HourOf(ts) == ts / SECONDS_PER_HOUR && DayOf(ts) == ts / SECONDS_PER_DAY
    ensures ts < LIMIT - SECONDS_PER_HOUR ==> Add32(HourOf(ts), 1) == HourOf(ts) + 1
    ensures ts >= LIMIT - SECONDS_PER_HOUR ==> Add32(HourOf(ts), 1) == 0 && HourOf(ts) == TWO_32 - 1
    ensures Add32(DayOf(ts), 1) == DayOf(ts) + 1
  {
  }

  lemma {:induction false} EdgeDayIs(evs: Events, ks: Kinds, day: nat, since: nat, until: nat)
    requires Within(evs)
    requires var lo, hi := Max(since, day * SECONDS_PER_DAY), Min(until, day * SECONDS_PER_DAY + SECONDS_PER_DAY - 1);
             lo <= hi < LIMIT && lo < LIMIT - SECONDS_PER_HOUR
    ensures var lo, hi := Max(since, day * SECONDS_PER_DAY), Min(until, day * SECONDS_PER_DAY + SECONDS_PER_DAY - 1);
            EdgeDayValue(evs, ks, day, since, until) == |IdsIn(evs, ks, lo, hi)| - |Missed(evs, ks, lo, hi)|
  {
    var lo, hi := Max(since, day * SECONDS_PER_DAY), Min(until, day * SECONDS_PER_DAY + SECONDS_PER_DAY - 1);
    HourOfSmall(lo);
    HourOfSmall(hi);
    HoursCover(evs, ks, lo, hi, HourOf(lo), HourOf(hi));
    hide HourOf, IdsIn, NumbersIn, Add32, EdgeHourValue;
  }

  /**
   With bounds below the limit the rollup adds up every matching event once, except that a kind
   filter loses the later edge hour of each edge day.
   */
  lemma {:induction false} RollupBounded(evs: Events, ks: Kinds, since: nat, until: nat)
    requires Within(evs) && since <= until < LIMIT && since < LIMIT - SECONDS_PER_HOUR
    ensures var d0, d1 := since / SECONDS_PER_DAY, until / SECONDS_PER_DAY;
            RollupValue(evs, ks, since, until) == |IdsIn(evs, ks, since, until)|
            - |Missed(evs, ks, since, Min(until, d0 * SECONDS_PER_DAY + SECONDS_PER_DAY - 1))|
            - (if d1 != d0 then |Missed(evs, ks, d1 * SECONDS_PER_DAY, until)| else 0)
  {
    var d0, d1 := since / SECONDS_PER_DAY, until / SECONDS_PER_DAY;
    HourOfSmall(since);
    HourOfSmall(until);
    InDay(since, d0);
    InDay(until, d1);
    hide DayOf, IdsIn, NumbersIn, Add32, EdgeDayValue, Missed;
    EdgeDayIs(evs, ks, d0, since, until);
    if d1 != d0 {
      TwoEdgeDays(evs, ks, since, until, d0, d1);
    }
  }

  lemma {:induction false} TwoEdgeDays(evs: Events, ks: Kinds, since: nat, until: nat, d0: nat, d1: nat)
    requires Within(evs) && until < LIMIT && d0 < d1
    requires d0 * SECONDS_PER_DAY <= since <= d0 * SECONDS_PER_DAY + SECONDS_PER_DAY - 1
    requires d1 * SECONDS_PER_DAY <= until <= d1 * SECONDS_PER_DAY + SECONDS_PER_DAY - 1
    ensures var end0 := d0 * SECONDS_PER_DAY + SECONDS_PER_DAY - 1;
            (if d1 > d0 + 1 then |NumbersIn(evs, ks, Days, d0 + 1, d1 - 1)| else 0)
            + EdgeDayValue(evs, ks, d0, since, until) + EdgeDayValue(evs, ks, d1, since, until) ==
            |IdsIn(evs, ks, since, until)| - |Missed(evs, ks, since, end0)|
            - |Missed(evs, ks, d1 * SECONDS_PER_DAY, until)|
  {
    hide IdsIn, NumbersIn, EdgeDayValue, Missed, Within;
    assert Max(since, d0 * SECONDS_PER_DAY) == since && Max(since, d1 * SECONDS_PER_DAY) == d1 * SECONDS_PER_DAY;
    assert Min(until, d0 * SECONDS_PER_DAY + SECONDS_PER_DAY - 1) == d0 * SECONDS_PER_DAY + SECONDS_PER_DAY - 1;
    assert Min(until, d1 * SECONDS_PER_DAY + SECONDS_PER_DAY - 1) == until;
    EdgeDayIs(evs, ks, d0, since, until);
    EdgeDayIs(evs, ks, d1, since, until);
    DaysCover(evs, ks, since, until, d0, d1);
  }

  lemma {:induction false} InDay(ts: nat, day: nat)
    requires day == ts / SECONDS_PER_DAY
    ensures day * SECONDS_PER_DAY <= ts <= day * SECONDS_PER_DAY + SECONDS_PER_DAY - 1
  {
  }

  /** Edge day, full days, edge day. */
  lemma {:induction false} DaysCover(evs: Events, ks: Kinds, since: nat, until: nat, d0: nat, d1: nat)
    requires Within(evs) && d0 < d1
    requires d0 * SECONDS_PER_DAY <= since <= d0 * SECONDS_PER_DAY + SECONDS_PER_DAY - 1
    requires d1 * SECONDS_PER_DAY <= until <= d1 * SECONDS_PER_DAY + SECONDS_PER_DAY - 1
    ensures |IdsIn(evs, ks, since, until)| ==
            |IdsIn(evs, ks, since, d0 * SECONDS_PER_DAY + SECONDS_PER_DAY - 1)|
            + (if d1 > d0 + 1 then |NumbersIn(evs, ks, Days, d0 + 1, d1 - 1)| else 0)
            + |IdsIn(evs, ks, d1 * SECONDS_PER_DAY, until)|
  {
    hide IdsIn, NumbersIn, Within;
    RangeSplit(evs, ks, since, d1 * SECONDS_PER_DAY - 1, until);
    RangeSplit(evs, ks, since, d0 * SECONDS_PER_DAY + SECONDS_PER_DAY - 1, d1 * SECONDS_PER_DAY - 1);
    NumbersAreRange(evs, ks, Days, d0 + 1, d1 - 1);
    if d1 == d0 + 1 {
      EmptyRange(evs, ks, d0 * SECONDS_PER_DAY + SECONDS_PER_DAY, d1 * SECONDS_PER_DAY - 1);
    }
  }

  /** A count by time alone is exact below the limit. */
  lemma {:induction false} TimeOnlyExact(evs: Events, since: nat, until: nat)
    requires Within(evs) && since <= until < LIMIT && since < LIMIT - SECONDS_PER_HOUR
    ensures RollupValue(evs, None, since, until) == |IdsIn(evs, None, since, until)|
  {
    hide IdsIn, RollupValue;
    RollupBounded(evs, None, since, until);
  }

  /** A count by kind is exact just when no event of those kinds lies in a later edge hour. */
  lemma {:induction false} KindsExactIff(evs: Events, ks: Kinds, since: nat, until: nat)
    requires Within(evs) && since <= until < LIMIT && since < LIMIT - SECONDS_PER_HOUR && ks.Some?
    ensures var d0, d1 := since / SECONDS_PER_DAY, until / SECONDS_PER_DAY;
            RollupValue(evs, ks, since, until) == |IdsIn(evs, ks, since, until)| <==>
            && Missed(evs, ks, since, Min(until, d0 * SECONDS_PER_DAY + SECONDS_PER_DAY - 1)) == {}
            && (d1 != d0 ==> Missed(evs, ks, d1 * SECONDS_PER_DAY, until) == {})
  {
    hide IdsIn, RollupValue, Missed;
    RollupBounded(evs, ks, since, until);
  }

  /**
     In the last representable hour the successor of the hour number wraps to zero: everything earlier is
     counted too.
   */
  lemma {:induction false} LastHourWraps(evs: Events, ks: Kinds, since: nat, until: nat)
    requires Within(evs) && LIMIT - SECONDS_PER_HOUR <= since <= until < LIMIT
    ensures RollupValue(evs, ks, since, until) ==
            |IdsIn(evs, ks, since, until)| + |IdsIn(evs, ks, 0, LIMIT - SECONDS_PER_HOUR - 1)|
  {
    HourOfSmall(since);
    HourOfSmall(until);
    assert DayOf(since) == LAST_DAY && DayOf(until) == LAST_DAY;
    hide DayOf, IdsIn, NumbersIn, Add32;
    assert Max(since, LAST_DAY * SECONDS_PER_DAY) == since;
    assert Min(until, LAST_DAY * SECONDS_PER_DAY + SECONDS_PER_DAY - 1) == until;
    NumbersAreRange(evs, ks, Hours, 0, TWO_32 - 2);
  }

  /** Without an upper bound, the alias of the last day brings the events of its full hours in a second time. */
  lemma {:induction false} RollupUnbounded(evs: Events, ks: Kinds, since: nat)
    requires Within(evs) && since < LAST_DAY * SECONDS_PER_DAY
    ensures var end0 := since / SECONDS_PER_DAY * SECONDS_PER_DAY + SECONDS_PER_DAY - 1;
            RollupValue(evs, ks, since, MAX_INT64) ==
            |IdsIn(evs, ks, since, MAX_INT64)| - |Missed(evs, ks, since, end0)| + |IdsIn(evs, ks, ALIAS_FROM, ALIAS_TO)|
  {
    var d0 := since / SECONDS_PER_DAY;
    var end0 := d0 * SECONDS_PER_DAY + SECONDS_PER_DAY - 1;
    LastDayNumber();
    HourOfSmall(since);
    InDay(since, d0);
    hide DayOf, IdsIn, NumbersIn, Add32, EdgeDayValue, Missed, Within;
    EdgeDayIs(evs, ks, d0, since, MAX_INT64);
    AliasDay(evs, ks, since);
    FullDaysUnbounded(evs, ks, d0);
    RangeSplit(evs, ks, since, end0, MAX_INT64);
  }

  lemma {:induction false} LastDayNumber()
    ensures DayOf(MAX_INT64) == 579025220
  {
  }

  /** The full days up to the alias day reach past every event. */
  lemma {:induction false} FullDaysUnbounded(evs: Events, ks: Kinds, d0: nat)
    requires Within(evs) && d0 < LAST_DAY
    ensures NumbersIn(evs, ks, Days, d0 + 1, 579025220 - 1) ==
            IdsIn(evs, ks, d0 * SECONDS_PER_DAY + SECONDS_PER_DAY, MAX_INT64)
  {
    hide IdsIn, NumbersIn;
    NumbersAreRange(evs, ks, Days, d0 + 1, 579025220 - 1);
    BeyondLimit(evs, ks, d0 * SECONDS_PER_DAY + SECONDS_PER_DAY, 579025220 * SECONDS_PER_DAY - 1, MAX_INT64);
  }

  lemma {:induction false} BeyondLimit(evs: Events, ks: Kinds, a: int, b: int, c: int)
    requires Within(evs) && b >= LIMIT - 1 && c >= LIMIT - 1
    ensures IdsIn(evs, ks, a, b) == IdsIn(evs, ks, a, c)
  {
  }

  lemma {:induction false} AliasDay(evs: Events, ks: Kinds, since: nat)
    requires Within(evs) && since < LIMIT
    ensures EdgeDayValue(evs, ks, 579025220, since, MAX_INT64) == |IdsIn(evs, ks, ALIAS_FROM, ALIAS_TO)|
  {
    var day := 579025220;
    var lo := day * SECONDS_PER_DAY;
    var hi := lo + SECONDS_PER_DAY - 1;
    assert Max(since, lo) == lo && Min(MAX_INT64, hi) == hi;
    assert HourOf(lo) == 1011703392 && HourOf(hi) == 1011703415;
    NumbersAreRange(evs, ks, Hours, 1011703393, 1011703414);
    EmptyRange(evs, ks, lo, 1011703392 * SECONDS_PER_HOUR + SECONDS_PER_HOUR - 1);
    EmptyRange(evs, ks, lo, 1011703415 * SECONDS_PER_HOUR + SECONDS_PER_HOUR - 1);
    hide HourOf, IdsIn, NumbersIn;
  }

  /** How far into the last day the numbered hours reach, as the truncated number of its last hour. */
  const LAST_HOUR_ALIAS := 7

  /**
   Without an upper bound and from the last day on, all hours after the first are lost, because the
   number of the last hour of the day has wrapped; from the last numbered hour on, the events of the
   first hours of all are counted instead.
   */
  lemma {:induction false} RollupLastDay(evs: Events, ks: Kinds, since: nat)
    requires Within(evs) && LAST_DAY * SECONDS_PER_DAY <= since < LIMIT
    ensures RollupValue(evs, ks, since, MAX_INT64) ==
            |IdsIn(evs, ks, since, MAX_INT64)| - |IdsIn(evs, ks, HourEnd(since) + 1, MAX_INT64)|
            + |IdsIn(evs, ks, ALIAS_FROM, ALIAS_TO)|
            + (if since >= LIMIT - SECONDS_PER_HOUR
               then |IdsIn(evs, ks, 0, LAST_HOUR_ALIAS * SECONDS_PER_HOUR - 1)| else 0)
  {
    LastDayNumber();
    HourOfSmall(since);
    InDay(since, LAST_DAY);
    hide DayOf, IdsIn, NumbersIn, Add32, EdgeDayValue, Within;
    LastEdgeDay(evs, ks, since);
    AliasDay(evs, ks, since);
    NoLaterDays(evs, ks);
    RangeSplit(evs, ks, since, HourEnd(since), MAX_INT64);
  }

  /** The last second of the hour. */
  function HourEnd(ts: nat): nat {
    ts / SECONDS_PER_HOUR * SECONDS_PER_HOUR + SECONDS_PER_HOUR - 1
  }

  lemma {:induction false} NoLaterDays(evs: Events, ks: Kinds)
    requires Within(evs)
    ensures NumbersIn(evs, ks, Days, LAST_DAY + 1, 579025220 - 1) == {}
  {
    hide IdsIn, NumbersIn;
    NumbersAreRange(evs, ks, Days, LAST_DAY + 1, 579025220 - 1);
    NothingFrom(evs, ks, (LAST_DAY + 1) * SECONDS_PER_DAY, 579025220 * SECONDS_PER_DAY - 1);
  }

  lemma {:induction false} NothingFrom(evs: Events, ks: Kinds, a: int, b: int)
    requires Within(evs) && a >= LIMIT
    ensures IdsIn(evs, ks, a, b) == {}
  {
  }

  lemma {:induction false} LastEdgeDay(evs: Events, ks: Kinds, since: nat)
    requires Within(evs) && LAST_DAY * SECONDS_PER_DAY <= since < LIMIT
    ensures EdgeDayValue(evs, ks, LAST_DAY, since, MAX_INT64) ==
            |IdsIn(evs, ks, since, HourEnd(since))|
            + (if since >= LIMIT - SECONDS_PER_HOUR
               then |IdsIn(evs, ks, 0, LAST_HOUR_ALIAS * SECONDS_PER_HOUR - 1)| else 0)
  {
    var lo, hi := since, LAST_DAY * SECONDS_PER_DAY + SECONDS_PER_DAY - 1;
    assert Max(since, LAST_DAY * SECONDS_PER_DAY) == lo && Min(MAX_INT64, hi) == hi;
    assert HourOf(hi) == LAST_HOUR_ALIAS;
    HourOfSmall(since);
    HourInDay(since);
    NumbersAreRange(evs, ks, Hours, 0, LAST_HOUR_ALIAS - 1);
    EmptyRange(evs, ks, lo, LAST_HOUR_ALIAS * SECONDS_PER_HOUR + SECONDS_PER_HOUR - 1);
    hide HourOf, IdsIn, NumbersIn, Add32;
  }

  lemma {:induction false} HourInDay(since: nat)
    requires LAST_DAY * SECONDS_PER_DAY <= since < LIMIT
    ensures since / SECONDS_PER_HOUR >= TWO_32 - 16
    ensures since / SECONDS_PER_HOUR * SECONDS_PER_HOUR <= since <= HourEnd(since) < LIMIT
  {
  }

  /** An unbounded count by time alone is exact just when no event lies in the alias window. */
  lemma {:induction false} UnboundedExactIff(evs: Events, since: nat)
    requires Within(evs) && since < LIMIT
    ensures since < LAST_DAY * SECONDS_PER_DAY ==>
              (RollupValue(evs, None, since, MAX_INT64) == |IdsIn(evs, None, since, MAX_INT64)| <==>
               IdsIn(evs, None, ALIAS_FROM, ALIAS_TO) == {})
    ensures since >= LAST_DAY * SECONDS_PER_DAY ==>
              (RollupValue(evs, None, since, MAX_INT64) == |IdsIn(evs, None, since, MAX_INT64)| <==>
               |IdsIn(evs, None, HourEnd(since) + 1, MAX_INT64)| ==
               |IdsIn(evs, None, ALIAS_FROM, ALIAS_TO)|
               + (if since >= LIMIT - SECONDS_PER_HOUR
                  then |IdsIn(evs, None, 0, LAST_HOUR_ALIAS * SECONDS_PER_HOUR - 1)| else 0))
  {
    hide IdsIn, RollupValue;
    if since < LAST_DAY * SECONDS_PER_DAY {
      RollupUnbounded(evs, None, since);
    } else {
      RollupLastDay(evs, None, since);
    }
  }

  // ---- the filter ----

  function SinceOf(f: Filter): int {
    if f.since > 0 then f.since else 0
  }

  function UntilOf(f: Filter): int {
    if f.until > 0 then f.until else MAX_INT64
  }

  function KindList(f: Filter): seq<Kind> {
    if f.kinds.Some? then f.kinds.value else []
  }

  /** The range of a kind and time filter holds exactly the events its plan's reading matches. */
  lemma {:induction false} RangeIsSelected(evs: Events, f: Filter)
    requires Keyed(evs) && Lax(f).ids.None? && Lax(f).authors.None? && Lax(f).tags == map[]
    ensures |IdsIn(evs, KindsOf(KindList(f)), SinceOf(f), UntilOf(f))| == |Selected(evs, Lax(f))|
  {
    var ids := IdsIn(evs, KindsOf(KindList(f)), SinceOf(f), UntilOf(f));
    forall id ensures id in ids <==> id in evs && Matches(Lax(f), evs[id]) {
    }
    SelectedSize(evs, Lax(f), ids);
  }

  /** By how much a count by time alone is too high. */
  ghost function TimeSurplus(evs: Events, since: nat, bounded: bool): int {
    if bounded then
      if since >= LIMIT - SECONDS_PER_HOUR then |IdsIn(evs, None, 0, LIMIT - SECONDS_PER_HOUR - 1)| else 0
    else
      |IdsIn(evs, None, ALIAS_FROM, ALIAS_TO)|
      + (if since < LAST_DAY * SECONDS_PER_DAY then 0 else -|IdsIn(evs, None, HourEnd(since) + 1, MAX_INT64)|)
      + (if since < LIMIT - SECONDS_PER_HOUR then 0
         else |IdsIn(evs, None, 0, LAST_HOUR_ALIAS * SECONDS_PER_HOUR - 1)|)
  }

  /**
   COUNT by time alone is the number of matching events, up to the wrap in the last numbered hours
   and, without an upper bound, the events of the alias window.
   */
  method CountByTime(run: FilterRun, f: Filter) returns (sum: int, ok: bool, err: bool)
    requires run.store.Readable() && run.store.CountersExact() && run.scanned <= run.budget && Within(run.store.events)
    requires Lax(f).ids.None? && Lax(f).authors.None? && Lax(f).tags == map[] && Lax(f).kinds.None?
    requires f.until < LIMIT && SinceOf(f) < LIMIT
    modifies run`scanned
    ensures ok && !err ==>
              sum == |Selected(run.store.events, Lax(f))|
              + if SinceOf(f) > UntilOf(f) then 0 else TimeSurplus(run.store.events, SinceOf(f), f.until > 0)
  {
    hide RollupValue, IdsIn, Matches, Selected, Lax;
    sum, ok, err := run.CountRollup(SinceOf(f), UntilOf(f), KindList(f));
    NoKindList(f);
    RangeIsSelected(run.store.events, f);
    if f.until <= 0 {
      if SinceOf(f) < LAST_DAY * SECONDS_PER_DAY {
        RollupUnbounded(run.store.events, None, SinceOf(f));
      } else {
        RollupLastDay(run.store.events, None, SinceOf(f));
      }
    } else if SinceOf(f) > UntilOf(f) {
      EmptyRange(run.store.events, None, SinceOf(f), UntilOf(f));
    } else if SinceOf(f) < LIMIT - SECONDS_PER_HOUR {
      TimeOnlyExact(run.store.events, SinceOf(f), UntilOf(f));
    } else {
      LastHourWraps(run.store.events, None, SinceOf(f), UntilOf(f));
    }
  }

  lemma {:induction false} NoKindList(f: Filter)
    ensures Lax(f).kinds.None? <==> KindList(f) == []
  {
  }

  /** The events of some kinds in the later edge hours of the first and the last day. */
  ghost function MissedOf(evs: Events, ks: Kinds, since: nat, until: nat): nat {
    var d0, d1 := since / SECONDS_PER_DAY, until / SECONDS_PER_DAY;
    |Missed(evs, ks, since, Min(until, d0 * SECONDS_PER_DAY + SECONDS_PER_DAY - 1))|
    + if d1 != d0 then |Missed(evs, ks, d1 * SECONDS_PER_DAY, until)| else 0
  }

  /** COUNT by kind between two bounds loses the later edge hours: it is exact if and only if they are empty. */
  method CountByKind(run: FilterRun, f: Filter) returns (sum: int, ok: bool, err: bool)
    requires run.store.Readable() && run.store.CountersExact() && run.scanned <= run.budget && Within(run.store.events)
    requires Lax(f).ids.None? && Lax(f).authors.None? && Lax(f).tags == map[] && Lax(f).kinds.Some?
    requires SinceOf(f) <= UntilOf(f) < LIMIT && SinceOf(f) < LIMIT - SECONDS_PER_HOUR
    modifies run`scanned
    ensures ok && !err ==>
              sum == |Selected(run.store.events, Lax(f))|
              - MissedOf(run.store.events, KindsOf(KindList(f)), SinceOf(f), UntilOf(f))
  {
    hide RollupValue, IdsIn, Matches, Selected, Lax, Missed;
    sum, ok, err := run.CountRollup(SinceOf(f), UntilOf(f), KindList(f));
    RangeIsSelected(run.store.events, f);
    RollupBounded(run.store.events, KindsOf(KindList(f)), SinceOf(f), UntilOf(f));
  }
}
