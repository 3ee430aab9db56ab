/**
 What questions to the store mean, field by field and in numbers: which events a filter asks for, what
 the list of them looks like, how many there are, and by how much the rollup COUNT departs from that.
 */
module StoreMeaning {
  import opened ByteStrings
  import opened AsciiText
  import opened NostrEvents
  import opened StoreKeys
  import opened StoreTables
  import opened StoreSpec
  import opened StoreCounts
  import opened StoreRollup
  import opened StoreRollupLaws
  import opened StoreSources
  import opened StoreCursor
  import opened StoreQuery

  // ---- text ----

  lemma {:induction false} SameTextIff(a: seq<byte>, b: seq<byte>)
    ensures SameText(a, b) <==> Lower(a) == Lower(b)
  {
    if |a| == |b| {
      forall i | 0 <= i < |a| ensures SameLetter(a[i], b[i]) <==> LowerByte(a[i]) == LowerByte(b[i]) {
      }
      if Lower(a) == Lower(b) {
        forall i | 0 <= i < |a| ensures LowerByte(a[i]) == LowerByte(b[i]) {
          assert Lower(a)[i] == Lower(b)[i];
        }
      }
    }
  }

  lemma {:induction false} HasTextIff(content: seq<byte>, text: seq<byte>)
    ensures HasText(content, text) <==> Occurs(Lower(text), Lower(content))
  {
    forall at ensures TextAt(content, text, at) <==> OccursAt(Lower(text), Lower(content), at) {
      if 0 <= at <= |content| - |text| {
        assert Lower(content)[at..at + |text|] == Lower(content[at..at + |text|]);
        SameTextIff(content[at..at + |text|], text);
      }
    }
  }

  /** Changing the case of letters in a content or a text changes nothing. */
  lemma {:induction false} CaseIsIgnored(content: seq<byte>, other: seq<byte>, text: seq<byte>, otherText: seq<byte>)
    requires SameText(content, other) && SameText(text, otherText)
    ensures HasText(content, text) <==> HasText(other, otherText)
  {
    SameTextIff(content, other);
    SameTextIff(text, otherText);
    HasTextIff(content, text);
    HasTextIff(other, otherText);
  }

  // ---- filters ----

  predicate Among<T(==)>(x: T, list: seq<T>) {
    exists i :: 0 <= i < |list| && list[i] == x
  }

  predicate HasTag(ev: Event, name: Str, values: seq<Str>) {
    exists i :: 0 <= i < |ev.tags| && |ev.tags[i]| >= 2 && ev.tags[i][0] == name && Among(ev.tags[i][1], values)
  }

  /** Every restriction of the filter holds; zero bounds are none. */
  ghost predicate Meets(f: Filter, pattern: Pattern, ev: Event) {
    && (f.ids.Some? ==> Among(ev.id, f.ids.value))
    && (f.kinds.Some? ==> Among(ev.kind, f.kinds.value))
    && (f.authors.Some? ==> Among(ev.pubkey, f.authors.value))
    && (forall name :: name in f.tags ==> HasTag(ev, name, f.tags[name]))
    && (f.since != 0 ==> f.since <= ev.createdAt)
    && (f.until != 0 ==> ev.createdAt <= f.until)
    && (pattern.Some? ==> HasText(ev.content, pattern.value))
  }

  lemma {:induction false} HasTagIff(ev: Event, name: Str, values: seq<Str>)
    ensures HasTag(ev, name, values) <==> ContainsAny(ev.tags, name, values)
  {
    if i :| 0 <= i < |ev.tags| && |ev.tags[i]| >= 2 && ev.tags[i][0] == name && ev.tags[i][1] in values {
      assert Among(ev.tags[i][1], values);
    }
  }

  lemma {:induction false} MeetsIff(f: Filter, pattern: Pattern, ev: Event)
    ensures Meets(f, pattern, ev) <==> Wanted(f, pattern, ev)
  {
    if pattern.Some? {
      HasTextIff(ev.content, pattern.value);
    }
    hide HasText, Occurs, Lower, HasTag, ContainsAny;
    forall name | name in f.tags ensures HasTag(ev, name, f.tags[name]) <==> ContainsAny(ev.tags, name, f.tags[name]) {
      HasTagIff(ev, name, f.tags[name]);
    }
    assert f.ids.Some? ==> (Among(ev.id, f.ids.value) <==> ev.id in f.ids.value);
    assert f.kinds.Some? ==> (Among(ev.kind, f.kinds.value) <==> ev.kind in f.kinds.value);
    assert f.authors.Some? ==> (Among(ev.pubkey, f.authors.value) <==> ev.pubkey in f.authors.value);
  }

  /** No list is empty, the upper bound is not negative, and every tag asked for is indexed. */
  predicate Ordinary(rule: TagRule, f: Filter) {
    && f.ids != Some([]) && f.kinds != Some([]) && f.authors != Some([])
    && (forall name :: name in f.tags ==> f.tags[name] != [] && rule(name))
    && f.until >= 0
  }

  lemma {:induction false} OrdinaryFaithful(rule: TagRule, evs: Events, f: Filter, pattern: Pattern)
    requires Ordinary(rule, f)
    ensures Faithful(rule, evs, f, pattern)
  {
    assert Indexed(rule, Lax(f));
  }

  // ---- answers ----

  predicate Later(a: Event, b: Event) {
    a.createdAt > b.createdAt || (a.createdAt == b.createdAt && LexLess(b.id, a.id))
  }

  ghost predicate Listed(result: seq<Stored>, ev: Stored) {
    exists i :: 0 <= i < |result| && result[i] == ev
  }

  /**
   The answer to a question: stored events that meet the filter, later ones first, no more than the
   limit; whatever else meets it comes after all of them, and there is such an event only at the limit.
   */
  ghost predicate IsAnswer(evs: Events, f: Filter, pattern: Pattern, limit: nat, result: seq<Stored>) {
    && (forall i :: 0 <= i < |result| ==> result[i].id in evs && evs[result[i].id] == result[i])
    && (forall i :: 0 <= i < |result| ==> Meets(f, pattern, result[i]))
    && (forall i, j :: 0 <= i < j < |result| ==> Later(result[i], result[j]))
    && (limit > 0 ==> |result| <= limit)
    && (forall id :: id in evs && Meets(f, pattern, evs[id]) && !Listed(result, evs[id]) ==>
                       limit > 0 && |result| == limit && forall i :: 0 <= i < limit ==> Later(result[i], evs[id]))
  }

  lemma {:induction false} AnswerIs(evs: Events, f: Filter, pattern: Pattern, limit: nat)
    requires Keyed(evs)
    ensures IsAnswer(evs, f, pattern, limit, Answer(evs, f, pattern, limit))
  {
    hide Meets, Wanted, Timeline;
    HitsStored(evs, f, pattern, limit);
    var hits := Hits(evs, f, pattern);
    var all := Timeline(hits);
    var ps := Cut(all, limit);
    var result := Answer(evs, f, pattern, limit);
    TimelineIs(hits);
    assert |result| == |ps| && forall i :: 0 <= i < |ps| ==> ps[i] == all[i];
    forall id | id in evs ensures Meets(f, pattern, evs[id]) <==> PosOf(evs[id]) in hits {
      MeetsIff(f, pattern, evs[id]);
      InHits(evs, f, pattern, PosOf(evs[id]));
    }
    forall i | 0 <= i < |result|
      ensures result[i].id in evs && evs[result[i].id] == result[i] && PosOf(result[i]) == all[i]
      ensures Meets(f, pattern, result[i])
    {
      assert all[i] in hits;
    }
    forall i, j | 0 <= i < j < |result| ensures Later(result[i], result[j]) {
      assert PosLess(all[j], all[i]);
    }
    forall id | id in evs && Meets(f, pattern, evs[id]) && !Listed(result, evs[id])
      ensures limit > 0 && |result| == limit && forall i :: 0 <= i < limit ==> Later(result[i], evs[id])
    {
      assert PosOf(evs[id]) in all;
      var k :| 0 <= k < |all| && all[k] == PosOf(evs[id]);
      forall i | 0 <= i < |result| ensures all[i] != PosOf(evs[id]) {
        assert result[i] != evs[id];
      }
      forall i | 0 <= i < |result| ensures Later(result[i], evs[id]) {
        assert PosLess(all[k], all[i]);
      }
    }
  }

  ghost function Meeting(evs: Events, f: Filter, pattern: Pattern): set<Id> {
    set id | id in evs && Meets(f, pattern, evs[id])
  }

  /** How many stored events meet the filter. */
  ghost function CountOf(evs: Events, f: Filter, pattern: Pattern): nat {
    |Meeting(evs, f, pattern)|
  }

  lemma {:induction false} HitsCounted(evs: Events, f: Filter, pattern: Pattern)
    requires Keyed(evs)
    ensures |Hits(evs, f, pattern)| == CountOf(evs, f, pattern)
  {
    hide Meets, Wanted;
    var ids := Meeting(evs, f, pattern);
    forall id | id in evs ensures Meets(f, pattern, evs[id]) <==> Wanted(f, pattern, evs[id]) {
      MeetsIff(f, pattern, evs[id]);
    }
    PositionsSize(evs, ids);
    assert PositionsOf(evs, ids) == Hits(evs, f, pattern);
  }

  /** The same events but for the case of letters in their contents. */
  ghost predicate SameButCase(evs: Events, other: Events) {
    evs.Keys == other.Keys
    && forall id :: id in evs ==> SameText(evs[id].content, other[id].content)
                                  && evs[id].(content := other[id].content) == other[id]
  }

  /** Writing contents or the text in other letters changes no answer. */
  lemma {:induction false} CaseOfContents(evs: Events, other: Events, f: Filter, text: Str, otherText: Str)
    requires SameButCase(evs, other) && SameText(text, otherText)
    ensures Meeting(evs, f, Some(text)) == Meeting(other, f, Some(otherText))
  {
    hide SameText, HasText, Among, HasTag;
    forall id | id in evs ensures Meets(f, Some(text), evs[id]) <==> Meets(f, Some(otherText), other[id]) {
      CaseIsIgnored(evs[id].content, other[id].content, text, otherText);
      forall name, values ensures HasTag(evs[id], name, values) <==> HasTag(other[id], name, values) {
        SameTags(evs[id], other[id], name, values);
      }
    }
    hide Meets;
  }

  lemma {:induction false} SameTags(a: Event, b: Event, name: Str, values: seq<Str>)
    requires a.tags == b.tags
    ensures HasTag(a, name, values) <==> HasTag(b, name, values)
  {
  }

  // ---- the departure of the rollup ----

  predicate NoneAsked<T(==)>(list: Option<seq<T>>) {
    list == None || list == Some([])
  }

  /** The stored events between two times, of the kinds asked for if there are any. */
  ghost function CreatedIn(evs: Events, f: Filter, a: int, b: int): nat {
    |set id | id in evs && a <= evs[id].createdAt <= b && (!NoneAsked(f.kinds) ==> Among(evs[id].kind, f.kinds.value))|
  }

  lemma {:induction false} CreatedInIs(evs: Events, f: Filter, a: int, b: int)
    ensures CreatedIn(evs, f, a, b) == |IdsIn(evs, KindsOf(KindList(f)), a, b)|
  {
    assert IdsIn(evs, KindsOf(KindList(f)), a, b) ==
           set id | id in evs && a <= evs[id].createdAt <= b
                    && (!NoneAsked(f.kinds) ==> Among(evs[id].kind, f.kinds.value));
  }

  /** Less than two full hours of one day. */
  predicate InOneGo(since: int, until: int)
    requires 0 <= since
  {
    since <= until && since / 86400 == until / 86400 && until / 3600 < (since / 3600 + 2) % 0x1_0000_0000
  }

  /** The events from the start of the hour of `hi`, unless that is the hour of `lo`. */
  ghost function LastHour(evs: Events, f: Filter, lo: int, hi: int): nat
    requires 0 <= lo && 0 <= hi
  {
    if lo / 3600 == hi / 3600 then 0 else CreatedIn(evs, f, hi / 3600 * 3600, hi)
  }

  function Least(a: int, b: int): int {
    if a < b then a else b
  }

  /** By how much a COUNT of kinds and times alone departs from the number of events between two bounds. */
  ghost function BoundedDrift(evs: Events, f: Filter, since: int, until: int): int
    requires 0 <= since && 0 <= until
  {
    if since > until || InOneGo(since, until) then 0
    else if since >= 15461882262000 then CreatedIn(evs, f, 0, 15461882261999)
    else if NoneAsked(f.kinds) then 0
    else
      0 - LastHour(evs, f, since, Least(until, since / 86400 * 86400 + 86399))
      - if since / 86400 == until / 86400 then 0 else LastHour(evs, f, until / 86400 * 86400, until)
  }

  /** The same without an upper bound. */
  ghost function OpenDrift(evs: Events, f: Filter, since: int): int
    requires 0 <= since
  {
    CreatedIn(evs, f, 3642132214800, 3642132293999)
    - (if since >= 15461882208000 then CreatedIn(evs, f, since / 3600 * 3600 + 3600, 0x7FFF_FFFF_FFFF_FFFF)
       else if NoneAsked(f.kinds) then 0
       else LastHour(evs, f, since, since / 86400 * 86400 + 86399))
    + if since >= 15461882262000 then CreatedIn(evs, f, 0, 25199) else 0
  }

  /** No filter but by kind and time, and no text. */
  predicate KindsAndTimes(f: Filter, pattern: Pattern) {
    pattern.None? && NoneAsked(f.ids) && NoneAsked(f.authors) && forall name :: name in f.tags ==> f.tags[name] == []
  }

  ghost function CountDrift(evs: Events, f: Filter, pattern: Pattern): int {
    var since := if f.since > 0 then f.since else 0;
    if !KindsAndTimes(f, pattern) then 0
    else if f.until > 0 then BoundedDrift(evs, f, since, f.until)
    else OpenDrift(evs, f, since)
  }

  lemma {:induction false} LastHourIs(evs: Events, f: Filter, lo: nat, hi: nat)
    ensures var ks := KindsOf(KindList(f));
            |Missed(evs, ks, lo, hi)| == if NoneAsked(f.kinds) then 0 else LastHour(evs, f, lo, hi)
  {
    CreatedInIs(evs, f, hi / 3600 * 3600, hi);
    hide IdsIn;
  }

  /** Between bounds below 3600 * 2^32 the rollup departs by the stated number. */
  lemma {:induction false} BoundedDriftIs(evs: Events, f: Filter, since: nat, until: nat)
    requires Within(evs) && since <= until < LIMIT && !InOneGo(since, until)
    ensures var ks := KindsOf(KindList(f));
            RollupValue(evs, ks, since, until) == |IdsIn(evs, ks, since, until)| + BoundedDrift(evs, f, since, until)
  {
    hide RollupValue, IdsIn, Missed, LastHour, CreatedIn;
    var ks := KindsOf(KindList(f));
    if since >= LIMIT - SECONDS_PER_HOUR {
      LastHourWraps(evs, ks, since, until);
      CreatedInIs(evs, f, 0, LIMIT - SECONDS_PER_HOUR - 1);
    } else {
      RollupBounded(evs, ks, since, until);
      LastHourIs(evs, f, since, Min(until, since / SECONDS_PER_DAY * SECONDS_PER_DAY + SECONDS_PER_DAY - 1));
      LastHourIs(evs, f, until / SECONDS_PER_DAY * SECONDS_PER_DAY, until);
    }
  }

  lemma {:induction false} OpenDriftIs(evs: Events, f: Filter, since: nat)
    requires Within(evs) && since < LIMIT
    ensures var ks := KindsOf(KindList(f));
            RollupValue(evs, ks, since, MAX_INT64) == |IdsIn(evs, ks, since, MAX_INT64)| + OpenDrift(evs, f, since)
  {
    hide RollupValue, IdsIn, Missed, LastHour, CreatedIn;
    var ks := KindsOf(KindList(f));
    CreatedInIs(evs, f, ALIAS_FROM, ALIAS_TO);
    CreatedInIs(evs, f, 0, LAST_HOUR_ALIAS * SECONDS_PER_HOUR - 1);
    CreatedInIs(evs, f, HourEnd(since) + 1, MAX_INT64);
    if since < LAST_DAY * SECONDS_PER_DAY {
      RollupUnbounded(evs, ks, since);
      LastHourIs(evs, f, since, since / SECONDS_PER_DAY * SECONDS_PER_DAY + SECONDS_PER_DAY - 1);
    } else {
      RollupLastDay(evs, ks, since);
    }
  }
}
