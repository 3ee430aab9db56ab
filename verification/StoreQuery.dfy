/** Queries and counts end to end (eventstore/pebbledb2/query.go, `openCursor`, `runIDs`, `QueryEvents`). */
module StoreQuery {
  import opened ByteStrings
  import opened AsciiText
  import opened NostrEvents
  import opened StoreKeys
  import opened StoreTables
  import opened StoreSpec
  import opened StoreCommit
  import opened StoreCounts
  import opened StoreRollupLaws
  import opened StoreSources
  import opened StoreMerge
  import opened StoreCursor
  import opened Horspool

  /** `strings.ToLower`. */
  type Fold = Str -> Str

  /** A search text is not empty, and folded the same by the code's two ways of folding. */
  predicate Searchable(fold: Fold, pattern: Pattern) {
    pattern.Some? ==> pattern.value != [] && FoldsAlike(pattern.value, fold(pattern.value))
  }

  /** The events at the first `limit` of some positions, newest first. */
  ghost function Leading(evs: Events, ps: set<Pos>, limit: nat): seq<Stored>
    requires forall p :: p in ps ==> p.id in evs
  {
    LeadingStored(evs, ps, limit);
    EventsAt(evs, Cut(Timeline(ps), limit))
  }

  lemma {:induction false} LeadingStored(evs: Events, ps: set<Pos>, limit: nat)
    requires forall p :: p in ps ==> p.id in evs
    ensures AllStored(evs, Timeline(ps)) && AllStored(evs, Cut(Timeline(ps), limit))
  {
    hide Timeline;
    TimelineStored(evs, ps);
  }

  lemma {:induction false} HitsStored(evs: Events, f: Filter, pattern: Pattern, limit: nat)
    requires Keyed(evs)
    ensures forall p :: p in Hits(evs, f, pattern) ==> p.id in evs && PosOf(evs[p.id]) == p
    ensures AllStored(evs, Timeline(Hits(evs, f, pattern)))
    ensures AllStored(evs, Cut(Timeline(Hits(evs, f, pattern)), limit))
  {
    hide Wanted, Timeline;
    LeadingStored(evs, Hits(evs, f, pattern), limit);
  }

  /** Brute force: every stored event that matches, newest first, cut at the limit. */
  ghost function Answer(evs: Events, f: Filter, pattern: Pattern, limit: nat): seq<Stored>
    requires Keyed(evs)
  {
    HitsStored(evs, f, pattern, limit);
    Leading(evs, Hits(evs, f, pattern), limit)
  }

  // ---- what a query finds ----

  /** Every candidate is held against the filter itself. */
  predicate Checked(f: Filter, pattern: Pattern) {
    pattern.Some? || Lax(f).ids.Some? || Checks(f)
  }

  /** The filter by which a query selects. */
  function Target(f: Filter, pattern: Pattern): Filter {
    if Checked(f, pattern) then f else Lax(f)
  }

  /** The positions a query finds: none if the driving tag is not indexed. */
  ghost function Found(rule: TagRule, evs: Events, f: Filter, pattern: Pattern): set<Pos> {
    if Indexed(rule, Lax(f)) then Hits(evs, Target(f, pattern), pattern) else {}
  }

  lemma {:induction false} FoundStored(rule: TagRule, evs: Events, f: Filter, pattern: Pattern)
    requires Keyed(evs)
    ensures forall p :: p in Found(rule, evs, f, pattern) ==> p.id in evs
  {
    hide Hits, Indexed;
    HitsStored(evs, Target(f, pattern), pattern, 0);
  }

  ghost function FoundAnswer(rule: TagRule, evs: Events, f: Filter, pattern: Pattern, limit: nat): seq<Stored>
    requires Keyed(evs)
  {
    FoundStored(rule, evs, f, pattern);
    Leading(evs, Found(rule, evs, f, pattern), limit)
  }

  /** A driving tag the store indexes, and candidates checked or a filter without empty lists and negative bounds. */
  ghost predicate Faithful(rule: TagRule, evs: Events, f: Filter, pattern: Pattern) {
    if !Indexed(rule, Lax(f)) then Hits(evs, f, pattern) == {}
    else Checked(f, pattern) || Plain(f) || Hits(evs, Lax(f), pattern) == {}
  }

  /**
   A query finds the matching events if and only if its driving tag is indexed or nothing matches,
   and it checks its candidates, or the filter is plain, or nothing is found.
   */
  lemma {:induction false} FoundExactIff(rule: TagRule, evs: Events, f: Filter, pattern: Pattern)
    requires Keyed(evs)
    ensures Found(rule, evs, f, pattern) == Hits(evs, f, pattern) <==> Faithful(rule, evs, f, pattern)
    ensures |Found(rule, evs, f, pattern)| == |Hits(evs, f, pattern)| <==> Faithful(rule, evs, f, pattern)
  {
    hide Matches, Indexed, Lax, Plain, Occurs, Checks;
    forall id | id in evs
      ensures Plain(f) ==> (Matches(f, evs[id]) <==> Matches(Lax(f), evs[id]))
      ensures !Plain(f) ==> !Matches(f, evs[id])
    {
      LaxMatches(f, evs[id]);
    }
    var found, hits := Found(rule, evs, f, pattern), Hits(evs, f, pattern);
    SameSize(found, hits);
    SameSize(hits, found);
    assert found <= hits || hits <= found;
  }

  lemma {:induction false} SameSize(a: set<Pos>, b: set<Pos>)
    ensures a <= b && |a| == |b| ==> a == b
  {
    if a <= b {
      assert b == a + (b - a);
    }
  }

  /** The time bounds leave a time to match. */
  predicate TimesLeft(f: Filter) {
    var g := Lax(f);
    g.since <= MAX_INT64 && (g.until == 0 || g.since <= g.until)
  }

  /** The filters that a store answers as they are meant, whatever it holds. */
  ghost predicate AlwaysFaithful(rule: TagRule, f: Filter, pattern: Pattern) {
    if !TimesLeft(f) then true
    else if Indexed(rule, Lax(f)) then Checked(f, pattern) || Plain(f)
    else !Plain(f)
  }

  /**
   A query finds what matches in every store if and only if the bounds leave no time; or the driving
   tag is indexed and the candidates are checked or the filter is plain; or the driving tag is not
   indexed and the filter, not being plain, matches nothing.
   */
  lemma {:induction false} FoundExactAlways(rule: TagRule, f: Filter, pattern: Pattern)
    ensures (forall evs: Events | Keyed(evs) :: Found(rule, evs, f, pattern) == Hits(evs, f, pattern)) <==>
            AlwaysFaithful(rule, f, pattern)
  {
    hide Found, Hits, Indexed, Lax, Plain, TimesLeft;
    if AlwaysFaithful(rule, f, pattern) {
      forall evs: Events | Keyed(evs) ensures Found(rule, evs, f, pattern) == Hits(evs, f, pattern) {
        FoundExactIff(rule, evs, f, pattern);
        NoHitsFor(evs, f, pattern);
      }
    } else {
      var ev := SomeMatch(f, pattern);
      var evs: Events := map[ev.id := ev];
      FoundExactIff(rule, evs, f, pattern);
      HitOne(evs, f, pattern, ev);
      assert Keyed(evs) && Found(rule, evs, f, pattern) != Hits(evs, f, pattern);
    }
  }

  /** A filter that is not plain, or whose bounds leave no time, matches nothing stored. */
  lemma {:induction false} NoHitsFor(evs: Events, f: Filter, pattern: Pattern)
    ensures !Plain(f) ==> Hits(evs, f, pattern) == {}
    ensures !TimesLeft(f) ==> Hits(evs, f, pattern) == {} && Hits(evs, Lax(f), pattern) == {}
  {
    hide Occurs, Plain;
    forall id | id in evs
      ensures !Plain(f) ==> !Matches(f, evs[id])
      ensures !TimesLeft(f) ==> !Matches(f, evs[id]) && !Matches(Lax(f), evs[id])
    {
      LaxMatches(f, evs[id]);
      PlainLax(f);
      InTime(Lax(f), evs[id]);
    }
  }

  /** An event that the plan's reading of the filter matches, with the text in it. */
  lemma {:induction false} SomeMatch(f: Filter, pattern: Pattern) returns (ev: Stored)
    requires TimesLeft(f)
    ensures Matches(Lax(f), ev)
    ensures pattern.Some? ==> Occurs(Lower(pattern.value), Lower(ev.content))
  {
    hide Lower;
    var g := Lax(f);
    var zero: Id := seq(32, _ => 0);
    PlainLax(f);
    var tags := TagsFor(g.tags, g.tags.Keys);
    var content := if pattern.Some? then pattern.value else [];
    ev := Event(if g.ids.Some? then g.ids.value[0] else zero, if g.authors.Some? then g.authors.value[0] else zero,
                g.since, if g.kinds.Some? then g.kinds.value[0] else 0, tags, content);
    assert MatchesTags(g, ev) && MatchesTime(g, ev);
    OccursInItself(Lower(content));
  }

  lemma {:induction false} OccursInItself(s: Str)
    ensures Occurs(s, s)
  {
    assert s[0..0 + |s|] == s;
    assert OccursAt(s, s, 0);
  }

  /** One tag for each name, with the first of its values. */
  lemma {:induction false} TagsFor(wanted: map<Str, seq<Str>>, names: set<Str>) returns (tags: seq<Tag>)
    requires names <= wanted.Keys && forall name :: name in wanted ==> wanted[name] != []
    ensures forall name :: name in names ==> ContainsAny(tags, name, wanted[name])
    decreases names
  {
    if names == {} {
      return [];
    }
    var name :| name in names;
    var rest := TagsFor(wanted, names - {name});
    tags := rest + [[name, wanted[name][0]]];
    assert tags[|rest|] == [name, wanted[name][0]];
    assert ContainsAny(tags, name, wanted[name]);
    forall other | other in names && other != name ensures ContainsAny(tags, other, wanted[other]) {
      var i :| 0 <= i < |rest| && |rest[i]| >= 2 && rest[i][0] == other && rest[i][1] in wanted[other];
      assert tags[i] == rest[i];
    }
  }

  /** The event on its own is a hit of the plan's reading, and of the filter if that is plain. */
  lemma {:induction false} HitOne(evs: Events, f: Filter, pattern: Pattern, ev: Stored)
    requires evs == map[ev.id := ev] && Matches(Lax(f), ev)
    requires pattern.Some? ==> Occurs(Lower(pattern.value), Lower(ev.content))
    ensures Hits(evs, Lax(f), pattern) != {} && (Plain(f) ==> Hits(evs, f, pattern) != {})
  {
    hide Matches, Occurs, Lower, Lax, Plain;
    LaxMatches(f, ev);
    assert ev.id in evs && evs[ev.id] == ev;
    assert Wanted(Lax(f), pattern, evs[ev.id]) ==> PosOf(evs[ev.id]) in Hits(evs, Lax(f), pattern);
    assert Wanted(f, pattern, evs[ev.id]) ==> PosOf(evs[ev.id]) in Hits(evs, f, pattern);
  }

  /** An event with the tag is not found where the store does not index the tag's name. */
  lemma {:induction false} UnindexedTag(rule: TagRule, ev: Stored, name: Str, value: Str)
    requires !rule(name) && ev.tags == [[name, value]]
    ensures var evs: Events := map[ev.id := ev];
            var f := Filter(None, None, None, map[name := [value]], 0, 0);
            && Hits(evs, f, None) == {PosOf(ev)}
            && Found(rule, evs, f, None) == {}
  {
    var f := Filter(None, None, None, map[name := [value]], 0, 0);
    var evs: Events := map[ev.id := ev];
    assert ev.tags[0] == [name, value];
    assert ContainsAny(ev.tags, name, [value]);
    assert Matches(f, ev) && Wanted(f, None, ev);
    assert ev.id in evs && PosOf(evs[ev.id]) in Hits(evs, f, None);
    assert Lax(f).tags == f.tags && Lax(f).ids.None? && Lax(f).authors.None?;
    assert IsDriving(Lax(f).tags, name);
  }

  /** An empty list of authors matches nothing, but a scan by kind takes it for no list. */
  lemma {:induction false} EmptyAuthors(rule: TagRule, ev: Stored)
    ensures var evs: Events := map[ev.id := ev];
            var f := Filter(None, Some([ev.kind]), Some([]), map[], 0, 0);
            && Hits(evs, f, None) == {}
            && Found(rule, evs, f, None) == {PosOf(ev)}
  {
    var f := Filter(None, Some([ev.kind]), Some([]), map[], 0, 0);
    var evs: Events := map[ev.id := ev];
    assert Lax(f) == Filter(None, Some([ev.kind]), None, map[], 0, 0);
    assert Matches(Lax(f), ev);
    assert Target(f, None) == Lax(f) && Wanted(Lax(f), None, ev);
    assert ev.id in evs && PosOf(evs[ev.id]) in Hits(evs, Lax(f), None);
  }

  /** A negative upper bound matches no stored event, but a scan takes it for no bound. */
  lemma {:induction false} NegativeUntil(rule: TagRule, ev: Stored, until: int)
    requires until < 0
    ensures var evs: Events := map[ev.id := ev];
            var f := Filter(None, Some([ev.kind]), None, map[], 0, until);
            && Hits(evs, f, None) == {}
            && Found(rule, evs, f, None) == {PosOf(ev)}
  {
    var f := Filter(None, Some([ev.kind]), None, map[], 0, until);
    LaxMatches(f, ev);
    assert Lax(f) == Filter(None, Some([ev.kind]), None, map[], 0, 0);
    assert Lax(f).ids.None? && Lax(f).authors.None? && Lax(f).tags == map[];
    assert Target(f, None) == Lax(f) && Wanted(Lax(f), None, ev);
    var evs: Events := map[ev.id := ev];
    assert ev.id in evs && PosOf(evs[ev.id]) in Hits(evs, Lax(f), None);
  }

  // ---- opening a cursor ----

  /** The positions one iterator visits, in a time range. */
  function Ranged(db: Db, prefix: Prefix, since: int, until: int): set<Pos> {
    set p | p in Positions(db, prefix) && since <= p.ts <= until
  }

  ghost predicate SourcesOf(srcs: seq<Source>, rule: TagRule, evs: Events, prefixes: seq<Prefix>, since: int,
                            until: int) {
    && Live(srcs)
    && forall p :: p in Driven(rule, evs, prefixes, since, until) <==> HasPos(srcs, p)
  }

  lemma {:induction false} DrivenMore(rule: TagRule, db: Db, evs: Events, prefixes: seq<Prefix>, i: nat, since: int,
                                      until: int)
    requires Keyed(evs) && Legible(rule, db, evs) && i < |prefixes|
    ensures Driven(rule, evs, prefixes[..i + 1], since, until) ==
            Driven(rule, evs, prefixes[..i], since, until) + Ranged(db, prefixes[i], since, until)
  {
    hide Legible, Prefixes;
    PositionsAre(rule, db, evs, prefixes[i]);
    assert prefixes[..i + 1] == prefixes[..i] + [prefixes[i]];
    forall id | id in evs
      ensures UnderAny(rule, evs[id], prefixes[..i + 1]) <==>
              UnderAny(rule, evs[id], prefixes[..i]) || prefixes[i] in Prefixes(rule, evs[id])
    {
      UnderMore(rule, evs[id], prefixes[..i], prefixes[i]);
    }
  }

  lemma {:induction false} UnderMore(rule: TagRule, ev: Event, prefixes: seq<Prefix>, p: Prefix)
    ensures UnderAny(rule, ev, prefixes + [p]) <==> UnderAny(rule, ev, prefixes) || p in Prefixes(rule, ev)
  {
    hide Prefixes;
    if UnderAny(rule, ev, prefixes) {
      var i :| 0 <= i < |prefixes| && prefixes[i] in Prefixes(rule, ev);
      assert (prefixes + [p])[i] in Prefixes(rule, ev);
    }
    if p in Prefixes(rule, ev) {
      assert (prefixes + [p])[|prefixes|] in Prefixes(rule, ev);
    }
  }

  lemma {:induction false} HasPosAppend(srcs: seq<Source>, s: Source, p: Pos)
    ensures HasPos(srcs + [s], p) <==> HasPos(srcs, p) || p in s
  {
    if HasPos(srcs, p) {
      var i :| 0 <= i < |srcs| && p in srcs[i];
      assert p in (srcs + [s])[i];
    }
    if p in s {
      assert p in (srcs + [s])[|srcs|];
    }
  }

  /** One positioned iterator per prefix; those with nothing to yield stay out of the heap. */
  method BuildSources(store: PebbleStore, prefixes: seq<Prefix>, since: int, until: int) returns (srcs: seq<Source>)
    requires store.Readable()
    ensures SourcesOf(srcs, store.rule, store.events, prefixes, since, until)
    ensures Size(srcs) <= |prefixes| * |store.events|
  {
    hide Legible, Prefixes, Positions, Driven, HasPos, Descending, UnderAny, Timeline, Size, SourcesOf, Keyed;
    NoSize();
    srcs := [];
    var i := 0;
    NoSources(store.rule, store.events, since, until);
    assert prefixes[..0] == [];
    while i < |prefixes|
      invariant 0 <= i <= |prefixes|
      invariant SourcesOf(srcs, store.rule, store.events, prefixes[..i], since, until)
      invariant Size(srcs) <= i * |store.events|
    {
      var keys := Ranged(store.db, prefixes[i], since, until);
      var s := Timeline(keys);
      DrivenMore(store.rule, store.db, store.events, prefixes, i, since, until);
      TimelineIs(keys);
      SourceMore(store.rule, store.events, prefixes, i, since, until, srcs, s, keys);
      RangedFew(store.rule, store.db, store.events, prefixes[i], since, until);
      assert (i + 1) * |store.events| == i * |store.events| + |store.events|;
      if s != [] {
        SizeAppend(srcs, s);
        srcs := srcs + [s];
      }
      i := i + 1;
    }
    assert prefixes[..|prefixes|] == prefixes;
  }

  lemma {:induction false} NoSize()
    ensures Size([]) == 0
  {
  }

  lemma {:induction false} SizeAppend(srcs: seq<Source>, s: Source)
    ensures Size(srcs + [s]) == Size(srcs) + |s|
  {
    assert (srcs + [s])[..|srcs|] == srcs;
  }

  /** An index prefix holds at most one key per stored event. */
  lemma {:induction false} RangedFew(rule: TagRule, db: Db, evs: Events, prefix: Prefix, since: int, until: int)
    requires Keyed(evs) && Legible(rule, db, evs)
    ensures |Ranged(db, prefix, since, until)| <= |evs|
  {
    hide Legible, Prefixes;
    PositionsAre(rule, db, evs, prefix);
    var keys := Ranged(db, prefix, since, until);
    var all := PositionsOf(evs, evs.Keys);
    PositionsSize(evs, evs.Keys);
    assert |evs.Keys| == |evs|;
    assert all == keys + (all - keys);
  }

  lemma {:induction false} NoSources(rule: TagRule, evs: Events, since: int, until: int)
    ensures SourcesOf([], rule, evs, [], since, until)
  {
  }

  lemma {:induction false} SourceMore(rule: TagRule, evs: Events, prefixes: seq<Prefix>, i: nat, since: int, until: int,
                                      srcs: seq<Source>, s: Source, keys: set<Pos>)
    requires i < |prefixes| && SourcesOf(srcs, rule, evs, prefixes[..i], since, until)
    requires Driven(rule, evs, prefixes[..i + 1], since, until) == Driven(rule, evs, prefixes[..i], since, until) + keys
    requires Descending(s) && forall p :: p in s <==> p in keys
    ensures SourcesOf(if s != [] then srcs + [s] else srcs, rule, evs, prefixes[..i + 1], since, until)
  {
    hide Driven, HasPos, Descending;
    if s == [] {
      forall p ensures p !in keys {
        assert p !in s;
      }
    } else {
      forall p ensures HasPos(srcs + [s], p) <==> HasPos(srcs, p) || p in s {
        HasPosAppend(srcs, s, p);
      }
    }
  }

  /** The driving positions of a sound plan suit the cursor, and what passes is what is to be found. */
  lemma {:induction false} PlanSuits(rule: TagRule, evs: Events, f: Filter, pattern: Pattern, prefixes: seq<Prefix>)
    requires Keyed(evs) && Lax(f).ids.None?
    requires PlanSound(rule, f, prefixes, Checks(f)) && PlanSound(rule, f, prefixes, true)
    ensures var total := Driven(rule, evs, prefixes, SinceOf(f), UntilOf(f));
            var postCheck := Checks(f) || pattern.Some?;
            && Suited(evs, total, postCheck, pattern)
            && Passing(evs, total, f, pattern, postCheck) == Found(rule, evs, f, pattern)
  {
    hide UnderAny, Occurs, Matches, Indexed, Checks, Lax;
    var total := Driven(rule, evs, prefixes, SinceOf(f), UntilOf(f));
    var postCheck := Checks(f) || pattern.Some?;
    forall id | id in evs ensures PosOf(evs[id]) in total <==> Admitted(rule, f, prefixes, evs[id]) {
      DrivenAt(rule, evs, prefixes, SinceOf(f), UntilOf(f), id);
    }
    var passing := Passing(evs, total, f, pattern, postCheck);
    forall p | p in passing ensures p in Found(rule, evs, f, pattern) {
      assert Admitted(rule, f, prefixes, evs[p.id]);
    }
    forall p | p in Found(rule, evs, f, pattern) ensures p in passing {
      var id :| id in evs && Wanted(Target(f, pattern), pattern, evs[id]) && p == PosOf(evs[id]);
      assert Admitted(rule, f, prefixes, evs[id]);
    }
  }

  lemma {:induction false} DrivenAt(rule: TagRule, evs: Events, prefixes: seq<Prefix>, since: int, until: int, id: Id)
    requires Keyed(evs) && id in evs
    ensures PosOf(evs[id]) in Driven(rule, evs, prefixes, since, until) <==>
            UnderAny(rule, evs[id], prefixes) && since <= evs[id].createdAt <= until
  {
    hide UnderAny;
  }

  method OpenCursor(store: PebbleStore, fold: Fold, f: Filter, pattern: Pattern, limit: nat, budget: nat, query: bool)
    returns (c: FilterCursor)
    requires store.Readable() && Lax(f).ids.None? && Drivable(f) && Searchable(fold, pattern)
    ensures fresh(c) && c.store == store && c.query == query && c.limit == limit && c.budget == budget
    ensures c.hits == Found(store.rule, store.events, f, pattern)
    ensures c.Progress() && c.out == [] && !c.err
    ensures exists n: nat :: Fans(f, n) && c.work <= n * |store.events|
  {
    hide Legible, PlanSound, Found, Passing, Suited, SearchSuits, Live, Lax, HasPos, Bloom.GramsOf, Lower, Driven,
      UnderAny, Fans;
    var search: Searcher? := null;
    var grams: seq<Bloom.Gram> := [];
    if pattern.Some? {
      search := new Searcher(pattern.value, fold(pattern.value));
      grams := Bloom.BuildSearchGrams(pattern.value);
    }
    SearchIsSet(search, pattern, grams);
    var prefixes, postCheck := BuildPrefixes(store.rule, f);
    var srcs := BuildSources(store, prefixes, SinceOf(f), UntilOf(f));
    PlanSuits(store.rule, store.events, f, pattern, prefixes);
    c := new FilterCursor(store, f, limit, budget, query, postCheck || search != null, pattern, search, grams, srcs,
                          Driven(store.rule, store.events, prefixes, SinceOf(f), UntilOf(f)));
  }

  lemma {:induction false} SearchIsSet(search: Searcher?, pattern: Pattern, grams: seq<Bloom.Gram>)
    requires search == null <==> pattern.None?
    requires search != null ==> search.Valid() && search.Needle() == Lower(pattern.value) && pattern.value != []
    requires pattern.Some? ==> Bloom.GramsOf(pattern.value, grams)
    ensures SearchSuits(search, pattern, grams)
  {
  }

  // ---- driving it ----

  /** Streams the cursor: exactly the brute-force answer, unless the scan budget is spent. */
  method QueryScan(store: PebbleStore, fold: Fold, f: Filter, pattern: Pattern, limit: nat, budget: nat)
    returns (result: seq<Stored>, err: bool)
    requires store.Readable() && Lax(f).ids.None? && Drivable(f) && Searchable(fold, pattern)
    ensures !err ==> result == FoundAnswer(store.rule, store.events, f, pattern, limit)
    ensures err ==> exists n: nat :: Fans(f, n) && budget < n * |store.events|
  {
    hide Legible, Found, Passing, Timeline, Keep, Lax, Suited, SearchSuits, Leaves, Live, HasPos, Places, Drivable, Cut,
      Keyed, Fans;
    var c := OpenCursor(store, fold, f, pattern, limit, budget, true);
    ghost var all := Timeline(c.hits);
    CursorTimeline(c);
    FoundStored(store.rule, store.events, f, pattern);
    LeadingStored(store.events, c.hits, limit);
    c.Advance();
    result := [];
    ghost var before: seq<Pos> := [];
    while c.valid
      invariant c.Progress() && c.query && c.limit == limit && c.budget == budget && c.store == store
                && all == Keep(Timeline(c.total), c.hits)
      invariant c.Moved(before) && (limit > 0 ==> |before| <= limit)
      invariant AllStored(store.events, before) && result == EventsAt(store.events, before)
      decreases |all| - |before|
      modifies c
    {
      result := result + [c.cur.ev.value];
      before := c.out;
      c.Advance();
    }
    err := c.err;
    if err {
      ghost var n: nat :| Fans(f, n) && c.work <= n * |store.events|;
      assert budget < n * |store.events|;
    }
    CutIs(before, all, limit);
  }

  lemma {:induction false} CutIs(front: seq<Pos>, all: seq<Pos>, limit: nat)
    requires IsPrefix(front, all) && (limit > 0 ==> |front| <= limit)
    ensures front == all || (limit > 0 && |front| == limit) ==> front == Cut(all, limit)
  {
  }

  lemma {:induction false} CursorTimeline(c: FilterCursor)
    requires c.Progress()
    ensures Keep(Timeline(c.total), c.hits) == Timeline(c.hits)
  {
    hide Live, Leaves;
    KeepTimeline(c.total, c.hits);
  }

  /** Counts without bodies where no check needs them. */
  method CountScan(store: PebbleStore, fold: Fold, f: Filter, pattern: Pattern, budget: nat) returns (n: nat, err: bool)
    requires store.Readable() && Lax(f).ids.None? && Drivable(f) && Searchable(fold, pattern)
    ensures !err ==> n == |Found(store.rule, store.events, f, pattern)|
    ensures err ==> exists k: nat :: Fans(f, k) && budget < k * |store.events|
  {
    hide Legible, Found, Passing, Timeline, Keep, Lax, Suited, SearchSuits, Leaves, Live, HasPos, Places, Drivable,
      Keyed, Fans;
    var c := OpenCursor(store, fold, f, pattern, 0, budget, false);
    ghost var all := Timeline(c.hits);
    CursorTimeline(c);
    c.Advance();
    n := 0;
    ghost var before: seq<Pos> := [];
    while c.valid
      invariant c.Progress() && c.limit == 0 && c.budget == budget && c.store == store
                && all == Keep(Timeline(c.total), c.hits)
      invariant c.Moved(before) && n == |before|
      decreases |all| - |before|
      modifies c
    {
      n := n + 1;
      before := c.out;
      c.Advance();
    }
    err := c.err;
    if err {
      ghost var k: nat :| Fans(f, k) && c.work <= k * |store.events|;
      assert budget < k * |store.events|;
    }
  }

  // ---- the versions of a key ----

  lemma {:induction false} VersionsFound(rule: TagRule, evs: Events, ev: Stored)
    requires Keyed(evs)
    ensures Lax(VersionFilter(ev)) == VersionFilter(ev) && Lax(VersionFilter(ev)).authors == Some([ev.pubkey])
    ensures Found(rule, evs, VersionFilter(ev), None) == Selected(evs, VersionFilter(ev))
  {
    hide Matches;
    var f := VersionFilter(ev);
    assert Lax(f).tags == f.tags;
    assert forall id :: id in evs ==> (Wanted(f, None, evs[id]) <==> Matches(f, evs[id]));
  }

  /**
   The search for versions as the cursor runs it: all of them, unless the scan budget is smaller
   than the number of stored events.
   */
  method QueryVersions(store: PebbleStore, ev: Stored, budget: nat) returns (existing: seq<Stored>, err: bool)
    requires store.Readable()
    ensures !err ==> existing == Versions(store.events, ev)
    ensures err ==> budget < |store.events|
  {
    hide Legible, Found, Lax, VersionFilter, Keyed, Selected, IsDriving;
    VersionsFound(store.rule, store.events, ev);
    FoundStored(store.rule, store.events, VersionFilter(ev), None);
    OneFan(ev);
    existing, err := QueryScan(store, s => s, VersionFilter(ev), None, 0, budget);
  }

  lemma {:induction false} OneFan(ev: Stored)
    ensures VersionFilter(ev).ids.None? && Drivable(VersionFilter(ev))
    ensures forall n: nat :: Fans(VersionFilter(ev), n) ==> n == 1
  {
  }

  // ---- ids ----

  /** A point lookup by id. */
  method GetEvent(store: PebbleStore, id: Id) returns (ev: Option<Stored>)
    requires store.Readable()
    ensures ev == if id in store.events then Some(store.events[id]) else None
  {
    var lk := Locator(id);
    assert Get(store.db, lk) == Expected(store.rule, store.events, lk);
    if lk !in store.db {
      return None;
    }
    var at := Pos(store.db[lk].ts, id);
    BodyAt(store.rule, store.db, store.events, at);
    ev := Some(store.db[Body(at)].ev);
  }

  /** The hits among some ids. */
  ghost function HitsAmong(evs: Events, f: Filter, pattern: Pattern, ids: set<Id>): set<Pos> {
    set id | id in ids && id in evs && Wanted(f, pattern, evs[id]) :: PosOf(evs[id])
  }

  lemma {:induction false} HitsAmongMore(evs: Events, f: Filter, pattern: Pattern, ids: set<Id>, id: Id)
    requires Keyed(evs)
    ensures HitsAmong(evs, f, pattern, ids + {id}) ==
            HitsAmong(evs, f, pattern, ids)
            + (if id in evs && Wanted(f, pattern, evs[id]) then {PosOf(evs[id])} else {})
  {
    hide Wanted;
  }

  lemma {:induction false} HitsByIds(evs: Events, f: Filter, pattern: Pattern)
    requires Keyed(evs) && f.ids.Some?
    ensures HitsAmong(evs, f, pattern, AsSet(f.ids.value)) == Hits(evs, f, pattern)
  {
    hide MatchesTags, MatchesTime, Occurs;
    assert forall id :: id in evs && Wanted(f, pattern, evs[id]) ==> id in AsSet(f.ids.value);
    hide Wanted;
    forall p | p in Hits(evs, f, pattern) ensures p in HitsAmong(evs, f, pattern, AsSet(f.ids.value)) {
      var id :| id in evs && Wanted(f, pattern, evs[id]) && p == PosOf(evs[id]);
    }
  }

  /** One point lookup with its checks. */
  method LookUp(store: PebbleStore, f: Filter, pattern: Pattern, search: Searcher?, id: Id) returns (ev: Option<Stored>)
    requires store.Readable() && (search == null <==> pattern.None?)
    requires search != null ==> search.Valid() && search.patLen > 0 && search.Needle() == Lower(pattern.value)
    ensures ev == if id in store.events && Wanted(f, pattern, store.events[id]) then Some(store.events[id]) else None
  {
    hide Legible, Matches, Occurs, Lower, Keyed;
    ev := GetEvent(store, id);
    if ev.None? || !Matches(f, ev.value) {
      return None;
    }
    if search != null {
      var contained := search.Contains(ev.value.content);
      if !contained {
        return None;
      }
    }
  }

  /** Point lookups of distinct ids. */
  method LookUpAll(store: PebbleStore, f: Filter, pattern: Pattern, search: Searcher?, ids: seq<Id>)
    returns (found: map<Pos, Stored>)
    requires store.Readable() && (search == null <==> pattern.None?)
    requires search != null ==> search.Valid() && search.patLen > 0 && search.Needle() == Lower(pattern.value)
    ensures found.Keys == HitsAmong(store.events, f, pattern, AsSet(ids))
    ensures forall p :: p in found ==> p.id in store.events && found[p] == store.events[p.id]
  {
    hide Legible, Wanted, Lower, HitsAmong, Keyed, TypedCounters;
    var seen: set<Id> := {};
    found := map[];
    var i := 0;
    NoHits(store.events, f, pattern);
    while i < |ids|
      invariant 0 <= i <= |ids| && seen == AsSet(ids[..i])
      invariant found.Keys == HitsAmong(store.events, f, pattern, seen)
      invariant forall p :: p in found ==> p.id in store.events && found[p] == store.events[p.id]
    {
      var id := ids[i];
      assert ids[..i + 1] == ids[..i] + [id];
      if id !in seen {
        HitsAmongMore(store.events, f, pattern, seen, id);
        seen := seen + {id};
        var ev := LookUp(store, f, pattern, search, id);
        if ev.Some? {
          StoredPos(store.events, id);
          found := found[PosOf(ev.value) := ev.value];
        }
      }
      assert seen == AsSet(ids[..i + 1]);
      i := i + 1;
    }
    assert ids[..|ids|] == ids;
  }

  /** Point lookups, checked and put in order. */
  method RunIDs(store: PebbleStore, fold: Fold, f: Filter, pattern: Pattern, limit: nat) returns (result: seq<Stored>)
    requires store.Readable() && f.ids.Some? && f.ids.value != [] && Searchable(fold, pattern)
    ensures result == Answer(store.events, f, pattern, limit)
  {
    hide Legible, Wanted, Lower, Hits, HitsAmong, Keyed, TypedCounters, Timeline, AsSet;
    var search: Searcher? := null;
    if pattern.Some? {
      search := new Searcher(pattern.value, fold(pattern.value));
    }
    var found := LookUpAll(store, f, pattern, search, f.ids.value);
    HitsByIds(store.events, f, pattern);
    HitsStored(store.events, f, pattern, limit);
    result := Sorted(found, limit, store.events);
  }

  lemma {:induction false} NoHits(evs: Events, f: Filter, pattern: Pattern)
    ensures HitsAmong(evs, f, pattern, {}) == {}
  {
  }

  lemma {:induction false} StoredPos(evs: Events, id: Id)
    requires Keyed(evs) && id in evs
    ensures PosOf(evs[id]).id == id
  {
  }

  /** `sort.Slice`, newest first, then the cut. */
  method Sorted(found: map<Pos, Stored>, limit: nat, ghost evs: Events) returns (result: seq<Stored>)
    requires forall p :: p in found ==> p.id in evs && found[p] == evs[p.id]
    ensures AllStored(evs, Cut(Timeline(found.Keys), limit))
    ensures result == EventsAt(evs, Cut(Timeline(found.Keys), limit))
  {
    var ps := Cut(Timeline(found.Keys), limit);
    TimelineIs(found.Keys);
    forall i | 0 <= i < |ps| ensures ps[i] in found {
      assert Timeline(found.Keys)[i] in found.Keys;
    }
    result := seq(|ps|, i requires 0 <= i < |ps| => found[ps[i]]);
  }
}
