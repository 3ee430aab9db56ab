/** The index iterators that drive a query (eventstore/pebbledb2/query.go, `plan` and `buildSources`). */
module StoreSources {
  import opened ByteStrings
  import opened NostrEvents
  import opened StoreKeys
  import opened StoreTables
  import opened StoreCommit
  import opened StoreCounts
  import opened StoreRollupLaws

  /** The tag a query is driven from: fewest values, then first by name. */
  predicate IsDriving(tags: map<Str, seq<Str>>, name: Str) {
    && name in tags
    && forall other :: other in tags && other != name ==>
                         |tags[name]| < |tags[other]| || (|tags[name]| == |tags[other]| && LexLess(name, other))
  }

  /** The name and values fit the length bytes of a tag key. */
  predicate TagFits(name: Str, values: seq<Str>) {
    |name| <= 255 && forall i :: 0 <= i < |values| ==> |values[i]| <= 65535
  }

  /** The tag that drives the query, if one does, fits the key format. */
  ghost predicate Drivable(f: Filter) {
    Lax(f).authors.None? ==> forall name :: IsDriving(Lax(f).tags, name) ==> TagFits(name, Lax(f).tags[name])
  }

  /** The store indexes the tag that drives a plan, if one does. */
  ghost predicate Indexed(rule: TagRule, g: Filter) {
    g.ids.None? && g.authors.None? ==> forall name :: IsDriving(g.tags, name) ==> rule(name)
  }

  lemma {:induction false} HasKeys(tags: map<Str, seq<Str>>)
    ensures tags.Keys == {} ==> tags == map[]
    ensures tags.Keys != {} ==> exists name :: name in tags.Keys
  {
    if tags.Keys == {} {
      assert forall name :: name !in tags;
    }
  }

  method DrivingTag(tags: map<Str, seq<Str>>) returns (driving: Str)
    requires tags != map[]
    ensures IsDriving(tags, driving)
  {
    var todo := tags.Keys;
    HasKeys(tags);
    driving :| driving in todo;
    todo := todo - {driving};
    while todo != {}
      invariant driving in tags && todo <= tags.Keys && driving !in todo
      invariant forall other :: other in tags && other !in todo && other != driving ==>
                                  |tags[driving]| < |tags[other]|
                                  || (|tags[driving]| == |tags[other]| && LexLess(driving, other))
      decreases todo
    {
      var n :| n in todo;
      LexTotal(n, driving);
      if |tags[n]| < |tags[driving]| || (|tags[n]| == |tags[driving]| && LexLess(n, driving)) {
        forall other | other in tags && other !in todo - {n} && other != n
          ensures |tags[n]| < |tags[other]| || (|tags[n]| == |tags[other]| && LexLess(n, other))
        {
          if other != driving && |tags[n]| == |tags[other]| {
            LexTransitive(n, driving, other);
          }
        }
        driving := n;
      }
      todo := todo - {n};
    }
  }

  /** The events an index entry under one of the prefixes stands for, in a time range. */
  ghost function Driven(rule: TagRule, evs: Events, prefixes: seq<Prefix>, since: int, until: int): set<Pos> {
    set id | id in evs && UnderAny(rule, evs[id], prefixes) && since <= evs[id].createdAt <= until :: PosOf(evs[id])
  }

  ghost predicate UnderAny(rule: TagRule, ev: Event, prefixes: seq<Prefix>) {
    exists i :: 0 <= i < |prefixes| && prefixes[i] in Prefixes(rule, ev)
  }

  /** Candidates are checked against the filter where the driving index does not decide it. */
  predicate Checks(f: Filter) {
    var g := Lax(f);
    if g.authors.Some? then g.tags != map[] else g.tags != map[] && (g.kinds.Some? || |g.tags| > 1)
  }

  ghost predicate Admitted(rule: TagRule, f: Filter, prefixes: seq<Prefix>, ev: Stored) {
    UnderAny(rule, ev, prefixes) && SinceOf(f) <= ev.createdAt <= UntilOf(f)
  }

  /** What a plan admits, checked where it has to be, is what its reading of the filter matches. */
  ghost predicate PlanFinds(rule: TagRule, g: Filter, prefixes: seq<Prefix>, postCheck: bool) {
    forall ev: Stored ::
      Admitted(rule, g, prefixes, ev) && (postCheck ==> Matches(g, ev)) <==> Indexed(rule, g) && Matches(g, ev)
  }

  /** Unchecked, the plan selects by its reading of the filter; checked, by the filter itself. */
  ghost predicate PlanSound(rule: TagRule, f: Filter, prefixes: seq<Prefix>, postCheck: bool) {
    forall ev: Stored ::
      Admitted(rule, f, prefixes, ev) && (postCheck ==> Matches(f, ev)) <==>
      Indexed(rule, Lax(f)) && Matches(if postCheck then f else Lax(f), ev)
  }

  lemma {:induction false} FindsSound(rule: TagRule, f: Filter, prefixes: seq<Prefix>, postCheck: bool)
    requires PlanFinds(rule, Lax(f), prefixes, postCheck)
    ensures PlanSound(rule, f, prefixes, postCheck)
    ensures PlanSound(rule, f, prefixes, true)
  {
    hide Matches, UnderAny, Indexed;
    forall ev: Stored
      ensures Admitted(rule, f, prefixes, ev) <==> Admitted(rule, Lax(f), prefixes, ev)
      ensures Matches(f, ev) ==> Matches(Lax(f), ev)
    {
      LaxMatches(f, ev);
    }
  }

  /** How many iterators a query takes. */
  ghost predicate Fans(f: Filter, n: nat) {
    var g := Lax(f);
    if g.authors.Some? then n == |g.authors.value| * (if g.kinds.Some? then |g.kinds.value| else 1)
    else if g.tags != map[] then forall name :: IsDriving(g.tags, name) ==> n == |g.tags[name]|
    else if g.kinds.Some? then n == |g.kinds.value|
    else n == 1
  }

  lemma {:induction false} DrivingUnique(tags: map<Str, seq<Str>>, a: Str, b: Str)
    requires IsDriving(tags, a) && IsDriving(tags, b)
    ensures a == b
  {
    if a != b && LexLess(a, b) && LexLess(b, a) {
      LexTransitive(a, b, a);
      LexIrreflexive(a);
    }
  }

  function TagPrefixList(name: Str, values: seq<Str>): (r: seq<Prefix>)
    ensures |r| == |values| && forall i :: 0 <= i < |r| ==> r[i] == ByTag(name, values[i])
  {
    seq(|values|, i requires 0 <= i < |values| => ByTag(name, values[i]))
  }

  method BuildPrefixes(rule: TagRule, f: Filter) returns (prefixes: seq<Prefix>, postCheck: bool)
    requires Lax(f).ids.None? && Drivable(f)
    ensures PlanSound(rule, f, prefixes, postCheck) && PlanSound(rule, f, prefixes, true)
    ensures Fans(f, |prefixes|) && postCheck == Checks(f)
  {
    hide Matches, PlanSound, PlanFinds, Prefixes, Lax;
    var g := Lax(f);
    PlainLax(f);
    prefixes := [];
    if g.authors.Some? {
      postCheck := g.tags != map[];
      if g.kinds.Some? {
        prefixes := AuthorKindPrefixes(g.authors.value, g.kinds.value);
        AuthorKindsSound(rule, g, prefixes, postCheck);
      } else {
        var authors := g.authors.value;
        prefixes := seq(|authors|, i requires 0 <= i < |authors| => ByAuthor(authors[i]));
        AuthorsSound(rule, g, prefixes, postCheck);
      }
    } else if g.tags != map[] {
      var driving := DrivingTag(g.tags);
      postCheck := g.kinds.Some? || g.authors.Some? || |g.tags| > 1;
      prefixes := TagPrefixList(driving, g.tags[driving]);
      TagsSound(rule, g, driving, prefixes, postCheck);
      forall name | IsDriving(g.tags, name) ensures name == driving {
        DrivingUnique(g.tags, name, driving);
      }
    } else if g.kinds.Some? {
      var kinds := g.kinds.value;
      postCheck := false;
      prefixes := seq(|kinds|, i requires 0 <= i < |kinds| => ByKind(kinds[i]));
      KindsSound(rule, g, prefixes);
    } else {
      postCheck := false;
      prefixes := [ByTime];
      TimeSound(rule, g);
    }
    FindsSound(rule, f, prefixes, postCheck);
  }

  lemma {:induction false} PlainLax(f: Filter)
    ensures Plain(Lax(f))
  {
  }

  ghost predicate Pairs(prefixes: seq<Prefix>, authors: seq<PubKey>, kinds: seq<Kind>) {
    forall p :: p in prefixes <==> p.ByAuthorKind? && p.pubkey in authors && p.kind in kinds
  }

  method AuthorKindPrefixes(authors: seq<PubKey>, kinds: seq<Kind>) returns (prefixes: seq<Prefix>)
    ensures Pairs(prefixes, authors, kinds) && |prefixes| == |authors| * |kinds|
  {
    prefixes := [];
    var i := 0;
    while i < |authors|
      invariant 0 <= i <= |authors|
      invariant Pairs(prefixes, authors[..i], kinds) && |prefixes| == i * |kinds|
    {
      var j := 0;
      ghost var before := prefixes;
      while j < |kinds|
        invariant 0 <= j <= |kinds| && |prefixes| == |before| + j
        invariant forall p :: p in prefixes <==>
                              p in before || (p.ByAuthorKind? && p.pubkey == authors[i] && p.kind in kinds[..j])
      {
        assert kinds[..j + 1] == kinds[..j] + [kinds[j]];
        prefixes := prefixes + [ByAuthorKind(authors[i], kinds[j])];
        j := j + 1;
      }
      assert kinds[..|kinds|] == kinds;
      assert authors[..i + 1] == authors[..i] + [authors[i]];
      i := i + 1;
    }
    assert authors[..|authors|] == authors;
  }

  // ---- each plan is sound ----

  lemma {:induction false} InTime(f: Filter, ev: Stored)
    requires Plain(f)
    ensures MatchesTime(f, ev) <==> SinceOf(f) <= ev.createdAt <= UntilOf(f)
  {
  }

  lemma {:induction false} NonTagPrefix(rule: TagRule, ev: Event, p: Prefix)
    ensures !p.ByTag? ==> (p in Prefixes(rule, ev) <==>
                           p == ByAuthor(ev.pubkey) || p == ByAuthorKind(ev.pubkey, ev.kind) || p == ByKind(ev.kind)
                           || p == ByTime)
  {
  }

  lemma {:induction false} AuthorKindsSound(rule: TagRule, f: Filter, prefixes: seq<Prefix>, postCheck: bool)
    requires Plain(f) && f.ids.None? && f.authors.Some? && f.kinds.Some?
    requires Pairs(prefixes, f.authors.value, f.kinds.value) && (!postCheck ==> f.tags == map[])
    ensures PlanFinds(rule, f, prefixes, postCheck)
  {
    hide Prefixes, MatchesTime;
    forall ev: Stored
      ensures UnderAny(rule, ev, prefixes) <==> ev.pubkey in f.authors.value && ev.kind in f.kinds.value
    {
      forall p | p in prefixes ensures p in Prefixes(rule, ev) <==> p == ByAuthorKind(ev.pubkey, ev.kind) {
        NonTagPrefix(rule, ev, p);
      }
      if ev.pubkey in f.authors.value && ev.kind in f.kinds.value {
        assert ByAuthorKind(ev.pubkey, ev.kind) in prefixes;
      }
      InTime(f, ev);
    }
    forall ev: Stored ensures MatchesTime(f, ev) <==> SinceOf(f) <= ev.createdAt <= UntilOf(f) {
      InTime(f, ev);
    }
  }

  lemma {:induction false} AuthorsSound(rule: TagRule, f: Filter, prefixes: seq<Prefix>, postCheck: bool)
    requires Plain(f) && f.ids.None? && f.authors.Some? && f.kinds.None? && (!postCheck ==> f.tags == map[])
    requires |prefixes| == |f.authors.value|
    requires forall i :: 0 <= i < |prefixes| ==> prefixes[i] == ByAuthor(f.authors.value[i])
    ensures PlanFinds(rule, f, prefixes, postCheck)
  {
    hide Prefixes, MatchesTime;
    forall ev: Stored ensures UnderAny(rule, ev, prefixes) <==> ev.pubkey in f.authors.value {
      forall i | 0 <= i < |prefixes| ensures prefixes[i] in Prefixes(rule, ev) <==> f.authors.value[i] == ev.pubkey {
        NonTagPrefix(rule, ev, prefixes[i]);
      }
    }
    forall ev: Stored ensures MatchesTime(f, ev) <==> SinceOf(f) <= ev.createdAt <= UntilOf(f) {
      InTime(f, ev);
    }
  }

  lemma {:induction false} KindsSound(rule: TagRule, f: Filter, prefixes: seq<Prefix>)
    requires Plain(f) && f.ids.None? && f.authors.None? && f.kinds.Some? && f.tags == map[]
    requires |prefixes| == |f.kinds.value|
    requires forall i :: 0 <= i < |prefixes| ==> prefixes[i] == ByKind(f.kinds.value[i])
    ensures PlanFinds(rule, f, prefixes, false)
  {
    hide Prefixes, MatchesTime;
    forall ev: Stored ensures UnderAny(rule, ev, prefixes) <==> ev.kind in f.kinds.value {
      forall i | 0 <= i < |prefixes| ensures prefixes[i] in Prefixes(rule, ev) <==> f.kinds.value[i] == ev.kind {
        NonTagPrefix(rule, ev, prefixes[i]);
      }
    }
    forall ev: Stored ensures MatchesTime(f, ev) <==> SinceOf(f) <= ev.createdAt <= UntilOf(f) {
      InTime(f, ev);
    }
  }

  lemma {:induction false} TimeSound(rule: TagRule, f: Filter)
    requires Plain(f) && f.ids.None? && f.authors.None? && f.kinds.None? && f.tags == map[]
    ensures PlanFinds(rule, f, [ByTime], false)
  {
    hide Prefixes, MatchesTime;
    forall ev: Stored ensures UnderAny(rule, ev, [ByTime]) {
      NonTagPrefix(rule, ev, ByTime);
      assert [ByTime][0] in Prefixes(rule, ev);
    }
    forall ev: Stored ensures MatchesTime(f, ev) <==> SinceOf(f) <= ev.createdAt <= UntilOf(f) {
      InTime(f, ev);
    }
  }

  /** A tag with one of the values puts the event under one of the prefixes, if its name is indexed. */
  lemma {:induction false} TagUnder(rule: TagRule, ev: Event, name: Str, values: seq<Str>)
    requires TagFits(name, values)
    ensures UnderAny(rule, ev, TagPrefixList(name, values)) <==> rule(name) && ContainsAny(ev.tags, name, values)
  {
    var prefixes := TagPrefixList(name, values);
    if rule(name) && ContainsAny(ev.tags, name, values) {
      var i :| 0 <= i < |ev.tags| && |ev.tags[i]| >= 2 && ev.tags[i][0] == name && ev.tags[i][1] in values;
      var j :| 0 <= j < |values| && values[j] == ev.tags[i][1];
      assert IsIndexed(rule, ev.tags[i]);
      assert prefixes[j] in TagPrefixes(rule, ev.tags);
    }
    if UnderAny(rule, ev, prefixes) {
      var j :| 0 <= j < |prefixes| && prefixes[j] in Prefixes(rule, ev);
      assert prefixes[j] in TagPrefixes(rule, ev.tags);
      var i :| 0 <= i < |ev.tags| && IsIndexed(rule, ev.tags[i]) && prefixes[j] == ByTag(ev.tags[i][0], ev.tags[i][1]);
      assert ev.tags[i][1] in values;
    }
  }

  lemma {:induction false} OneTag(tags: map<Str, seq<Str>>, name: Str)
    requires name in tags && |tags| <= 1
    ensures forall other :: other in tags ==> other == name
  {
    var rest := tags.Keys - {name};
    assert tags.Keys == rest + {name};
    assert |tags.Keys| == |tags|;
    assert rest == {};
  }

  lemma {:induction false} TagsSound(rule: TagRule, f: Filter, driving: Str, prefixes: seq<Prefix>, postCheck: bool)
    requires Plain(f) && f.ids.None? && f.authors.None? && IsDriving(f.tags, driving)
    requires TagFits(driving, f.tags[driving])
    requires prefixes == TagPrefixList(driving, f.tags[driving])
    requires postCheck == (f.kinds.Some? || |f.tags| > 1)
    ensures PlanFinds(rule, f, prefixes, postCheck)
  {
    hide Prefixes, MatchesTime, ContainsAny, UnderAny;
    if !postCheck {
      OneTag(f.tags, driving);
    }
    assert Indexed(rule, f) <==> rule(driving) by {
      forall name | IsDriving(f.tags, name) ensures name == driving {
        DrivingUnique(f.tags, name, driving);
      }
    }
    forall ev: Stored ensures UnderAny(rule, ev, prefixes) <==>
                              rule(driving) && ContainsAny(ev.tags, driving, f.tags[driving]) {
      TagUnder(rule, ev, driving, f.tags[driving]);
    }
    forall ev: Stored ensures MatchesTime(f, ev) <==> SinceOf(f) <= ev.createdAt <= UntilOf(f) {
      InTime(f, ev);
    }
  }
}
