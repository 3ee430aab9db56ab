/** How a scan reads a filter, and the COUNT that reads the author and kind counters. */
module StoreCounts {
  import opened ByteStrings
  import opened NostrEvents
  import opened StoreKeys
  import opened StoreTables
  import opened StoreSpec
  import opened StoreCommit

  // ---- filters as a scan reads them ----

  /** Present lists are not empty and the upper bound is not negative. */
  predicate Plain(f: Filter) {
    && (f.ids.Some? ==> f.ids.value != [])
    && (f.kinds.Some? ==> f.kinds.value != [])
    && (f.authors.Some? ==> f.authors.value != [])
    && (forall name :: name in f.tags ==> f.tags[name] != [])
    && f.until >= 0
  }

  function Filled<T(==)>(list: Option<seq<T>>): Option<seq<T>> {
    if list == Some([]) then None else list
  }

  /** To a plan an empty list is an absent one, and a bound that is not positive is none. */
  function Lax(f: Filter): (g: Filter)
    ensures Plain(g)
  {
    Filter(Filled(f.ids), Filled(f.kinds), Filled(f.authors),
           map name | name in f.tags && f.tags[name] != [] :: f.tags[name],
           if f.since > 0 then f.since else 0, if f.until > 0 then f.until else 0)
  }

  /**
   The plan's reading admits what the filter matches; just that if the filter is plain, and the filter
   nothing if not.
   */
  lemma {:induction false} LaxMatches(f: Filter, ev: Stored)
    ensures Matches(f, ev) ==> Matches(Lax(f), ev)
    ensures Plain(f) ==> (Matches(f, ev) <==> Matches(Lax(f), ev))
    ensures !Plain(f) ==> !Matches(f, ev)
  {
    var g := Lax(f);
    assert forall name :: name in g.tags <==> name in f.tags && f.tags[name] != [];
    if name :| name in f.tags && f.tags[name] == [] {
      assert !ContainsAny(ev.tags, name, f.tags[name]);
    }
    assert MatchesTags(f, ev) ==> MatchesTags(g, ev);
  }

  // ---- COUNT from the author and kind counters ----

  ghost function ByPair(evs: Events, authors: set<PubKey>, kinds: set<Kind>): set<Id> {
    set id | id in evs && evs[id].pubkey in authors && evs[id].kind in kinds
  }

  function AsSet<T(==)>(s: seq<T>): set<T> {
    set x | x in s
  }

  lemma {:induction false} PairKind(evs: Events, a: PubKey, kinds: set<Kind>, kind: Kind)
    requires kind !in kinds
    ensures |ByPair(evs, {a}, kinds + {kind})| == |ByPair(evs, {a}, kinds)| + Count(evs, AuthorKind(a, kind))
  {
    var b := AuthorKind(a, kind);
    assert ByPair(evs, {a}, kinds + {kind}) == ByPair(evs, {a}, kinds) + InBucket(evs, b);
    assert ByPair(evs, {a}, kinds) !! InBucket(evs, b);
  }

  lemma {:induction false} PairAuthor(evs: Events, authors: set<PubKey>, a: PubKey, kinds: set<Kind>)
    requires a !in authors
    ensures |ByPair(evs, authors + {a}, kinds)| == |ByPair(evs, authors, kinds)| + |ByPair(evs, {a}, kinds)|
  {
    assert ByPair(evs, authors + {a}, kinds) == ByPair(evs, authors, kinds) + ByPair(evs, {a}, kinds);
    assert ByPair(evs, authors, kinds) !! ByPair(evs, {a}, kinds);
  }

  lemma {:induction false} PairsAreSelected(evs: Events, f: Filter)
    requires Keyed(evs) && Plain(f) && f.ids.None? && f.authors.Some? && f.kinds.Some?
    requires f.tags == map[] && f.since == 0 && f.until == 0
    ensures |ByPair(evs, AsSet(f.authors.value), AsSet(f.kinds.value))| == |Selected(evs, f)|
  {
    var ids := ByPair(evs, AsSet(f.authors.value), AsSet(f.kinds.value));
    assert forall id :: id in ids <==> id in evs && Matches(f, evs[id]);
    SelectedSize(evs, f, ids);
  }

  /** Counting the matching ids counts the matching positions. */
  lemma {:induction false} SelectedSize(evs: Events, f: Filter, ids: set<Id>)
    requires Keyed(evs)
    requires forall id :: id in ids <==> id in evs && Matches(f, evs[id])
    ensures |ids| == |Selected(evs, f)|
  {
    hide Matches;
    assert Selected(evs, f) == PositionsOf(evs, ids);
    PositionsSize(evs, ids);
  }

  ghost function PositionsOf(evs: Events, ids: set<Id>): set<Pos> {
    set id | id in ids && id in evs :: PosOf(evs[id])
  }

  lemma {:induction false} PositionsSize(evs: Events, ids: set<Id>)
    requires Keyed(evs) && ids <= evs.Keys
    ensures |PositionsOf(evs, ids)| == |ids|
    decreases |ids|
  {
    if ids == {} {
      assert PositionsOf(evs, ids) == {};
    } else {
      var id :| id in ids;
      PositionsSize(evs, ids - {id});
      var rest := PositionsOf(evs, ids - {id});
      assert PositionsOf(evs, ids) == rest + {PosOf(evs[id])};
      assert PosOf(evs[id]) !in rest;
    }
  }

  /** COUNT of some authors and kinds without positive time bounds: point reads, exact for the plan's reading. */
  method CountAuthorKinds(store: PebbleStore, f: Filter) returns (sum: int)
    requires store.Readable() && store.CountersExact()
    requires Lax(f).ids.None? && Lax(f).authors.Some? && Lax(f).kinds.Some? && Lax(f).tags == map[]
    requires f.since <= 0 && f.until <= 0
    ensures sum == |Selected(store.events, Lax(f))|
  {
    hide Legible, Matches, Count, ByPair, Selected;
    var authors, kinds := f.authors.value, f.kinds.value;
    sum := 0;
    var seenA: set<PubKey> := {};
    NoPairs(store.events, {}, AsSet(kinds));
    var i := 0;
    while i < |authors|
      invariant 0 <= i <= |authors|
      invariant seenA == AsSet(authors[..i])
      invariant sum == |ByPair(store.events, seenA, AsSet(kinds))|
    {
      var a := authors[i];
      assert authors[..i + 1] == authors[..i] + [a];
      if a !in seenA {
        var seenK: set<Kind> := {};
        ghost var before := sum;
        NoPairs(store.events, {a}, {});
        var j := 0;
        while j < |kinds|
          invariant 0 <= j <= |kinds|
          invariant seenK == AsSet(kinds[..j])
          invariant sum == before + |ByPair(store.events, {a}, seenK)|
        {
          var kind := kinds[j];
          assert kinds[..j + 1] == kinds[..j] + [kind];
          if kind !in seenK {
            PairKind(store.events, a, seenK, kind);
            seenK := seenK + {kind};
            sum := sum + CounterOf(store.db, AuthorKind(a, kind));
          }
          assert seenK == AsSet(kinds[..j + 1]);
          j := j + 1;
        }
        assert kinds[..|kinds|] == kinds;
        PairAuthor(store.events, seenA, a, AsSet(kinds));
        seenA := seenA + {a};
      }
      assert seenA == AsSet(authors[..i + 1]);
      i := i + 1;
    }
    assert authors[..|authors|] == authors;
    PairsAreSelected(store.events, Lax(f));
  }

  lemma {:induction false} NoPairs(evs: Events, authors: set<PubKey>, kinds: set<Kind>)
    requires authors == {} || kinds == {}
    ensures ByPair(evs, authors, kinds) == {}
  {
  }
}
