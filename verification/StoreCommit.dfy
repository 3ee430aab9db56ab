/** The single writer (eventstore/pebbledb2/store.go): one batch per group of requests. */
module StoreCommit {
  import opened ByteStrings
  import opened NostrEvents
  import opened StoreKeys
  import opened StoreTables
  import opened StoreSpec

  /** The positions an iterator over one index prefix visits. */
  function Positions(db: Db, prefix: Prefix): set<Pos> {
    set k | k in db && k.Index? && k.prefix == prefix :: k.at
  }

  lemma {:induction false} PositionsAre(rule: TagRule, db: Db, evs: Events, prefix: Prefix)
    requires Keyed(evs) && Legible(rule, db, evs)
    ensures Positions(db, prefix) == set id | id in evs && prefix in Prefixes(rule, evs[id]) :: PosOf(evs[id])
  {
    var right := set id | id in evs && prefix in Prefixes(rule, evs[id]) :: PosOf(evs[id]);
    forall p | p in Positions(db, prefix) ensures p in right {
      assert Get(db, Index(prefix, p)) == Expected(rule, evs, Index(prefix, p));
    }
    forall p | p in right ensures p in Positions(db, prefix) {
      assert Get(db, Index(prefix, p)) == Expected(rule, evs, Index(prefix, p));
      assert Index(prefix, p) in db;
    }
  }

  /** The index entry of a stored event leads to its body. */
  lemma {:induction false} BodyAt(rule: TagRule, db: Db, evs: Events, p: Pos)
    requires Legible(rule, db, evs)
    requires p.id in evs && p == PosOf(evs[p.id])
    ensures Get(db, Body(p)) == Some(Raw(evs[p.id]))
  {
    assert Get(db, Body(p)) == Expected(rule, evs, Body(p));
  }

  /** `Prefixes` says who is under an author and kind. */
  lemma {:induction false} AuthorKindPrefix(rule: TagRule, ev: Event, pubkey: PubKey, kind: Kind)
    ensures ByAuthorKind(pubkey, kind) in Prefixes(rule, ev) <==> ev.pubkey == pubkey && ev.kind == kind
  {
  }

  lemma {:induction false} VersionMatches(ev: Event, other: Event)
    ensures Matches(VersionFilter(ev), other) <==>
            && other.pubkey == ev.pubkey && other.kind == ev.kind
            && (IsAddressable(ev.kind) ==> ContainsAny(other.tags, D_TAG, [GetD(ev.tags)]))
  {
    var f := VersionFilter(ev);
    if IsAddressable(ev.kind) {
      assert f.tags == map[D_TAG := [GetD(ev.tags)]];
      assert D_TAG in f.tags;
    }
  }

  /** What the version scan finds at a position of its index. */
  lemma {:induction false} VersionAt(rule: TagRule, db: Db, evs: Events, ev: Event, p: Pos)
    requires Keyed(evs) && Legible(rule, db, evs)
    requires p in Positions(db, ByAuthorKind(ev.pubkey, ev.kind))
    ensures p.id in evs && Get(db, Body(p)) == Some(Raw(evs[p.id]))
    ensures p in Selected(evs, VersionFilter(ev)) <==>
            !IsAddressable(ev.kind) || Matches(VersionFilter(ev), evs[p.id])
  {
    hide Matches, Prefixes, VersionFilter, Legible;
    PositionsAre(rule, db, evs, ByAuthorKind(ev.pubkey, ev.kind));
    var e := evs[p.id];
    BodyAt(rule, db, evs, p);
    AuthorKindPrefix(rule, e, ev.pubkey, ev.kind);
    VersionMatches(ev, e);
    assert PosOf(e) == p;
  }

  lemma {:induction false} VersionsAmong(rule: TagRule, db: Db, evs: Events, ev: Event)
    requires Keyed(evs) && Legible(rule, db, evs)
    ensures Selected(evs, VersionFilter(ev)) <= Positions(db, ByAuthorKind(ev.pubkey, ev.kind))
  {
    hide Matches, Prefixes, VersionFilter, Legible;
    PositionsAre(rule, db, evs, ByAuthorKind(ev.pubkey, ev.kind));
    forall p | p in Selected(evs, VersionFilter(ev)) ensures p in Positions(db, ByAuthorKind(ev.pubkey, ev.kind)) {
      var id :| id in evs && Matches(VersionFilter(ev), evs[id]) && p == PosOf(evs[id]);
      VersionMatches(ev, evs[id]);
      AuthorKindPrefix(rule, evs[id], ev.pubkey, ev.kind);
    }
  }

  lemma {:induction false} EventsAtMore(evs: Events, ps: seq<Pos>, p: Pos)
    requires AllStored(evs, ps) && p.id in evs
    ensures AllStored(evs, ps + [p]) && EventsAt(evs, ps + [p]) == EventsAt(evs, ps) + [evs[p.id]]
  {
  }

  lemma {:induction false} KeepNone(evs: Events, s: set<Pos>)
    ensures Keep([], s) == [] && AllStored(evs, []) && EventsAt(evs, []) == []
  {
  }

  class PebbleStore {
    const rule: TagRule
    var db: Db
    /** What the database stands for. */
    ghost var events: Events

    ghost predicate Valid()
      reads this
    {
      && Keyed(events)
      && Describes(rule, db, events)
      && TypedCounters(db)
    }

    /** As valid, but for signatures that old rows may lack. */
    ghost predicate Readable()
      reads this
    {
      && Keyed(events)
      && Legible(rule, db, events)
      && TypedCounters(db)
    }

    lemma {:induction false} ValidIsReadable()
      requires Valid()
      ensures Readable()
    {
      DescribedIsLegible(rule, db, events);
    }

    /** Every rollup counter holds the number of stored events in its bucket. */
    ghost predicate CountersExact()
      reads this
    {
      forall b :: CounterOf(db, b) == Count(events, b)
    }

    constructor (rule: TagRule)
      ensures this.rule == rule && Valid() && CountersExact() && events == map[]
    {
      this.rule := rule;
      db := map[];
      events := map[];
    }

    /** All stored versions of the event's replacement key, and the newest of them. */
    method FindReplaceVersions(ev: Stored) returns (existing: seq<Stored>, newest: Option<Stored>)
      requires Readable()
      ensures existing == Versions(events, ev)
      ensures newest == if existing == [] then None else Some(existing[0])
    {
      hide Matches, Prefixes, VersionFilter, Legible, Timeline, Selected, Positions, Keep, Keyed, AllStored, EventsAt;
      var f := VersionFilter(ev);
      var all := Positions(db, ByAuthorKind(ev.pubkey, ev.kind));
      TimelineIs(all);
      existing := LoadVersions(ev, Timeline(all));
      VersionsAmong(rule, db, events, ev);
      KeepTimeline(all, Selected(events, f));
      newest := NewestOf(existing, f);
    }

    /** Loads the bodies at the positions of the author and kind index, keeping those that match. */
    method LoadVersions(ev: Stored, ps: seq<Pos>) returns (existing: seq<Stored>)
      requires Readable() && forall p :: p in ps ==> p in Positions(db, ByAuthorKind(ev.pubkey, ev.kind))
      ensures AllStored(events, Keep(ps, Selected(events, VersionFilter(ev))))
      ensures existing == EventsAt(events, Keep(ps, Selected(events, VersionFilter(ev))))
    {
      hide Matches, Prefixes, VersionFilter, Legible, Selected, Positions, Keep, Keyed, AllStored, EventsAt;
      var f := VersionFilter(ev);
      ghost var selected := Selected(events, f);
      existing := [];
      KeepNone(events, selected);
      assert ps[..0] == [];
      var i := 0;
      while i < |ps|
        invariant 0 <= i <= |ps|
        invariant AllStored(events, Keep(ps[..i], selected))
        invariant existing == EventsAt(events, Keep(ps[..i], selected))
      {
        KeepStep(ps, selected, i);
        assert ps[i] in ps;
        VersionAt(rule, db, events, ev, ps[i]);
        var e := db[Body(ps[i])].ev;
        EventsAtMore(events, Keep(ps[..i], selected), ps[i]);
        if !IsAddressable(ev.kind) || Matches(f, e) {
          existing := existing + [e];
        } else {
          assert Keep(ps[..i], selected) + [] == Keep(ps[..i], selected);
        }
        i := i + 1;
      }
      assert ps[..|ps|] == ps;
    }

    /** The first of the newest. */
    method NewestOf(existing: seq<Stored>, ghost f: Filter) returns (newest: Option<Stored>)
      requires Keyed(events) && existing == Query(events, f)
      ensures newest == if existing == [] then None else Some(existing[0])
    {
      hide Query, Keyed;
      newest := None;
      var j := 0;
      while j < |existing|
        invariant 0 <= j <= |existing|
        invariant newest == if j == 0 then None else Some(existing[0])
      {
        NewestFirst(events, f, j);
        if newest.None? || existing[j].createdAt > newest.value.createdAt {
          newest := Some(existing[j]);
        }
        j := j + 1;
      }
    }

    /**
     Commits a group as one batch. Afterwards the tables describe the events that the fold leaves,
     the requesters hear what the fold says, and every counter has moved by the logged amounts.
     */
    method CommitGroup(group: seq<Request>, ghost names: Naming) returns (replies: seq<StoreSpec.Reply>)
      requires Valid() && Named(names, events)
      requires forall i :: 0 <= i < |group| ==> NamedEvent(names, group[i].ev)
      modifies this
      ensures Valid() && Named(names, events)
      ensures events == Committed(old(events), group).current
      ensures replies == Committed(old(events), group).replies
      ensures forall b :: CounterOf(db, b) == old(CounterOf(db, b)) + Net(Committed(old(events), group).log, b)
    {
      hide Describes, SameCounters, Buckets, Step;
      var g := new Group(this);
      g.DedupPass(group);
      ghost var st := StoreSpec.Start(events);
      var i := 0;
      while i < |group|
        invariant 0 <= i <= |group|
        invariant st == After(events, group, i)
        invariant g.Mirrors(st) && Honest(names, st)
        invariant forall j :: 0 <= j < |group| && group[j].Save? ==> group[j].ev.id in g.saveDedup
        invariant forall id :: id in g.saveDedup ==> (g.saveDedup[id] <==> id in events)
        modifies g
      {
        StepHonest(names, events, st, group[i]);
        g.HandleOne(group[i], names, st);
        st := Step(events, st, group[i]);
        i := i + 1;
      }
      ghost var before := g.Pending();
      g.MergeDeltas();
      MergedDescribes(rule, db, before, g.Pending(), g.counterDelta, st.current);
      db := ApplyAll(db, g.batch);
      events := st.current;
      replies := g.replies;
    }
  }

  lemma {:induction false} StepIs(evs: Events, st: GroupState, req: Request)
    requires Keyed(evs)
    ensures Step(evs, st, req) ==
            match req
            case Save(ev) => SaveStep(evs, st, ev)
            case Delete(ev) => DeleteStep(evs, st, ev)
            case Replace(ev) => ReplaceAgainst(st, LedgerFor(evs, st, ev), ev)
  {
  }

  lemma {:induction false} MergedDescribes(rule: TagRule, db: Db, before: Db, after: Db, delta: map<Bucket, int>,
                                           current: Events)
    requires SameCounters(db, before) && TypedCounters(db) && Describes(rule, before, current)
    requires Merged(before, after, delta, {})
    ensures Describes(rule, after, current) && TypedCounters(after)
    ensures forall b :: CounterOf(after, b) == CounterOf(db, b) + DeltaOf(delta, b)
  {
    forall b ensures Counter(b) in before ==> before[Counter(b)].Total? {
      assert Get(before, Counter(b)) == Get(db, Counter(b));
    }
    forall b ensures CounterOf(before, b) == CounterOf(db, b) {
      assert Get(before, Counter(b)) == Get(db, Counter(b));
    }
    forall k: Key | !k.Counter? ensures Get(after, k) == Expected(rule, current, k) {
      assert Get(before, k) == Expected(rule, current, k);
    }
  }

  /** Queries run newest first. */
  lemma {:induction false} NewestFirst(evs: Events, f: Filter, j: nat)
    requires Keyed(evs) && j < |Query(evs, f)|
    ensures Query(evs, f)[j].createdAt <= Query(evs, f)[0].createdAt
  {
    hide Matches;
    SelectedStored(evs, f);
    var ps := Timeline(Selected(evs, f));
    TimelineIs(Selected(evs, f));
    assert ps[j] in Selected(evs, f) && ps[0] in Selected(evs, f);
    if j > 0 {
      assert PosLess(ps[j], ps[0]);
    }
  }

  // ---- a group ----

  function DeltaOf(delta: map<Bucket, int>, b: Bucket): int {
    if b in delta then delta[b] else 0
  }

  /** The batch leaves the counters alone until the group's deltas are merged in. */
  ghost predicate SameCounters(before: Db, after: Db) {
    forall b :: Get(after, Counter(b)) == Get(before, Counter(b))
  }

  ghost predicate NamedEvent(names: Naming, ev: Event) {
    names(ev.id) == ev
  }

  ghost predicate NamedList(names: Naming, evs: seq<Event>) {
    forall i :: 0 <= i < |evs| ==> NamedEvent(names, evs[i])
  }

  ghost predicate NamedLedgers(names: Naming, ledgers: map<ReplaceKey, Ledger>) {
    forall key :: key in ledgers ==> NamedList(names, AsList(ledgers[key].newest))
                                     && NamedList(names, ledgers[key].toDelete)
  }

  lemma {:induction false} WroteIsDisjoint(rule: TagRule, before: Db, after: Db, ev: Event, done: set<Key>)
    requires Wrote(rule, before, after, ev, done)
    requires forall k :: k in done ==> k in Footprint(rule, ev)
    ensures SameCounters(before, after)
  {
    hide Row, Footprint;
    forall b ensures Get(after, Counter(b)) == Get(before, Counter(b)) {
      RowsInFootprint(rule, ev, Counter(b));
    }
  }

  lemma {:induction false} DroppedIsDisjoint(rule: TagRule, before: Db, after: Db, ev: Event)
    requires Dropped(before, after, Footprint(rule, ev))
    ensures SameCounters(before, after)
  {
    hide Row, Footprint;
    forall b ensures Get(after, Counter(b)) == Get(before, Counter(b)) {
      RowsInFootprint(rule, ev, Counter(b));
    }
  }

  /** The local state of `commitGroup`. */
  class Group {
    const store: PebbleStore
    var batch: seq<Op>
    var counterDelta: map<Bucket, int>
    var saveDedup: map<Id, bool>
    var seenSave: set<Id>
    var seenDel: set<Id>
    var ledgers: map<ReplaceKey, Ledger>
    var replies: seq<Reply>

    /** The database as it will be once the batch so far is applied. */
    ghost function Pending(): Db
      reads this, store
    {
      ApplyAll(store.db, batch)
    }

    ghost predicate CountedBy(log: seq<Bump>)
      reads this
    {
      forall b :: DeltaOf(counterDelta, b) == Net(log, b)
    }

    ghost predicate Mirrors(st: GroupState)
      reads this, store
    {
      && store.Valid()
      && Describes(store.rule, Pending(), st.current)
      && SameCounters(store.db, Pending())
      && CountedBy(st.log)
      && seenSave == st.seenSave
      && seenDel == st.seenDel
      && ledgers == st.ledgers
      && replies == st.replies
    }

    constructor (store: PebbleStore)
      requires store.Valid()
      ensures this.store == store && Mirrors(StoreSpec.Start(store.events))
    {
      this.store := store;
      batch, counterDelta, saveDedup, seenSave, seenDel, ledgers, replies := [], map[], map[], {}, {}, map[], [];
    }

    /** Adjusts the five counters of an event. */
    method BumpCounters(ev: Stored, d: int)
      modifies this`counterDelta
      ensures forall b :: DeltaOf(counterDelta, b) == old(DeltaOf(counterDelta, b)) + d * Hit(ev, b)
    {
      var day, hour := DayOf(ev.createdAt), HourOf(ev.createdAt);
      hide DayOf, HourOf;
      AddDelta(KindDay(ev.kind, day), d);
      AddDelta(Day(day), d);
      AddDelta(KindHour(ev.kind, hour), d);
      AddDelta(Hour(hour), d);
      AddDelta(AuthorKind(ev.pubkey, ev.kind), d);
    }

    method AddDelta(b: Bucket, d: int)
      modifies this`counterDelta
      ensures forall c :: DeltaOf(counterDelta, c) == old(DeltaOf(counterDelta, c)) + (if c == b then d else 0)
    {
      counterDelta := counterDelta[b := DeltaOf(counterDelta, b) + d];
    }

    method SetRow(k: Key, v: Value, ghost ev: Event, ghost before: Db, ghost done: set<Key>)
      requires Wrote(store.rule, before, Pending(), ev, done) && Row(store.rule, ev, k) == Some(v)
      modifies this`batch
      ensures Wrote(store.rule, before, Pending(), ev, done + {k})
    {
      hide Row, Wrote, ApplyAll;
      ApplyOne(store.db, batch, Put(k, v));
      WriteOne(store.rule, before, Pending(), ev, done, k, v);
      batch := batch + [Put(k, v)];
    }

    method DropRow(k: Key, ghost before: Db, ghost done: set<Key>)
      requires Dropped(before, Pending(), done)
      modifies this`batch
      ensures Dropped(before, Pending(), done + {k})
    {
      hide Dropped, ApplyAll;
      ApplyOne(store.db, batch, Drop(k));
      DropOne(before, Pending(), done, k);
      batch := batch + [Drop(k)];
    }

    /** Puts every row of an event into the batch. */
    method WriteEvent(ev: Stored, ghost current: Events)
      requires Describes(store.rule, Pending(), current) && (ev.id in current ==> current[ev.id] == ev)
      requires SameCounters(store.db, Pending())
      modifies this`batch
      ensures Describes(store.rule, Pending(), current[ev.id := ev])
      ensures SameCounters(store.db, Pending())
    {
      hide Describes, Wrote, SameCounters, Prefixes, Bloom.SignatureOf;
      ghost var before := Pending();
      ghost var rule := store.rule;
      assert Wrote(rule, before, before, ev, {}) by { WroteNothing(rule, before, ev); }
      assert {} + {Locator(ev.id)} == {Locator(ev.id)};
      SetRow(Locator(ev.id), Stamp(ev.createdAt), ev, before, {});
      SetRow(Body(PosOf(ev)), Raw(ev), ev, before, {Locator(ev.id)});
      ghost var done := {Locator(ev.id), Body(PosOf(ev))};
      assert {Locator(ev.id)} + {Body(PosOf(ev))} == done;
      var keys := IndexKeysFor(store.rule, ev);
      var i := 0;
      while i < |keys|
        invariant 0 <= i <= |keys|
        invariant forall k :: k in done <==> k in {Locator(ev.id), Body(PosOf(ev))} || k in keys[..i]
        invariant Wrote(rule, before, Pending(), ev, done)
        modifies this`batch
      {
        assert keys[i] in keys;
        SetRow(keys[i], Empty, ev, before, done);
        done := done + {keys[i]};
        assert keys[..i + 1] == keys[..i] + [keys[i]];
        i := i + 1;
      }
      assert keys[..|keys|] == keys;
      var bloom := Bloom.ContentBloom(ev.content);
      if bloom.Some? {
        SetRow(Signature(PosOf(ev)), Bits(Bloom.BitSet(bloom.value)), ev, before, done);
        done := done + {Signature(PosOf(ev))};
      }
      WriteDescribes(rule, before, Pending(), current, ev, done);
      WroteIsDisjoint(rule, before, Pending(), ev, done);
      SameCountersChain(store.db, before, Pending());
    }

    /** Removes every row of an event. */
    method DropEvent(ev: Stored, ghost current: Events)
      requires Describes(store.rule, Pending(), current) && (ev.id in current ==> current[ev.id] == ev)
      requires SameCounters(store.db, Pending())
      modifies this`batch
      ensures Describes(store.rule, Pending(), current - {ev.id})
      ensures SameCounters(store.db, Pending())
    {
      hide Describes, Dropped, SameCounters, Prefixes, Bloom.SignatureOf;
      ghost var before := Pending();
      ghost var rule := store.rule;
      DroppedNothing(before);
      assert {} + {Locator(ev.id)} == {Locator(ev.id)};
      assert {Locator(ev.id)} + {Body(PosOf(ev))} == {Locator(ev.id), Body(PosOf(ev))};
      DropRow(Locator(ev.id), before, {});
      DropRow(Body(PosOf(ev)), before, {Locator(ev.id)});
      DropRow(Signature(PosOf(ev)), before, {Locator(ev.id), Body(PosOf(ev))});
      ghost var done := {Locator(ev.id), Body(PosOf(ev)), Signature(PosOf(ev))};
      assert {Locator(ev.id), Body(PosOf(ev))} + {Signature(PosOf(ev))} == done;
      var keys := IndexKeysFor(store.rule, ev);
      var i := 0;
      while i < |keys|
        invariant 0 <= i <= |keys|
        invariant forall k :: k in done <==>
                              k in {Locator(ev.id), Body(PosOf(ev)), Signature(PosOf(ev))} || k in keys[..i]
        invariant Dropped(before, Pending(), done)
        modifies this`batch
      {
        DropRow(keys[i], before, done);
        done := done + {keys[i]};
        assert keys[..i + 1] == keys[..i] + [keys[i]];
        i := i + 1;
      }
      assert keys[..|keys|] == keys;
      assert done == Footprint(rule, ev);
      DropDescribes(rule, before, Pending(), current, ev);
      DroppedIsDisjoint(rule, before, Pending(), ev);
      SameCountersChain(store.db, before, Pending());
    }

    /** Looks up, before the fold, every id that a plain save brings. */
    method DedupPass(group: seq<Request>)
      requires store.Valid()
      modifies this`saveDedup
      ensures forall i :: 0 <= i < |group| && group[i].Save? ==> group[i].ev.id in saveDedup
      ensures forall id :: id in saveDedup ==> (saveDedup[id] <==> id in store.events)
    {
      saveDedup := map[];
      var i := 0;
      while i < |group|
        invariant 0 <= i <= |group|
        invariant forall j :: 0 <= j < i && group[j].Save? ==> group[j].ev.id in saveDedup
        invariant forall id :: id in saveDedup ==> (saveDedup[id] <==> id in store.events)
      {
        if group[i].Save? {
          var id := group[i].ev.id;
          assert Get(store.db, Locator(id)) == Expected(store.rule, store.events, Locator(id));
          saveDedup := saveDedup[id := Locator(id) in store.db];
        }
        i := i + 1;
      }
    }

    method Reply(r: StoreSpec.Reply)
      modifies this`replies
      ensures replies == old(replies) + [r]
    {
      replies := replies + [r];
    }

    /** Stores an event and counts it. */
    method Insert(ev: Stored, ghost current: Events, ghost log: seq<Bump>)
      requires Describes(store.rule, Pending(), current) && (ev.id in current ==> current[ev.id] == ev)
      requires SameCounters(store.db, Pending()) && CountedBy(log)
      modifies this`batch, this`counterDelta
      ensures Describes(store.rule, Pending(), current[ev.id := ev])
      ensures SameCounters(store.db, Pending()) && CountedBy(log + [Bump(ev, 1)])
    {
      hide Describes, SameCounters, Buckets;
      WriteEvent(ev, current);
      NetOne(log, Bump(ev, 1));
      BumpCounters(ev, 1);
    }

    /** Removes an event and discounts it. */
    method Remove(ev: Stored, ghost current: Events, ghost log: seq<Bump>)
      requires Describes(store.rule, Pending(), current) && (ev.id in current ==> current[ev.id] == ev)
      requires SameCounters(store.db, Pending()) && CountedBy(log)
      modifies this`batch, this`counterDelta
      ensures Describes(store.rule, Pending(), current - {ev.id})
      ensures SameCounters(store.db, Pending()) && CountedBy(log + [Bump(ev, -1)])
    {
      hide Describes, SameCounters, Buckets;
      DropEvent(ev, current);
      NetOne(log, Bump(ev, -1));
      BumpCounters(ev, -1);
    }

    method SaveOne(ev: Stored, ghost names: Naming, ghost st: GroupState)
      requires Mirrors(st) && Honest(names, st) && NamedEvent(names, ev)
      requires ev.id in saveDedup && (saveDedup[ev.id] <==> ev.id in store.events)
      modifies this
      ensures saveDedup == old(saveDedup)
      ensures Mirrors(SaveStep(store.events, st, ev))
    {
      hide Describes, SameCounters, Buckets;
      if ev.id in seenSave {
        Reply(REFUSED);
        return;
      }
      seenSave := seenSave + {ev.id};
      if ev.id in saveDedup && saveDedup[ev.id] {
        Reply(REFUSED);
        return;
      }
      Insert(ev, st.current, st.log);
      Reply(StoreSpec.Reply(true, []));
    }

    method DeleteOne(ev: Stored, ghost names: Naming, ghost st: GroupState)
      requires Mirrors(st) && Honest(names, st) && NamedEvent(names, ev)
      modifies this
      ensures saveDedup == old(saveDedup)
      ensures Mirrors(DeleteStep(store.events, st, ev))
    {
      hide SameCounters, Buckets;
      if ev.id in seenDel {
        Reply(REFUSED);
        return;
      }
      seenDel := seenDel + {ev.id};
      assert Get(store.db, Locator(ev.id)) == Expected(store.rule, store.events, Locator(ev.id));
      hide Describes;
      if Locator(ev.id) !in store.db {
        Reply(REFUSED);
        return;
      }
      Remove(ev, st.current, st.log);
      Reply(StoreSpec.Reply(true, []));
    }

    /** The ledger of the event's key, loaded from the database at its first replace. */
    method Touch(ev: Stored, ghost st: GroupState) returns (l: Ledger)
      requires Mirrors(st)
      modifies this`ledgers
      ensures l == LedgerFor(store.events, st, ev)
      ensures ledgers == old(ledgers)[KeyFor(ev) := l]
    {
      hide Describes, SameCounters, Versions;
      var key := KeyFor(ev);
      if key !in ledgers {
        store.ValidIsReadable();
        var existing, newest := store.FindReplaceVersions(ev);
        var toDelete: seq<Stored> := [];
        var i := 0;
        while i < |existing|
          invariant 0 <= i <= |existing| && toDelete == existing[..i]
        {
          toDelete := toDelete + [existing[i]];
          i := i + 1;
        }
        ledgers := ledgers[key := Ledger(newest, toDelete)];
      }
      l := ledgers[key];
      assert ledgers == old(ledgers)[key := l];
    }

    /** Marks the superseded versions, collecting those not removed before. */
    method Supersede(olds: seq<Stored>, id: Id) returns (deleted: seq<Stored>)
      modifies this`seenDel
      ensures deleted == Victims(olds, id, old(seenDel))
      ensures seenDel == old(seenDel) + IdSet(deleted)
    {
      hide Victims, IdSet;
      deleted := [];
      IdSetNone();
      assert olds[0..] == olds;
      var i := 0;
      while i < |olds|
        invariant 0 <= i <= |olds|
        invariant deleted + Victims(olds[i..], id, seenDel) == Victims(olds, id, old(seenDel))
        invariant seenDel == old(seenDel) + IdSet(deleted)
      {
        var o := olds[i];
        VictimsStep(olds, i, id, seenDel);
        if o.id != id && o.id !in seenDel {
          IdSetAppend(deleted, o);
          seenDel := seenDel + {o.id};
          deleted := deleted + [o];
        }
        i := i + 1;
      }
      VictimsNone(id, seenDel);
      assert olds[|olds|..] == [];
    }

    method ReplaceOne(ev: Stored, ghost names: Naming, ghost st: GroupState)
      requires Mirrors(st) && Honest(names, st) && NamedEvent(names, ev) && Named(names, store.events)
      modifies this
      ensures saveDedup == old(saveDedup)
      ensures Mirrors(ReplaceAgainst(st, LedgerFor(store.events, st, ev), ev))
    {
      hide Describes, SameCounters, Buckets, KeyFor, LedgerFor, Victims, IdSet;
      var l := Touch(ev, st);
      LedgerNamed(names, store.events, st, ev);
      if l.newest.Some? && l.newest.value.createdAt >= ev.createdAt {
        Reply(REFUSED);
        return;
      }
      Accept(ev, l, names, st);
    }

    /** `ev` wins: the versions it supersedes go, unless the group has stored it already. */
    method Accept(ev: Stored, l: Ledger, ghost names: Naming, ghost st: GroupState)
      requires Mirrors(st.(ledgers := st.ledgers[KeyFor(ev) := l]))
      requires Named(names, st.current) && NamedEvent(names, ev)
      requires NamedList(names, l.toDelete) && NamedList(names, AsList(l.newest))
      requires l.newest.Some? ==> l.newest.value.createdAt < ev.createdAt
      modifies this
      ensures saveDedup == old(saveDedup)
      ensures Mirrors(ReplaceAgainst(st, l, ev))
    {
      hide Describes, SameCounters, Buckets, KeyFor, Victims, IdSet;
      var deleted := Supersede(l.toDelete + AsList(l.newest), ev.id);
      VictimsNamed(names, l.toDelete + AsList(l.newest), ev.id, st.seenDel);
      ledgers := ledgers[KeyFor(ev) := Ledger(Some(ev), [])];
      assert ledgers == st.ledgers[KeyFor(ev) := Ledger(Some(ev), [])];
      if ev.id in seenSave {
        Reply(REFUSED);
        return;
      }
      seenSave := seenSave + {ev.id};
      Insert(ev, st.current, st.log);
      DropVictims(deleted, names, st.current[ev.id := ev], st.log + [Bump(ev, 1)]);
      Reply(StoreSpec.Reply(true, deleted));
    }

    method DropVictims(deleted: seq<Stored>, ghost names: Naming, ghost current: Events, ghost log: seq<Bump>)
      requires Describes(store.rule, Pending(), current) && Named(names, current) && NamedList(names, deleted)
      requires SameCounters(store.db, Pending())
      requires CountedBy(log)
      modifies this`batch, this`counterDelta
      ensures Describes(store.rule, Pending(), current - IdSet(deleted))
      ensures SameCounters(store.db, Pending())
      ensures CountedBy(log + Removals(deleted))
    {
      hide Describes, SameCounters, Buckets;
      var i := 0;
      assert log + Removals(deleted[..0]) == log;
      assert current - IdSet(deleted[..0]) == current;
      while i < |deleted|
        invariant 0 <= i <= |deleted|
        invariant Describes(store.rule, Pending(), current - IdSet(deleted[..i]))
        invariant SameCounters(store.db, Pending())
        invariant CountedBy(log + Removals(deleted[..i]))
        modifies this`batch, this`counterDelta
      {
        assert NamedEvent(names, deleted[i]);
        Remove(deleted[i], current - IdSet(deleted[..i]), log + Removals(deleted[..i]));
        assert deleted[..i + 1] == deleted[..i] + [deleted[i]];
        IdSetAppend(deleted[..i], deleted[i]);
        assert current - IdSet(deleted[..i + 1]) == (current - IdSet(deleted[..i])) - {deleted[i].id};
        assert log + Removals(deleted[..i + 1]) == (log + Removals(deleted[..i])) + [Bump(deleted[i], -1)];
        i := i + 1;
      }
      assert deleted[..|deleted|] == deleted;
    }

    method HandleOne(req: Request, ghost names: Naming, ghost st: GroupState)
      requires Mirrors(st) && Honest(names, st) && NamedEvent(names, req.ev) && Named(names, store.events)
      requires req.Save? ==> req.ev.id in saveDedup && (saveDedup[req.ev.id] <==> req.ev.id in store.events)
      modifies this
      ensures saveDedup == old(saveDedup)
      ensures Mirrors(Step(store.events, st, req))
    {
      hide Describes, SameCounters, Buckets, Step;
      StepIs(store.events, st, req);
      match req
      case Save(ev) => SaveOne(ev, names, st);
      case Delete(ev) => DeleteOne(ev, names, st);
      case Replace(ev) => ReplaceOne(ev, names, st);
    }

    /** Folds the deltas into the batch as merge operands. */
    method MergeDeltas()
      modifies this`batch
      ensures Merged(old(Pending()), Pending(), counterDelta, {})
    {
      hide ApplyAll;
      var todo := counterDelta.Keys;
      ghost var before := Pending();
      while todo != {}
        invariant todo <= counterDelta.Keys
        invariant Merged(before, Pending(), counterDelta, todo)
        decreases todo
        modifies this`batch
      {
        var b :| b in todo;
        var delta := counterDelta[b];
        MergeOne(before, Pending(), counterDelta, todo, b);
        if delta != 0 {
          ApplyOne(store.db, batch, Merge(b, delta));
          batch := batch + [Merge(b, delta)];
        }
        todo := todo - {b};
      }
    }
  }

  ghost predicate TypedCounters(db: Db) {
    forall b :: Counter(b) in db ==> db[Counter(b)].Total?
  }

  /** `after` is `before` with the deltas added, those of `todo` excepted. */
  ghost predicate Merged(before: Db, after: Db, delta: map<Bucket, int>, todo: set<Bucket>) {
    && (forall k: Key :: !k.Counter? ==> Get(after, k) == Get(before, k))
    && (forall b :: CounterOf(after, b) == CounterOf(before, b) + (if b in todo then 0 else DeltaOf(delta, b)))
    && (TypedCounters(before) ==> TypedCounters(after))
  }

  lemma {:induction false} MergeOne(before: Db, after: Db, delta: map<Bucket, int>, todo: set<Bucket>, b: Bucket)
    requires Merged(before, after, delta, todo) && b in todo
    ensures Merged(before,
                   if DeltaOf(delta, b) != 0 then Apply(after, Merge(b, DeltaOf(delta, b))) else after,
                   delta, todo - {b})
  {
  }

  lemma {:induction false} IdSetAppend(evs: seq<Stored>, ev: Stored)
    ensures IdSet(evs + [ev]) == IdSet(evs) + {ev.id}
  {
    forall id | id in IdSet(evs) ensures id in IdSet(evs + [ev]) {
      var i :| 0 <= i < |evs| && evs[i].id == id;
      assert (evs + [ev])[i].id == id;
    }
    assert (evs + [ev])[|evs|].id == ev.id;
  }

  lemma {:induction false} IdSetNone()
    ensures IdSet([]) == {}
  {
  }

  lemma {:induction false} VictimsNone(id: Id, seenDel: set<Id>)
    ensures Victims([], id, seenDel) == []
  {
  }

  lemma {:induction false} VictimsStep(olds: seq<Stored>, i: nat, id: Id, seenDel: set<Id>)
    requires i < |olds|
    ensures Victims(olds[i..], id, seenDel) ==
            if olds[i].id == id || olds[i].id in seenDel then Victims(olds[i + 1..], id, seenDel)
            else [olds[i]] + Victims(olds[i + 1..], id, seenDel + {olds[i].id})
  {
    assert olds[i..][1..] == olds[i + 1..];
  }

  lemma {:induction false} NetOne(log: seq<Bump>, bump: Bump)
    ensures forall b :: Net(log + [bump], b) == Net(log, b) + bump.d * Hit(bump.ev, b)
  {
    assert (log + [bump])[..|log|] == log;
  }

  lemma {:induction false} LedgerNamed(names: Naming, evs: Events, st: GroupState, ev: Stored)
    requires Named(names, evs) && NamedLedgers(names, st.ledgers)
    ensures NamedList(names, LedgerFor(evs, st, ev).toDelete)
    ensures NamedList(names, AsList(LedgerFor(evs, st, ev).newest))
  {
    if KeyFor(ev) !in st.ledgers {
      QueryNamed(names, evs, VersionFilter(ev));
    }
  }

  lemma {:induction false} QueryNamed(names: Naming, evs: Events, f: Filter)
    requires Named(names, evs)
    ensures NamedList(names, Query(evs, f))
  {
    hide Matches;
    SelectedStored(evs, f);
  }

  lemma {:induction false} VictimsNamed(names: Naming, olds: seq<Stored>, id: Id, seenDel: set<Id>)
    requires NamedList(names, olds)
    ensures NamedList(names, Victims(olds, id, seenDel))
  {
    if olds != [] {
      assert NamedList(names, olds[1..]);
      if olds[0].id == id || olds[0].id in seenDel {
        VictimsNamed(names, olds[1..], id, seenDel);
      } else {
        VictimsNamed(names, olds[1..], id, seenDel + {olds[0].id});
        assert NamedEvent(names, olds[0]);
      }
    }
  }

  lemma {:induction false} StepHonest(names: Naming, evs: Events, st: GroupState, req: Request)
    requires Named(names, evs) && Honest(names, st) && NamedEvent(names, req.ev)
    ensures Honest(names, Step(evs, st, req))
  {
    hide KeyFor, LedgerFor, Victims, IdSet, NamedLedgers, ReplaceAgainst, SaveStep, DeleteStep;
    match req
    case Save(ev) => SaveHonest(names, evs, st, ev);
    case Delete(ev) => SaveHonest(names, evs, st, ev);
    case Replace(ev) =>
      LedgerNamed(names, evs, st, ev);
      ReplaceHonest(names, st, LedgerFor(evs, st, ev), ev);
  }

  lemma {:induction false} SaveHonest(names: Naming, evs: Events, st: GroupState, ev: Stored)
    requires Honest(names, st) && NamedEvent(names, ev)
    ensures Honest(names, SaveStep(evs, st, ev)) && Honest(names, DeleteStep(evs, st, ev))
  {
    hide NamedLedgers;
  }

  lemma {:induction false} ReplaceHonest(names: Naming, st: GroupState, l: Ledger, ev: Stored)
    requires Honest(names, st) && NamedEvent(names, ev)
    requires NamedList(names, l.toDelete) && NamedList(names, AsList(l.newest))
    ensures Honest(names, ReplaceAgainst(st, l, ev))
  {
    hide KeyFor, Victims, IdSet;
  }

  ghost predicate Honest(names: Naming, st: GroupState) {
    Named(names, st.current) && NamedLedgers(names, st.ledgers)
  }

  lemma {:induction false} WroteNothing(rule: TagRule, db: Db, ev: Event)
    ensures Wrote(rule, db, db, ev, {})
  {
  }

  lemma {:induction false} DroppedNothing(db: Db)
    ensures Dropped(db, db, {})
  {
  }

  lemma {:induction false} SameCountersChain(a: Db, b: Db, c: Db)
    requires SameCounters(a, b) && SameCounters(b, c)
    ensures SameCounters(a, c)
  {
  }
}
