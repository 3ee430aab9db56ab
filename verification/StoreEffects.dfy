/**
 What a replace does to the store, in terms of the fields of events and of kind numbers: which
 stored events it competes with, which it removes, and what is left of a stream of them.
 */
module StoreEffects {
  import opened ByteStrings
  import opened NostrEvents
  import opened StoreKeys
  import opened StoreTables
  import opened StoreSpec
  import opened StoreCommit
  import opened StoreSequential
  import opened StoreInterference
  import opened StoreHistory

  // ---- who competes ----

  predicate IsDTag(t: Tag) {
    |t| >= 2 && t[0] == [0x64]
  }

  predicate HasDValue(ev: Event, v: Str) {
    exists i :: 0 <= i < |ev.tags| && IsDTag(ev.tags[i]) && ev.tags[i][1] == v
  }

  /** The value of the first "d" tag, or the empty string. */
  predicate IsFirstD(ev: Event, v: Str) {
    || (exists i :: 0 <= i < |ev.tags| && IsDTag(ev.tags[i]) && ev.tags[i][1] == v
                    && forall j :: 0 <= j < i ==> !IsDTag(ev.tags[j]))
    || (v == [] && forall j :: 0 <= j < |ev.tags| ==> !IsDTag(ev.tags[j]))
  }

  /** Same author and kind; for the kinds from 30000 to 39999 also the value of the first "d" tag. */
  ghost predicate Competes(ev: Event, other: Event) {
    && other.pubkey == ev.pubkey && other.kind == ev.kind
    && (30000 <= ev.kind < 40000 ==> exists v :: IsFirstD(ev, v) && HasDValue(other, v))
  }

  lemma {:induction false} FirstDIs(ev: Event, v: Str)
    ensures IsFirstD(ev, v) <==> v == GetD(ev.tags)
    decreases |ev.tags|
  {
    if ev.tags != [] && !IsDTag(ev.tags[0]) {
      var rest := ev.(tags := ev.tags[1..]);
      FirstDIs(rest, v);
      assert forall j :: 0 <= j < |rest.tags| ==> rest.tags[j] == ev.tags[j + 1];
      if i :| 0 <= i < |rest.tags| && IsDTag(rest.tags[i]) && rest.tags[i][1] == v
              && forall j :: 0 <= j < i ==> !IsDTag(rest.tags[j]) {
        assert IsDTag(ev.tags[i + 1]) && forall j :: 0 <= j < i + 1 ==> !IsDTag(ev.tags[j]);
      }
      if i :| 0 <= i < |ev.tags| && IsDTag(ev.tags[i]) && ev.tags[i][1] == v
              && forall j :: 0 <= j < i ==> !IsDTag(ev.tags[j]) {
        assert IsDTag(rest.tags[i - 1]) && forall j :: 0 <= j < i - 1 ==> !IsDTag(rest.tags[j]);
      }
    }
  }

  /** The search for versions finds exactly the competitors. */
  lemma {:induction false} SeenIff(ev: Event, other: Event)
    ensures Seen(KeyFor(ev), other) <==> Competes(ev, other)
  {
    var d := GetD(ev.tags);
    FirstDIs(ev, d);
    forall v | IsFirstD(ev, v) ensures v == d {
      FirstDIs(ev, v);
    }
    hide IsFirstD;
    if i :| 0 <= i < |other.tags| && IsDTag(other.tags[i]) && other.tags[i][1] == d {
      assert ContainsAny(other.tags, D_TAG, [d]);
    }
    if ContainsAny(other.tags, D_TAG, [d]) {
      var i :| 0 <= i < |other.tags| && |other.tags[i]| >= 2 && other.tags[i][0] == D_TAG && other.tags[i][1] in [d];
      assert HasDValue(other, d);
    }
  }

  // ---- one request ----

  /** Newest first, equal times by descending id. */
  ghost predicate NewestFirst(v: seq<Stored>) {
    forall i, j {:trigger v[i], v[j]} :: 0 <= i < j < |v| ==>
                                           v[j].createdAt < v[i].createdAt
                                           || (v[j].createdAt == v[i].createdAt && LexLess(v[j].id, v[i].id))
  }

  ghost predicate Outdated(before: Events, ev: Event) {
    forall id :: id in before && Competes(ev, before[id]) ==> before[id].createdAt < ev.createdAt
  }

  /** All competitors are older, and go; or the event is refused. */
  ghost predicate Replaced(before: Events, after: Events, ev: Stored, reply: StoreSpec.Reply) {
    if Outdated(before, ev) then
      && reply.stored && NewestFirst(reply.deleted)
      && (forall e: Stored :: e in reply.deleted <==> e.id in before && before[e.id] == e && Competes(ev, e))
      && (forall id :: id in after <==> id == ev.id || (id in before && !Competes(ev, before[id])))
      && (forall id :: id in after ==> after[id] == if id == ev.id then ev else before[id])
    else after == before && reply == Reply(false, [])
  }

  ghost predicate Saved(before: Events, after: Events, ev: Stored, reply: StoreSpec.Reply) {
    if ev.id in before then after == before && reply == Reply(false, [])
    else after == before[ev.id := ev] && reply == Reply(true, [])
  }

  /** The stored event with that id goes, whatever else the request says of it. */
  ghost predicate Erased(before: Events, after: Events, ev: Stored, reply: StoreSpec.Reply) {
    if ev.id in before then after == before - {ev.id} && reply == Reply(true, [])
    else after == before && reply == Reply(false, [])
  }

  lemma {:induction false} ReplaceEffect(names: Naming, before: Events, ev: Stored)
    requires Named(names, before) && NamedEvent(names, ev)
    ensures var c := Committed(before, [Replace(ev)]);
            |c.replies| == 1 && Replaced(before, c.current, ev, c.replies[0])
  {
    hide VersionsOf, Seen, KeyFor, Competes, Committed, Won, IdSet;
    var key := KeyFor(ev);
    var v := VersionsOf(before, key);
    LoneReplace(names, before, ev);
    VersionsOfIs(before, key);
    HeadOutranks(before, key, ev.createdAt);
    forall other: Event ensures Seen(key, other) <==> Competes(ev, other) {
      SeenIff(ev, other);
    }
    var c := Committed(before, [Replace(ev)]);
    if Outdated(before, ev) {
      forall x ensures x in c.current <==> x == ev.id || (x in before && !Competes(ev, before[x])) {
        WonMembers(names, before, ev, x);
      }
      forall e: Stored ensures e in v <==> e.id in before && before[e.id] == e && Competes(ev, e) {
        UnderVersions(before, key, e.id);
        InIdSet(v, e.id);
      }
      WonNamed(names, before, ev) by {
        assert Named(names, before);
      }
    }
  }

  lemma {:induction false} SaveEffect(before: Events, ev: Stored)
    requires Keyed(before)
    ensures var c := Committed(before, [Save(ev)]);
            |c.replies| == 1 && Saved(before, c.current, ev, c.replies[0])
  {
    Alone(before, Save(ev));
    StepIs(before, StoreSpec.Start(before), Save(ev));
  }

  lemma {:induction false} DeleteEffect(before: Events, ev: Stored)
    requires Keyed(before)
    ensures var c := Committed(before, [Delete(ev)]);
            |c.replies| == 1 && Erased(before, c.current, ev, c.replies[0])
  {
    Alone(before, Delete(ev));
    StepIs(before, StoreSpec.Start(before), Delete(ev));
  }

  /**
   `ReplaceEvent`: kinds 0, 3 and 10000 to 19999 compete by author and kind, kinds 30000 to 39999 by
   the "d" value too, and every other kind is saved.
   */
  method ReplaceEvent(store: PebbleStore, ev: Stored, ghost names: Naming) returns (reply: StoreSpec.Reply)
    requires store.Valid() && Named(names, store.events) && NamedEvent(names, ev)
    modifies store
    ensures store.Valid() && Named(names, store.events)
    ensures if ev.kind == 0 || ev.kind == 3 || 10000 <= ev.kind < 20000 || 30000 <= ev.kind < 40000
            then Replaced(old(store.events), store.events, ev, reply)
            else Saved(old(store.events), store.events, ev, reply)
  {
    hide Describes, Committed, Competes, Replaced, Saved, Keyed, TypedCounters;
    ghost var before := store.events;
    var req := if !IsReplaceable(ev.kind) && !IsAddressable(ev.kind) then Save(ev) else Replace(ev);
    if req.Replace? {
      ReplaceEffect(names, before, ev);
    } else {
      assert Keyed(before) by { NamedIsKeyed(names, before); }
      SaveEffect(before, ev);
    }
    var replies := store.CommitGroup([req], names);
    reply := replies[0];
  }

  lemma {:induction false} NamedIsKeyed(names: Naming, evs: Events)
    requires Named(names, evs)
    ensures Keyed(evs)
  {
  }

  // ---- streams ----

  /**
   Of two events that an orderly stream leaves, or left in place, no two share author and kind if the
   kind is 0, 3 or 10000 to 19999, and no two of kind 30000 to 39999 share a "d" value as well.
   */
  lemma {:induction false} NoTwoSurvive(names: Naming, evs: Events, groups: seq<seq<Request>>, a: Id, b: Id)
    requires Named(names, evs) && OneKeyed(evs, Flatten(groups)) && AtMostOne(evs)
    requires forall i :: 0 <= i < |groups| ==> Orderly(names, groups[i])
    requires var current := InGroups(evs, groups).current;
             && a in current && b in current && a != b
             && current[a].pubkey == current[b].pubkey && current[a].kind == current[b].kind
    ensures var current := InGroups(evs, groups).current;
            var kind := current[a].kind;
            && !(kind == 0 || kind == 3 || 10000 <= kind < 20000)
            && (30000 <= kind < 40000 ==> forall v :: !(HasDValue(current[a], v) && HasDValue(current[b], v)))
  {
    hide Orderly, OneKeyed, InGroups, Flatten, CameIn, HasNewest, VersionsOf, Competes;
    NewestSurvives(names, evs, groups);
    BatchingIsInvisible(names, evs, groups);
    var current := InGroups(evs, groups).current;
    var kind := current[a].kind;
    if kind == 0 || kind == 3 || 10000 <= kind < 20000 {
      OneOfEach(current, ReplaceKey(current[a].pubkey, kind, []), a, b);
    }
    forall v | 30000 <= kind < 40000 && HasDValue(current[a], v) ensures !HasDValue(current[b], v) {
      DValueFound(current[a], v);
      DValueFound(current[b], v);
      OneOfEach(current, ReplaceKey(current[a].pubkey, kind, v), a, b);
    }
  }

  lemma {:induction false} DValueFound(ev: Event, v: Str)
    ensures HasDValue(ev, v) ==> ContainsAny(ev.tags, D_TAG, [v])
  {
  }

  lemma {:induction false} OneOfEach(evs: Events, key: ReplaceKey, a: Id, b: Id)
    requires Keyed(evs) && AtMostOne(evs) && IsKey(key) && a != b
    ensures !(Under(evs, key, a) && Under(evs, key, b))
  {
    hide Seen, VersionsOf, IdSet, IsKey;
    var v := VersionsOf(evs, key);
    VersionsOfIs(evs, key);
    InIdSet(v, a);
    InIdSet(v, b);
    assert |v| <= 1;
  }
}
