/**
 Requests committed one at a time, each as a group of its own, and the versions of a replacement
 key: a replace on its own is refused by a version as new, or displaces every version.
 */
module StoreSequential {
  import opened ByteStrings
  import opened NostrEvents
  import opened StoreKeys
  import opened StoreTables
  import opened StoreSpec
  import opened StoreCommit

  /** One request after the other, each as a group of its own. */
  datatype Sequential = Sequential(current: Events, replies: seq<Reply>)

  ghost function OneByOne(evs: Events, group: seq<Request>, n: nat): (s: Sequential)
    requires Keyed(evs) && n <= |group|
    ensures Keyed(s.current)
  {
    if n == 0 then Sequential(evs, [])
    else
      var s := OneByOne(evs, group, n - 1);
      var c := Committed(s.current, [group[n - 1]]);
      AloneKeyed(s.current, group[n - 1]);
      Sequential(c.current, s.replies + c.replies)
  }

  lemma {:induction false} AloneKeyed(evs: Events, req: Request)
    requires Keyed(evs)
    ensures Keyed(Committed(evs, [req]).current)
  {
    Alone(evs, req);
  }

  lemma {:induction false} Alone(evs: Events, req: Request)
    requires Keyed(evs)
    ensures Committed(evs, [req]) == Step(evs, StoreSpec.Start(evs), req)
  {
    assert After(evs, [req], 0) == StoreSpec.Start(evs);
  }

  // ---- the versions of a key ----

  /**
   The search for the versions of a key finds the event. An event with several "d" values is found
   under each of them, an addressable one without any under none.
   */
  predicate Seen(key: ReplaceKey, ev: Event) {
    && ev.pubkey == key.pubkey && ev.kind == key.kind
    && (IsAddressable(key.kind) ==> ContainsAny(ev.tags, D_TAG, [key.d]))
  }

  ghost predicate Under(evs: Events, key: ReplaceKey, id: Id) {
    id in evs && Seen(key, evs[id])
  }

  ghost function Held(evs: Events, key: ReplaceKey): set<Pos> {
    set id | id in evs && Under(evs, key, id) :: PosOf(evs[id])
  }

  ghost function VersionsOf(evs: Events, key: ReplaceKey): seq<Stored>
    requires Keyed(evs)
  {
    HeldStored(evs, key);
    EventsAt(evs, Timeline(Held(evs, key)))
  }

  function Head(v: seq<Stored>): Option<Stored> {
    if v == [] then None else Some(v[0])
  }

  /** Newest first. */
  ghost predicate Newest(v: seq<Stored>) {
    forall i, j {:trigger v[i], v[j]} :: 0 <= i < j < |v| ==> PosLess(PosOf(v[j]), PosOf(v[i]))
  }

  ghost predicate DistinctIds(v: seq<Stored>) {
    forall i, j :: 0 <= i < j < |v| ==> v[i].id != v[j].id
  }

  lemma {:induction false} HeldStored(evs: Events, key: ReplaceKey)
    requires Keyed(evs)
    ensures AllStored(evs, Timeline(Held(evs, key)))
  {
    hide Seen, Timeline;
    TimelineStored(evs, Held(evs, key));
  }

  /** The version filter of an event selects what is found under its key. */
  lemma {:induction false} VersionsByKey(evs: Events, ev: Stored)
    requires Keyed(evs)
    ensures Versions(evs, ev) == VersionsOf(evs, KeyFor(ev))
  {
    hide Matches, VersionFilter;
    forall id | id in evs ensures Matches(VersionFilter(ev), evs[id]) <==> Seen(KeyFor(ev), evs[id]) {
      VersionMatches(ev, evs[id]);
    }
    assert Selected(evs, VersionFilter(ev)) == Held(evs, KeyFor(ev));
  }

  /** The versions of a key depend on the events under that key alone. */
  lemma {:induction false} SameHeld(a: Events, b: Events, key: ReplaceKey)
    requires Keyed(a) && Keyed(b)
    requires forall id :: Under(a, key, id) <==> Under(b, key, id)
    requires forall id :: Under(a, key, id) ==> id in a && id in b && a[id] == b[id]
    ensures VersionsOf(a, key) == VersionsOf(b, key)
  {
    hide KeyFor, Seen, Under;
    assert Held(a, key) == Held(b, key);
    HeldStored(a, key);
    HeldStored(b, key);
    var ps := Timeline(Held(a, key));
    TimelineIs(Held(a, key));
    forall i | 0 <= i < |ps| ensures a[ps[i].id] == b[ps[i].id] {
      assert ps[i] in Held(a, key);
      HeldAt(a, key, ps[i]);
    }
  }

  lemma {:induction false} HeldAt(evs: Events, key: ReplaceKey, p: Pos)
    requires Keyed(evs) && p in Held(evs, key)
    ensures Under(evs, key, p.id) && p.id in evs && PosOf(evs[p.id]) == p
  {
    hide KeyFor, Seen;
  }

  /** Versions are distinct, newest first, and all under the key. */
  lemma {:induction false} VersionsOfIs(evs: Events, key: ReplaceKey)
    requires Keyed(evs)
    ensures var v := VersionsOf(evs, key);
            && (forall i :: 0 <= i < |v| ==> v[i].id in evs && v[i] == evs[v[i].id] && Under(evs, key, v[i].id))
            && (forall i :: 0 <= i < |v| ==> v[i].createdAt <= v[0].createdAt)
            && DistinctIds(v) && Newest(v)
            && (forall id :: Under(evs, key, id) ==> id in IdSet(v))
  {
    hide KeyFor, Seen, Under;
    HeldStored(evs, key);
    var ps := Timeline(Held(evs, key));
    var v := VersionsOf(evs, key);
    TimelineIs(Held(evs, key));
    forall i | 0 <= i < |v| ensures v[i].id in evs && v[i] == evs[v[i].id] && Under(evs, key, v[i].id)
                                    && PosOf(v[i]) == ps[i] {
      assert ps[i] in Held(evs, key);
      HeldAt(evs, key, ps[i]);
    }
    forall i | 0 <= i < |v| ensures v[i].createdAt <= v[0].createdAt {
      if i > 0 {
        assert PosLess(ps[i], ps[0]);
      }
    }
    forall i, j | 0 <= i < j < |v| ensures v[i].id != v[j].id {
      assert PosLess(ps[j], ps[i]);
      PosIrreflexive(ps[i]);
    }
    forall id | Under(evs, key, id) ensures id in IdSet(v) {
      UnderHeld(evs, key, id);
      assert PosOf(evs[id]) in ps;
      var i :| 0 <= i < |ps| && ps[i] == PosOf(evs[id]);
      assert v[i].id == id;
    }
  }

  lemma {:induction false} UnderHeld(evs: Events, key: ReplaceKey, id: Id)
    requires Keyed(evs) && Under(evs, key, id)
    ensures id in evs && PosOf(evs[id]) in Held(evs, key)
  {
    hide KeyFor, Seen;
  }

  // ---- one replace ----

  /** The versions a replace can still remove. */
  function Unremoved(v: seq<Stored>, seenDel: set<Id>): seq<Stored> {
    if v == [] then []
    else if v[0].id in seenDel then Unremoved(v[1..], seenDel)
    else [v[0]] + Unremoved(v[1..], seenDel)
  }

  /** Distinct versions are removed all but those already gone, each once, though the newest is listed twice. */
  lemma {:induction false} VictimsAre(v: seq<Stored>, id: Id, seenDel: set<Id>)
    requires DistinctIds(v) && forall i :: 0 <= i < |v| ==> v[i].id != id
    ensures Victims(v + AsList(Head(v)), id, seenDel) == Unremoved(v, seenDel)
  {
    assert v != [] ==> v[0].id in IdSet(v);
    VictimsPlus(v, AsList(Head(v)), id, seenDel);
  }

  lemma {:induction false} VictimsPlus(v: seq<Stored>, tail: seq<Stored>, id: Id, seenDel: set<Id>)
    requires DistinctIds(v) && forall i :: 0 <= i < |v| ==> v[i].id != id
    requires forall i :: 0 <= i < |tail| ==> tail[i].id in IdSet(v) + seenDel
    ensures Victims(v + tail, id, seenDel) == Unremoved(v, seenDel)
  {
    if v == [] {
      assert v + tail == tail;
      VictimsDone(tail, id, seenDel);
    } else {
      hide IdSet;
      var rest := v[1..];
      assert (v + tail)[1..] == rest + tail;
      IdSetRest(v);
      if v[0].id in seenDel {
        VictimsPlus(rest, tail, id, seenDel);
      } else {
        VictimsPlus(rest, tail, id, seenDel + {v[0].id});
        UnremovedSame(rest, seenDel, v[0].id);
      }
    }
  }

  lemma {:induction false} IdSetRest(v: seq<Stored>)
    requires v != []
    ensures IdSet(v) == {v[0].id} + IdSet(v[1..])
  {
    forall x | x in IdSet(v) ensures x in {v[0].id} + IdSet(v[1..]) {
      var i :| 0 <= i < |v| && v[i].id == x;
      assert i > 0 ==> v[1..][i - 1].id == x;
    }
    forall x | x in IdSet(v[1..]) ensures x in IdSet(v) {
      var i :| 0 <= i < |v[1..]| && v[1..][i].id == x;
      assert v[i + 1].id == x;
    }
    assert v[0].id in IdSet(v);
  }

  lemma {:induction false} UnremovedSame(v: seq<Stored>, seenDel: set<Id>, id: Id)
    requires forall i :: 0 <= i < |v| ==> v[i].id != id
    ensures Unremoved(v, seenDel + {id}) == Unremoved(v, seenDel)
  {
    if v != [] {
      UnremovedSame(v[1..], seenDel, id);
    }
  }

  lemma {:induction false} UnremovedAll(v: seq<Stored>)
    ensures Unremoved(v, {}) == v
  {
    if v != [] {
      UnremovedAll(v[1..]);
    }
  }

  /** What is left keeps its order. */
  lemma {:induction false} UnremovedIs(v: seq<Stored>, seenDel: set<Id>)
    ensures forall ev :: ev in Unremoved(v, seenDel) <==> ev in v && ev.id !in seenDel
    ensures Newest(v) ==> Newest(Unremoved(v, seenDel))
  {
    if v != [] {
      var rest, kept := v[1..], Unremoved(v[1..], seenDel);
      assert v == [v[0]] + rest;
      UnremovedIs(rest, seenDel);
      if Newest(v) {
        forall i, j | 0 <= i < j < |rest| ensures PosLess(PosOf(rest[j]), PosOf(rest[i])) {
          assert rest[i] == v[i + 1] && rest[j] == v[j + 1];
        }
        forall i | 0 <= i < |kept| ensures PosLess(PosOf(kept[i]), PosOf(v[0])) {
          assert kept[i] in rest;
          var k :| 0 <= k < |rest| && rest[k] == kept[i];
          assert v[k + 1] == kept[i];
        }
      }
    }
  }

  function PlacesOf(v: seq<Stored>): (ps: seq<Pos>)
    ensures |ps| == |v| && forall i :: 0 <= i < |v| ==> ps[i] == PosOf(v[i])
  {
    seq(|v|, i requires 0 <= i < |v| => PosOf(v[i]))
  }

  lemma {:induction false} NewestPlaces(v: seq<Stored>)
    requires Newest(v)
    ensures Descending(PlacesOf(v))
  {
    hide PosLess;
    var at := PlacesOf(v);
    forall i, j | 0 <= i < j < |at| ensures PosLess(at[j], at[i]) {
      assert PosLess(PosOf(v[j]), PosOf(v[i]));
    }
  }

  /** A list of the events under a key, newest first, is the list of its versions. */
  lemma {:induction false} VersionsUnique(evs: Events, key: ReplaceKey, v: seq<Stored>)
    requires Keyed(evs) && Newest(v)
    requires forall i :: 0 <= i < |v| ==> v[i].id in evs && evs[v[i].id] == v[i]
    requires forall id :: Under(evs, key, id) <==> id in IdSet(v)
    ensures v == VersionsOf(evs, key)
  {
    hide KeyFor, Under, Seen, IdSet, Timeline, Newest, Descending, PosLess;
    HeldStored(evs, key);
    var ps := Timeline(Held(evs, key));
    TimelineIs(Held(evs, key));
    var at := PlacesOf(v);
    NewestPlaces(v);
    hide Held;
    forall p | p in ps ensures p in at {
      HeldAt(evs, key, p);
      InIdSet(v, p.id);
      var i :| 0 <= i < |v| && v[i].id == p.id;
      assert at[i] == p;
    }
    forall i | 0 <= i < |at| ensures at[i] in ps {
      InIdSet(v, v[i].id);
      UnderHeld(evs, key, v[i].id);
    }
    DescendingUnique(at, ps);
  }

  lemma {:induction false} VictimsDone(tail: seq<Stored>, id: Id, seenDel: set<Id>)
    requires forall i :: 0 <= i < |tail| ==> tail[i].id in seenDel
    ensures Victims(tail, id, seenDel) == []
  {
    if tail != [] {
      VictimsDone(tail[1..], id, seenDel);
    }
  }

  // ---- a winning replace ----

  /** The store after `ev` has displaced the versions of its key. */
  ghost function Won(current: Events, ev: Stored): Events
    requires Keyed(current)
  {
    current[ev.id := ev] - IdSet(VersionsOf(current, KeyFor(ev)))
  }

  /** A key under which nothing of what goes or comes is found keeps its versions. */
  lemma {:induction false} WonKeepsOthers(names: Naming, current: Events, ev: Stored, key: ReplaceKey)
    requires Named(names, current) && NamedEvent(names, ev) && !Seen(key, ev)
    requires forall id :: Under(current, KeyFor(ev), id) ==> !Under(current, key, id)
    ensures Keyed(Won(current, ev)) && VersionsOf(Won(current, ev), key) == VersionsOf(current, key)
  {
    hide KeyFor, Seen, VersionsOf, IdSet;
    var v := VersionsOf(current, KeyFor(ev));
    var after := Won(current, ev);
    VersionsOfIs(current, KeyFor(ev));
    forall id ensures Under(after, key, id) <==> Under(current, key, id) {
      InIdSet(v, id);
    }
    SameHeld(after, current, key);
  }

  lemma {:induction false} InIdSet(v: seq<Stored>, id: Id)
    ensures id in IdSet(v) <==> exists i :: 0 <= i < |v| && v[i].id == id
  {
  }

  /** What is left under a key once its versions are gone was never stored before. */
  lemma {:induction false} UnderWithout(current: Events, key: ReplaceKey, ev: Stored, id: Id)
    requires Keyed(current)
    ensures Under(current[ev.id := ev] - IdSet(VersionsOf(current, key)), key, id) ==> id == ev.id
  {
    hide KeyFor, Seen, VersionsOf, IdSet;
    VersionsOfIs(current, key);
  }

  lemma {:induction false} WonLeavesOne(names: Naming, current: Events, ev: Stored)
    requires Named(names, current) && NamedEvent(names, ev)
    requires Seen(KeyFor(ev), ev) && ev.id !in IdSet(VersionsOf(current, KeyFor(ev)))
    ensures Keyed(Won(current, ev)) && VersionsOf(Won(current, ev), KeyFor(ev)) == [ev]
  {
    hide KeyFor, Seen, VersionsOf, IdSet;
    var key := KeyFor(ev);
    var after := Won(current, ev);
    VersionsOfIs(current, key);
    forall id ensures Under(after, key, id) <==> id == ev.id {
      UnderWithout(current, key, ev, id);
    }
    var only: Events := map[ev.id := ev];
    SameHeld(after, only, key);
    SingleVersion(ev);
  }

  lemma {:induction false} SingleVersion(ev: Stored)
    requires Seen(KeyFor(ev), ev)
    ensures VersionsOf(map[ev.id := ev], KeyFor(ev)) == [ev]
  {
    var only: Events := map[ev.id := ev];
    var key := KeyFor(ev);
    hide KeyFor, Seen;
    VersionsOfIs(only, key);
    UnderHeld(only, key, ev.id);
    var v := VersionsOf(only, key);
    InIdSet(v, ev.id);
    HeldStored(only, key);
    assert Held(only, key) == {PosOf(ev)};
    assert v[0] == ev;
  }

  lemma {:induction false} WonNamed(names: Naming, current: Events, ev: Stored)
    requires Named(names, current) && NamedEvent(names, ev)
    ensures Named(names, Won(current, ev))
    ensures forall id :: id in Won(current, ev) ==> id in current || id == ev.id
  {
    hide KeyFor, Seen, VersionsOf, IdSet;
  }

  /** What a replace does on its own: refused by a version as new, or else displacing every version. */
  lemma {:induction false} LoneReplace(names: Naming, current: Events, ev: Stored)
    requires Named(names, current) && NamedEvent(names, ev)
    ensures var v, c := VersionsOf(current, KeyFor(ev)), Committed(current, [Replace(ev)]);
            if v != [] && v[0].createdAt >= ev.createdAt then c.current == current && c.replies == [REFUSED]
            else c.current == Won(current, ev) && c.replies == [Reply(true, v)]
  {
    hide KeyFor, Seen, VersionsOf, Victims, IdSet, Versions, ReplaceAgainst;
    var st := StoreSpec.Start(current);
    var v := VersionsOf(current, KeyFor(ev));
    Alone(current, Replace(ev));
    StepIs(current, st, Replace(ev));
    VersionsByKey(current, ev);
    assert LedgerFor(current, st, ev) == Ledger(Head(v), v);
    VersionsOfIs(current, KeyFor(ev));
    AgainstOwn(current, v, ev);
  }

  /** A replace against the whole list of versions. */
  lemma {:induction false} AgainstOwn(current: Events, v: seq<Stored>, ev: Stored)
    requires DistinctIds(v)
    requires forall i :: 0 <= i < |v| ==> v[i].createdAt <= v[0].createdAt && (v[i].id == ev.id ==> v[i] == ev)
    ensures var after := ReplaceAgainst(StoreSpec.Start(current), Ledger(Head(v), v), ev);
            if v != [] && v[0].createdAt >= ev.createdAt then after.current == current && after.replies == [REFUSED]
            else after.current == current[ev.id := ev] - IdSet(v) && after.replies == [Reply(true, v)]
  {
    hide KeyFor, Seen, IdSet, Victims;
    if v == [] || v[0].createdAt < ev.createdAt {
      VictimsAre(v, ev.id, {});
      UnremovedAll(v);
    }
  }
}
