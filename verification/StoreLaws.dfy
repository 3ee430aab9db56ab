/**
 The rollup counters over every group: each moves by the change in the number of stored events in
 its bucket, and by one more for every replace let in with an event that is stored already. Only an
 addressable event without a "d" tag, which no search for versions finds, can be let in so.
 */
module StoreLaws {
  import opened ByteStrings
  import opened NostrEvents
  import opened StoreKeys
  import opened StoreTables
  import opened StoreSpec
  import opened StoreCommit

  /** An addressable event has a "d" tag that `findReplaceVersions` can match. */
  predicate HasD(ev: Event) {
    exists i :: 0 <= i < |ev.tags| && |ev.tags[i]| >= 2 && ev.tags[i][0] == D_TAG
  }

  predicate FindsItself(ev: Event) {
    IsAddressable(ev.kind) ==> HasD(ev)
  }

  lemma {:induction false} GetDIs(tags: seq<Tag>)
    ensures (exists i :: 0 <= i < |tags| && |tags[i]| >= 2 && tags[i][0] == D_TAG)
            ==> exists i :: 0 <= i < |tags| && |tags[i]| >= 2 && tags[i][0] == D_TAG && tags[i][1] == GetD(tags)
  {
    if tags != [] && !(|tags[0]| >= 2 && tags[0][0] == D_TAG) {
      GetDIs(tags[1..]);
      if i :| 0 <= i < |tags| && |tags[i]| >= 2 && tags[i][0] == D_TAG {
        assert tags[1..][i - 1] == tags[i];
        var j :| 0 <= j < |tags[1..]| && |tags[1..][j]| >= 2 && tags[1..][j][0] == D_TAG
                 && tags[1..][j][1] == GetD(tags[1..]);
        assert tags[j + 1] == tags[1..][j];
      }
    }
  }

  /** The stored versions of an event's key include the event itself exactly when it has its tag. */
  lemma {:induction false} SelfMatch(ev: Event)
    ensures Matches(VersionFilter(ev), ev) <==> FindsItself(ev)
  {
    hide Matches;
    VersionMatches(ev, ev);
    GetDIs(ev.tags);
    if IsAddressable(ev.kind) && HasD(ev) {
      var i :| 0 <= i < |ev.tags| && |ev.tags[i]| >= 2 && ev.tags[i][0] == D_TAG && ev.tags[i][1] == GetD(ev.tags);
      assert ContainsAny(ev.tags, D_TAG, [GetD(ev.tags)]);
    }
  }

  /** A stored event that finds itself is no newer than the newest version. */
  lemma {:induction false} NewestBounds(evs: Events, ev: Stored)
    requires Keyed(evs) && ev.id in evs && evs[ev.id] == ev && FindsItself(ev)
    ensures Versions(evs, ev) != [] && Versions(evs, ev)[0].createdAt >= ev.createdAt
  {
    hide Matches, VersionFilter, FindsItself;
    SelfMatch(ev);
    var f := VersionFilter(ev);
    SelectedStored(evs, f);
    TimelineIs(Selected(evs, f));
    assert PosOf(ev) in Selected(evs, f);
    var j :| 0 <= j < |Timeline(Selected(evs, f))| && Timeline(Selected(evs, f))[j] == PosOf(ev);
    NewestFirst(evs, f, j);
  }

  lemma {:induction false} VersionsStored(evs: Events, ev: Event)
    requires Keyed(evs)
    ensures forall i :: 0 <= i < |Versions(evs, ev)| ==>
                          Versions(evs, ev)[i].id in evs && evs[Versions(evs, ev)[i].id] == Versions(evs, ev)[i]
  {
    hide Matches, VersionFilter;
    SelectedStored(evs, VersionFilter(ev));
  }

  // ---- what the fold keeps ----

  /** The event's removal takes effect: it is stored, or was removed before. */
  ghost predicate Gone(st: GroupState, id: Id) {
    id in st.current || id in st.seenDel
  }

  ghost predicate LedgerSound(evs: Events, st: GroupState, key: ReplaceKey)
    requires key in st.ledgers
  {
    var l := st.ledgers[key];
    && (l.newest.Some? ==> Gone(st, l.newest.value.id))
    && (forall i :: 0 <= i < |l.toDelete| ==> l.toDelete[i].id in evs)
    && (forall id :: id in evs && KeyFor(evs[id]) == key && FindsItself(evs[id]) ==>
                       l.newest.Some? && l.newest.value.createdAt >= evs[id].createdAt)
  }

  ghost predicate Sound(names: Naming, evs: Events, st: GroupState) {
    && Honest(names, st)
    && (forall id :: id in st.current ==> id in evs || id in st.seenSave)
    && (forall id :: id in evs ==> Gone(st, id))
    && (forall id :: id in st.seenSave ==> id in evs || Gone(st, id))
    && (forall key :: key in st.ledgers ==> LedgerSound(evs, st, key))
  }

  /** The stored events in a bucket less the movements logged for it. */
  ghost function Drift(st: GroupState, b: Bucket): int {
    Count(st.current, b) - Net(st.log, b)
  }

  /** The replace is let in though its event is stored already. */
  ghost predicate Doubles(evs: Events, st: GroupState, req: Request)
    requires Keyed(evs)
  {
    && req.Replace?
    && req.ev.id in st.current && req.ev.id !in st.seenSave
    && Admits(LedgerFor(evs, st, req.ev), req.ev)
  }

  predicate Admits(l: Ledger, ev: Stored) {
    l.newest.Some? ==> l.newest.value.createdAt < ev.createdAt
  }

  /** How often the first `n` requests store in a bucket what is stored there already. */
  ghost function Excess(evs: Events, group: seq<Request>, n: nat, b: Bucket): nat
    requires Keyed(evs) && n <= |group|
  {
    if n == 0 then 0
    else
      Excess(evs, group, n - 1, b)
      + if Doubles(evs, After(evs, group, n - 1), group[n - 1]) then Hit(group[n - 1].ev, b) else 0
  }

  ghost predicate VictimsOf(v: seq<Stored>, olds: seq<Stored>, id: Id, seenDel: set<Id>) {
    && (forall i :: 0 <= i < |v| ==> v[i] in olds && v[i].id != id && v[i].id !in seenDel)
    && (forall i, j :: 0 <= i < j < |v| ==> v[i].id != v[j].id)
  }

  /** Victims are candidates, distinct, neither the winner nor removed before. */
  lemma {:induction false} VictimsSound(olds: seq<Stored>, id: Id, seenDel: set<Id>)
    ensures VictimsOf(Victims(olds, id, seenDel), olds, id, seenDel)
  {
    if olds != [] {
      var v := Victims(olds, id, seenDel);
      assert forall o :: o in olds[1..] ==> o in olds;
      if olds[0].id == id || olds[0].id in seenDel {
        VictimsSound(olds[1..], id, seenDel);
        assert v == Victims(olds[1..], id, seenDel);
      } else {
        var rest := Victims(olds[1..], id, seenDel + {olds[0].id});
        VictimsSound(olds[1..], id, seenDel + {olds[0].id});
        assert v == [olds[0]] + rest;
        forall i | 0 <= i < |v| ensures v[i] in olds && v[i].id != id && v[i].id !in seenDel {
          assert i > 0 ==> v[i] == rest[i - 1];
        }
        forall i, j | 0 <= i < j < |v| ensures v[i].id != v[j].id {
          assert v[j] == rest[j - 1];
          assert i > 0 ==> v[i] == rest[i - 1];
        }
      }
    }
  }

  /** Removing distinct stored events lowers each count once per event. */
  lemma {:induction false} CountWithout(names: Naming, evs: Events, victims: seq<Stored>, log: seq<Bump>, b: Bucket)
    requires Named(names, evs) && NamedList(names, victims)
    requires forall i :: 0 <= i < |victims| ==> victims[i].id in evs
    requires forall i, j :: 0 <= i < j < |victims| ==> victims[i].id != victims[j].id
    ensures Count(evs - IdSet(victims), b) - Net(log + Removals(victims), b) == Count(evs, b) - Net(log, b)
  {
    hide Buckets, Count, Net, IdSet, Removals;
    if victims == [] {
      NoVictims(evs, log);
    } else {
      var front, last := victims[..|victims| - 1], victims[|victims| - 1];
      assert victims == front + [last];
      CountWithout(names, evs, front, log, b);
      assert NamedEvent(names, victims[|victims| - 1]);
      LastVictim(evs, front, last, log);
      CountRemoved(evs - IdSet(front), last, b);
      NetOne(log + Removals(front), Bump(last, -1));
    }
  }

  lemma {:induction false} NoVictims(evs: Events, log: seq<Bump>)
    ensures evs - IdSet([]) == evs && log + Removals([]) == log
  {
  }

  lemma {:induction false} LastVictim(evs: Events, front: seq<Stored>, last: Stored, log: seq<Bump>)
    requires last.id in evs && evs[last.id] == last
    requires forall i :: 0 <= i < |front| ==> front[i].id != last.id
    ensures evs - IdSet(front + [last]) == (evs - IdSet(front)) - {last.id}
    ensures last.id in evs - IdSet(front) && (evs - IdSet(front))[last.id] == last
    ensures log + Removals(front + [last]) == (log + Removals(front)) + [Bump(last, -1)]
  {
    IdSetAppend(front, last);
    assert last.id !in IdSet(front);
    assert Removals(front + [last]) == Removals(front) + [Bump(last, -1)];
  }

  lemma {:induction false} SaveSound(names: Naming, evs: Events, st: GroupState, ev: Stored)
    requires Keyed(evs) && Sound(names, evs, st) && NamedEvent(names, ev)
    requires Honest(names, SaveStep(evs, st, ev))
    ensures Sound(names, evs, SaveStep(evs, st, ev))
    ensures forall b :: Drift(SaveStep(evs, st, ev), b) == Drift(st, b)
  {
    hide Buckets, KeyFor, FindsItself, Count, Honest, Net;
    var after := SaveStep(evs, st, ev);
    if ev.id !in st.seenSave && ev.id !in evs {
      forall b ensures Drift(after, b) == Drift(st, b) {
        CountAdded(st.current, ev, b);
        NetOne(st.log, Bump(ev, 1));
      }
    }
    LedgersKept(evs, st, after);
  }

  lemma {:induction false} DeleteSound(names: Naming, evs: Events, st: GroupState, ev: Stored)
    requires Named(names, evs) && Sound(names, evs, st) && NamedEvent(names, ev)
    requires Honest(names, DeleteStep(evs, st, ev))
    ensures Sound(names, evs, DeleteStep(evs, st, ev))
    ensures forall b :: Drift(DeleteStep(evs, st, ev), b) == Drift(st, b)
  {
    var after := DeleteStep(evs, st, ev);
    hide Buckets, KeyFor, FindsItself, Count, Net;
    if ev.id !in st.seenDel && ev.id in evs {
      assert Gone(st, ev.id);
      forall b ensures Drift(after, b) == Drift(st, b) {
        CountRemoved(st.current, ev, b);
        NetOne(st.log, Bump(ev, -1));
      }
    }
    hide Honest;
    LedgersKept(evs, st, after);
  }

  /** A step that leaves the ledgers alone and lets nothing escape keeps them sound. */
  lemma {:induction false} LedgersKept(evs: Events, st: GroupState, after: GroupState)
    requires forall key :: key in st.ledgers ==> LedgerSound(evs, st, key)
    requires after.ledgers == st.ledgers
    requires forall id :: Gone(st, id) ==> Gone(after, id)
    ensures forall key :: key in after.ledgers ==> LedgerSound(evs, after, key)
  {
    hide KeyFor, FindsItself;
    forall key | key in after.ledgers ensures LedgerSound(evs, after, key) {
      assert LedgerSound(evs, st, key);
    }
  }

  /** The ledger a replace consults. */
  lemma {:induction false} LedgerForSound(names: Naming, evs: Events, st: GroupState, ev: Stored)
    requires Named(names, evs) && Sound(names, evs, st)
    ensures var l := LedgerFor(evs, st, ev);
            LedgerSound(evs, st.(ledgers := st.ledgers[KeyFor(ev) := l]), KeyFor(ev))
  {
    hide KeyFor, FindsItself, Versions;
    var key := KeyFor(ev);
    var l := LedgerFor(evs, st, ev);
    var st1 := st.(ledgers := st.ledgers[key := l]);
    if key in st.ledgers {
      assert LedgerSound(evs, st, key);
    } else {
      VersionsStored(evs, ev);
      forall id | id in evs && KeyFor(evs[id]) == key && FindsItself(evs[id])
        ensures l.newest.Some? && l.newest.value.createdAt >= evs[id].createdAt
      {
        NewestBounds(evs, evs[id]);
        SameVersions(evs, ev, evs[id]);
      }
    }
  }

  lemma {:induction false} SameVersions(evs: Events, a: Event, b: Event)
    requires Keyed(evs) && KeyFor(a) == KeyFor(b)
    ensures Versions(evs, a) == Versions(evs, b)
  {
    assert VersionFilter(a) == VersionFilter(b);
  }

  lemma {:induction false} RefusedReplaceSound(names: Naming, evs: Events, st: GroupState, l: Ledger, ev: Stored)
    requires Named(names, evs) && Sound(names, evs, st)
    requires LedgerSound(evs, st.(ledgers := st.ledgers[KeyFor(ev) := l]), KeyFor(ev))
    requires !Admits(l, ev)
    requires Honest(names, ReplaceAgainst(st, l, ev))
    ensures Sound(names, evs, ReplaceAgainst(st, l, ev))
    ensures forall b :: Drift(ReplaceAgainst(st, l, ev), b) == Drift(st, b)
  {
    hide Buckets, KeyFor, FindsItself, Count, Net, Honest;
    var after := ReplaceAgainst(st, l, ev);
    forall key | key in after.ledgers ensures LedgerSound(evs, after, key) {
      if key != KeyFor(ev) {
        assert LedgerSound(evs, st, key);
      }
    }
  }

  /** What a winning replace removes was there to remove. */
  lemma {:induction false} VictimsPresent(names: Naming, evs: Events, st: GroupState, l: Ledger, ev: Stored)
    requires Named(names, evs) && Sound(names, evs, st)
    requires LedgerSound(evs, st.(ledgers := st.ledgers[KeyFor(ev) := l]), KeyFor(ev))
    ensures var v := Victims(l.toDelete + AsList(l.newest), ev.id, st.seenDel);
            && (forall i :: 0 <= i < |v| ==> v[i].id in st.current && v[i].id != ev.id)
            && ev.id !in IdSet(v)
  {
    hide KeyFor, FindsItself, Honest, Victims;
    var olds := l.toDelete + AsList(l.newest);
    var v := Victims(olds, ev.id, st.seenDel);
    VictimsSound(olds, ev.id, st.seenDel);
    forall i | 0 <= i < |v| ensures v[i].id in st.current && v[i].id != ev.id {
      assert v[i] in olds;
      if v[i] in l.toDelete {
        assert v[i].id in evs;
        assert Gone(st, v[i].id);
      }
    }
  }

  /** A winner not stored by the group adds one to its buckets, unless it is stored already. */
  lemma {:induction false} WonReplaceCounted(names: Naming, evs: Events, st: GroupState, l: Ledger, ev: Stored)
    requires Named(names, evs) && Sound(names, evs, st) && NamedEvent(names, ev)
    requires LedgerSound(evs, st.(ledgers := st.ledgers[KeyFor(ev) := l]), KeyFor(ev))
    requires NamedList(names, l.toDelete) && NamedList(names, AsList(l.newest))
    requires Admits(l, ev) && ev.id !in st.seenSave
    ensures forall b :: Drift(ReplaceAgainst(st, l, ev), b) ==
                        Drift(st, b) - (if ev.id in st.current then Hit(ev, b) else 0)
  {
    hide Buckets, KeyFor, FindsItself, Count, Net, Victims, IdSet, Removals, Sound, LedgerSound, Hit;
    var after := ReplaceAgainst(st, l, ev);
    var olds := l.toDelete + AsList(l.newest);
    var v := Victims(olds, ev.id, st.seenDel);
    VictimsPresent(names, evs, st, l, ev);
    VictimsSound(olds, ev.id, st.seenDel);
    VictimsNamed(names, olds, ev.id, st.seenDel);
    SoundIsHonest(names, evs, st);
    var with := st.current[ev.id := ev];
    assert ev.id in st.current ==> with == st.current;
    forall b ensures Drift(after, b) == Drift(st, b) - (if ev.id in st.current then Hit(ev, b) else 0) {
      if ev.id !in st.current {
        CountAdded(st.current, ev, b);
      }
      NetOne(st.log, Bump(ev, 1));
      CountWithout(names, with, v, st.log + [Bump(ev, 1)], b);
    }
  }

  lemma {:induction false} WonReplaceSound(names: Naming, evs: Events, st: GroupState, l: Ledger, ev: Stored)
    requires Named(names, evs) && Sound(names, evs, st) && NamedEvent(names, ev)
    requires NamedList(names, l.toDelete) && NamedList(names, AsList(l.newest))
    requires LedgerSound(evs, st.(ledgers := st.ledgers[KeyFor(ev) := l]), KeyFor(ev))
    requires Admits(l, ev)
    requires Honest(names, ReplaceAgainst(st, l, ev))
    ensures Sound(names, evs, ReplaceAgainst(st, l, ev))
    ensures forall b :: Drift(ReplaceAgainst(st, l, ev), b) ==
                        Drift(st, b) - (if ev.id in st.current && ev.id !in st.seenSave then Hit(ev, b) else 0)
  {
    hide Buckets, FindsItself, Count, Net, Honest, Victims, IdSet, KeyFor, Hit;
    VictimsPresent(names, evs, st, l, ev);
    if ev.id !in st.seenSave {
      WonReplaceCounted(names, evs, st, l, ev);
    }
    WonLedgersSound(names, evs, st, l, ev);
  }

  lemma {:induction false} WonLedgersSound(names: Naming, evs: Events, st: GroupState, l: Ledger, ev: Stored)
    requires Named(names, evs) && Sound(names, evs, st)
    requires ev.id !in IdSet(Victims(l.toDelete + AsList(l.newest), ev.id, st.seenDel))
    requires LedgerSound(evs, st.(ledgers := st.ledgers[KeyFor(ev) := l]), KeyFor(ev))
    requires l.newest.Some? ==> l.newest.value.createdAt < ev.createdAt
    requires Honest(names, ReplaceAgainst(st, l, ev))
    ensures Sound(names, evs, ReplaceAgainst(st, l, ev))
  {
    var after := ReplaceAgainst(st, l, ev);
    var gone := IdSet(Victims(l.toDelete + AsList(l.newest), ev.id, st.seenDel));
    hide Buckets, FindsItself, Honest, Victims, IdSet, KeyFor, LedgerSound;
    WonKeepsSound(names, evs, st, after, ev, l, gone);
  }

  /** The state after a win, described by its parts. */
  lemma {:induction false} WonKeepsSound(names: Naming, evs: Events, st: GroupState, after: GroupState, ev: Stored,
                                         l: Ledger, gone: set<Id>)
    requires Named(names, evs) && Sound(names, evs, st) && Honest(names, after) && ev.id !in gone
    requires after.ledgers == st.ledgers[KeyFor(ev) := Ledger(Some(ev), [])]
    requires after.seenDel == st.seenDel + gone
    requires after.current == (if ev.id in st.seenSave then st.current else st.current[ev.id := ev] - gone)
    requires after.seenSave == st.seenSave + {ev.id}
    requires LedgerSound(evs, st.(ledgers := st.ledgers[KeyFor(ev) := l]), KeyFor(ev))
    requires l.newest.Some? ==> l.newest.value.createdAt < ev.createdAt
    ensures Sound(names, evs, after)
  {
    hide Buckets, FindsItself, Honest, KeyFor;
    assert forall id :: Gone(st, id) ==> Gone(after, id);
    assert Gone(after, ev.id);
    hide Sound;
    forall key | key in after.ledgers ensures LedgerSound(evs, after, key) {
      if key != KeyFor(ev) {
        SoundAt(names, evs, st, key);
      } else {
        WinnerSound(evs, st, after, ev, l);
      }
    }
    WonSets(names, evs, st, after, ev, gone);
  }

  lemma {:induction false} SoundAt(names: Naming, evs: Events, st: GroupState, key: ReplaceKey)
    requires Sound(names, evs, st) && key in st.ledgers
    ensures LedgerSound(evs, st, key)
  {
    hide LedgerSound, Honest;
  }

  /** The winner outranks all that was stored under its key. */
  lemma {:induction false} WinnerSound(evs: Events, st: GroupState, after: GroupState, ev: Stored, l: Ledger)
    requires KeyFor(ev) in after.ledgers && after.ledgers[KeyFor(ev)] == Ledger(Some(ev), [])
    requires Gone(after, ev.id)
    requires LedgerSound(evs, st.(ledgers := st.ledgers[KeyFor(ev) := l]), KeyFor(ev))
    requires l.newest.Some? ==> l.newest.value.createdAt < ev.createdAt
    ensures LedgerSound(evs, after, KeyFor(ev))
  {
    hide KeyFor, FindsItself, Gone;
  }

  lemma {:induction false} WonSets(names: Naming, evs: Events, st: GroupState, after: GroupState, ev: Stored,
                                   gone: set<Id>)
    requires Sound(names, evs, st) && Honest(names, after) && ev.id !in gone
    requires after.seenDel == st.seenDel + gone
    requires after.current == (if ev.id in st.seenSave then st.current else st.current[ev.id := ev] - gone)
    requires after.seenSave == st.seenSave + {ev.id}
    requires forall key :: key in after.ledgers ==> LedgerSound(evs, after, key)
    ensures Sound(names, evs, after)
  {
    hide LedgerSound, Honest;
  }

  /**
   Every step of the fold keeps the ledger sound, and the counters drift only by a replace let in
   with an event that is stored already.
   */
  lemma {:induction false} StepSound(names: Naming, evs: Events, st: GroupState, req: Request)
    requires Named(names, evs) && Sound(names, evs, st) && NamedEvent(names, req.ev)
    ensures Sound(names, evs, Step(evs, st, req))
    ensures forall b :: Drift(Step(evs, st, req), b) ==
                        Drift(st, b) - (if Doubles(evs, st, req) then Hit(req.ev, b) else 0)
  {
    hide Buckets, KeyFor, FindsItself, Sound, Drift, LedgerFor, SaveStep, DeleteStep, ReplaceAgainst, Hit;
    StepHonest(names, evs, st, req) by { assert Honest(names, st) by { SoundIsHonest(names, evs, st); } }
    match req
    case Save(ev) => SaveSound(names, evs, st, ev);
    case Delete(ev) => DeleteSound(names, evs, st, ev);
    case Replace(ev) =>
      var l := LedgerFor(evs, st, ev);
      LedgerForSound(names, evs, st, ev);
      SoundIsHonest(names, evs, st);
      LedgerNamed(names, evs, st, ev);
      if Admits(l, ev) {
        WonReplaceSound(names, evs, st, l, ev);
      } else {
        RefusedReplaceSound(names, evs, st, l, ev);
      }
  }

  lemma {:induction false} SoundIsHonest(names: Naming, evs: Events, st: GroupState)
    requires Sound(names, evs, st)
    ensures Honest(names, st)
  {
  }

  lemma {:induction false} StartSound(names: Naming, evs: Events)
    requires Named(names, evs)
    ensures Sound(names, evs, StoreSpec.Start(evs))
  {
  }

  lemma {:induction false} GroupSound(names: Naming, evs: Events, group: seq<Request>, n: nat)
    requires Named(names, evs) && n <= |group|
    requires forall i :: 0 <= i < |group| ==> NamedEvent(names, group[i].ev)
    ensures Sound(names, evs, After(evs, group, n))
    ensures forall b :: Drift(After(evs, group, n), b) + Excess(evs, group, n, b) == Count(evs, b)
  {
    hide Buckets, KeyFor, FindsItself, Sound, Doubles, Step, NamedEvent, Count, Hit;
    if n == 0 {
      StartSound(names, evs);
    } else {
      GroupSound(names, evs, group, n - 1);
      StepSound(names, evs, After(evs, group, n - 1), group[n - 1]);
      hide Drift;
    }
  }

  /** Over any group, the logged counter movements are the change in the number of stored events and the excess. */
  lemma {:induction false} GroupCounts(names: Naming, evs: Events, group: seq<Request>, b: Bucket)
    requires Named(names, evs)
    requires forall i :: 0 <= i < |group| ==> NamedEvent(names, group[i].ev)
    ensures Count(Committed(evs, group).current, b) + Excess(evs, group, |group|, b) ==
            Count(evs, b) + Net(Committed(evs, group).log, b)
  {
    hide Buckets, Sound, Step, NamedEvent, Excess, Count, Net;
    GroupSound(names, evs, group, |group|);
  }

  ghost predicate DoublesAt(evs: Events, group: seq<Request>, k: nat)
    requires Keyed(evs) && k < |group|
  {
    Doubles(evs, After(evs, group, k), group[k])
  }

  ghost predicate NoExcess(evs: Events, group: seq<Request>, n: nat)
    requires Keyed(evs) && n <= |group|
  {
    forall b :: Excess(evs, group, n, b) == 0
  }

  /** There is an excess in some bucket exactly when some request of the group stores its event again. */
  lemma {:induction false} ExcessIff(evs: Events, group: seq<Request>, n: nat)
    requires Keyed(evs) && n <= |group|
    ensures NoExcess(evs, group, n) <==> (forall k :: 0 <= k < n ==> !DoublesAt(evs, group, k))
  {
    hide Doubles, After;
    if n > 0 {
      var m := n - 1;
      ExcessIff(evs, group, m);
      var ev := group[m].ev;
      var own := AuthorKind(ev.pubkey, ev.kind);
      assert Hit(ev, own) == 1;
      hide Hit;
      if NoExcess(evs, group, n) {
        assert Excess(evs, group, n, own) == 0;
        forall b ensures Excess(evs, group, m, b) == 0 {
          assert Excess(evs, group, n, b) == 0;
        }
      } else if NoExcess(evs, group, m) {
        var b :| Excess(evs, group, n, b) != 0;
        assert Excess(evs, group, m, b) == 0;
        assert DoublesAt(evs, group, m);
      }
    }
  }

  /** The counter movements of a group are the change in the number of stored events, bucket by bucket. */
  ghost predicate Counted(evs: Events, group: seq<Request>)
    requires Keyed(evs)
  {
    forall b :: Count(Committed(evs, group).current, b) == Count(evs, b) + Net(Committed(evs, group).log, b)
  }

  /** A group keeps exact counters exact if and only if it lets in no replace with an event stored already. */
  lemma {:induction false} CountedIff(names: Naming, evs: Events, group: seq<Request>)
    requires Named(names, evs)
    requires forall i :: 0 <= i < |group| ==> NamedEvent(names, group[i].ev)
    ensures Counted(evs, group) <==> forall k :: 0 <= k < |group| ==> !DoublesAt(evs, group, k)
  {
    hide NamedEvent, Committed, Excess, Count, Net, DoublesAt;
    ExcessIff(evs, group, |group|);
    forall b ensures Count(Committed(evs, group).current, b) + Excess(evs, group, |group|, b) ==
                     Count(evs, b) + Net(Committed(evs, group).log, b) {
      GroupCounts(names, evs, group, b);
    }
  }

  /** Only a stored addressable event without a "d" tag is stored again. */
  lemma {:induction false} DoublesUntagged(names: Naming, evs: Events, group: seq<Request>, k: nat)
    requires Named(names, evs) && k < |group|
    requires forall i :: 0 <= i < |group| ==> NamedEvent(names, group[i].ev)
    ensures DoublesAt(evs, group, k) ==> group[k].ev.id in evs && !FindsItself(group[k].ev)
  {
    hide KeyFor, FindsItself, After, LedgerFor, Drift, Excess, Honest;
    var st := After(evs, group, k);
    var ev := group[k].ev;
    GroupSound(names, evs, group, k);
    LedgerForSound(names, evs, st, ev);
    assert NamedEvent(names, ev);
    assert ev.id in evs ==> evs[ev.id] == ev;
  }
}
