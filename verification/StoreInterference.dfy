/**
 When a group means what its requests mean one at a time. The batch folds every request against
 the events stored before the group; a request is interfered with when an earlier one has changed
 what it should have seen. The replies tell the two apart exactly when some request is interfered with.
 */
module StoreInterference {
  import opened ByteStrings
  import opened NostrEvents
  import opened StoreKeys
  import opened StoreTables
  import opened StoreSpec
  import opened StoreCommit
  import opened StoreSequential

  /** Ids name events, those stored and those that arrive. */
  ghost predicate Identified(names: Naming, evs: Events, group: seq<Request>) {
    Named(names, evs) && forall i :: 0 <= i < |group| ==> NamedEvent(names, group[i].ev)
  }

  // ---- what the requests before the nth have done ----

  ghost predicate SavedBy(group: seq<Request>, n: nat, id: Id)
    requires n <= |group|
  {
    exists i :: 0 <= i < n && group[i].Save? && group[i].ev.id == id
  }

  ghost predicate DeletedBy(group: seq<Request>, n: nat, id: Id)
    requires n <= |group|
  {
    exists i :: 0 <= i < n && group[i].Delete? && group[i].ev.id == id
  }

  /** A replace newer than all that was stored under its key and all earlier replaces of its key. */
  ghost predicate Wins(evs: Events, group: seq<Request>, j: nat)
    requires j < |group|
  {
    var ev := group[j].ev;
    && group[j].Replace?
    && (forall id :: Under(evs, KeyFor(ev), id) ==> evs[id].createdAt < ev.createdAt)
    && (forall i :: 0 <= i < j && group[i].Replace? && KeyFor(group[i].ev) == KeyFor(ev) ==>
                      group[i].ev.createdAt < ev.createdAt)
  }

  /** A winner takes its place unless the group has saved the same event before. */
  ghost predicate Takes(evs: Events, group: seq<Request>, j: nat)
    requires j < |group|
  {
    Wins(evs, group, j) && !SavedBy(group, j, group[j].ev.id)
  }

  ghost predicate WinsKey(evs: Events, group: seq<Request>, j: nat, key: ReplaceKey)
    requires j < |group|
  {
    Wins(evs, group, j) && KeyFor(group[j].ev) == key
  }

  /** The last winner of a key. */
  ghost function Winner(evs: Events, group: seq<Request>, n: nat, key: ReplaceKey): Option<Stored>
    requires n <= |group|
  {
    if n == 0 then None
    else if WinsKey(evs, group, n - 1, key) then Some(group[n - 1].ev)
    else Winner(evs, group, n - 1, key)
  }

  /** What the batch holds for the versions of a key: those stored before it, or its last winner. */
  ghost predicate Candidate(evs: Events, group: seq<Request>, n: nat, key: ReplaceKey, id: Id)
    requires n <= |group|
  {
    match Winner(evs, group, n, key)
    case None => Under(evs, key, id)
    case Some(w) => w.id == id
  }

  ghost predicate Outdone(evs: Events, group: seq<Request>, j: nat, id: Id)
    requires j < |group|
  {
    Wins(evs, group, j) && Candidate(evs, group, j, KeyFor(group[j].ev), id)
  }

  /** To the batch the event is gone: deleted by the group or outdone by a winner of it. */
  ghost predicate Marked(evs: Events, group: seq<Request>, n: nat, id: Id)
    requires n <= |group|
  {
    DeletedBy(group, n, id) || exists j :: 0 <= j < n && Outdone(evs, group, j, id)
  }

  /** What a winner of the key would remove. */
  ghost predicate Listed(evs: Events, group: seq<Request>, n: nat, key: ReplaceKey, id: Id)
    requires n <= |group|
  {
    Candidate(evs, group, n, key, id) && !Marked(evs, group, n, id)
  }

  ghost predicate Brings(evs: Events, group: seq<Request>, s: nat, id: Id)
    requires s < |group|
  {
    group[s].ev.id == id && (group[s].Save? || Takes(evs, group, s))
  }

  ghost predicate Brought(evs: Events, group: seq<Request>, n: nat, id: Id)
    requires n <= |group|
  {
    exists s :: 0 <= s < n && Brings(evs, group, s, id)
  }

  /** The request takes the event away: a delete of it, or a winner under whose key it is found. */
  ghost predicate Removes(names: Naming, evs: Events, group: seq<Request>, j: nat, id: Id)
    requires j < |group|
  {
    || (group[j].Delete? && group[j].ev.id == id)
    || (Takes(evs, group, j) && Seen(KeyFor(group[j].ev), names(id)))
  }

  ghost predicate Removed(names: Naming, evs: Events, group: seq<Request>, i: nat, n: nat, id: Id)
    requires n <= |group|
  {
    exists j :: i <= j < n && Removes(names, evs, group, j, id)
  }

  /** Request `s` brought the event and no later one has taken it away. */
  ghost predicate Lasting(names: Naming, evs: Events, group: seq<Request>, s: nat, n: nat, id: Id)
    requires s < n <= |group|
  {
    Brings(evs, group, s, id) && !Removed(names, evs, group, s + 1, n, id)
  }

  /** The event is there: stored before or brought by the group, and not taken away since. */
  ghost predicate Live(names: Naming, evs: Events, group: seq<Request>, n: nat, id: Id)
    requires n <= |group|
  {
    || (id in evs && !Removed(names, evs, group, 0, n, id))
    || exists s :: 0 <= s < n && Lasting(names, evs, group, s, n, id)
  }

  ghost predicate LiveUnder(names: Naming, evs: Events, group: seq<Request>, n: nat, key: ReplaceKey, id: Id)
    requires n <= |group|
  {
    Live(names, evs, group, n, id) && Seen(key, names(id))
  }

  /**
   An earlier request of the group stands in the way of request `k`:
   a save of what was once stored and is no longer there;
   a delete of what is there only since the group began, or is gone to the batch alone;
   a replace that wins, where what the batch would remove is not what is found under its key;
   a replace that does not take its place, where nothing as new is left under its key.
   */
  ghost predicate Interfered(names: Naming, evs: Events, group: seq<Request>, k: nat)
    requires k < |group|
  {
    var ev := group[k].ev;
    var key := KeyFor(ev);
    match group[k]
    case Save(_) => (ev.id in evs || Brought(evs, group, k, ev.id)) && !Live(names, evs, group, k, ev.id)
    case Delete(_) => Live(names, evs, group, k, ev.id) && (ev.id !in evs || Marked(evs, group, k, ev.id))
    case Replace(_) =>
      if Takes(evs, group, k) then
        exists id :: LiveUnder(names, evs, group, k, key, id) != Listed(evs, group, k, key, id)
      else
        forall id :: LiveUnder(names, evs, group, k, key, id) ==> names(id).createdAt < ev.createdAt
  }

  ghost predicate Undisturbed(names: Naming, evs: Events, group: seq<Request>, n: nat)
    requires n <= |group|
  {
    forall k :: 0 <= k < n ==> !Interfered(names, evs, group, k)
  }

  // ---- one request more ----

  lemma {:induction false} SavedByStep(group: seq<Request>, n: nat, id: Id)
    requires n < |group|
    ensures SavedBy(group, n + 1, id) <==> SavedBy(group, n, id) || (group[n].Save? && group[n].ev.id == id)
    ensures DeletedBy(group, n + 1, id) <==> DeletedBy(group, n, id) || (group[n].Delete? && group[n].ev.id == id)
  {
  }

  lemma {:induction false} BroughtStep(evs: Events, group: seq<Request>, n: nat, id: Id)
    requires n < |group|
    ensures Brought(evs, group, n + 1, id) <==> Brought(evs, group, n, id) || Brings(evs, group, n, id)
  {
    hide Brings;
  }

  lemma {:induction false} MarkedStep(evs: Events, group: seq<Request>, n: nat, id: Id)
    requires n < |group|
    ensures Marked(evs, group, n + 1, id) <==>
            || Marked(evs, group, n, id)
            || (group[n].Delete? && group[n].ev.id == id)
            || Outdone(evs, group, n, id)
  {
    hide Outdone, DeletedBy;
    SavedByStep(group, n, id);
  }

  lemma {:induction false} RemovedStep(names: Naming, evs: Events, group: seq<Request>, i: nat, n: nat, id: Id)
    requires n < |group|
    ensures Removed(names, evs, group, i, n + 1, id) <==>
            Removed(names, evs, group, i, n, id) || (i <= n && Removes(names, evs, group, n, id))
  {
    hide Removes;
  }

  lemma {:induction false} LiveStep(names: Naming, evs: Events, group: seq<Request>, n: nat, id: Id)
    requires n < |group|
    ensures Live(names, evs, group, n + 1, id) <==>
            Brings(evs, group, n, id) || (Live(names, evs, group, n, id) && !Removes(names, evs, group, n, id))
  {
    hide Brings, Removes, Removed;
    RemovedStep(names, evs, group, 0, n, id);
    RemovedNone(names, evs, group, n + 1, id);
    forall s | 0 <= s < n
      ensures Lasting(names, evs, group, s, n + 1, id) <==>
              Lasting(names, evs, group, s, n, id) && !Removes(names, evs, group, n, id)
    {
      RemovedStep(names, evs, group, s + 1, n, id);
    }
    assert Brings(evs, group, n, id) ==> Lasting(names, evs, group, n, n + 1, id);
    var m := n + 1;
    if s :| 0 <= s < m && Lasting(names, evs, group, s, m, id) {
      assert s < n ==> Lasting(names, evs, group, s, n, id);
    }
  }

  lemma {:induction false} RemovedNone(names: Naming, evs: Events, group: seq<Request>, n: nat, id: Id)
    requires n <= |group|
    ensures !Removed(names, evs, group, n, n, id)
  {
  }

  lemma {:induction false} LiveStart(names: Naming, evs: Events, group: seq<Request>, id: Id)
    ensures Live(names, evs, group, 0, id) <==> id in evs
  {
  }

  /** What is there was stored at some time. */
  lemma {:induction false} LiveStored(names: Naming, evs: Events, group: seq<Request>, n: nat, id: Id)
    requires n <= |group|
    ensures Live(names, evs, group, n, id) ==> id in evs || Brought(evs, group, n, id)
  {
    hide Brings, Removed;
  }

  // ---- winners ----

  /** The winner came with a request of the group, and none of its key has won since. */
  lemma {:induction false} WinnerIs(evs: Events, group: seq<Request>, n: nat, key: ReplaceKey)
    requires n <= |group|
    ensures var w := Winner(evs, group, n, key);
            if w.None? then forall i :: 0 <= i < n ==> !WinsKey(evs, group, i, key)
            else exists j: nat :: LastWin(evs, group, j, n, key) && group[j].ev == w.value
  {
    hide WinsKey;
    if n > 0 {
      WinnerIs(evs, group, n - 1, key);
      var w := Winner(evs, group, n, key);
      if WinsKey(evs, group, n - 1, key) {
        assert LastWin(evs, group, n - 1, n, key);
      } else if w.Some? {
        var j: nat :| LastWin(evs, group, j, n - 1, key) && group[j].ev == w.value;
        assert LastWin(evs, group, j, n, key);
      }
    }
  }

  ghost predicate LastWin(evs: Events, group: seq<Request>, j: nat, n: nat, key: ReplaceKey)
    requires n <= |group|
  {
    j < n && WinsKey(evs, group, j, key) && forall i :: j < i < n ==> !WinsKey(evs, group, i, key)
  }

  /** The winner outranks all; without one, something stored is as new as any replace. */
  ghost predicate Settled(evs: Events, group: seq<Request>, n: nat, key: ReplaceKey)
    requires n <= |group|
  {
    match Winner(evs, group, n, key)
    case Some(w) =>
      && KeyFor(w) == key
      && (forall id :: Under(evs, key, id) ==> evs[id].createdAt < w.createdAt)
      && (forall i :: 0 <= i < n && group[i].Replace? && KeyFor(group[i].ev) == key ==>
                        group[i].ev.createdAt <= w.createdAt)
    case None =>
      forall i :: 0 <= i < n && group[i].Replace? && KeyFor(group[i].ev) == key ==>
                    exists id :: Under(evs, key, id) && evs[id].createdAt >= group[i].ev.createdAt
  }

  lemma {:induction false} WinnerSettles(evs: Events, group: seq<Request>, n: nat, key: ReplaceKey)
    requires n <= |group|
    ensures Settled(evs, group, n, key)
  {
    if n > 0 {
      WinnerSettles(evs, group, n - 1, key);
      if group[n - 1].Replace? && KeyFor(group[n - 1].ev) == key {
        WinsIff(evs, group, n - 1);
      }
    }
  }

  /** A replace wins when it is newer than the last winner, or than all that was stored. */
  lemma {:induction false} WinsIff(evs: Events, group: seq<Request>, n: nat)
    requires n < |group| && group[n].Replace? && Settled(evs, group, n, KeyFor(group[n].ev))
    ensures var ev := group[n].ev;
            Wins(evs, group, n) <==>
            match Winner(evs, group, n, KeyFor(ev))
            case Some(w) => w.createdAt < ev.createdAt
            case None => forall id :: Under(evs, KeyFor(ev), id) ==> evs[id].createdAt < ev.createdAt
  {
    hide KeyFor, Seen;
    var key := KeyFor(group[n].ev);
    WinnerIs(evs, group, n, key);
    if Winner(evs, group, n, key).Some? {
      var j: nat :| LastWin(evs, group, j, n, key) && group[j].ev == Winner(evs, group, n, key).value;
      assert group[j].Replace?;
    }
  }

  /** A key with a winner had a first one, when it was still the stored versions that counted. */
  lemma {:induction false} FirstWin(evs: Events, group: seq<Request>, n: nat, key: ReplaceKey) returns (i: nat)
    requires n <= |group| && Winner(evs, group, n, key).Some?
    ensures i < n && WinsKey(evs, group, i, key) && Winner(evs, group, i, key).None?
  {
    hide WinsKey;
    i := n - 1;
    while !(WinsKey(evs, group, i, key) && Winner(evs, group, i, key).None?)
      invariant i < n && Winner(evs, group, i + 1, key).Some?
      decreases i
    {
      i := i - 1;
    }
  }

  // ---- what the fold knows ----

  ghost function LedgerAt(evs: Events, st: GroupState, key: ReplaceKey): Ledger
    requires Keyed(evs)
  {
    if key in st.ledgers then st.ledgers[key] else Ledger(Head(VersionsOf(evs, key)), VersionsOf(evs, key))
  }

  ghost function LedgerOf(evs: Events, group: seq<Request>, n: nat, key: ReplaceKey): Ledger
    requires Keyed(evs) && n <= |group|
  {
    match Winner(evs, group, n, key)
    case Some(w) => Ledger(Some(w), [])
    case None => Ledger(Head(VersionsOf(evs, key)), VersionsOf(evs, key))
  }

  ghost predicate Marks(evs: Events, group: seq<Request>, n: nat, seenDel: set<Id>)
    requires n <= |group|
  {
    forall id :: id in seenDel <==> Marked(evs, group, n, id)
  }

  /** The seen sets and the ledger, in terms of the requests and of the events stored before them. */
  ghost predicate Tracks(evs: Events, group: seq<Request>, n: nat, st: GroupState)
    requires Keyed(evs) && n <= |group|
  {
    && (forall id :: id in st.seenSave <==> Brought(evs, group, n, id))
    && Marks(evs, group, n, st.seenDel)
    && (forall key :: LedgerAt(evs, st, key) == LedgerOf(evs, group, n, key))
  }

  lemma {:induction false} WinnerStep(evs: Events, group: seq<Request>, n: nat, key: ReplaceKey)
    requires n < |group|
    ensures Winner(evs, group, n + 1, key) ==
            if WinsKey(evs, group, n, key) then Some(group[n].ev) else Winner(evs, group, n, key)
  {
  }

  lemma {:induction false} WinnerNamed(names: Naming, evs: Events, group: seq<Request>, n: nat, key: ReplaceKey)
    requires Identified(names, evs, group) && n <= |group|
    ensures Winner(evs, group, n, key).Some? ==>
              NamedEvent(names, Winner(evs, group, n, key).value) && KeyFor(Winner(evs, group, n, key).value) == key
  {
    hide Wins, KeyFor;
    WinnerIs(evs, group, n, key);
  }

  /** The ledger refuses a replace exactly when it does not win. */
  lemma {:induction false} LedgerRefuses(evs: Events, group: seq<Request>, n: nat)
    requires Keyed(evs) && n < |group| && group[n].Replace?
    ensures var ev := group[n].ev;
            var newest := LedgerOf(evs, group, n, KeyFor(ev)).newest;
            Wins(evs, group, n) <==> (newest.Some? ==> newest.value.createdAt < ev.createdAt)
  {
    hide KeyFor, Wins, VersionsOf, IdSet, Seen;
    var key := KeyFor(group[n].ev);
    WinnerSettles(evs, group, n, key);
    WinsIff(evs, group, n);
    VersionsOfIs(evs, key);
    var v := VersionsOf(evs, key);
    forall id | Under(evs, key, id) ensures v != [] && evs[id].createdAt <= v[0].createdAt {
      InIdSet(v, id);
    }
  }

  ghost function VictimsOfWin(evs: Events, group: seq<Request>, n: nat, seenDel: set<Id>): seq<Stored>
    requires Keyed(evs) && n < |group|
  {
    var l := LedgerOf(evs, group, n, KeyFor(group[n].ev));
    Victims(l.toDelete + AsList(l.newest), group[n].ev.id, seenDel)
  }

  /** What a winner outdoes is older. */
  lemma {:induction false} CandidatesOlder(names: Naming, evs: Events, group: seq<Request>, n: nat, id: Id)
    requires Identified(names, evs, group) && n < |group| && group[n].Replace? && Wins(evs, group, n)
    ensures Candidate(evs, group, n, KeyFor(group[n].ev), id) ==> names(id).createdAt < group[n].ev.createdAt
  {
    hide KeyFor, Wins, Seen, Winner;
    var key := KeyFor(group[n].ev);
    WinnerSettles(evs, group, n, key);
    WinsIff(evs, group, n);
    WinnerNamed(names, evs, group, n, key);
  }

  /** A winning replace removes the events listed under its key, newest first. */
  lemma {:induction false} VictimsListed(names: Naming, evs: Events, group: seq<Request>, n: nat, seenDel: set<Id>)
    requires Identified(names, evs, group) && n < |group| && group[n].Replace? && Wins(evs, group, n)
    requires Marks(evs, group, n, seenDel)
    ensures var v := VictimsOfWin(evs, group, n, seenDel);
            && Newest(v) && NamedList(names, v)
            && forall id :: id in IdSet(v) <==> Listed(evs, group, n, KeyFor(group[n].ev), id)
  {
    hide KeyFor, Wins, VersionsOf, Victims, IdSet, Seen, Marked, Winner;
    var ev := group[n].ev;
    var key := KeyFor(ev);
    WinnerNamed(names, evs, group, n, key);
    assert NamedEvent(names, ev);
    forall id ensures Candidate(evs, group, n, key, id) ==> id != ev.id {
      CandidatesOlder(names, evs, group, n, id);
    }
    match Winner(evs, group, n, key)
    case Some(w) =>
      assert [] + AsList(Some(w)) == [w];
      assert Candidate(evs, group, n, key, w.id);
      VictimsOne(w, ev.id, seenDel);
    case None =>
      var v := VersionsOf(evs, key);
      VersionsOfIs(evs, key);
      forall i | 0 <= i < |v| ensures v[i].id != ev.id {
        assert Candidate(evs, group, n, key, v[i].id);
      }
      VictimsAre(v, ev.id, seenDel);
      UnremovedIs(v, seenDel);
      forall id ensures id in IdSet(Unremoved(v, seenDel)) <==> Listed(evs, group, n, key, id) {
        ListedWithout(names, evs, group, n, key, seenDel, id);
      }
  }

  lemma {:induction false} VictimsOne(w: Stored, id: Id, seenDel: set<Id>)
    requires w.id != id
    ensures Victims([w], id, seenDel) == if w.id in seenDel then [] else [w]
    ensures IdSet([]) == {} && IdSet([w]) == {w.id}
  {
    assert [w][1..] == [];
    assert [w][0].id in IdSet([w]);
  }

  /** Without a winner the listed events are the stored versions that are not gone to the batch. */
  lemma {:induction false} ListedWithout(names: Naming, evs: Events, group: seq<Request>, n: nat, key: ReplaceKey,
                                         seenDel: set<Id>, id: Id)
    requires Named(names, evs) && n <= |group| && Winner(evs, group, n, key).None?
    requires Marks(evs, group, n, seenDel)
    ensures id in IdSet(Unremoved(VersionsOf(evs, key), seenDel)) <==> Listed(evs, group, n, key, id)
  {
    hide Seen, VersionsOf, IdSet, Marked, Winner;
    var v := VersionsOf(evs, key);
    VersionsOfIs(evs, key);
    UnremovedIs(v, seenDel);
    InIdSet(v, id);
    InIdSet(Unremoved(v, seenDel), id);
    if Under(evs, key, id) {
      assert evs[id] in v;
    }
  }

  // ---- one step of the fold ----

  /** Whether the batch carries out a save or delete. */
  ghost predicate Fires(evs: Events, group: seq<Request>, n: nat)
    requires n < |group|
  {
    var ev := group[n].ev;
    match group[n]
    case Save(_) => ev.id !in evs && !Brought(evs, group, n, ev.id)
    case Delete(_) => ev.id in evs && !Marked(evs, group, n, ev.id)
    case Replace(_) => Takes(evs, group, n)
  }

  ghost function VictimsAt(evs: Events, group: seq<Request>, n: nat, seenDel: set<Id>): seq<Stored>
    requires Keyed(evs) && n < |group|
  {
    if group[n].Replace? then VictimsOfWin(evs, group, n, seenDel) else []
  }

  /** The batch's answer to request `n`. */
  ghost function BatchReply(evs: Events, group: seq<Request>, n: nat, seenDel: set<Id>): Reply
    requires Keyed(evs) && n < |group|
  {
    if Fires(evs, group, n) then Reply(true, VictimsAt(evs, group, n, seenDel)) else REFUSED
  }

  /** What the request makes of the stored events. */
  ghost function BatchResult(evs: Events, group: seq<Request>, n: nat, seenDel: set<Id>, current: Events): Events
    requires Keyed(evs) && n < |group|
  {
    var ev := group[n].ev;
    if !Fires(evs, group, n) then current
    else if group[n].Delete? then current - {ev.id}
    else current[ev.id := ev] - IdSet(VictimsAt(evs, group, n, seenDel))
  }

  ghost predicate Answers(evs: Events, group: seq<Request>, n: nat, st: GroupState, after: GroupState)
    requires Keyed(evs) && n < |group|
  {
    && after.current == BatchResult(evs, group, n, st.seenDel, st.current)
    && after.replies == st.replies + [BatchReply(evs, group, n, st.seenDel)]
  }

  lemma {:induction false} SaveTracked(evs: Events, group: seq<Request>, n: nat, st: GroupState)
    requires Keyed(evs) && n < |group| && group[n].Save? && Tracks(evs, group, n, st)
    ensures var after := SaveStep(evs, st, group[n].ev);
            Tracks(evs, group, n + 1, after) && Answers(evs, group, n, st, after)
  {
    hide KeyFor, VersionsOf, Brought, Marked, Winner;
    var after := SaveStep(evs, st, group[n].ev);
    IdSetNone();
    forall id ensures Brought(evs, group, n + 1, id) <==> Brought(evs, group, n, id) || id == group[n].ev.id {
      BroughtStep(evs, group, n, id);
    }
    NoWin(evs, group, n);
    MarksStay(evs, group, n, st.seenDel);
    LedgersStay(evs, group, n, st, after);
  }

  lemma {:induction false} NoWin(evs: Events, group: seq<Request>, n: nat)
    requires n < |group|
    ensures !group[n].Replace? || !Wins(evs, group, n) ==>
              && (forall key :: Winner(evs, group, n + 1, key) == Winner(evs, group, n, key))
              && (forall id :: !Outdone(evs, group, n, id))
  {
    hide KeyFor, Seen;
  }

  /** A request that does not win adds no mark but that of a delete. */
  lemma {:induction false} MarksStay(evs: Events, group: seq<Request>, n: nat, seenDel: set<Id>)
    requires n < |group| && Marks(evs, group, n, seenDel)
    requires forall id :: !Outdone(evs, group, n, id)
    ensures Marks(evs, group, n + 1, if group[n].Delete? then seenDel + {group[n].ev.id} else seenDel)
  {
    hide Marked, Outdone;
    forall id
      ensures Marked(evs, group, n + 1, id) <==> Marked(evs, group, n, id) || (group[n].Delete? && group[n].ev.id == id)
    {
      MarkedStep(evs, group, n, id);
    }
  }

  lemma {:induction false} LedgersStay(evs: Events, group: seq<Request>, n: nat, st: GroupState, after: GroupState)
    requires Keyed(evs) && n < |group| && after.ledgers == st.ledgers
    requires forall key :: Winner(evs, group, n + 1, key) == Winner(evs, group, n, key)
    requires forall key :: LedgerAt(evs, st, key) == LedgerOf(evs, group, n, key)
    ensures forall key :: LedgerAt(evs, after, key) == LedgerOf(evs, group, n + 1, key)
  {
    hide VersionsOf, Winner;
    forall key ensures LedgerAt(evs, after, key) == LedgerOf(evs, group, n + 1, key) {
      assert LedgerAt(evs, st, key) == LedgerOf(evs, group, n, key);
    }
  }

  lemma {:induction false} DeleteTracked(evs: Events, group: seq<Request>, n: nat, st: GroupState)
    requires Keyed(evs) && n < |group| && group[n].Delete? && Tracks(evs, group, n, st)
    ensures var after := DeleteStep(evs, st, group[n].ev);
            Tracks(evs, group, n + 1, after) && Answers(evs, group, n, st, after)
  {
    hide KeyFor, VersionsOf, Brought, Marked, Winner;
    var ev := group[n].ev;
    var after := DeleteStep(evs, st, ev);
    forall id ensures Brought(evs, group, n + 1, id) <==> Brought(evs, group, n, id) {
      BroughtStep(evs, group, n, id);
    }
    NoWin(evs, group, n);
    MarksStay(evs, group, n, st.seenDel);
    assert ev.id in st.seenDel ==> st.seenDel + {ev.id} == st.seenDel;
    LedgersStay(evs, group, n, st, after);
  }

  lemma {:induction false} LosingTracked(evs: Events, group: seq<Request>, n: nat, st: GroupState)
    requires Keyed(evs) && n < |group| && group[n].Replace? && !Wins(evs, group, n) && Tracks(evs, group, n, st)
    ensures var ev := group[n].ev;
            var after := ReplaceAgainst(st, LedgerAt(evs, st, KeyFor(ev)), ev);
            Tracks(evs, group, n + 1, after) && Answers(evs, group, n, st, after)
  {
    hide KeyFor, VersionsOf, Brought, Marked, Winner, Wins, Victims;
    var ev := group[n].ev;
    var key := KeyFor(ev);
    LedgerRefuses(evs, group, n);
    assert LedgerAt(evs, st, key) == LedgerOf(evs, group, n, key);
    var after := ReplaceAgainst(st, LedgerAt(evs, st, key), ev);
    assert after == Say(st.(ledgers := st.ledgers[key := LedgerAt(evs, st, key)]), REFUSED);
    forall id ensures Brought(evs, group, n + 1, id) <==> Brought(evs, group, n, id) {
      BroughtStep(evs, group, n, id);
    }
    NoWin(evs, group, n);
    MarksStay(evs, group, n, st.seenDel);
    forall k ensures LedgerAt(evs, after, k) == LedgerOf(evs, group, n + 1, k) {
      assert LedgerAt(evs, st, k) == LedgerOf(evs, group, n, k);
    }
  }

  lemma {:induction false} WinningTracked(names: Naming, evs: Events, group: seq<Request>, n: nat, st: GroupState)
    requires Identified(names, evs, group) && n < |group| && group[n].Replace? && Wins(evs, group, n)
    requires Tracks(evs, group, n, st)
    ensures var ev := group[n].ev;
            var after := ReplaceAgainst(st, LedgerAt(evs, st, KeyFor(ev)), ev);
            Tracks(evs, group, n + 1, after) && Answers(evs, group, n, st, after)
  {
    hide KeyFor, VersionsOf, Brought, Winner, Wins, Victims, IdSet, SavedBy, Marks;
    var ev := group[n].ev;
    var key := KeyFor(ev);
    LedgerRefuses(evs, group, n);
    var l := LedgerAt(evs, st, key);
    assert l == LedgerOf(evs, group, n, key);
    var after := ReplaceAgainst(st, l, ev);
    var victims := VictimsOfWin(evs, group, n, st.seenDel);
    assert after.seenDel == st.seenDel + IdSet(victims);
    WinnerFresh(names, evs, group, n);
    forall id ensures Brought(evs, group, n + 1, id) <==> Brought(evs, group, n, id) || id == ev.id {
      BroughtStep(evs, group, n, id);
    }
    MarksMove(names, evs, group, n, st.seenDel);
    forall k ensures LedgerAt(evs, after, k) == LedgerOf(evs, group, n + 1, k) {
      assert LedgerAt(evs, st, k) == LedgerOf(evs, group, n, k);
      WinnerStep(evs, group, n, k);
    }
  }

  /** A winner was brought before only if the group saved it. */
  lemma {:induction false} WinnerFresh(names: Naming, evs: Events, group: seq<Request>, n: nat)
    requires Identified(names, evs, group) && n < |group| && Wins(evs, group, n)
    ensures Brought(evs, group, n, group[n].ev.id) <==> SavedBy(group, n, group[n].ev.id)
  {
    hide KeyFor, Seen;
    var ev := group[n].ev;
    assert NamedEvent(names, ev);
    forall s | 0 <= s < n && Brings(evs, group, s, ev.id) ensures group[s].Save? {
      assert NamedEvent(names, group[s].ev);
    }
    if i :| 0 <= i < n && group[i].Save? && group[i].ev.id == ev.id {
      assert Brings(evs, group, i, ev.id);
    }
  }

  /** A win marks what it removes. */
  lemma {:induction false} MarksMove(names: Naming, evs: Events, group: seq<Request>, n: nat, seenDel: set<Id>)
    requires Identified(names, evs, group) && n < |group| && group[n].Replace? && Wins(evs, group, n)
    requires Marks(evs, group, n, seenDel)
    ensures Marks(evs, group, n + 1, seenDel + IdSet(VictimsOfWin(evs, group, n, seenDel)))
  {
    hide KeyFor, Wins, VictimsOfWin, IdSet, Marked, Candidate;
    VictimsListed(names, evs, group, n, seenDel);
    forall id ensures Marked(evs, group, n + 1, id) <==> Marked(evs, group, n, id) || Outdone(evs, group, n, id) {
      MarkedStep(evs, group, n, id);
    }
  }

  lemma {:induction false} StartTracks(evs: Events, group: seq<Request>)
    requires Keyed(evs)
    ensures Tracks(evs, group, 0, StoreSpec.Start(evs))
  {
    hide KeyFor, VersionsOf;
  }

  lemma {:induction false} ReplaceTracked(names: Naming, evs: Events, group: seq<Request>, n: nat, st: GroupState)
    requires Identified(names, evs, group) && n < |group| && group[n].Replace?
    requires Tracks(evs, group, n, st)
    ensures var ev := group[n].ev;
            var after := ReplaceAgainst(st, LedgerFor(evs, st, ev), ev);
            Tracks(evs, group, n + 1, after) && Answers(evs, group, n, st, after)
  {
    hide KeyFor, VersionsOf, Versions, Wins, Tracks, Answers, ReplaceAgainst;
    VersionsByKey(evs, group[n].ev);
    assert LedgerFor(evs, st, group[n].ev) == LedgerAt(evs, st, KeyFor(group[n].ev));
    if Wins(evs, group, n) {
      WinningTracked(names, evs, group, n, st);
    } else {
      LosingTracked(evs, group, n, st);
    }
  }

  /** What the batch remembers of the requests before, and how it answers the next one. */
  lemma {:induction false} FoldTracks(names: Naming, evs: Events, group: seq<Request>, n: nat)
    requires Identified(names, evs, group) && n <= |group|
    ensures Tracks(evs, group, n, After(evs, group, n)) && |After(evs, group, n).replies| == n
    ensures n < |group| ==> Answers(evs, group, n, After(evs, group, n), After(evs, group, n + 1))
  {
    hide NamedEvent, Tracks, Step, BatchResult, BatchReply;
    if n > 0 {
      FoldTracks(names, evs, group, n - 1);
      FoldStep(names, evs, group, n - 1);
    } else {
      StartTracks(evs, group);
    }
    if n < |group| {
      FoldStep(names, evs, group, n);
    }
  }

  lemma {:induction false} FoldStep(names: Naming, evs: Events, group: seq<Request>, n: nat)
    requires Identified(names, evs, group) && n < |group|
    requires Tracks(evs, group, n, After(evs, group, n))
    ensures Tracks(evs, group, n + 1, After(evs, group, n + 1))
    ensures Answers(evs, group, n, After(evs, group, n), After(evs, group, n + 1))
  {
    hide NamedEvent, Tracks, Answers;
    var st := After(evs, group, n);
    StepIs(evs, st, group[n]);
    assert After(evs, group, n + 1) == Step(evs, st, group[n]);
    hide After, Step;
    match group[n]
    case Save(ev) => SaveTracked(evs, group, n, st);
    case Delete(ev) => DeleteTracked(evs, group, n, st);
    case Replace(ev) => ReplaceTracked(names, evs, group, n, st);
  }

  // ---- the same requests one at a time ----

  ghost predicate LoneRefuses(current: Events, req: Request)
    requires Keyed(current)
  {
    match req
    case Save(ev) => ev.id in current
    case Delete(ev) => ev.id !in current
    case Replace(ev) =>
      var v := VersionsOf(current, KeyFor(ev));
      v != [] && v[0].createdAt >= ev.createdAt
  }

  ghost function LoneReply(current: Events, req: Request): Reply
    requires Keyed(current)
  {
    if LoneRefuses(current, req) then REFUSED
    else Reply(true, if req.Replace? then VersionsOf(current, KeyFor(req.ev)) else [])
  }

  ghost function LoneResult(current: Events, req: Request): Events
    requires Keyed(current)
  {
    if LoneRefuses(current, req) then current
    else match req
         case Save(ev) => current[ev.id := ev]
         case Delete(ev) => current - {ev.id}
         case Replace(ev) => Won(current, ev)
  }

  /** What a request does on its own. */
  lemma {:induction false} LoneRequest(names: Naming, current: Events, req: Request)
    requires Named(names, current) && NamedEvent(names, req.ev)
    ensures Committed(current, [req]).current == LoneResult(current, req)
    ensures Committed(current, [req]).replies == [LoneReply(current, req)]
  {
    hide KeyFor, VersionsOf, Won;
    if req.Replace? {
      LoneReplace(names, current, req.ev);
    } else {
      Alone(current, req);
      StepIs(current, StoreSpec.Start(current), req);
    }
  }

  lemma {:induction false} SequenceAnswers(names: Naming, evs: Events, group: seq<Request>, n: nat)
    requires Identified(names, evs, group) && n < |group|
    requires Holds(names, evs, group, n, OneByOne(evs, group, n).current)
    ensures var s, after := OneByOne(evs, group, n), OneByOne(evs, group, n + 1);
            && after.current == LoneResult(s.current, group[n])
            && after.replies == s.replies + [LoneReply(s.current, group[n])]
  {
    hide NamedEvent, Live, LoneResult, LoneReply, Committed;
    LoneRequest(names, OneByOne(evs, group, n).current, group[n]);
  }

  /** The batch and the sequence agree, and what they hold are the live events. */
  ghost predicate Agree(names: Naming, evs: Events, group: seq<Request>, n: nat)
    requires Keyed(evs) && n <= |group|
  {
    var current := OneByOne(evs, group, n).current;
    && After(evs, group, n).current == current
    && After(evs, group, n).replies == OneByOne(evs, group, n).replies
    && Holds(names, evs, group, n, current)
  }

  ghost predicate Holds(names: Naming, evs: Events, group: seq<Request>, n: nat, current: Events)
    requires n <= |group|
  {
    && Named(names, current)
    && forall id :: id in current <==> Live(names, evs, group, n, id)
  }

  // ---- telling the two apart ----

  lemma {:induction false} SaveTells(names: Naming, evs: Events, group: seq<Request>, n: nat, seenDel: set<Id>,
                                     current: Events)
    requires Identified(names, evs, group) && n < |group| && group[n].Save?
    requires Holds(names, evs, group, n, current)
    ensures BatchReply(evs, group, n, seenDel) == LoneReply(current, group[n]) <==> !Interfered(names, evs, group, n)
    ensures !Interfered(names, evs, group, n) ==>
              && BatchResult(evs, group, n, seenDel, current) == LoneResult(current, group[n])
              && Holds(names, evs, group, n + 1, LoneResult(current, group[n]))
  {
    hide KeyFor, Live, Brought, IdSet;
    var id := group[n].ev.id;
    assert NamedEvent(names, group[n].ev);
    IdSetNone();
    LiveStored(names, evs, group, n, id);
    forall x ensures Live(names, evs, group, n + 1, x) <==> Live(names, evs, group, n, x) || x == id {
      LiveStep(names, evs, group, n, x);
    }
  }

  lemma {:induction false} DeleteTells(names: Naming, evs: Events, group: seq<Request>, n: nat, seenDel: set<Id>,
                                       current: Events)
    requires Identified(names, evs, group) && n < |group| && group[n].Delete?
    requires Holds(names, evs, group, n, current)
    ensures BatchReply(evs, group, n, seenDel) == LoneReply(current, group[n]) <==> !Interfered(names, evs, group, n)
    ensures !Interfered(names, evs, group, n) ==>
              && BatchResult(evs, group, n, seenDel, current) == LoneResult(current, group[n])
              && Holds(names, evs, group, n + 1, LoneResult(current, group[n]))
  {
    hide KeyFor, Live, Marked;
    var id := group[n].ev.id;
    assert NamedEvent(names, group[n].ev);
    UnmarkedLive(names, evs, group, n, id);
    forall x ensures Live(names, evs, group, n + 1, x) <==> Live(names, evs, group, n, x) && x != id {
      LiveStep(names, evs, group, n, x);
    }
  }

  /** What was stored before and is not gone to the batch is there. */
  lemma {:induction false} UnmarkedLive(names: Naming, evs: Events, group: seq<Request>, n: nat, id: Id)
    requires Named(names, evs) && n <= |group|
    ensures id in evs && !Marked(evs, group, n, id) ==> Live(names, evs, group, n, id)
  {
    hide KeyFor, Seen, Wins, Winner;
    if id in evs && !Marked(evs, group, n, id) {
      forall j | 0 <= j < n ensures !Removes(names, evs, group, j, id) {
        var key := KeyFor(group[j].ev);
        assert !Outdone(evs, group, j, id);
        if Winner(evs, group, j, key).Some? {
          var i := FirstWin(evs, group, j, key);
          assert !Outdone(evs, group, i, id);
        }
      }
    }
  }

  /** Versions that outrank a time stamp are found at the head of the list. */
  lemma {:induction false} HeadOutranks(evs: Events, key: ReplaceKey, ts: int)
    requires Keyed(evs)
    ensures var v := VersionsOf(evs, key);
            (v != [] && v[0].createdAt >= ts) <==> exists id :: Under(evs, key, id) && evs[id].createdAt >= ts
  {
    hide Seen, VersionsOf, IdSet;
    var v := VersionsOf(evs, key);
    VersionsOfIs(evs, key);
    forall id | Under(evs, key, id) ensures v != [] && evs[id].createdAt <= v[0].createdAt {
      InIdSet(v, id);
    }
    assert v != [] ==> Under(evs, key, v[0].id);
  }

  /** A replace the batch does not let in. */
  lemma {:induction false} RefusalTells(names: Naming, evs: Events, group: seq<Request>, n: nat, seenDel: set<Id>,
                                        current: Events)
    requires Identified(names, evs, group) && n < |group| && group[n].Replace? && !Takes(evs, group, n)
    requires Holds(names, evs, group, n, current)
    ensures BatchReply(evs, group, n, seenDel) == LoneReply(current, group[n]) <==> !Interfered(names, evs, group, n)
    ensures !Interfered(names, evs, group, n) ==>
              && BatchResult(evs, group, n, seenDel, current) == LoneResult(current, group[n])
              && Holds(names, evs, group, n + 1, LoneResult(current, group[n]))
  {
    hide KeyFor, Live, Takes, VersionsOf, Won, IdSet, VictimsOfWin, Seen;
    var ev := group[n].ev;
    var key := KeyFor(ev);
    HeadOutranks(current, key, ev.createdAt);
    forall id ensures Under(current, key, id) <==> LiveUnder(names, evs, group, n, key, id) {
    }
    forall x ensures Live(names, evs, group, n + 1, x) <==> Live(names, evs, group, n, x) {
      LiveStep(names, evs, group, n, x);
    }
  }

  /** A replace the batch lets in: the same versions go exactly when the batch knows all that is there. */
  lemma {:induction false} WinTells(names: Naming, evs: Events, group: seq<Request>, n: nat, seenDel: set<Id>,
                                    current: Events)
    requires Identified(names, evs, group) && n < |group| && group[n].Replace? && Takes(evs, group, n)
    requires Holds(names, evs, group, n, current) && Marks(evs, group, n, seenDel)
    ensures BatchReply(evs, group, n, seenDel) == LoneReply(current, group[n]) <==> !Interfered(names, evs, group, n)
    ensures !Interfered(names, evs, group, n) ==>
              && VictimsOfWin(evs, group, n, seenDel) == VersionsOf(current, KeyFor(group[n].ev))
              && !LoneRefuses(current, group[n])
  {
    hide KeyFor, Seen, Live, Wins, VersionsOf, Won, IdSet, VictimsOfWin, Marked, Candidate, Marks;
    var ev := group[n].ev;
    var key := KeyFor(ev);
    var victims := VictimsOfWin(evs, group, n, seenDel);
    VictimsListed(names, evs, group, n, seenDel);
    VersionsOfIs(current, key);
    forall id
      ensures Under(current, key, id) <==> LiveUnder(names, evs, group, n, key, id)
      ensures Listed(evs, group, n, key, id) ==> names(id).createdAt < ev.createdAt
    {
      CandidatesOlder(names, evs, group, n, id);
    }
    HeadOutranks(current, key, ev.createdAt);
    if Interfered(names, evs, group, n) {
      var id :| LiveUnder(names, evs, group, n, key, id) != Listed(evs, group, n, key, id);
      assert (id in IdSet(VersionsOf(current, key))) != (id in IdSet(victims)) by {
        UnderVersions(current, key, id);
      }
    } else {
      forall i | 0 <= i < |victims| ensures victims[i].id in current && current[victims[i].id] == victims[i] {
        InIdSet(victims, victims[i].id);
        assert NamedEvent(names, victims[i]);
      }
      VersionsUnique(current, key, victims);
    }
  }

  lemma {:induction false} UnderVersions(evs: Events, key: ReplaceKey, id: Id)
    requires Keyed(evs)
    ensures id in IdSet(VersionsOf(evs, key)) <==> Under(evs, key, id)
  {
    hide Seen, VersionsOf;
    VersionsOfIs(evs, key);
  }

  /** What is live after the batch and the sequence have let the same replace in. */
  lemma {:induction false} WinHolds(names: Naming, evs: Events, group: seq<Request>, n: nat, current: Events)
    requires Identified(names, evs, group) && n < |group| && group[n].Replace? && Takes(evs, group, n)
    requires Holds(names, evs, group, n, current) && !LoneRefuses(current, group[n])
    ensures Holds(names, evs, group, n + 1, Won(current, group[n].ev))
  {
    hide KeyFor, Seen, Live, Takes, VersionsOf, Won, IdSet;
    var ev := group[n].ev;
    assert NamedEvent(names, ev);
    WonNamed(names, current, ev);
    forall x ensures x in Won(current, ev) <==> x == ev.id || (x in current && !Seen(KeyFor(ev), current[x])) {
      WonMembers(names, current, ev, x);
    }
    forall x ensures Live(names, evs, group, n + 1, x) <==>
                     x == ev.id || (Live(names, evs, group, n, x) && !Seen(KeyFor(ev), names(x))) {
      LiveStep(names, evs, group, n, x);
    }
  }

  lemma {:induction false} WonMembers(names: Naming, current: Events, ev: Stored, x: Id)
    requires Named(names, current) && NamedEvent(names, ev)
    requires var v := VersionsOf(current, KeyFor(ev)); v == [] || v[0].createdAt < ev.createdAt
    ensures x in Won(current, ev) <==> x == ev.id || (x in current && !Seen(KeyFor(ev), current[x]))
  {
    hide KeyFor, Seen, VersionsOf, IdSet;
    VersionsOfIs(current, KeyFor(ev));
    InIdSet(VersionsOf(current, KeyFor(ev)), x);
    assert Under(current, KeyFor(ev), x) <==> x in current && Seen(KeyFor(ev), current[x]);
  }

  lemma {:induction false} ReplaceTells(names: Naming, evs: Events, group: seq<Request>, n: nat, seenDel: set<Id>,
                                        current: Events)
    requires Identified(names, evs, group) && n < |group| && group[n].Replace?
    requires Holds(names, evs, group, n, current) && Marks(evs, group, n, seenDel)
    ensures BatchReply(evs, group, n, seenDel) == LoneReply(current, group[n]) <==> !Interfered(names, evs, group, n)
    ensures !Interfered(names, evs, group, n) ==>
              && BatchResult(evs, group, n, seenDel, current) == LoneResult(current, group[n])
              && Holds(names, evs, group, n + 1, LoneResult(current, group[n]))
  {
    hide Identified, Takes, Holds, Marks, Interfered, VictimsOfWin, VersionsOf, IdSet, KeyFor;
    if Takes(evs, group, n) {
      WinTells(names, evs, group, n, seenDel, current);
      if !Interfered(names, evs, group, n) {
        WinHolds(names, evs, group, n, current);
      }
    } else {
      RefusalTells(names, evs, group, n, seenDel, current);
    }
  }

  /** As long as nothing is interfered with the two agree; the first interference tells them apart. */
  lemma {:induction false} InterferenceTells(names: Naming, evs: Events, group: seq<Request>, n: nat)
    requires Identified(names, evs, group) && n < |group|
    requires Agree(names, evs, group, n)
    ensures After(evs, group, n + 1).replies == OneByOne(evs, group, n + 1).replies <==>
            !Interfered(names, evs, group, n)
    ensures !Interfered(names, evs, group, n) ==> Agree(names, evs, group, n + 1)
  {
    hide Holds, Interfered, After, OneByOne, BatchReply, BatchResult, LoneReply, LoneResult, Marks, LedgerOf;
    var current := OneByOne(evs, group, n).current;
    var seenDel := After(evs, group, n).seenDel;
    FoldTracks(names, evs, group, n);
    SequenceAnswers(names, evs, group, n);
    LastReply(evs, group, n);
    match group[n]
    case Save(_) => SaveTells(names, evs, group, n, seenDel, current);
    case Delete(_) => DeleteTells(names, evs, group, n, seenDel, current);
    case Replace(_) => ReplaceTells(names, evs, group, n, seenDel, current);
  }

  /** Each side answers once more, so they answer alike when their last answers are alike. */
  lemma {:induction false} LastReply(evs: Events, group: seq<Request>, n: nat)
    requires Keyed(evs) && n < |group|
    requires After(evs, group, n).replies == OneByOne(evs, group, n).replies
    requires |After(evs, group, n).replies| == n
    ensures forall a: Reply, b: Reply ::
              After(evs, group, n).replies + [a] == OneByOne(evs, group, n).replies + [b] <==> a == b
  {
    hide After, OneByOne;
    forall a: Reply, b: Reply
      ensures After(evs, group, n).replies + [a] == OneByOne(evs, group, n).replies + [b] <==> a == b
    {
      assert (After(evs, group, n).replies + [a])[n] == a && (OneByOne(evs, group, n).replies + [b])[n] == b;
    }
  }

  // ---- whole groups ----

  lemma {:induction false} StepSays(evs: Events, st: GroupState, req: Request)
    requires Keyed(evs)
    ensures exists r :: Step(evs, st, req).replies == st.replies + [r]
  {
    hide KeyFor, Victims, LedgerFor;
    StepIs(evs, st, req);
  }

  lemma {:induction false} RepliesGrow(evs: Events, group: seq<Request>, m: nat, n: nat)
    requires Keyed(evs) && m <= n <= |group|
    ensures |After(evs, group, n).replies| == |OneByOne(evs, group, n).replies| == n
    ensures After(evs, group, n).replies[..m] == After(evs, group, m).replies
    ensures OneByOne(evs, group, n).replies[..m] == OneByOne(evs, group, m).replies
    decreases n
  {
    hide Step, Committed;
    if n > 0 {
      RepliesGrow(evs, group, if m < n then m else n - 1, n - 1);
      var s := OneByOne(evs, group, n - 1).current;
      StepSays(evs, After(evs, group, n - 1), group[n - 1]);
      StepSays(s, StoreSpec.Start(s), group[n - 1]);
      Alone(s, group[n - 1]);
    }
  }

  lemma {:induction false} AgreeUndisturbed(names: Naming, evs: Events, group: seq<Request>, n: nat)
    requires Identified(names, evs, group) && n <= |group| && Undisturbed(names, evs, group, n)
    ensures Agree(names, evs, group, n)
  {
    hide NamedEvent, Interfered, Live;
    if n > 0 {
      AgreeUndisturbed(names, evs, group, n - 1);
      InterferenceTells(names, evs, group, n - 1);
    } else {
      forall id ensures Live(names, evs, group, 0, id) <==> id in evs {
        LiveStart(names, evs, group, id);
      }
    }
  }

  /**
   Any group of saves, deletes and replaces answers as its sequence would exactly when no request is
   interfered with, and it then leaves the same events: those that are live.
   */
  lemma {:induction false} GroupExact(names: Naming, evs: Events, group: seq<Request>)
    requires Identified(names, evs, group)
    ensures Undisturbed(names, evs, group, |group|) <==>
            Committed(evs, group).replies == OneByOne(evs, group, |group|).replies
    ensures Undisturbed(names, evs, group, |group|) ==> Agree(names, evs, group, |group|)
  {
    hide Interfered, After, OneByOne, Holds;
    if Undisturbed(names, evs, group, |group|) {
      AgreeUndisturbed(names, evs, group, |group|);
    } else {
      var first := FirstInterfered(names, evs, group);
      AgreeUndisturbed(names, evs, group, first);
      InterferenceTells(names, evs, group, first);
      RepliesGrow(evs, group, first + 1, |group|);
    }
  }

  lemma {:induction false} FirstInterfered(names: Naming, evs: Events, group: seq<Request>) returns (first: nat)
    requires !Undisturbed(names, evs, group, |group|)
    ensures first < |group| && Interfered(names, evs, group, first) && Undisturbed(names, evs, group, first)
  {
    hide Interfered;
    first := 0;
    while !Interfered(names, evs, group, first)
      invariant first < |group| && Undisturbed(names, evs, group, first)
      decreases |group| - first
    {
      first := first + 1;
    }
  }
}
