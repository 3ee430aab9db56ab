/**
 What a group of write requests means (eventstore/pebbledb2/store.go, `commitGroup`), in terms of
 the stored events: once as the single writer folds the group against the events present when it
 starts, and once as the requests applied one at a time.
 */
module StoreSpec {
  import opened ByteStrings
  import opened NostrEvents
  import opened StoreKeys
  import opened StoreTables

  datatype Request = Save(ev: Stored) | Delete(ev: Stored) | Replace(ev: Stored)

  /** What the requester is told; `deleted` lists the versions a replace removed. */
  datatype Reply = Reply(stored: bool, deleted: seq<Stored>)

  const REFUSED := Reply(false, [])

  // ---- versions ----

  datatype ReplaceKey = ReplaceKey(pubkey: PubKey, kind: Kind, d: Str)

  function KeyFor(ev: Event): ReplaceKey {
    ReplaceKey(ev.pubkey, ev.kind, if IsAddressable(ev.kind) then GetD(ev.tags) else [])
  }

  /** The filter that `findReplaceVersions` runs. */
  function VersionFilter(ev: Event): Filter {
    Filter(None, Some([ev.kind]), Some([ev.pubkey]),
           if IsAddressable(ev.kind) then map[D_TAG := [GetD(ev.tags)]] else map[], 0, 0)
  }

  /** The positions of the stored events a filter selects. */
  function Selected(evs: Events, f: Filter): set<Pos> {
    set id | id in evs && Matches(f, evs[id]) :: PosOf(evs[id])
  }

  /** Every stored event sits under its own id. */
  ghost predicate Keyed(evs: Events) {
    forall id :: id in evs ==> evs[id].id == id
  }

  predicate AllStored(evs: Events, ps: seq<Pos>) {
    forall i :: 0 <= i < |ps| ==> ps[i].id in evs
  }

  function EventsAt(evs: Events, ps: seq<Pos>): (r: seq<Stored>)
    requires AllStored(evs, ps)
  {
    seq(|ps|, i requires 0 <= i < |ps| => evs[ps[i].id])
  }

  lemma {:induction false} TimelineStored(evs: Events, s: set<Pos>)
    requires forall p :: p in s ==> p.id in evs
    ensures AllStored(evs, Timeline(s))
  {
    hide Timeline;
    var ps := Timeline(s);
    TimelineIs(s);
    forall i | 0 <= i < |ps| ensures ps[i].id in evs {
      assert ps[i] in ps;
    }
  }

  lemma {:induction false} SelectedStored(evs: Events, f: Filter)
    requires Keyed(evs)
    ensures AllStored(evs, Timeline(Selected(evs, f)))
  {
    hide Matches, Timeline;
    TimelineStored(evs, Selected(evs, f));
  }

  /** The stored events a filter selects, newest first. */
  ghost function Query(evs: Events, f: Filter): seq<Stored>
    requires Keyed(evs)
  {
    SelectedStored(evs, f);
    EventsAt(evs, Timeline(Selected(evs, f)))
  }

  ghost function Versions(evs: Events, ev: Event): seq<Stored>
    requires Keyed(evs)
  {
    Query(evs, VersionFilter(ev))
  }

  // ---- a group, folded by the writer ----

  datatype Ledger = Ledger(newest: Option<Stored>, toDelete: seq<Stored>)

  /** A counter adjustment: every bucket of the event moves by `d`. */
  datatype Bump = Bump(ev: Stored, d: int)

  function Net(log: seq<Bump>, b: Bucket): int {
    if log == [] then 0
    else Net(log[..|log| - 1], b) + log[|log| - 1].d * Hit(log[|log| - 1].ev, b)
  }

  datatype GroupState = GroupState(
    current: Events,
    seenSave: set<Id>,
    seenDel: set<Id>,
    ledgers: map<ReplaceKey, Ledger>,
    log: seq<Bump>,
    replies: seq<Reply>)

  function Start(evs: Events): GroupState {
    GroupState(evs, {}, {}, map[], [], [])
  }

  function AsList(o: Option<Stored>): seq<Stored> {
    if o.Some? then [o.value] else []
  }

  /** The candidates a winner removes: each once, and neither itself nor one already removed. */
  function Victims(olds: seq<Stored>, id: Id, seenDel: set<Id>): seq<Stored> {
    if olds == [] then []
    else if olds[0].id == id || olds[0].id in seenDel then Victims(olds[1..], id, seenDel)
    else [olds[0]] + Victims(olds[1..], id, seenDel + {olds[0].id})
  }

  function IdSet(evs: seq<Stored>): set<Id> {
    set i | 0 <= i < |evs| :: evs[i].id
  }

  function Removals(victims: seq<Stored>): seq<Bump> {
    seq(|victims|, i requires 0 <= i < |victims| => Bump(victims[i], -1))
  }

  ghost function LedgerFor(evs: Events, st: GroupState, ev: Stored): Ledger
    requires Keyed(evs)
  {
    if KeyFor(ev) in st.ledgers then st.ledgers[KeyFor(ev)]
    else
      var versions := Versions(evs, ev);
      Ledger(if versions == [] then None else Some(versions[0]), versions)
  }

  function Say(st: GroupState, r: Reply): GroupState {
    st.(replies := st.replies + [r])
  }

  function SaveStep(evs: Events, st: GroupState, ev: Stored): GroupState {
    if ev.id in st.seenSave then Say(st, REFUSED)
    else
      var st1 := st.(seenSave := st.seenSave + {ev.id});
      if ev.id in evs then Say(st1, REFUSED)
      else Say(st1.(current := st.current[ev.id := ev], log := st.log + [Bump(ev, 1)]), Reply(true, []))
  }

  function DeleteStep(evs: Events, st: GroupState, ev: Stored): GroupState {
    if ev.id in st.seenDel then Say(st, REFUSED)
    else
      var st1 := st.(seenDel := st.seenDel + {ev.id});
      if ev.id !in evs then Say(st1, REFUSED)
      else Say(st1.(current := st.current - {ev.id}, log := st.log + [Bump(ev, -1)]), Reply(true, []))
  }

  /** `ev` against the ledger `l` of its key. */
  function ReplaceAgainst(st: GroupState, l: Ledger, ev: Stored): GroupState {
    var key := KeyFor(ev);
    if l.newest.Some? && l.newest.value.createdAt >= ev.createdAt then
      Say(st.(ledgers := st.ledgers[key := l]), REFUSED)
    else
      var victims := Victims(l.toDelete + AsList(l.newest), ev.id, st.seenDel);
      var st1 := st.(ledgers := st.ledgers[key := Ledger(Some(ev), [])],
                 seenDel := st.seenDel + IdSet(victims));
      if ev.id in st.seenSave then Say(st1, REFUSED)
      else
        Say(st1.(current := st.current[ev.id := ev] - IdSet(victims),
            seenSave := st.seenSave + {ev.id},
            log := st.log + [Bump(ev, 1)] + Removals(victims)),
            Reply(true, victims))
  }

  ghost function Step(evs: Events, st: GroupState, req: Request): GroupState
    requires Keyed(evs)
  {
    match req
    case Save(ev) => SaveStep(evs, st, ev)
    case Delete(ev) => DeleteStep(evs, st, ev)
    case Replace(ev) => ReplaceAgainst(st, LedgerFor(evs, st, ev), ev)
  }

  /** The state after the first `n` requests of a group. */
  ghost function After(evs: Events, group: seq<Request>, n: nat): GroupState
    requires Keyed(evs) && n <= |group|
  {
    if n == 0 then Start(evs) else Step(evs, After(evs, group, n - 1), group[n - 1])
  }

  ghost function Committed(evs: Events, group: seq<Request>): GroupState
    requires Keyed(evs)
  {
    After(evs, group, |group|)
  }
}
