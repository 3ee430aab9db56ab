/** The writer loop over the groups it collects, and the counters it leaves. */
module StoreWriter {
  import opened NostrEvents
  import opened StoreKeys
  import opened StoreTables
  import opened StoreSpec
  import opened StoreCommit
  import opened StoreLaws
  import opened StoreHistory

  /** How often a stream of groups stores in a bucket what is stored there already. */
  ghost function Surplus(evs: Events, groups: seq<seq<Request>>, b: Bucket): nat
    requires Keyed(evs)
  {
    if groups == [] then 0
    else
      var front, last := groups[..|groups| - 1], groups[|groups| - 1];
      Surplus(evs, front, b) + Excess(InGroups(evs, front).current, last, |last|, b)
  }

  ghost predicate NoneDoubled(evs: Events, groups: seq<seq<Request>>)
    requires Keyed(evs)
  {
    forall g, k :: 0 <= g < |groups| && 0 <= k < |groups[g]| ==>
                     !DoublesAt(InGroups(evs, groups[..g]).current, groups[g], k)
  }

  ghost predicate NoSurplus(evs: Events, groups: seq<seq<Request>>)
    requires Keyed(evs)
  {
    forall b :: Surplus(evs, groups, b) == 0
  }

  lemma {:induction false} SurplusIff(evs: Events, groups: seq<seq<Request>>)
    requires Keyed(evs)
    ensures NoSurplus(evs, groups) <==> NoneDoubled(evs, groups)
  {
    hide DoublesAt, InGroups, Excess;
    if groups != [] {
      var front, last := groups[..|groups| - 1], groups[|groups| - 1];
      var before := InGroups(evs, front).current;
      SurplusIff(evs, front);
      ExcessIff(before, last, |last|);
      assert forall g :: 0 <= g < |front| ==> front[..g] == groups[..g] && front[g] == groups[g];
      if NoSurplus(evs, groups) {
        forall b ensures Surplus(evs, front, b) == 0 && Excess(before, last, |last|, b) == 0 {
          assert Surplus(evs, groups, b) == 0;
        }
      }
      if NoSurplus(evs, front) && NoExcess(before, last, |last|) {
        forall b ensures Surplus(evs, groups, b) == 0 {
          assert Surplus(evs, front, b) == 0 && Excess(before, last, |last|, b) == 0;
        }
      }
    }
  }

  lemma {:induction false} RunStep(evs: Events, groups: seq<seq<Request>>, i: nat)
    requires Keyed(evs) && i < |groups|
    ensures var s := InGroups(evs, groups[..i]);
            && InGroups(evs, groups[..i + 1]).current == Committed(s.current, groups[i]).current
            && InGroups(evs, groups[..i + 1]).replies == s.replies + Committed(s.current, groups[i]).replies
            && forall b :: Surplus(evs, groups[..i + 1], b) ==
                           Surplus(evs, groups[..i], b) + Excess(s.current, groups[i], |groups[i]|, b)
  {
    hide Committed, Excess;
    assert groups[..i + 1][..i] == groups[..i];
  }

  /**
   Over all its groups the writer leaves the events and gives the replies of the folds, keeps the
   tables, and lets each counter run ahead by what the groups store twice.
   */
  method WriterLoop(store: PebbleStore, groups: seq<seq<Request>>, ghost names: Naming)
    returns (replies: seq<StoreSpec.Reply>)
    requires store.Valid() && Named(names, store.events)
    requires forall i, j :: 0 <= i < |groups| && 0 <= j < |groups[i]| ==> NamedEvent(names, groups[i][j].ev)
    modifies store
    ensures store.Valid() && Named(names, store.events)
    ensures store.events == InGroups(old(store.events), groups).current
    ensures replies == InGroups(old(store.events), groups).replies
    ensures forall b :: CounterOf(store.db, b) - Count(store.events, b) ==
                        old(CounterOf(store.db, b) - Count(store.events, b)) + Surplus(old(store.events), groups, b)
    ensures old(store.CountersExact()) ==> (store.CountersExact() <==> NoneDoubled(old(store.events), groups))
  {
    hide Describes, Count, Committed, Keyed, TypedCounters, NamedEvent, Surplus, InGroups, Excess, NoneDoubled;
    ghost var start := store.events;
    assert groups[..0] == [];
    RunNone(start);
    replies := [];
    var i := 0;
    while i < |groups|
      invariant 0 <= i <= |groups|
      invariant store.Valid() && Named(names, store.events)
      invariant store.events == InGroups(start, groups[..i]).current
      invariant replies == InGroups(start, groups[..i]).replies
      invariant forall b :: CounterOf(store.db, b) - Count(store.events, b) ==
                            old(CounterOf(store.db, b) - Count(store.events, b)) + Surplus(start, groups[..i], b)
      modifies store
    {
      ghost var before, db := store.events, store.db;
      var group := groups[i];
      forall b ensures Count(Committed(before, group).current, b) + Excess(before, group, |group|, b) ==
                       Count(before, b) + Net(Committed(before, group).log, b) {
        GroupCounts(names, before, group, b);
      }
      var said := store.CommitGroup(group, names);
      replies := replies + said;
      RunStep(start, groups, i);
      i := i + 1;
    }
    assert groups[..|groups|] == groups;
    SurplusIff(start, groups);
  }

  lemma {:induction false} RunNone(evs: Events)
    requires Keyed(evs)
    ensures InGroups(evs, []).current == evs && InGroups(evs, []).replies == []
    ensures forall b :: Surplus(evs, [], b) == 0
  {
  }

  // ---- the double count ----

  /**
   A lone replace leaves the counters exact unless it brings an event that is already stored,
   that carries no "d" tag to be found by, and that no found version outranks.
   */
  lemma {:induction false} LoneReplaceCounts(names: Naming, evs: Events, ev: Stored)
    requires Named(names, evs) && NamedEvent(names, ev)
    ensures Counted(evs, [Replace(ev)]) <==>
            !(ev.id in evs && !FindsItself(ev)
              && (Versions(evs, ev) == [] || Versions(evs, ev)[0].createdAt < ev.createdAt))
  {
    hide Versions, FindsItself, KeyFor, Committed, Counted;
    var group := [Replace(ev)];
    CountedIff(names, evs, group);
    DoublesUntagged(names, evs, group, 0);
    assert After(evs, group, 0) == StoreSpec.Start(evs);
    assert DoublesAt(evs, group, 0) <==>
           ev.id in evs && (Versions(evs, ev) == [] || Versions(evs, ev)[0].createdAt < ev.createdAt);
  }

  /** An addressable event without a "d" tag, replaced by itself, is stored once and counted twice. */
  lemma {:induction false} DoubleCountExample(names: Naming, ev: Stored)
    requires NamedEvent(names, ev) && ev.kind == 30000 && ev.tags == []
    ensures var once := Committed(map[], [Replace(ev)]).current;
            && once == map[ev.id := ev]
            && Committed(once, [Replace(ev)]).current == once
            && !Counted(once, [Replace(ev)])
  {
    hide Versions, Counted;
    assert !FindsItself(ev);
    var none: Events := map[];
    NothingSeen(none, ev);
    var once: Events := map[ev.id := ev];
    NothingSeen(once, ev);
    FirstReplace(none, ev);
    FirstReplace(once, ev);
    LoneReplaceCounts(names, once, ev);
  }
}
