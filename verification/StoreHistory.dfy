/**
 Histories of the store: when a stream of groups means what its requests mean one by one, the
 orderly streams for which it always does, the survivors they leave, and groups without replaces.
 */
module StoreHistory {
  import opened ByteStrings
  import opened NostrEvents
  import opened StoreKeys
  import opened StoreTables
  import opened StoreSpec
  import opened StoreCommit
  import opened StoreLaws
  import opened StoreSequential
  import opened StoreInterference

  // ---- any batching ----

  function Flatten(groups: seq<seq<Request>>): seq<Request> {
    if groups == [] then [] else Flatten(groups[..|groups| - 1]) + groups[|groups| - 1]
  }

  /** The groups committed in order, with all replies. */
  ghost function InGroups(evs: Events, groups: seq<seq<Request>>): (s: Sequential)
    requires Keyed(evs)
    ensures Keyed(s.current)
  {
    if groups == [] then Sequential(evs, [])
    else
      var s := InGroups(evs, groups[..|groups| - 1]);
      var c := Committed(s.current, groups[|groups| - 1]);
      CommittedKeyed(s.current, groups[|groups| - 1], |groups[|groups| - 1]|);
      Sequential(c.current, s.replies + c.replies)
  }

  lemma {:induction false} CommittedKeyed(evs: Events, group: seq<Request>, n: nat)
    requires Keyed(evs) && n <= |group|
    ensures Keyed(After(evs, group, n).current)
  {
    hide LedgerFor, KeyFor, Victims;
    if n > 0 {
      CommittedKeyed(evs, group, n - 1);
    }
  }

  lemma {:induction false} OneByOneSplit(evs: Events, a: seq<Request>, b: seq<Request>, n: nat)
    requires Keyed(evs) && n <= |b|
    ensures var s := OneByOne(evs, a, |a|);
            && OneByOne(evs, a + b, |a| + n).current == OneByOne(s.current, b, n).current
            && OneByOne(evs, a + b, |a| + n).replies == s.replies + OneByOne(s.current, b, n).replies
  {
    hide Committed;
    if n == 0 {
      OneByOnePrefix(evs, a, b, |a|);
      assert OneByOne(evs, a, |a|).replies + [] == OneByOne(evs, a, |a|).replies;
    } else {
      OneByOneSplit(evs, a, b, n - 1);
      assert (a + b)[|a| + n - 1] == b[n - 1];
    }
  }

  lemma {:induction false} OneByOnePrefix(evs: Events, a: seq<Request>, b: seq<Request>, n: nat)
    requires Keyed(evs) && n <= |a|
    ensures OneByOne(evs, a + b, n) == OneByOne(evs, a, n)
  {
    hide Committed;
    if n > 0 {
      OneByOnePrefix(evs, a, b, n - 1);
      assert (a + b)[n - 1] == a[n - 1];
    }
  }

  ghost predicate NamedGroup(names: Naming, group: seq<Request>) {
    forall i :: 0 <= i < |group| ==> NamedEvent(names, group[i].ev)
  }

  /** No request is interfered with in its group. */
  ghost predicate Calm(names: Naming, evs: Events, groups: seq<seq<Request>>)
    requires Keyed(evs)
  {
    forall g :: 0 <= g < |groups| ==>
                  Undisturbed(names, InGroups(evs, groups[..g]).current, groups[g], |groups[g]|)
  }

  lemma {:induction false} CalmStep(names: Naming, evs: Events, groups: seq<seq<Request>>)
    requires Keyed(evs) && groups != []
    ensures var front, last := groups[..|groups| - 1], groups[|groups| - 1];
            Calm(names, evs, groups) <==>
            Calm(names, evs, front) && Undisturbed(names, InGroups(evs, front).current, last, |last|)
  {
    hide Undisturbed, InGroups;
    var front := groups[..|groups| - 1];
    assert forall g :: 0 <= g < |front| ==> front[..g] == groups[..g] && front[g] == groups[g];
  }

  lemma {:induction false} StaysHonest(names: Naming, evs: Events, group: seq<Request>, n: nat)
    requires Named(names, evs) && NamedGroup(names, group) && n <= |group|
    ensures Honest(names, After(evs, group, n))
  {
    hide Step;
    if n > 0 {
      StaysHonest(names, evs, group, n - 1);
      assert NamedEvent(names, group[n - 1].ev);
      StepHonest(names, evs, After(evs, group, n - 1), group[n - 1]);
    }
  }

  lemma {:induction false} RepliesCounted(evs: Events, groups: seq<seq<Request>>)
    requires Keyed(evs)
    ensures |InGroups(evs, groups).replies| == |Flatten(groups)|
  {
    hide Committed;
    if groups != [] {
      var front, last := groups[..|groups| - 1], groups[|groups| - 1];
      RepliesCounted(evs, front);
      RepliesGrow(InGroups(evs, front).current, last, 0, |last|);
      assert Committed(InGroups(evs, front).current, last) == After(InGroups(evs, front).current, last, |last|) by {
        CommittedIs(InGroups(evs, front).current, last);
      }
    }
  }

  lemma {:induction false} CommittedIs(evs: Events, group: seq<Request>)
    requires Keyed(evs)
    ensures Committed(evs, group) == After(evs, group, |group|)
  {
  }

  /**
   However the writer cuts a stream of requests into groups, the replies are those of the requests
   one by one exactly when no request is interfered with in its group, and then so is the outcome.
   */
  lemma {:induction false} BatchingExact(names: Naming, evs: Events, groups: seq<seq<Request>>)
    requires Named(names, evs) && forall i :: 0 <= i < |groups| ==> NamedGroup(names, groups[i])
    ensures Calm(names, evs, groups) <==>
            InGroups(evs, groups).replies == OneByOne(evs, Flatten(groups), |Flatten(groups)|).replies
    ensures Calm(names, evs, groups) ==> InGroups(evs, groups) == OneByOne(evs, Flatten(groups), |Flatten(groups)|)
    ensures Named(names, InGroups(evs, groups).current)
  {
    hide Committed, Undisturbed, Calm, NamedEvent;
    if groups == [] {
      CalmNone(names, evs);
    } else {
      var front, last := groups[..|groups| - 1], groups[|groups| - 1];
      BatchingExact(names, evs, front);
      CalmStep(names, evs, groups);
      var s := InGroups(evs, front);
      assert NamedGroup(names, last);
      GroupSettles(names, s.current, last);
      RepliesCounted(evs, front);
      RepliesGrow(evs, Flatten(front), 0, |Flatten(front)|);
      OneByOneSplit(evs, Flatten(front), last, |last|);
      var t := OneByOne(evs, Flatten(front), |Flatten(front)|);
      SameParts(s.replies, Committed(s.current, last).replies, t.replies, OneByOne(t.current, last, |last|).replies);
    }
  }

  lemma {:induction false} SameParts<T>(a: seq<T>, b: seq<T>, c: seq<T>, d: seq<T>)
    requires |a| == |c|
    ensures a + b == c + d <==> a == c && b == d
  {
    assert a == (a + b)[..|a|] && b == (a + b)[|a|..];
    assert c == (c + d)[..|a|] && d == (c + d)[|a|..];
  }

  lemma {:induction false} CalmNone(names: Naming, evs: Events)
    requires Keyed(evs)
    ensures Calm(names, evs, [])
  {
  }

  lemma {:induction false} GroupSettles(names: Naming, evs: Events, group: seq<Request>)
    requires Named(names, evs) && NamedGroup(names, group)
    ensures Named(names, Committed(evs, group).current)
    ensures Undisturbed(names, evs, group, |group|) <==>
            Committed(evs, group).replies == OneByOne(evs, group, |group|).replies
    ensures Undisturbed(names, evs, group, |group|) ==>
              Committed(evs, group).current == OneByOne(evs, group, |group|).current
  {
    hide NamedEvent, Undisturbed, After, OneByOne;
    GroupExact(names, evs, group);
    StaysHonest(names, evs, group, |group|);
  }

  // ---- orderly streams ----

  predicate IsVersioned(kind: Kind) {
    IsReplaceable(kind) || IsAddressable(kind)
  }

  /** All "d" tags of an addressable event carry the same value. */
  predicate Uniform(ev: Event) {
    IsAddressable(ev.kind) ==>
      forall i :: 0 <= i < |ev.tags| && |ev.tags[i]| >= 2 && ev.tags[i][0] == D_TAG ==> ev.tags[i][1] == GetD(ev.tags)
  }

  /** They do, and there is one. */
  predicate SingleD(ev: Event) {
    Uniform(ev) && FindsItself(ev)
  }

  /**
   Replaceable and addressable kinds arrive as replaces, addressable ones with one "d" value, and
   all other kinds as saves.
   */
  predicate Routed(req: Request) {
    match req
    case Save(ev) => !IsVersioned(ev.kind)
    case Delete(_) => false
    case Replace(ev) => IsVersioned(ev.kind) && SingleD(ev)
  }

  ghost predicate Orderly(names: Naming, group: seq<Request>) {
    NamedGroup(names, group) && forall i :: 0 <= i < |group| ==> Routed(group[i])
  }

  predicate Rivals(a: Event, b: Event) {
    a.pubkey == b.pubkey && a.kind == b.kind
  }

  ghost predicate Contested(group: seq<Request>, ev: Event) {
    exists i :: 0 <= i < |group| && group[i].Replace? && Rivals(group[i].ev, ev)
  }

  /** No stored event of a replaced author and kind stands under two keys. */
  ghost predicate OneKeyed(evs: Events, group: seq<Request>) {
    forall id :: id in evs && Contested(group, evs[id]) ==> Uniform(evs[id])
  }

  lemma {:induction false} SeenIsKey(w: Event, ev: Event)
    requires Uniform(ev)
    ensures Seen(KeyFor(w), ev) ==> KeyFor(ev) == KeyFor(w) && Rivals(w, ev)
  {
  }

  lemma {:induction false} SelfSeen(ev: Event)
    ensures Seen(KeyFor(ev), ev) <==> FindsItself(ev)
    ensures KeyFor(ev).kind == ev.kind
  {
    hide Matches;
    SelfMatch(ev);
    VersionMatches(ev, ev);
  }

  /** In an orderly group the winners take their places. */
  lemma {:induction false} OrderlyTakes(names: Naming, evs: Events, group: seq<Request>, j: nat)
    requires Orderly(names, group) && j < |group|
    ensures Wins(evs, group, j) ==> Takes(evs, group, j)
  {
    hide IsVersioned, KeyFor, SingleD;
    assert Routed(group[j]) && NamedEvent(names, group[j].ev);
    forall i | 0 <= i < j && group[i].Save? ensures group[i].ev.id != group[j].ev.id || !group[j].Replace? {
      assert Routed(group[i]) && NamedEvent(names, group[i].ev);
    }
  }

  lemma {:induction false} OrderlyKept(group: seq<Request>, n: nat, id: Id)
    requires n <= |group| && forall i :: 0 <= i < |group| ==> Routed(group[i])
    ensures !DeletedBy(group, n, id)
  {
    hide IsVersioned, SingleD;
    forall i | 0 <= i < n ensures !group[i].Delete? {
      assert Routed(group[i]);
    }
  }

  /** A candidate for a key is found under that key and no other. */
  lemma {:induction false} CandidateSeen(names: Naming, evs: Events, group: seq<Request>, n: nat, m: nat, id: Id)
    requires Identified(names, evs, group) && Orderly(names, group) && OneKeyed(evs, group)
    requires m <= n < |group| && group[n].Replace?
    ensures Candidate(evs, group, m, KeyFor(group[n].ev), id) ==>
              Uniform(names(id)) && KeyFor(names(id)) == KeyFor(group[n].ev) && FindsItself(names(id))
  {
    hide IsVersioned, KeyFor, Seen, Wins, FindsItself, Uniform;
    var ev := group[n].ev;
    WinnerIs(evs, group, m, KeyFor(ev));
    match Winner(evs, group, m, KeyFor(ev))
    case Some(w) =>
      var j: nat :| LastWin(evs, group, j, m, KeyFor(ev)) && group[j].ev == w;
      WinsReplaces(evs, group, j);
      assert Routed(group[j]) && NamedEvent(names, w);
    case None =>
      if Under(evs, KeyFor(ev), id) {
        SeenRivals(ev, evs[id]);
        assert Contested(group, evs[id]);
        SeenIsKey(ev, evs[id]);
        SelfSeen(evs[id]);
      }
  }

  lemma {:induction false} WinsReplaces(evs: Events, group: seq<Request>, j: nat)
    requires j < |group|
    ensures Wins(evs, group, j) ==> group[j].Replace?
  {
  }

  lemma {:induction false} SeenRivals(w: Event, ev: Event)
    ensures Seen(KeyFor(w), ev) ==> Rivals(w, ev)
  {
  }

  /** No winner of another key outdoes or removes an event with one key. */
  lemma {:induction false} SameKeyWins(names: Naming, evs: Events, group: seq<Request>, j: nat, key: ReplaceKey, id: Id)
    requires Identified(names, evs, group) && Orderly(names, group) && OneKeyed(evs, group) && j < |group|
    requires Uniform(names(id)) && KeyFor(names(id)) == key
    ensures Outdone(evs, group, j, id) || Removes(names, evs, group, j, id) ==> WinsKey(evs, group, j, key)
  {
    hide IsVersioned, KeyFor, Seen, Wins, FindsItself, Uniform, Candidate, SingleD, SavedBy;
    assert Routed(group[j]);
    WinsReplaces(evs, group, j);
    if group[j].Replace? {
      CandidateSeen(names, evs, group, j, j, id);
      SeenIsKey(group[j].ev, names(id));
    }
  }

  /** What the batch holds for the versions of a key is what is there under it. */
  lemma {:induction false} OrderlyLive(names: Naming, evs: Events, group: seq<Request>, n: nat, id: Id)
    requires Identified(names, evs, group) && Orderly(names, group) && OneKeyed(evs, group)
    requires n < |group| && group[n].Replace?
    ensures var key := KeyFor(group[n].ev);
            Candidate(evs, group, n, key, id) ==> LiveUnder(names, evs, group, n, key, id) && !Marked(evs, group, n, id)
  {
    hide IsVersioned, KeyFor, Seen, FindsItself, Uniform, SingleD, SavedBy, Wins, Outdone, Removes, Candidate;
    var key := KeyFor(group[n].ev);
    if Candidate(evs, group, n, key, id) {
      CandidateSeen(names, evs, group, n, n, id);
      SelfSeen(names(id));
      OrderlyKept(group, n, id);
      forall j | 0 <= j < n
        ensures Outdone(evs, group, j, id) || Removes(names, evs, group, j, id) ==> WinsKey(evs, group, j, key)
      {
        SameKeyWins(names, evs, group, j, key, id);
      }
      WinnerIs(evs, group, n, key);
      if Winner(evs, group, n, key).Some? {
        var i: nat :| LastWin(evs, group, i, n, key) && group[i].ev == Winner(evs, group, n, key).value;
        WinnerIsCandidate(evs, group, n, key, id);
        LastStays(names, evs, group, n, i, id);
      } else {
        WinnerIsCandidate(evs, group, n, key, id);
      }
    }
  }

  lemma {:induction false} WinnerIsCandidate(evs: Events, group: seq<Request>, n: nat, key: ReplaceKey, id: Id)
    requires n <= |group| && Candidate(evs, group, n, key, id)
    ensures if Winner(evs, group, n, key).Some? then Winner(evs, group, n, key).value.id == id else id in evs
  {
    hide Seen;
  }

  /** The last winner of a key has taken its place and no request since has outdone or removed it. */
  lemma {:induction false} LastStays(names: Naming, evs: Events, group: seq<Request>, n: nat, i: nat, id: Id)
    requires Identified(names, evs, group) && Orderly(names, group) && n < |group|
    requires LastWin(evs, group, i, n, KeyFor(group[n].ev)) && group[i].ev.id == id
    requires forall j :: 0 <= j < n ==> (Outdone(evs, group, j, id) || Removes(names, evs, group, j, id) ==>
                                           WinsKey(evs, group, j, KeyFor(group[n].ev)))
    ensures Live(names, evs, group, n, id)
    ensures forall j :: 0 <= j < n ==> !Outdone(evs, group, j, id)
  {
    hide KeyFor, Seen, Candidate, Removes, Routed;
    OrderlyTakes(names, evs, group, i);
    assert NamedEvent(names, group[i].ev);
    assert Brings(evs, group, i, id);
    assert Lasting(names, evs, group, i, n, id);
    forall j | 0 <= j < n ensures !Outdone(evs, group, j, id) {
      OutdoneOlder(names, evs, group, j, id);
    }
  }

  lemma {:induction false} OutdoneOlder(names: Naming, evs: Events, group: seq<Request>, j: nat, id: Id)
    requires Identified(names, evs, group) && j < |group|
    ensures Outdone(evs, group, j, id) ==> names(id).createdAt < group[j].ev.createdAt
  {
    hide KeyFor, Seen, Candidate;
    if Outdone(evs, group, j, id) {
      CandidatesOlder(names, evs, group, j, id);
    }
  }

  /** What is there under a replaced key is a candidate for it. */
  lemma {:induction false} OrderlyKnown(names: Naming, evs: Events, group: seq<Request>, n: nat, id: Id)
    requires Identified(names, evs, group) && Orderly(names, group) && OneKeyed(evs, group)
    requires n < |group| && group[n].Replace?
    ensures LiveUnder(names, evs, group, n, KeyFor(group[n].ev), id) ==>
              Candidate(evs, group, n, KeyFor(group[n].ev), id)
  {
    hide IsVersioned, KeyFor, Seen, FindsItself, Uniform, Wins, SavedBy;
    var key := KeyFor(group[n].ev);
    assert Routed(group[n]);
    SeenRivals(group[n].ev, names(id));
    WinnerIs(evs, group, n, key);
    forall s | 0 <= s < n && Brings(evs, group, s, id) && Seen(key, names(id)) ensures WinsKey(evs, group, s, key) {
      assert Routed(group[s]) && NamedEvent(names, group[s].ev);
      SeenIsKey(group[n].ev, names(id));
    }
    if Winner(evs, group, n, key).Some? {
      var i: nat :| LastWin(evs, group, i, n, key) && group[i].ev == Winner(evs, group, n, key).value;
      OrderlyTakes(names, evs, group, i);
      assert Seen(key, names(id)) ==> Removes(names, evs, group, i, id);
    }
  }

  lemma {:induction false} OrderlySave(names: Naming, evs: Events, group: seq<Request>, k: nat)
    requires Identified(names, evs, group) && Orderly(names, group) && k < |group| && group[k].Save?
    ensures !Interfered(names, evs, group, k)
  {
    hide IsVersioned, SingleD, KeyFor, Wins, SavedBy, Seen;
    var ev := group[k].ev;
    assert Routed(group[k]) && NamedEvent(names, ev);
    forall j | 0 <= j < k ensures !Removes(names, evs, group, j, ev.id) {
      assert Routed(group[j]);
      WinsReplaces(evs, group, j);
      SeenRivals(group[j].ev, ev);
    }
    assert forall s :: 0 <= s < k && Brings(evs, group, s, ev.id) ==> Lasting(names, evs, group, s, k, ev.id);
  }

  lemma {:induction false} OrderlyReplace(names: Naming, evs: Events, group: seq<Request>, k: nat)
    requires Identified(names, evs, group) && Orderly(names, group) && OneKeyed(evs, group)
    requires k < |group| && group[k].Replace?
    ensures !Interfered(names, evs, group, k)
  {
    hide KeyFor, Seen, Wins, Takes, Marked, Live, Routed, Uniform;
    var ev := group[k].ev;
    var key := KeyFor(ev);
    OrderlyTakes(names, evs, group, k);
    forall id ensures Candidate(evs, group, k, key, id) <==> LiveUnder(names, evs, group, k, key, id)
      ensures Candidate(evs, group, k, key, id) ==> !Marked(evs, group, k, id)
    {
      OrderlyLive(names, evs, group, k, id);
      OrderlyKnown(names, evs, group, k, id);
    }
    WinnerSettles(evs, group, k, key);
    WinsIff(evs, group, k);
    WinnerNamed(names, evs, group, k, key);
    match Winner(evs, group, k, key)
    case Some(w) =>
      assert Candidate(evs, group, k, key, w.id);
    case None =>
      assert forall id :: Under(evs, key, id) ==> Candidate(evs, group, k, key, id) && evs[id] == names(id);
  }

  /**
   Committing an orderly group as one batch leaves the same events and gives the same replies as
   committing its requests one by one.
   */
  lemma {:induction false} GroupIsSequential(names: Naming, evs: Events, group: seq<Request>, n: nat)
    requires Named(names, evs) && OneKeyed(evs, group) && Orderly(names, group) && n <= |group|
    ensures Undisturbed(names, evs, group, n)
    ensures After(evs, group, n).current == OneByOne(evs, group, n).current
    ensures After(evs, group, n).replies == OneByOne(evs, group, n).replies
  {
    hide Uniform, SingleD, IsVersioned, After, OneByOne, Interfered, Holds, OneKeyed;
    assert Identified(names, evs, group);
    forall k | 0 <= k < n ensures !Interfered(names, evs, group, k) {
      assert Routed(group[k]);
      if group[k].Save? {
        OrderlySave(names, evs, group, k);
      } else {
        OrderlyReplace(names, evs, group, k);
      }
    }
    AgreeUndisturbed(names, evs, group, n);
  }

  // ---- whole streams ----

  /** What a stream leaves was there before or came with it. */
  lemma {:induction false} StreamBrings(evs: Events, groups: seq<seq<Request>>)
    requires Keyed(evs)
    ensures var current := InGroups(evs, groups).current;
            forall id :: id in current ==>
                           (id in evs && current[id] == evs[id]) || Arrived(Flatten(groups), current[id])
  {
    hide Committed;
    if groups != [] {
      var front, last := groups[..|groups| - 1], groups[|groups| - 1];
      var before := InGroups(evs, front).current;
      StreamBrings(evs, front);
      GroupBrings(before, last, |last|);
      CommittedIs(before, last);
      var current := InGroups(evs, groups).current;
      forall id | id in current ensures (id in evs && current[id] == evs[id]) || Arrived(Flatten(groups), current[id]) {
        ArrivedMore(Flatten(front), last, current[id]);
      }
    }
  }

  ghost predicate Arrived(group: seq<Request>, ev: Event) {
    exists i :: 0 <= i < |group| && group[i].ev == ev
  }

  lemma {:induction false} ArrivedMore(a: seq<Request>, b: seq<Request>, ev: Event)
    ensures Arrived(a + b, ev) <==> Arrived(a, ev) || Arrived(b, ev)
  {
    if i :| 0 <= i < |a| && a[i].ev == ev {
      assert (a + b)[i].ev == ev;
    }
    if i :| 0 <= i < |b| && b[i].ev == ev {
      assert (a + b)[|a| + i].ev == ev;
    }
  }

  lemma {:induction false} GroupBrings(evs: Events, group: seq<Request>, n: nat)
    requires Keyed(evs) && n <= |group|
    ensures var current := After(evs, group, n).current;
            forall id :: id in current ==> (id in evs && current[id] == evs[id]) || Arrived(group, current[id])
  {
    hide Step;
    if n > 0 {
      GroupBrings(evs, group, n - 1);
      StepBrings(evs, After(evs, group, n - 1), group[n - 1]);
    }
  }

  lemma {:induction false} StepBrings(evs: Events, st: GroupState, req: Request)
    requires Keyed(evs)
    ensures forall id :: id in Step(evs, st, req).current ==>
                           (id in st.current && Step(evs, st, req).current[id] == st.current[id]) ||
                           (id == req.ev.id && Step(evs, st, req).current[id] == req.ev)
  {
    hide KeyFor, LedgerFor, Victims, IdSet;
    StepIs(evs, st, req);
  }

  /** What arrives in an orderly stream stands under one key, if it is contested at all. */
  lemma {:induction false} ArrivedUniform(names: Naming, stream: seq<Request>, ev: Event)
    requires Orderly(names, stream) && Arrived(stream, ev)
    ensures Contested(stream, ev) ==> Uniform(ev)
  {
    hide Uniform, FindsItself, IsVersioned;
    var i :| 0 <= i < |stream| && stream[i].ev == ev;
    assert Routed(stream[i]);
    if Contested(stream, ev) {
      var j :| 0 <= j < |stream| && stream[j].Replace? && Rivals(stream[j].ev, ev);
      assert Routed(stream[j]);
    }
  }

  lemma {:induction false} FlattenOrderly(names: Naming, groups: seq<seq<Request>>)
    requires forall i :: 0 <= i < |groups| ==> Orderly(names, groups[i])
    ensures Orderly(names, Flatten(groups))
  {
    hide Routed, NamedEvent;
    if groups != [] {
      assert Orderly(names, groups[|groups| - 1]);
      FlattenOrderly(names, groups[..|groups| - 1]);
    }
  }

  /** A request of one group is one of the stream. */
  lemma {:induction false} InFlatten(groups: seq<seq<Request>>, g: nat, i: nat) returns (k: nat)
    requires g < |groups| && i < |groups[g]|
    ensures k < |Flatten(groups)| && Flatten(groups)[k] == groups[g][i]
    decreases |groups|
  {
    var front := groups[..|groups| - 1];
    if g < |front| {
      k := InFlatten(front, g, i);
    } else {
      k := |Flatten(front)| + i;
    }
  }

  lemma {:induction false} FlattenFront(groups: seq<seq<Request>>, g: nat, ev: Event)
    requires g <= |groups|
    ensures Arrived(Flatten(groups[..g]), ev) ==> Arrived(Flatten(groups), ev)
    decreases |groups|
  {
    if g < |groups| {
      var front := groups[..|groups| - 1];
      assert front[..g] == groups[..g];
      FlattenFront(front, g, ev);
      ArrivedMore(Flatten(front), groups[|groups| - 1], ev);
    } else {
      assert groups[..g] == groups;
    }
  }

  /** Before each group, what is stored and contested by it stands under one key. */
  lemma {:induction false} StaysOneKeyed(names: Naming, evs: Events, groups: seq<seq<Request>>, g: nat)
    requires Keyed(evs) && g < |groups| && OneKeyed(evs, Flatten(groups))
    requires forall i :: 0 <= i < |groups| ==> Orderly(names, groups[i])
    ensures OneKeyed(InGroups(evs, groups[..g]).current, groups[g])
  {
    hide Uniform, Orderly, InGroups, Flatten;
    var stream, current := Flatten(groups), InGroups(evs, groups[..g]).current;
    StreamBrings(evs, groups[..g]);
    FlattenOrderly(names, groups);
    forall id | id in current && Contested(groups[g], current[id]) ensures Uniform(current[id]) {
      var i :| 0 <= i < |groups[g]| && groups[g][i].Replace? && Rivals(groups[g][i].ev, current[id]);
      var k := InFlatten(groups, g, i);
      assert Contested(stream, current[id]);
      FlattenFront(groups, g, current[id]);
      if Arrived(stream, current[id]) {
        ArrivedUniform(names, stream, current[id]);
      }
    }
  }

  /** However the writer cuts a stream of orderly requests into groups, the outcome is the same. */
  lemma {:induction false} BatchingIsInvisible(names: Naming, evs: Events, groups: seq<seq<Request>>)
    requires Named(names, evs) && OneKeyed(evs, Flatten(groups))
    requires forall i :: 0 <= i < |groups| ==> Orderly(names, groups[i])
    ensures InGroups(evs, groups) == OneByOne(evs, Flatten(groups), |Flatten(groups)|)
    ensures Named(names, InGroups(evs, groups).current)
  {
    hide Committed, Undisturbed, NamedGroup, InGroups, Routed, OneKeyed, Flatten;
    BatchingExact(names, evs, groups);
    forall g | 0 <= g < |groups|
      ensures Undisturbed(names, InGroups(evs, groups[..g]).current, groups[g], |groups[g]|)
    {
      BatchingExact(names, evs, groups[..g]);
      StaysOneKeyed(names, evs, groups, g);
      GroupIsSequential(names, InGroups(evs, groups[..g]).current, groups[g], |groups[g]|);
    }
  }

  // ---- survivors ----

  /** A replacement key; only addressable kinds have a "d" value. */
  predicate IsKey(key: ReplaceKey) {
    IsVersioned(key.kind) && (IsAddressable(key.kind) || key.d == [])
  }

  ghost predicate AtMostOne(evs: Events)
    requires Keyed(evs)
  {
    forall key :: IsKey(key) ==> |VersionsOf(evs, key)| <= 1
  }

  /** The only version of a key is at least as new as `ts`. */
  ghost predicate HasNewest(evs: Events, key: ReplaceKey, ts: int)
    requires Keyed(evs)
  {
    |VersionsOf(evs, key)| == 1 && VersionsOf(evs, key)[0].createdAt >= ts
  }

  /** The event came with one of the first `n` requests. */
  ghost predicate CameIn(evs: Events, group: seq<Request>, n: nat, id: Id)
    requires n <= |group|
  {
    id in evs || exists i :: 0 <= i < n && group[i].ev.id == id
  }

  /**
   Whatever groups the writer makes of an orderly stream, at most one event survives per author,
   kind and "d" value; it is one of those received, and none received under its key is newer.
   */
  lemma {:induction false} NewestSurvives(names: Naming, evs: Events, groups: seq<seq<Request>>)
    requires Named(names, evs) && OneKeyed(evs, Flatten(groups)) && AtMostOne(evs)
    requires forall i :: 0 <= i < |groups| ==> Orderly(names, groups[i])
    ensures var stream, current := Flatten(groups), InGroups(evs, groups).current;
            && AtMostOne(current)
            && (forall id :: id in current ==> CameIn(evs, stream, |stream|, id))
            && (forall i :: 0 <= i < |stream| && stream[i].Replace? ==>
                              HasNewest(current, KeyFor(stream[i].ev), stream[i].ev.createdAt))
            && (forall id :: id in evs && IsVersioned(evs[id].kind) && FindsItself(evs[id]) ==>
                               HasNewest(current, KeyFor(evs[id]), evs[id].createdAt))
  {
    hide Flatten, InGroups, OneByOne, FindsItself, AtMostOne, HasNewest, CameIn, KeyFor, IsVersioned, OneKeyed, Orderly;
    BatchingIsInvisible(names, evs, groups);
    FlattenOrderly(names, groups);
    SequenceSurvives(names, evs, Flatten(groups), |Flatten(groups)|);
  }

  lemma {:induction false} SequenceSurvives(names: Naming, evs: Events, group: seq<Request>, n: nat)
    requires Named(names, evs) && OneKeyed(evs, group) && AtMostOne(evs)
    requires Orderly(names, group) && n <= |group|
    ensures var current := OneByOne(evs, group, n).current;
            && Named(names, current) && OneKeyed(current, group) && AtMostOne(current)
            && (forall id :: id in current ==> CameIn(evs, group, n, id))
            && (forall i :: 0 <= i < n && group[i].Replace? ==>
                              HasNewest(current, KeyFor(group[i].ev), group[i].ev.createdAt))
            && (forall id :: id in evs && IsVersioned(evs[id].kind) && FindsItself(evs[id]) ==>
                               HasNewest(current, KeyFor(evs[id]), evs[id].createdAt))
  {
    hide KeyFor, Uniform, FindsItself, IsVersioned, Committed, AtMostOne, HasNewest, Contested;
    if n == 0 {
      forall id | id in evs && IsVersioned(evs[id].kind) && FindsItself(evs[id])
        ensures HasNewest(evs, KeyFor(evs[id]), evs[id].createdAt)
      {
        StoredHasNewest(evs, id);
      }
    } else {
      SequenceSurvives(names, evs, group, n - 1);
      var before := OneByOne(evs, group, n - 1).current;
      var req := group[n - 1];
      var current := OneByOne(evs, group, n).current;
      assert current == Committed(before, [req]).current;
      assert NamedEvent(names, req.ev) && Routed(req);
      RivalsOneKeyed(before, group, n - 1);
      OneSurvives(names, before, req);
      forall id | id in current && Contested(group, current[id]) ensures Uniform(current[id]) {
        if id == req.ev.id {
          assert Arrived(group, req.ev);
          ArrivedUniform(names, group, req.ev);
        }
      }
      forall id | id in current ensures CameIn(evs, group, n, id) {
        assert id in before ==> CameIn(evs, group, n - 1, id);
      }
      forall i | 0 <= i < n && group[i].Replace?
        ensures HasNewest(current, KeyFor(group[i].ev), group[i].ev.createdAt)
      {
        assert NamedEvent(names, group[i].ev) && Routed(group[i]);
        ProperKey(group[i].ev);
        assert i < n - 1 ==> HasNewest(before, KeyFor(group[i].ev), group[i].ev.createdAt);
      }
      forall id | id in evs && IsVersioned(evs[id].kind) && FindsItself(evs[id])
        ensures HasNewest(current, KeyFor(evs[id]), evs[id].createdAt)
      {
        ProperKey(evs[id]);
        assert HasNewest(before, KeyFor(evs[id]), evs[id].createdAt);
      }
    }
  }

  lemma {:induction false} ProperKey(ev: Event)
    ensures IsVersioned(ev.kind) ==> IsKey(KeyFor(ev))
  {
  }

  lemma {:induction false} RivalsOneKeyed(evs: Events, group: seq<Request>, i: nat)
    requires OneKeyed(evs, group) && i < |group|
    ensures group[i].Replace? ==> forall id :: id in evs && Rivals(group[i].ev, evs[id]) ==> Uniform(evs[id])
  {
    hide Uniform, Rivals;
    forall id | id in evs && group[i].Replace? && Rivals(group[i].ev, evs[id]) ensures Uniform(evs[id]) {
      assert Contested(group, evs[id]);
    }
  }

  lemma {:induction false} StoredHasNewest(evs: Events, id: Id)
    requires Keyed(evs) && AtMostOne(evs) && id in evs && IsVersioned(evs[id].kind) && FindsItself(evs[id])
    ensures HasNewest(evs, KeyFor(evs[id]), evs[id].createdAt)
  {
    hide KeyFor, VersionsOf, IsVersioned, FindsItself, Seen;
    ProperKey(evs[id]);
    SelfSeen(evs[id]);
    VersionsOfIs(evs, KeyFor(evs[id]));
    assert Under(evs, KeyFor(evs[id]), id);
    InIdSet(VersionsOf(evs, KeyFor(evs[id])), id);
  }

  /** One orderly request keeps a single newest version per versioned key. */
  lemma {:induction false} OneSurvives(names: Naming, before: Events, req: Request)
    requires Named(names, before) && AtMostOne(before)
    requires req.Replace? ==> forall id :: id in before && Rivals(req.ev, before[id]) ==> Uniform(before[id])
    requires NamedEvent(names, req.ev) && Routed(req)
    ensures var current := Committed(before, [req]).current;
            && Named(names, current) && AtMostOne(current)
            && (forall id :: id in current ==> id in before || id == req.ev.id)
            && (req.Replace? ==> HasNewest(current, KeyFor(req.ev), req.ev.createdAt))
            && (forall key, ts :: IsKey(key) && HasNewest(before, key, ts) ==> HasNewest(current, key, ts))
  {
    hide KeyFor, VersionsOf, Uniform, FindsItself, IsKey, IsVersioned, Committed, Won, IdSet, Rivals;
    var ev := req.ev;
    var v := VersionsOf(before, KeyFor(ev));
    var current := Committed(before, [req]).current;
    ProperKey(ev);
    AloneKeyed(before, req);
    LoneRequest(names, before, req);
    VersionsOfIs(before, KeyFor(ev));
    InIdSet(v, ev.id);
    WonNamed(names, before, ev);
    forall key | IsKey(key) && (req.Save? || key != KeyFor(ev))
      ensures VersionsOf(current, key) == VersionsOf(before, key)
    {
      OtherVersions(names, before, req, key);
    }
    if req.Replace? && !(v != [] && v[0].createdAt >= ev.createdAt) {
      SelfSeen(ev);
      WonLeavesOne(names, before, ev);
    }
    forall key | IsKey(key) ensures |VersionsOf(current, key)| <= 1 {
      assert |VersionsOf(before, key)| <= 1;
    }
    assert req.Replace? ==> HasNewest(current, KeyFor(ev), ev.createdAt);
    forall key, ts | IsKey(key) && HasNewest(before, key, ts) ensures HasNewest(current, key, ts) {
    }
  }

  /** An orderly request leaves the versions of other keys as they are. */
  lemma {:induction false} OtherVersions(names: Naming, before: Events, req: Request, key: ReplaceKey)
    requires Named(names, before) && NamedEvent(names, req.ev) && Routed(req)
    requires req.Replace? ==> forall id :: id in before && Rivals(req.ev, before[id]) ==> Uniform(before[id])
    requires IsKey(key) && (req.Save? || key != KeyFor(req.ev))
    ensures var current := LoneResult(before, req);
            Keyed(current) && VersionsOf(current, key) == VersionsOf(before, key)
  {
    hide KeyFor, VersionsOf, Uniform, FindsItself, Won, IsVersioned;
    var ev := req.ev;
    if req.Save? {
      assert !Seen(key, ev);
      hide Seen;
      SameHeld(before[ev.id := ev], before, key);
    } else {
      SeenByKey(key, ev);
      forall id | Under(before, KeyFor(ev), id) ensures !Under(before, key, id) {
        SeenRivals(ev, before[id]);
        SeenIsKey(ev, before[id]);
        SeenByKey(key, before[id]);
      }
      hide Seen;
      WonKeepsOthers(names, before, ev, key);
    }
  }

  /** An event with one key is found under no other. */
  lemma {:induction false} SeenByKey(key: ReplaceKey, ev: Event)
    requires IsKey(key) && Uniform(ev)
    ensures Seen(key, ev) ==> KeyFor(ev) == key
  {
  }

  // ---- saves and deletes of the same id ----

  /** A request of the group undoes an earlier one that took effect. */
  ghost predicate Undoes(evs: Events, group: seq<Request>, j: nat, k: nat)
    requires j < |group| && k < |group|
  {
    && group[j].ev.id == group[k].ev.id
    && if group[k].ev.id in evs then group[j].Delete? && group[k].Save? else group[j].Save? && group[k].Delete?
  }

  ghost predicate Undone(evs: Events, group: seq<Request>, k: nat)
    requires k < |group|
  {
    exists j :: 0 <= j < k && Undoes(evs, group, j, k)
  }

  ghost predicate NoReplace(group: seq<Request>) {
    forall i :: 0 <= i < |group| ==> !group[i].Replace?
  }

  /** As long as nothing is undone, the events stored before and not deleted are there, and those saved since. */
  lemma {:induction false} WithoutReplace(names: Naming, evs: Events, group: seq<Request>, n: nat, id: Id)
    requires NoReplace(group) && n <= |group| && forall k :: 0 <= k < n ==> !Undone(evs, group, k)
    ensures Live(names, evs, group, n, id) <==> if id in evs then !DeletedBy(group, n, id) else SavedBy(group, n, id)
    ensures Brought(evs, group, n, id) <==> SavedBy(group, n, id)
    ensures Marked(evs, group, n, id) <==> DeletedBy(group, n, id)
  {
    hide KeyFor, Seen, Candidate;
    forall j | 0 <= j < n ensures !Wins(evs, group, j) {
    }
    forall j | 0 <= j < n ensures Removes(names, evs, group, j, id) <==> group[j].Delete? && group[j].ev.id == id {
    }
    forall s, j | 0 <= s < j < n && group[s].ev.id == id && group[j].ev.id == id
      ensures !(if id in evs then group[s].Delete? && group[j].Save? else group[s].Save? && group[j].Delete?)
    {
      assert !Undone(evs, group, j);
      assert !Undoes(evs, group, s, j);
    }
    hide Wins;
    if s :| 0 <= s < n && group[s].Save? && group[s].ev.id == id {
      assert Brings(evs, group, s, id);
      assert id !in evs ==> Lasting(names, evs, group, s, n, id);
    }
  }

  /** Among saves and deletes, the first to be interfered with is the first to undo an earlier request. */
  lemma {:induction false} UndisturbedIff(names: Naming, evs: Events, group: seq<Request>, n: nat)
    requires NoReplace(group) && n <= |group|
    ensures Undisturbed(names, evs, group, n) <==> forall k :: 0 <= k < n ==> !Undone(evs, group, k)
  {
    hide KeyFor, DeletedBy, SavedBy, Live, Brought, Marked, Undone;
    if n > 0 {
      var m := n - 1;
      UndisturbedIff(names, evs, group, m);
      assert !group[m].Replace?;
      if Undisturbed(names, evs, group, m) {
        WithoutReplace(names, evs, group, m, group[m].ev.id);
        UndoneIs(evs, group, m);
        assert Interfered(names, evs, group, m) <==> Undone(evs, group, m);
      }
    }
  }

  lemma {:induction false} UndoneIs(evs: Events, group: seq<Request>, n: nat)
    requires n < |group|
    ensures Undone(evs, group, n) <==>
            var id := group[n].ev.id;
            if id in evs then group[n].Save? && DeletedBy(group, n, id) else group[n].Delete? && SavedBy(group, n, id)
  {
    var id := group[n].ev.id;
    if id in evs && DeletedBy(group, n, id) && group[n].Save? {
      var j :| 0 <= j < n && group[j].Delete? && group[j].ev.id == id;
      assert Undoes(evs, group, j, n);
    }
    if id !in evs && SavedBy(group, n, id) && group[n].Delete? {
      var j :| 0 <= j < n && group[j].Save? && group[j].ev.id == id;
      assert Undoes(evs, group, j, n);
    }
  }

  /**
   A group of saves and deletes answers as its sequence would exactly when no request undoes an
   earlier one that took effect: deletes look only at what was stored before the group, and a
   save is refused by what was stored before it even if the group has deleted it since.
   */
  lemma {:induction false} SaveDeleteExact(names: Naming, evs: Events, group: seq<Request>)
    requires Named(names, evs) && NoReplace(group)
    requires forall i :: 0 <= i < |group| ==> NamedEvent(names, group[i].ev)
    ensures (forall k :: 0 <= k < |group| ==> !Undone(evs, group, k)) <==>
            Committed(evs, group).replies == OneByOne(evs, group, |group|).replies
    ensures (forall k :: 0 <= k < |group| ==> !Undone(evs, group, k)) ==>
              Committed(evs, group).current == OneByOne(evs, group, |group|).current
  {
    hide Undone, Undisturbed, After, OneByOne, NamedEvent, Holds;
    GroupExact(names, evs, group);
    UndisturbedIff(names, evs, group, |group|);
  }

  /** A version saved in the same group escapes a replace that the sequence would let remove it. */
  lemma {:induction false} SavedVersionEscapes(names: Naming, prior: Stored, ev: Stored)
    requires NamedEvent(names, prior) && NamedEvent(names, ev) && prior.id != ev.id
    requires prior.kind == 0 && ev.kind == 0 && prior.pubkey == ev.pubkey && prior.createdAt < ev.createdAt
    ensures var group := [Save(prior), Replace(ev)];
            && Committed(map[], group).current == map[prior.id := prior, ev.id := ev]
            && OneByOne(map[], group, 2).current == map[ev.id := ev]
  {
    hide VersionsOf, KeyFor, Versions, After, OneByOne;
    var none: Events := map[];
    var group := [Save(prior), Replace(ev)];
    var one: Events := map[prior.id := prior];
    NoVersions(ev);
    FoldOfTwo(none, group);
    StepIs(none, StoreSpec.Start(none), group[0]);
    var st := SaveStep(none, StoreSpec.Start(none), prior);
    StepIs(none, st, group[1]);
    assert st.current == one;
    assert LedgerFor(none, st, ev) == Ledger(None, []);
    IdSetNone();
    assert Ledger(None, []).toDelete + AsList(None) == [];
    assert one[ev.id := ev] - {} == map[prior.id := prior, ev.id := ev];
    // one by one
    Alone(none, group[0]);
    LoneReplace(names, one, ev);
    SameHeldOne(prior, ev);
    WonOverOne(prior, ev);
  }

  /** A version deleted in the same group still refuses a replace that the sequence would let in. */
  lemma {:induction false} DeletedVersionRefuses(names: Naming, prior: Stored, ev: Stored)
    requires NamedEvent(names, prior) && NamedEvent(names, ev)
    requires prior.kind == 0 && ev.kind == 0 && prior.pubkey == ev.pubkey && ev.createdAt <= prior.createdAt
    ensures var evs: Events := map[prior.id := prior];
            var group := [Delete(prior), Replace(ev)];
            && Committed(evs, group).current == map[]
            && OneByOne(evs, group, 2).current == map[ev.id := ev]
  {
    hide VersionsOf, KeyFor, Versions, After, OneByOne;
    var evs: Events := map[prior.id := prior];
    var none: Events := map[];
    var group := [Delete(prior), Replace(ev)];
    FoldOfTwo(evs, group);
    StepIs(evs, StoreSpec.Start(evs), group[0]);
    var st := DeleteStep(evs, StoreSpec.Start(evs), prior);
    StepIs(evs, st, group[1]);
    assert st.current == none && evs - {prior.id} == none;
    VersionsByKey(evs, ev);
    SameHeldOne(prior, ev);
    assert LedgerFor(evs, st, ev) == Ledger(Some(prior), [prior]);
    // one by one
    LoneRequest(names, evs, group[0]);
    LoneRequest(names, none, group[1]);
    NoVersions(ev);
    VersionsByKey(none, ev);
    IdSetNone();
  }

  /**
   The batch removes its last winner, though a search for versions would not find it: an addressable
   event without a "d" tag goes in the group of the next one and stays when they are committed in turn.
   */
  lemma {:induction false} UntaggedGoes(names: Naming, prior: Stored, ev: Stored)
    requires NamedEvent(names, prior) && NamedEvent(names, ev) && prior.id != ev.id
    requires prior.kind == 30000 && ev.kind == 30000 && prior.pubkey == ev.pubkey && prior.tags == [] && ev.tags == []
    requires prior.createdAt < ev.createdAt
    ensures var group := [Replace(prior), Replace(ev)];
            && Committed(map[], group).current == map[ev.id := ev]
            && OneByOne(map[], group, 2).current == map[prior.id := prior, ev.id := ev]
  {
    hide Versions, KeyFor, After, OneByOne, Step, Committed;
    var none: Events := map[];
    var one: Events := map[prior.id := prior];
    var group := [Replace(prior), Replace(ev)];
    NoVersions(prior);
    NothingSeen(one, ev);
    FoldOfTwo(none, group);
    SecondUntagged(prior, ev);
    assert [group[0]] == [Replace(prior)] && [group[1]] == [Replace(ev)];
    FirstReplace(none, prior);
    FirstReplace(one, ev);
    assert one[ev.id := ev] == map[prior.id := prior, ev.id := ev];
  }

  lemma {:induction false} SecondUntagged(prior: Stored, ev: Stored)
    requires prior.id != ev.id && prior.kind == ev.kind && prior.pubkey == ev.pubkey
    requires prior.tags == [] && ev.tags == []
    requires prior.createdAt < ev.createdAt && Versions(map[], prior) == []
    ensures var none: Events := map[];
            Step(none, Step(none, StoreSpec.Start(none), Replace(prior)), Replace(ev)).current == map[ev.id := ev]
  {
    hide Versions, KeyFor, Victims;
    var none: Events := map[];
    var start := StoreSpec.Start(none);
    StepIs(none, start, Replace(prior));
    assert LedgerFor(none, start, prior) == Ledger(None, []);
    assert Ledger(None, []).toDelete + AsList(None) == [];
    VictimsNone(prior.id, {});
    IdSetNone();
    var st := ReplaceAgainst(start, Ledger(None, []), prior);
    assert st.current == map[prior.id := prior] && st.seenDel == {} && st.seenSave == {prior.id};
    SameUntagged(prior, ev);
    StepIs(none, st, Replace(ev));
    assert LedgerFor(none, st, ev) == Ledger(Some(prior), []);
    assert [] + AsList(Some(prior)) == [prior];
    VictimsOne(prior, ev.id, {});
    assert IdSet([prior]) == {prior.id};
    assert st.current[ev.id := ev] - {prior.id} == map[ev.id := ev];
  }

  lemma {:induction false} SameUntagged(a: Event, b: Event)
    requires a.kind == b.kind && a.pubkey == b.pubkey && a.tags == [] && b.tags == []
    ensures KeyFor(a) == KeyFor(b)
  {
  }

  lemma {:induction false} NothingSeen(evs: Events, ev: Stored)
    requires Keyed(evs) && ev.kind == 30000
    requires forall id :: id in evs ==> evs[id].tags == []
    ensures Versions(evs, ev) == []
  {
    var f := VersionFilter(ev);
    forall id | id in evs ensures !Matches(f, evs[id]) {
      VersionMatches(ev, evs[id]);
    }
    assert Selected(evs, f) == {};
  }

  /** The first replace of a key with no version to be found is let in. */
  lemma {:induction false} FirstReplace(evs: Events, ev: Stored)
    requires Keyed(evs) && Versions(evs, ev) == []
    ensures Committed(evs, [Replace(ev)]).current == evs[ev.id := ev]
  {
    hide Versions;
    var st := StoreSpec.Start(evs);
    Alone(evs, Replace(ev));
    var l := LedgerFor(evs, st, ev);
    assert l == Ledger(None, []);
    assert l.toDelete + AsList(l.newest) == [];
    assert evs[ev.id := ev] - {} == evs[ev.id := ev];
    IdSetNone();
  }

  lemma {:induction false} NoVersions(ev: Stored)
    ensures Versions(map[], ev) == []
  {
    var none: Events := map[];
    assert Selected(none, VersionFilter(ev)) == {};
  }

  lemma {:induction false} FoldOfTwo(evs: Events, group: seq<Request>)
    requires Keyed(evs) && |group| == 2
    ensures Committed(evs, group) == Step(evs, Step(evs, StoreSpec.Start(evs), group[0]), group[1])
    ensures var first := Committed(evs, [group[0]]).current;
            Keyed(first) && OneByOne(evs, group, 2).current == Committed(first, [group[1]]).current
  {
    hide Step;
    assert After(evs, group, 1) == Step(evs, After(evs, group, 0), group[0]);
    AloneKeyed(evs, group[0]);
    assert OneByOne(evs, group, 1).current == Committed(evs, [group[0]]).current;
  }

  lemma {:induction false} SameHeldOne(prior: Stored, ev: Stored)
    requires prior.kind == 0 && ev.kind == 0 && prior.pubkey == ev.pubkey
    ensures VersionsOf(map[prior.id := prior], KeyFor(ev)) == [prior]
  {
    SingleVersion(prior);
    assert KeyFor(ev) == KeyFor(prior);
  }

  lemma {:induction false} WonOverOne(prior: Stored, ev: Stored)
    requires prior.id != ev.id && VersionsOf(map[prior.id := prior], KeyFor(ev)) == [prior]
    ensures Won(map[prior.id := prior], ev) == map[ev.id := ev]
  {
    hide VersionsOf, KeyFor, IdSet;
    IdSetNone();
    IdSetAppend([], prior);
    assert [] + [prior] == [prior];
  }
}
