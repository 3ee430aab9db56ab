/** The index over live subscriptions (relay/listener.go). */
module Dispatcher {
  import opened NostrEvents

  datatype Subscription = Subscription(id: Str, filter: Filter, ws: int)

  /** What a lookup of an unknown subscription gives. */
  const ZERO := Subscription([], Filter(None, None, None, map[], 0, 0), 0)

  datatype State = State(
    serial: int,
    subs: map<int, Subscription>,
    byAuthor: map<PubKey, set<int>>,
    byKind: map<Kind, set<int>>,
    fallback: set<int>)

  const EMPTY := State(0, map[], map[], map[], {})

  // ---- index entries ----

  predicate Linked<K>(idx: map<K, set<int>>, k: K, ssid: int) {
    k in idx && ssid in idx[k]
  }

  ghost predicate NoEmptySets<K(!new)>(idx: map<K, set<int>>) {
    forall k :: k in idx ==> idx[k] != {}
  }

  function Link<K>(idx: map<K, set<int>>, keys: seq<K>, ssid: int): map<K, set<int>>
    decreases |keys|
  {
    if keys == [] then idx
    else Link(idx[keys[0] := (if keys[0] in idx then idx[keys[0]] else {}) + {ssid}], keys[1..], ssid)
  }

  datatype Unlinked<K> = Unlinked(idx: map<K, set<int>>, finished: bool)

  /** Removal key by key; a key that is missing ends it. */
  function Unlink<K>(idx: map<K, set<int>>, keys: seq<K>, ssid: int): Unlinked<K>
    decreases |keys|
  {
    if keys == [] then Unlinked(idx, true)
    else if keys[0] !in idx then Unlinked(idx, false)
    else
      var s := idx[keys[0]] - {ssid};
      Unlink(if s == {} then idx - {keys[0]} else idx[keys[0] := s], keys[1..], ssid)
  }

  function Listed<T>(o: Option<seq<T>>): seq<T> {
    if o.Some? then o.value else []
  }

  predicate Indexed(f: Filter) {
    f.authors.Some? || f.kinds.Some?
  }

  function Added(d: State, sub: Subscription): State {
    var ssid := d.serial + 1;
    State(ssid, d.subs[ssid := sub],
          Link(d.byAuthor, Listed(sub.filter.authors), ssid),
          Link(d.byKind, Listed(sub.filter.kinds), ssid),
          if Indexed(sub.filter) then d.fallback else d.fallback + {ssid})
  }

  function Removed(d: State, ssid: int): State {
    if ssid !in d.subs then d
    else
      var f := d.subs[ssid].filter;
      var rest := d.subs - {ssid};
      var a := Unlink(d.byAuthor, Listed(f.authors), ssid);
      if !a.finished then d.(subs := rest, byAuthor := a.idx)
      else
        var k := Unlink(d.byKind, Listed(f.kinds), ssid);
        if !k.finished then d.(subs := rest, byAuthor := a.idx, byKind := k.idx)
        else State(d.serial, rest, a.idx, k.idx, if Indexed(f) then d.fallback else d.fallback - {ssid})
  }

  /** Each index holds exactly the live subscriptions it should. */
  ghost predicate Sound(d: State) {
    && NoEmptySets(d.byAuthor) && NoEmptySets(d.byKind)
    && (forall k, s :: Linked(d.byAuthor, k, s) <==> s in d.subs && k in Listed(d.subs[s].filter.authors))
    && (forall k, s :: Linked(d.byKind, k, s) <==> s in d.subs && k in Listed(d.subs[s].filter.kinds))
    && (forall s :: s in d.fallback <==> s in d.subs && !Indexed(d.subs[s].filter))
    && (forall s :: s in d.subs ==> s <= d.serial)
  }

  lemma {:induction false} LinkIs<K(!new)>(idx: map<K, set<int>>, keys: seq<K>, ssid: int)
    requires NoEmptySets(idx)
    ensures NoEmptySets(Link(idx, keys, ssid))
    ensures forall k, s :: Linked(Link(idx, keys, ssid), k, s) <==> Linked(idx, k, s) || (s == ssid && k in keys)
    decreases |keys|
  {
    if keys != [] {
      var next := idx[keys[0] := (if keys[0] in idx then idx[keys[0]] else {}) + {ssid}];
      LinkIs(next, keys[1..], ssid);
      assert keys == [keys[0]] + keys[1..];
      forall k, s ensures Linked(Link(idx, keys, ssid), k, s) <==> Linked(idx, k, s) || (s == ssid && k in keys) {
        assert Linked(next, k, s) <==> Linked(idx, k, s) || (s == ssid && k == keys[0]);
      }
    }
  }

  lemma {:induction false} AddedSound(d: State, sub: Subscription)
    requires Sound(d)
    ensures Sound(Added(d, sub))
  {
    hide Link, Linked;
    LinkIs(d.byAuthor, Listed(sub.filter.authors), d.serial + 1);
    LinkIs(d.byKind, Listed(sub.filter.kinds), d.serial + 1);
  }

  // ---- removal ----

  predicate Repeats<T(==)>(keys: seq<T>, i: nat)
    requires i < |keys|
  {
    keys[i] in keys[..i]
  }

  predicate NoRepeats<T(==)>(keys: seq<T>) {
    forall i: nat :: i < |keys| ==> !Repeats(keys, i)
  }

  /** Nothing new follows a repeated key. */
  predicate SafeList<T(==)>(keys: seq<T>) {
    forall i: nat, m: nat :: i < m < |keys| && Repeats(keys, i) ==> Repeats(keys, m)
  }

  /** Filters whose removal can never stop half way. */
  predicate SafeFilter(f: Filter) {
    && SafeList(Listed(f.authors)) && SafeList(Listed(f.kinds))
    && (NoRepeats(Listed(f.authors)) || Listed(f.kinds) == [])
  }

  /** One key taken out of an index. */
  function Dropped<K>(idx: map<K, set<int>>, k: K, ssid: int): map<K, set<int>>
    requires k in idx
  {
    var s := idx[k] - {ssid};
    if s == {} then idx - {k} else idx[k := s]
  }

  lemma {:induction false} DroppedIs<K(!new)>(idx: map<K, set<int>>, k: K, ssid: int)
    requires NoEmptySets(idx) && k in idx
    ensures NoEmptySets(Dropped(idx, k, ssid))
    ensures forall x, s :: Linked(Dropped(idx, k, ssid), x, s) <==> Linked(idx, x, s) && !(s == ssid && x == k)
  {
    var after := Dropped(idx, k, ssid);
    forall x | x in after ensures after[x] != {} {
      assert x != k ==> x in idx && after[x] == idx[x];
    }
    forall x, s ensures Linked(after, x, s) <==> Linked(idx, x, s) && !(s == ssid && x == k) {
      if x == k {
        assert s in idx[k] - {ssid} <==> Linked(after, x, s);
      }
    }
  }

  lemma {:induction false} Inhabited(s: set<int>)
    ensures s == {} || exists x :: x in s
  {
    if !exists x :: x in s {
      assert s == {};
    }
  }

  /** With all its keys linked or repeated, and nothing new after a repeat, an entry is removed completely. */
  lemma {:induction false} UnlinkClean<K(!new)>(idx: map<K, set<int>>, keys: seq<K>, at: nat, ssid: int)
    requires NoEmptySets(idx) && at <= |keys| && SafeList(keys)
    requires forall i: nat :: at <= i < |keys| ==> Linked(idx, keys[i], ssid) || Repeats(keys, i)
    requires forall i: nat :: i < at ==> !Linked(idx, keys[i], ssid)
    ensures var u := Unlink(idx, keys[at..], ssid);
            && NoEmptySets(u.idx)
            && (forall k, s :: Linked(u.idx, k, s) <==> Linked(idx, k, s) && !(s == ssid && k in keys))
            && (NoRepeats(keys) ==> u.finished)
    decreases |keys| - at
  {
    hide Linked, Repeats;
    var u := Unlink(idx, keys[at..], ssid);
    if at == |keys| {
      assert keys[at..] == [];
      forall k | k in keys ensures !Linked(idx, k, ssid) {
        var i :| 0 <= i < |keys| && keys[i] == k;
      }
    } else {
      assert keys[at..][0] == keys[at] && keys[at..][1..] == keys[at + 1..];
      if keys[at] in idx {
        var next := Dropped(idx, keys[at], ssid);
        DroppedIs(idx, keys[at], ssid);
        forall i: nat | at + 1 <= i < |keys| ensures Linked(next, keys[i], ssid) || Repeats(keys, i) {
          if keys[i] == keys[at] {
            RepeatsAt(keys, at, i);
          }
        }
        UnlinkClean(next, keys, at + 1, ssid);
      } else {
        NotLinked(idx, keys[at], ssid);
        assert Repeats(keys, at);
        forall k | k in keys ensures !Linked(idx, k, ssid) {
          var i: nat :| i < |keys| && keys[i] == k;
          if i > at {
            assert Repeats(keys, i);
            EarlierSame(keys, at, i);
          } else if i == at {
            NotLinked(idx, k, ssid);
          }
        }
      }
    }
  }

  lemma {:induction false} NotLinked<K>(idx: map<K, set<int>>, k: K, ssid: int)
    requires k !in idx
    ensures !Linked(idx, k, ssid)
  {
  }

  lemma {:induction false} RepeatsAt<T>(keys: seq<T>, a: nat, i: nat)
    requires a < i < |keys| && keys[i] == keys[a]
    ensures Repeats(keys, i)
  {
    assert keys[..i][a] == keys[a];
  }

  /** Everything from a repeat on occurs before it. */
  lemma {:induction false} EarlierSame<T>(keys: seq<T>, at: nat, i: nat)
    requires at <= i < |keys| && SafeList(keys) && Repeats(keys, at)
    ensures keys[i] in keys[..at]
    decreases i
  {
    assert Repeats(keys, i);
    var j: nat :| j < i && keys[..i][j] == keys[i];
    if j >= at {
      EarlierSame(keys, at, j);
    } else {
      assert keys[..at][j] == keys[i];
    }
  }

  /** Removing a safe filter's subscription leaves it in no index. */
  lemma {:induction false} RemovedSound(d: State, ssid: int)
    requires Sound(d) && (ssid in d.subs ==> SafeFilter(d.subs[ssid].filter))
    ensures Sound(Removed(d, ssid))
  {
    hide Linked, Unlink, SafeList, NoRepeats;
    if ssid in d.subs {
      var f := d.subs[ssid].filter;
      AllLinked(d.byAuthor, Listed(f.authors), ssid);
      AllLinked(d.byKind, Listed(f.kinds), ssid);
      UnlinkNone(d.byKind, ssid);
      UnlinkNone(d.byAuthor, ssid);
    }
  }

  lemma {:induction false} UnlinkNone<K>(idx: map<K, set<int>>, ssid: int)
    ensures Unlink(idx, [], ssid) == Unlinked(idx, true)
  {
  }

  lemma {:induction false} AllLinked<K(!new)>(idx: map<K, set<int>>, keys: seq<K>, ssid: int)
    requires NoEmptySets(idx) && SafeList(keys) && forall k :: k in keys ==> Linked(idx, k, ssid)
    ensures var u := Unlink(idx, keys, ssid);
            && NoEmptySets(u.idx)
            && (forall k, s :: Linked(u.idx, k, s) <==> Linked(idx, k, s) && !(s == ssid && k in keys))
            && (NoRepeats(keys) ==> u.finished)
  {
    hide Linked, Unlink, SafeList, NoRepeats;
    assert keys[0..] == keys;
    UnlinkClean(idx, keys, 0, ssid);
  }

  lemma {:induction false} HasLink<K(!new)>(idx: map<K, set<int>>, k: K)
    requires NoEmptySets(idx)
    ensures k in idx ==> exists s :: Linked(idx, k, s)
  {
    if k in idx {
      Inhabited(idx[k]);
      var s :| s in idx[k];
      assert Linked(idx, k, s);
    }
  }

  // ---- when removal is not complete ----

  ghost predicate FirstRepeat<T>(keys: seq<T>, i: nat) {
    i < |keys| && Repeats(keys, i) && forall j: nat :: j < i ==> !Repeats(keys, j)
  }

  /** Alone in the index, a removal ends at the first repeat and leaves what comes new after it. */
  lemma {:induction false} UnlinkSolo<K(!new)>(idx: map<K, set<int>>, keys: seq<K>, at: nat, ssid: int, first: nat)
    requires NoEmptySets(idx) && at <= first && FirstRepeat(keys, first)
    requires forall k, s :: Linked(idx, k, s) <==> s == ssid && k in keys && k !in keys[..at]
    ensures var u := Unlink(idx, keys[at..], ssid);
            !u.finished && forall k :: Linked(u.idx, k, ssid) <==> k in keys && k !in keys[..first]
    decreases first - at
  {
    assert keys[at..][0] == keys[at] && keys[at..][1..] == keys[at + 1..];
    if at == first {
      HasLink(idx, keys[at]);
    } else {
      assert !Repeats(keys, at);
      assert Linked(idx, keys[at], ssid);
      var next := Dropped(idx, keys[at], ssid);
      DroppedIs(idx, keys[at], ssid);
      assert keys[..at + 1] == keys[..at] + [keys[at]];
      hide Linked;
      UnlinkSolo(next, keys, at + 1, ssid, first);
    }
  }

  lemma {:induction false} FirstRepeatExists<T>(keys: seq<T>, i: nat) returns (first: nat)
    requires i < |keys| && Repeats(keys, i)
    ensures FirstRepeat(keys, first) && first <= i
  {
    first := 0;
    while !Repeats(keys, first)
      invariant first <= i && forall j: nat :: j < first ==> !Repeats(keys, j)
      decreases i - first
    {
      first := first + 1;
    }
  }

  /** The only subscription. */
  function Alone(f: Filter): State {
    Added(EMPTY, Subscription([], f, 0))
  }

  lemma {:induction false} NewFor<T>(keys: seq<T>, first: nat, m: nat)
    requires first <= m < |keys|
    ensures !Repeats(keys, m) ==> keys[m] !in keys[..first]
  {
    if keys[m] in keys[..first] {
      var j :| 0 <= j < first && keys[j] == keys[m];
      assert keys[..m][j] == keys[m];
    }
  }

  /** An unsafe list loses track of a later key. */
  lemma {:induction false} UnsafeLeaves<K(!new)>(idx: map<K, set<int>>, keys: seq<K>, ssid: int)
    requires NoEmptySets(idx) && !SafeList(keys)
    requires forall k, s :: Linked(idx, k, s) <==> s == ssid && k in keys
    ensures exists k :: Linked(Unlink(idx, keys, ssid).idx, k, ssid)
  {
    var i: nat, m: nat :| i < m < |keys| && Repeats(keys, i) && !Repeats(keys, m);
    var first := FirstRepeatExists(keys, i);
    assert keys[0..] == keys;
    UnlinkSolo(idx, keys, 0, ssid, first);
    NewFor(keys, first, m);
    assert Linked(Unlink(idx, keys, ssid).idx, keys[m], ssid);
  }

  lemma {:induction false} UnsafeRemoval(f: Filter)
    requires !SafeFilter(f)
    ensures Sound(Alone(f)) && 1 in Alone(f).subs && Alone(f).subs[1].filter == f
    ensures !Sound(Removed(Alone(f), 1))
  {
    assert Sound(EMPTY);
    AddedSound(EMPTY, Subscription([], f, 0));
    var d := Alone(f);
    var authors, kinds := Listed(f.authors), Listed(f.kinds);
    var after := Removed(d, 1);
    assert 1 !in after.subs;
    hide Linked, Unlink, Link, SafeList, NoRepeats;
    if !SafeList(authors) {
      UnsafeLeaves(d.byAuthor, authors, 1);
    } else if !NoRepeats(authors) && kinds != [] {
      RepeatStops(d.byAuthor, authors, 1);
      assert Linked(after.byKind, kinds[0], 1);
    } else {
      AllLinked(d.byAuthor, authors, 1);
      if kinds == [] {
        SafeNone<Kind>();
      }
      assert !SafeList(kinds);
      UnsafeLeaves(d.byKind, kinds, 1);
    }
  }

  lemma {:induction false} SafeNone<T>()
    ensures SafeList<T>([])
  {
  }

  lemma {:induction false} RepeatStops<K(!new)>(idx: map<K, set<int>>, keys: seq<K>, ssid: int)
    requires NoEmptySets(idx) && !NoRepeats(keys)
    requires forall k, s :: Linked(idx, k, s) <==> s == ssid && k in keys
    ensures !Unlink(idx, keys, ssid).finished
  {
    var i: nat :| i < |keys| && Repeats(keys, i);
    var first := FirstRepeatExists(keys, i);
    assert keys[0..] == keys;
    UnlinkSolo(idx, keys, 0, ssid, first);
  }

  /**
   Removing a subscription is complete in every state of the dispatcher exactly when its filter's
   lists are safe; lists without repetition always are.
   */
  lemma {:induction false} RemovalCompleteIff(f: Filter)
    ensures (forall d: State, ssid: int :: Sound(d) && ssid in d.subs && d.subs[ssid].filter == f ==>
                                             Sound(Removed(d, ssid)))
       <==> SafeFilter(f)
    ensures NoRepeats(Listed(f.authors)) && NoRepeats(Listed(f.kinds)) ==> SafeFilter(f)
  {
    hide Sound, Removed;
    if SafeFilter(f) {
      forall d: State, ssid: int | Sound(d) && ssid in d.subs && d.subs[ssid].filter == f
        ensures Sound(Removed(d, ssid))
      {
        RemovedSound(d, ssid);
      }
    } else {
      UnsafeRemoval(f);
    }
  }

  // ---- what survives any removal ----

  /** The live subscriptions are indexed as they should be; entries of others may have been left behind. */
  ghost predicate LiveSound(d: State) {
    && NoEmptySets(d.byAuthor) && NoEmptySets(d.byKind)
    && (forall k, s :: s in d.subs ==> (Linked(d.byAuthor, k, s) <==> k in Listed(d.subs[s].filter.authors)))
    && (forall k, s :: s in d.subs ==> (Linked(d.byKind, k, s) <==> k in Listed(d.subs[s].filter.kinds)))
    && (forall s :: s in d.fallback <==> s in d.subs && !Indexed(d.subs[s].filter))
    && (forall k, s :: Linked(d.byAuthor, k, s) ==> s <= d.serial)
    && (forall k, s :: Linked(d.byKind, k, s) ==> s <= d.serial)
    && (forall s :: s in d.subs ==> s <= d.serial)
  }

  ghost predicate NoStale(d: State) {
    && (forall k, s :: Linked(d.byAuthor, k, s) ==> s in d.subs)
    && (forall k, s :: Linked(d.byKind, k, s) ==> s in d.subs)
  }

  /** Without leftovers, the indexes hold exactly the live subscriptions. */
  lemma {:induction false} SoundIff(d: State)
    ensures Sound(d) <==> LiveSound(d) && NoStale(d)
  {
    hide Linked;
  }

  lemma {:induction false} AddedLive(d: State, sub: Subscription)
    requires LiveSound(d)
    ensures LiveSound(Added(d, sub))
    ensures NoStale(d) ==> NoStale(Added(d, sub))
  {
    hide Link, Linked;
    LinkIs(d.byAuthor, Listed(sub.filter.authors), d.serial + 1);
    LinkIs(d.byKind, Listed(sub.filter.kinds), d.serial + 1);
  }

  /** However far a removal gets, it touches the entries of its subscription only. */
  lemma {:induction false} UnlinkOthers<K(!new)>(idx: map<K, set<int>>, keys: seq<K>, ssid: int)
    requires NoEmptySets(idx)
    ensures var u := Unlink(idx, keys, ssid).idx;
            && NoEmptySets(u)
            && (forall k, s :: Linked(u, k, s) ==> Linked(idx, k, s))
            && (forall k, s :: s != ssid && Linked(idx, k, s) ==> Linked(u, k, s))
    decreases |keys|
  {
    hide Linked;
    if keys != [] && keys[0] in idx {
      DroppedIs(idx, keys[0], ssid);
      UnlinkOthers(Dropped(idx, keys[0], ssid), keys[1..], ssid);
    }
  }

  lemma {:induction false} RemovedLive(d: State, ssid: int)
    requires LiveSound(d)
    ensures LiveSound(Removed(d, ssid))
  {
    hide Linked, Unlink;
    if ssid in d.subs {
      var f := d.subs[ssid].filter;
      UnlinkOthers(d.byAuthor, Listed(f.authors), ssid);
      UnlinkOthers(d.byKind, Listed(f.kinds), ssid);
      UnlinkNone(d.byKind, ssid);
      UnlinkNone(d.byAuthor, ssid);
    }
  }

  // ---- runs ----

  datatype Call = Add(sub: Subscription) | Remove(ssid: int)

  function Ran(d: State, calls: seq<Call>): State {
    if calls == [] then d
    else
      var before := Ran(d, calls[..|calls| - 1]);
      match calls[|calls| - 1]
      case Add(sub) => Added(before, sub)
      case Remove(ssid) => Removed(before, ssid)
  }

  ghost predicate SafeCalls(calls: seq<Call>) {
    forall i :: 0 <= i < |calls| && calls[i].Add? ==> SafeFilter(calls[i].sub.filter)
  }

  ghost predicate AllSafe(d: State) {
    forall s :: s in d.subs ==> SafeFilter(d.subs[s].filter)
  }

  /**
   Under any sequence of additions and removals the live subscriptions stay indexed as they should
   be, and with safe filters nothing is left behind.
   */
  lemma {:induction false} RunSound(calls: seq<Call>)
    ensures LiveSound(Ran(EMPTY, calls))
    ensures SafeCalls(calls) ==> Sound(Ran(EMPTY, calls)) && AllSafe(Ran(EMPTY, calls))
  {
    hide Link, Linked, Unlink, SafeFilter, LiveSound, Sound;
    if calls == [] {
      StartSound();
      SoundIff(EMPTY);
    } else {
      RunSound(calls[..|calls| - 1]);
      var before := Ran(EMPTY, calls[..|calls| - 1]);
      match calls[|calls| - 1]
      case Add(sub) =>
        AddedLive(before, sub);
        if SafeCalls(calls) {
          AddedSound(before, sub);
        }
      case Remove(ssid) =>
        RemovedLive(before, ssid);
        if SafeCalls(calls) {
          RemovedSound(before, ssid);
        }
    }
  }

  lemma {:induction false} StartSound()
    ensures Sound(EMPTY)
  {
  }

  // ---- candidates ----

  /** `filterMatchesTimestampConstraintsAndTags`. */
  predicate MatchesRest(f: Filter, ev: Event) {
    MatchesTime(f, ev) && MatchesTags(f, ev)
  }

  /** The dispatcher never looks at the ids of a filter. */
  predicate MatchesButIds(f: Filter, ev: Event) {
    Matches(f.(ids := None), ev)
  }

  /** Which entries of an index a loop of `candidates` considers. */
  datatype Rule = InKinds(kindSubs: set<int>) | NoAuthors | NoKinds | Any

  predicate Eligible(rule: Rule, f: Filter, ssid: int) {
    match rule
    case InKinds(kindSubs) => ssid in kindSubs || f.kinds.None?
    case NoAuthors => f.authors.None?
    case NoKinds => f.kinds.None?
    case Any => true
  }

  function LookUp(subs: map<int, Subscription>, ssid: int): Subscription {
    if ssid in subs then subs[ssid] else ZERO
  }

  /** A loop over some entries yields this one. */
  predicate Chosen(subs: map<int, Subscription>, ssids: set<int>, rule: Rule, ev: Event, s: int) {
    s in ssids && Eligible(rule, LookUp(subs, s).filter, s) && MatchesRest(LookUp(subs, s).filter, ev)
  }

  function One(b: bool): nat {
    if b then 1 else 0
  }

  /** What a loop over some entries yields. */
  ghost predicate Picks(ids: seq<int>, subs: map<int, Subscription>, ssids: set<int>, rule: Rule, ev: Event) {
    forall s :: multiset(ids)[s] == One(Chosen(subs, ssids, rule, ev, s))
  }

  /** How often the loops over the indexes yield a number. */
  ghost function IndexTimes(d: State, s: int, ev: Event): nat {
    if s in d.subs then One(Indexed(d.subs[s].filter) && MatchesButIds(d.subs[s].filter, ev))
    else One(Linked(d.byAuthor, ev.pubkey, s)) + One(Linked(d.byKind, ev.kind, s))
  }

  /** How often a number is yielded: a live one once if it matches, a leftover once per index it is left in. */
  ghost function Times(d: State, s: int, ev: Event): nat {
    if s in d.subs then One(MatchesButIds(d.subs[s].filter, ev))
    else One(Linked(d.byAuthor, ev.pubkey, s)) + One(Linked(d.byKind, ev.kind, s))
  }

  /** The list yields the subscriptions of some numbers, that of an unknown number being zero. */
  ghost predicate Yields(out: seq<Subscription>, ids: seq<int>, subs: map<int, Subscription>) {
    |ids| == |out| && forall i :: 0 <= i < |ids| ==> out[i] == LookUp(subs, ids[i])
  }

  class Dispatcher {
    var serial: int
    var subscriptions: map<int, Subscription>
    var byAuthor: map<PubKey, set<int>>
    var byKind: map<Kind, set<int>>
    var fallback: set<int>

    ghost function Current(): State
      reads this
    {
      State(serial, subscriptions, byAuthor, byKind, fallback)
    }

    constructor ()
      ensures Current() == EMPTY
    {
      serial, subscriptions, byAuthor, byKind, fallback := 0, map[], map[], map[], {};
    }

    method AddSubscription(sub: Subscription) returns (ssid: int)
      modifies this
      ensures Current() == Added(old(Current()), sub)
      ensures ssid == old(serial) + 1
    {
      hide Link;
      serial := serial + 1;
      ssid := serial;
      subscriptions := subscriptions[ssid := sub];
      var indexed := false;
      if sub.filter.authors.Some? {
        indexed := true;
        byAuthor := LinkAll(byAuthor, sub.filter.authors.value, ssid);
      } else {
        LinkNone(byAuthor, ssid);
      }
      if sub.filter.kinds.Some? {
        indexed := true;
        byKind := LinkAll(byKind, sub.filter.kinds.value, ssid);
      } else {
        LinkNone(byKind, ssid);
      }
      if !indexed {
        fallback := fallback + {ssid};
      }
    }

    method RemoveSubscription(ssid: int)
      modifies this
      ensures Current() == Removed(old(Current()), ssid)
    {
      hide Unlink;
      if ssid !in subscriptions {
        return;
      }
      var sub := subscriptions[ssid];
      subscriptions := subscriptions - {ssid};
      UnlinkNone(byAuthor, ssid);
      UnlinkNone(byKind, ssid);
      var indexed := false;
      var finished;
      if sub.filter.authors.Some? {
        indexed := true;
        byAuthor, finished := UnlinkAll(byAuthor, sub.filter.authors.value, ssid);
        if !finished {
          return;
        }
      }
      if sub.filter.kinds.Some? {
        indexed := true;
        byKind, finished := UnlinkAll(byKind, sub.filter.kinds.value, ssid);
        if !finished {
          return;
        }
      }
      if !indexed {
        fallback := fallback - {ssid};
      }
    }

    /** One loop of `candidates` over the entries of an index. */
    method Gather(ssids: set<int>, rule: Rule, ev: Event) returns (out: seq<Subscription>, ghost ids: seq<int>)
      ensures Yields(out, ids, subscriptions) && Picks(ids, subscriptions, ssids, rule, ev)
    {
      hide MatchesRest, Eligible, Picks;
      out, ids := [], [];
      var todo := ssids;
      PicksNone(subscriptions, rule, ev);
      assert ssids - todo == {};
      while todo != {}
        invariant todo <= ssids && Yields(out, ids, subscriptions)
        invariant Picks(ids, subscriptions, ssids - todo, rule, ev)
        decreases todo
      {
        Inhabited(todo);
        var ssid :| ssid in todo;
        PicksOne(ids, subscriptions, ssids - todo, rule, ev, ssid);
        assert ssids - (todo - {ssid}) == ssids - todo + {ssid};
        todo := todo - {ssid};
        var sub := if ssid in subscriptions then subscriptions[ssid] else ZERO;
        if Eligible(rule, sub.filter, ssid) && MatchesRest(sub.filter, ev) {
          out := out + [sub];
          ids := ids + [ssid];
        }
      }
      assert ssids - todo == ssids;
    }

    /** The loops over the author and kind indexes. */
    method FromIndexes(ev: Event) returns (out: seq<Subscription>, ghost ids: seq<int>)
      requires LiveSound(Current())
      ensures Yields(out, ids, subscriptions)
      ensures forall s :: multiset(ids)[s] == IndexTimes(Current(), s, ev)
    {
      hide LiveSound, Picks, IndexTimes;
      out, ids := [], [];
      var hasAuthorSubs, hasKindSubs := ev.pubkey in byAuthor, ev.kind in byKind;
      if hasAuthorSubs && hasKindSubs {
        var authorSubs, kindSubs := byAuthor[ev.pubkey], byKind[ev.kind];
        ghost var ids1, ids2;
        var out2;
        out, ids1 := Gather(authorSubs, InKinds(kindSubs), ev);
        out2, ids2 := Gather(kindSubs, NoAuthors, ev);
        ThroughBoth(Current(), ev, ids1, ids2);
        out, ids := out + out2, ids1 + ids2;
      } else if hasAuthorSubs {
        out, ids := Gather(byAuthor[ev.pubkey], NoKinds, ev);
        ThroughOne(Current(), ev, ids);
      } else if hasKindSubs {
        out, ids := Gather(byKind[ev.kind], NoAuthors, ev);
        ThroughOne(Current(), ev, ids);
      } else {
        ThroughNone(Current(), ev);
      }
    }

    /**
     Every live subscription whose filter matches the event, ids aside, once, and the zero
     subscription for every entry left behind under the event's author or kind.
     */
    method Candidates(ev: Event) returns (out: seq<Subscription>)
      requires LiveSound(Current())
      ensures exists ids :: YieldedAs(out, ids, Current(), ev)
    {
      hide MatchesRest, MatchesButIds, LiveSound, Picks, IndexTimes, Times;
      ghost var ids, moreIds;
      var more;
      out, ids := FromIndexes(ev);
      more, moreIds := Gather(fallback, Any, ev);
      forall s ensures multiset(ids + moreIds)[s] == Times(Current(), s, ev) {
        AllThrough(Current(), ev, moreIds, s);
      }
      out := out + more;
      assert YieldedAs(out, ids + moreIds, Current(), ev);
    }
  }

  /** The list names every number as often as it is due. */
  ghost predicate YieldedAs(out: seq<Subscription>, ids: seq<int>, d: State, ev: Event) {
    Yields(out, ids, d.subs) && forall s :: multiset(ids)[s] == Times(d, s, ev)
  }

  lemma {:induction false} PicksNone(subs: map<int, Subscription>, rule: Rule, ev: Event)
    ensures Picks([], subs, {}, rule, ev)
  {
  }

  lemma {:induction false} PicksOne(ids: seq<int>, subs: map<int, Subscription>, seen: set<int>, rule: Rule, ev: Event,
                                    ssid: int)
    requires Picks(ids, subs, seen, rule, ev) && ssid !in seen
    ensures var sub := LookUp(subs, ssid);
            Picks(if Eligible(rule, sub.filter, ssid) && MatchesRest(sub.filter, ev) then ids + [ssid] else ids,
                  subs, seen + {ssid}, rule, ev)
  {
    hide Eligible, MatchesRest;
  }

  lemma {:induction false} AllThrough(d: State, ev: Event, moreIds: seq<int>, s: int)
    requires LiveSound(d) && Picks(moreIds, d.subs, d.fallback, Any, ev)
    ensures IndexTimes(d, s, ev) + multiset(moreIds)[s] == Times(d, s, ev)
  {
    hide Linked;
    assert multiset(moreIds)[s] == One(Chosen(d.subs, d.fallback, Any, ev, s));
  }

  lemma {:induction false} ThroughBoth(d: State, ev: Event, ids1: seq<int>, ids2: seq<int>)
    requires LiveSound(d) && ev.pubkey in d.byAuthor && ev.kind in d.byKind
    requires Picks(ids1, d.subs, d.byAuthor[ev.pubkey], InKinds(d.byKind[ev.kind]), ev)
    requires Picks(ids2, d.subs, d.byKind[ev.kind], NoAuthors, ev)
    ensures forall s :: multiset(ids1 + ids2)[s] == IndexTimes(d, s, ev)
  {
    hide LiveSound, MatchesRest, MatchesButIds;
    forall s ensures multiset(ids1 + ids2)[s] == IndexTimes(d, s, ev) {
      MatchSplits(d, s, ev);
      ZeroMatches(ev);
    }
  }

  lemma {:induction false} ThroughOne(d: State, ev: Event, ids: seq<int>)
    requires LiveSound(d)
    requires if ev.pubkey in d.byAuthor then ev.kind !in d.byKind
                                             && Picks(ids, d.subs, d.byAuthor[ev.pubkey], NoKinds, ev)
             else ev.kind in d.byKind && Picks(ids, d.subs, d.byKind[ev.kind], NoAuthors, ev)
    ensures forall s :: multiset(ids)[s] == IndexTimes(d, s, ev)
  {
    hide LiveSound, MatchesRest, MatchesButIds;
    forall s ensures multiset(ids)[s] == IndexTimes(d, s, ev) {
      MatchSplits(d, s, ev);
      ZeroMatches(ev);
    }
  }

  lemma {:induction false} ThroughNone(d: State, ev: Event)
    requires LiveSound(d) && ev.pubkey !in d.byAuthor && ev.kind !in d.byKind
    ensures forall s :: multiset([])[s] == IndexTimes(d, s, ev)
  {
    hide LiveSound, MatchesRest, MatchesButIds;
    forall s ensures multiset([])[s] == IndexTimes(d, s, ev) {
      MatchSplits(d, s, ev);
    }
  }

  lemma {:induction false} ZeroMatches(ev: Event)
    ensures MatchesRest(ZERO.filter, ev)
  {
  }

  /** A live filter without ids matches exactly through the indexes and the remaining checks. */
  lemma {:induction false} MatchSplits(d: State, s: int, ev: Event)
    requires LiveSound(d)
    ensures s in d.subs ==>
              (MatchesButIds(d.subs[s].filter, ev) <==>
               && MatchesRest(d.subs[s].filter, ev)
               && (d.subs[s].filter.authors.Some? ==> Linked(d.byAuthor, ev.pubkey, s))
               && (d.subs[s].filter.kinds.Some? ==> Linked(d.byKind, ev.kind, s)))
    ensures s in d.subs && Linked(d.byAuthor, ev.pubkey, s) ==> d.subs[s].filter.authors.Some?
    ensures s in d.subs && Linked(d.byKind, ev.kind, s) ==> d.subs[s].filter.kinds.Some?
  {
    hide Linked;
    assert s in d.subs ==>
        && (Linked(d.byAuthor, ev.pubkey, s) <==> ev.pubkey in Listed(d.subs[s].filter.authors))
        && (Linked(d.byKind, ev.kind, s) <==> ev.kind in Listed(d.subs[s].filter.kinds));
  }

  /**
     Removing the only subscription with unsafe lists leaves an entry that some event yields as the zero
     subscription.
   */
  lemma {:induction false} LeftoverYielded(f: Filter)
    requires !SafeFilter(f)
    ensures exists ev: Event :: 1 !in Removed(Alone(f), 1).subs && Times(Removed(Alone(f), 1), 1, ev) > 0
  {
    hide SafeFilter, Link, Unlink;
    UnsafeRemoval(f);
    var d := Alone(f);
    var after := Removed(d, 1);
    SoundIff(d);
    RemovedLive(d, 1);
    SoundIff(after);
    OnlyOne(f, after);
    var zero: PubKey := seq(32, _ => 0);
    if k :| Linked(after.byAuthor, k, 1) {
      assert Times(after, 1, Event(zero, k, 0, 0, [], [])) > 0;
    } else {
      var k :| Linked(after.byKind, k, 1);
      assert Times(after, 1, Event(zero, zero, 0, k, [], [])) > 0;
    }
  }

  lemma {:induction false} OnlyOne(f: Filter, after: State)
    requires after == Removed(Alone(f), 1) && !NoStale(after)
    ensures (exists k :: Linked(after.byAuthor, k, 1)) || (exists k :: Linked(after.byKind, k, 1))
  {
    hide Link, Unlink, Linked;
    var d := Alone(f);
    StartSound();
    EmptyLinks();
    LinkIs(EMPTY.byAuthor, Listed(f.authors), 1);
    LinkIs(EMPTY.byKind, Listed(f.kinds), 1);
    UnlinkOthers(d.byAuthor, Listed(f.authors), 1);
    UnlinkOthers(d.byKind, Listed(f.kinds), 1);
  }

  lemma {:induction false} EmptyLinks()
    ensures forall k: PubKey, s :: !Linked(EMPTY.byAuthor, k, s)
    ensures forall k: Kind, s :: !Linked(EMPTY.byKind, k, s)
  {
  }

  method LinkAll<K(==)>(idx0: map<K, set<int>>, keys: seq<K>, ssid: int) returns (idx: map<K, set<int>>)
    ensures idx == Link(idx0, keys, ssid)
  {
    idx := idx0;
    var i := 0;
    assert keys[0..] == keys;
    while i < |keys|
      invariant 0 <= i <= |keys| && Link(idx, keys[i..], ssid) == Link(idx0, keys, ssid)
    {
      assert keys[i..][1..] == keys[i + 1..];
      var s := if keys[i] in idx then idx[keys[i]] else {};
      idx := idx[keys[i] := s + {ssid}];
      i := i + 1;
    }
  }

  lemma {:induction false} LinkNone<K>(idx: map<K, set<int>>, ssid: int)
    ensures Link(idx, [], ssid) == idx
  {
  }

  method UnlinkAll<K(==)>(idx0: map<K, set<int>>, keys: seq<K>, ssid: int)
    returns (idx: map<K, set<int>>, finished: bool)
    ensures Unlinked(idx, finished) == Unlink(idx0, keys, ssid)
  {
    idx := idx0;
    var i := 0;
    assert keys[0..] == keys;
    while i < |keys|
      invariant 0 <= i <= |keys| && Unlink(idx, keys[i..], ssid) == Unlink(idx0, keys, ssid)
    {
      assert keys[i..][1..] == keys[i + 1..];
      if keys[i] !in idx {
        return idx, false;
      }
      var s := idx[keys[i]] - {ssid};
      if |s| == 0 {
        idx := idx - {keys[i]};
      } else {
        idx := idx[keys[i] := s];
      }
      i := i + 1;
    }
    finished := true;
  }
}
