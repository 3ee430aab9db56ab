/**
 The batched threshold merge (eventstore/boltdb/query.go, eventstore/badgerdb/query.go): rounds of
 selecting iterators, releasing what the threshold allows, and pulling more.
 */
module ThresholdMerge {
  import opened ByteStrings
  import opened NostrEvents
  import opened IndexIterators
  import opened Quickselect

  // ---- what the iterators hold ----

  function Held(it: Iterator, since: nat): seq<Entry>
    reads it
  {
    it.Waiting() + it.Unpulled(since)
  }

  /** Everything pulled or still to pull. */
  function Pool(its: seq<Iterator>, since: nat): seq<Entry>
    reads its
  {
    if its == [] then [] else Held(its[0], since) + Pool(its[1..], since)
  }

  /** How much an iterator can still move: keys to pull, exhaustion, removal. */
  function Effort(it: Iterator, since: nat): nat
    reads it
  {
    |it.Unpulled(since)| + (if it.exhausted then 0 else 1) + 1
  }

  function Efforts(its: seq<Iterator>, since: nat): nat
    reads its
  {
    if its == [] then 0 else Effort(its[0], since) + Efforts(its[1..], since)
  }

  lemma {:induction false} PoolSplit(its: seq<Iterator>, i: nat, since: nat)
    requires i < |its|
    ensures Pool(its, since) == Pool(its[..i], since) + Held(its[i], since) + Pool(its[i + 1..], since)
    ensures Efforts(its, since) == Efforts(its[..i], since) + Effort(its[i], since) + Efforts(its[i + 1..], since)
  {
    hide Held, Effort;
    if i > 0 {
      PoolSplit(its[1..], i - 1, since);
      assert its[1..][..i - 1] == its[..i][1..];
      assert its[1..][i..] == its[i + 1..];
    }
  }

  lemma {:induction false} PoolConcat(a: seq<Iterator>, b: seq<Iterator>, since: nat)
    ensures Pool(a + b, since) == Pool(a, since) + Pool(b, since)
    ensures Efforts(a + b, since) == Efforts(a, since) + Efforts(b, since)
  {
    hide Held, Effort;
    if a == [] {
      assert a + b == b;
    } else {
      assert (a + b)[1..] == a[1..] + b;
      PoolConcat(a[1..], b, since);
    }
  }

  /** Reordering the iterators reorders the pool. */
  lemma {:induction false} PoolPermuted(a: seq<Iterator>, b: seq<Iterator>, since: nat)
    requires multiset(a) == multiset(b)
    ensures multiset(Pool(a, since)) == multiset(Pool(b, since))
    ensures Efforts(a, since) == Efforts(b, since)
  {
    hide Held, Effort;
    if a == [] {
      SizeOf(a, b);
    } else {
      assert a[0] in multiset(a);
      assert a[0] in b;
      var j :| 0 <= j < |b| && b[j] == a[0];
      var rest := b[..j] + b[j + 1..];
      Removed(a, b, j);
      PoolPermuted(a[1..], rest, since);
      PoolSplit(b, j, since);
      PoolConcat(b[..j], b[j + 1..], since);
    }
  }

  lemma {:induction false} Removed<T>(a: seq<T>, b: seq<T>, j: nat)
    requires a != [] && multiset(a) == multiset(b) && j < |b| && b[j] == a[0]
    ensures multiset(a[1..]) == multiset(b[..j] + b[j + 1..])
  {
    assert a == [a[0]] + a[1..];
    assert b == b[..j] + [b[j]] + b[j + 1..];
    var rest := b[..j] + b[j + 1..];
    assert multiset(a) == multiset{a[0]} + multiset(a[1..]);
    assert multiset(b) == multiset{a[0]} + multiset(rest);
    forall x: T | true ensures multiset(a[1..])[x] == multiset(rest)[x] {
      assert multiset(a)[x] == multiset(b)[x];
    }
  }

  ghost predicate Distinct(its: seq<Iterator>) {
    forall i, j :: 0 <= i < j < |its| ==> its[i] != its[j]
  }

  lemma {:induction false} DistinctOnce(its: seq<Iterator>)
    ensures Distinct(its) ==> forall it :: multiset(its)[it] <= 1
    ensures !Distinct(its) ==> exists it :: multiset(its)[it] >= 2
  {
    if its != [] {
      var rest := its[1..];
      DistinctOnce(rest);
      assert its == [its[0]] + rest;
      assert multiset(its) == multiset{its[0]} + multiset(rest);
      if Distinct(its) {
        assert its[0] !in rest;
      } else {
        var i, j :| 0 <= i < j < |its| && its[i] == its[j];
        if i == 0 {
          assert rest[j - 1] == its[0];
          assert multiset(its)[its[0]] >= 2;
        } else {
          assert rest[i - 1] == rest[j - 1];
          var it :| multiset(rest)[it] >= 2;
          assert multiset(its)[it] >= 2;
        }
      }
    }
  }

  lemma {:induction false} DistinctPermuted(a: seq<Iterator>, b: seq<Iterator>)
    requires Distinct(a) && multiset(a) == multiset(b)
    ensures Distinct(b)
  {
    DistinctOnce(a);
    DistinctOnce(b);
  }

  /** An iterator between rounds. */
  ghost predicate Ready(it: Iterator, since: nat)
    reads it
  {
    it.Valid() && it.Bounded(since) && (!it.exhausted ==> it.rest != [])
  }

  ghost predicate AllReady(its: seq<Iterator>, since: nat)
    reads its
  {
    forall i :: 0 <= i < |its| ==> Ready(its[i], since)
  }

  ghost predicate Below(es: seq<Entry>, ts: nat) {
    forall e :: e in es ==> e.ts < ts
  }

  // ---- events ----

  /** Looking up an entry and applying the post-checks: the event to emit, if any. */
  type Fetch = nat -> Option<Event>

  function Fetched(es: seq<Entry>, fetch: Fetch): seq<Event> {
    if es == [] then []
    else
      var front := Fetched(es[..|es| - 1], fetch);
      var ev := fetch(es[|es| - 1].ptr);
      if ev.Some? then front + [ev.value] else front
  }

  lemma {:induction false} FetchedConcat(a: seq<Entry>, b: seq<Entry>, fetch: Fetch)
    ensures Fetched(a + b, fetch) == Fetched(a, fetch) + Fetched(b, fetch)
  {
    if b == [] {
      assert a + b == a;
    } else {
      assert (a + b)[..|a + b| - 1] == a + b[..|b| - 1];
      FetchedConcat(a, b[..|b| - 1], fetch);
    }
  }

  lemma {:induction false} FetchedPermuted(a: seq<Entry>, b: seq<Entry>, fetch: Fetch)
    requires multiset(a) == multiset(b)
    ensures multiset(Fetched(a, fetch)) == multiset(Fetched(b, fetch))
  {
    if a == [] {
      assert |multiset(b)| == |b|;
      assert b == [];
    } else {
      assert a[0] in multiset(a);
      assert a[0] in b;
      var j :| 0 <= j < |b| && b[j] == a[0];
      var rest := b[..j] + b[j + 1..];
      Removed(a, b, j);
      assert a == [a[0]] + a[1..];
      assert b == b[..j] + [b[j]] + b[j + 1..];
      FetchedPermuted(a[1..], rest, fetch);
      FetchedConcat([a[0]], a[1..], fetch);
      FetchedConcat(b[..j] + [b[j]], b[j + 1..], fetch);
      FetchedConcat(b[..j], [b[j]], fetch);
      FetchedConcat(b[..j], b[j + 1..], fetch);
    }
  }

  /** The index and the event agree on the creation time. */
  ghost predicate Consistent(es: seq<Entry>, fetch: Fetch) {
    forall e :: e in es && fetch(e.ptr).Some? ==> fetch(e.ptr).value.createdAt == e.ts
  }

  lemma {:induction false} FetchedFrom(es: seq<Entry>, fetch: Fetch)
    ensures forall ev :: ev in Fetched(es, fetch) ==> exists e :: e in es && fetch(e.ptr) == Some(ev)
  {
    if es != [] {
      FetchedFrom(es[..|es| - 1], fetch);
      var last := es[|es| - 1];
      forall ev | ev in Fetched(es, fetch) ensures exists e :: e in es && fetch(e.ptr) == Some(ev) {
        if fetch(last.ptr) == Some(ev) {
          assert last in es;
        } else {
          assert ev in Fetched(es[..|es| - 1], fetch);
          var e :| e in es[..|es| - 1] && fetch(e.ptr) == Some(ev);
          assert e in es;
        }
      }
    }
  }

  // ---- order ----

  /** `CompareEventReverse`: newer first, then the greater id. */
  predicate Precedes(a: Event, b: Event) {
    a.createdAt > b.createdAt || (a.createdAt == b.createdAt && !LexLess(a.id, b.id))
  }

  lemma {:induction false} PrecedesIs(a: Event, b: Event)
    ensures Precedes(a, b) <==>
            || b.createdAt < a.createdAt
            || (b.createdAt == a.createdAt && (b.id == a.id || LexLess(b.id, a.id)))
  {
    LexTotal(a.id, b.id);
    LexIrreflexive(a.id);
    if LexLess(a.id, b.id) && LexLess(b.id, a.id) {
      LexTransitive(a.id, b.id, a.id);
    }
  }

  ghost predicate NonIncreasing(evs: seq<Event>) {
    forall i, j :: 0 <= i < j < |evs| ==> evs[i].createdAt >= evs[j].createdAt
  }

  ghost predicate AtLeast(evs: seq<Event>, ts: int) {
    forall i :: 0 <= i < |evs| ==> evs[i].createdAt >= ts
  }

  ghost predicate AtMost(evs: seq<Event>, ts: int) {
    forall i :: 0 <= i < |evs| ==> evs[i].createdAt <= ts
  }

  ghost predicate SortedEvents(evs: seq<Event>) {
    forall i, j :: 0 <= i < j < |evs| ==> Precedes(evs[i], evs[j])
  }

  lemma {:induction false} PrecedesTransitive(a: Event, b: Event, c: Event)
    requires Precedes(a, b) && Precedes(b, c)
    ensures Precedes(a, c)
  {
    if a.createdAt == b.createdAt && b.createdAt == c.createdAt && LexLess(a.id, c.id) {
      LexTotal(b.id, a.id);
      LexTotal(c.id, b.id);
      if LexLess(b.id, a.id) {
        LexTransitive(b.id, a.id, c.id);
      }
    }
  }

  lemma {:induction false} NotPrecedes(a: Event, b: Event)
    requires !Precedes(a, b)
    ensures Precedes(b, a)
  {
    PrecedesIs(a, b);
    PrecedesIs(b, a);
    LexTotal(a.id, b.id);
  }

  /** `slices.SortFunc`, as an insertion into a sorted sequence. */
  method SortEvents(evs: seq<Event>) returns (r: seq<Event>)
    ensures SortedEvents(r) && multiset(r) == multiset(evs)
  {
    r := [];
    var i := 0;
    while i < |evs|
      invariant 0 <= i <= |evs| && SortedEvents(r) && multiset(r) == multiset(evs[..i])
    {
      assert evs[..i + 1] == evs[..i] + [evs[i]];
      r := Insert(r, evs[i]);
      i := i + 1;
    }
    assert evs[..|evs|] == evs;
  }

  method Insert(s: seq<Event>, ev: Event) returns (r: seq<Event>)
    requires SortedEvents(s)
    ensures SortedEvents(r) && multiset(r) == multiset(s) + multiset{ev}
  {
    hide Precedes;
    var at := |s|;
    while at > 0 && !Precedes(s[at - 1], ev)
      invariant 0 <= at <= |s|
      invariant forall i :: at <= i < |s| ==> Precedes(ev, s[i])
    {
      NotPrecedes(s[at - 1], ev);
      at := at - 1;
    }
    forall i | 0 <= i < at ensures Precedes(s[i], ev) {
      if i < at - 1 {
        PrecedesTransitive(s[i], s[at - 1], ev);
      }
    }
    r := s[..at] + [ev] + s[at..];
    assert s == s[..at] + s[at..];
  }

  // ---- one round ----

  /** Puts the iterators to pull from first. */
  method Reorder(its: seq<Iterator>, k: nat) returns (r: seq<Iterator>)
    ensures multiset(r) == multiset(its) && |r| == |its|
    ensures CutAt(Lasts(r), k)
  {
    hide CutAt, Lasts;
    var a := new Iterator[|its|](i requires 0 <= i < |its| => its[i]);
    assert a[..] == its;
    Select(a, k);
    r := a[..];
  }

  lemma {:induction false} WaitingChanged(before: seq<Entry>, after: seq<Entry>, unpulled: seq<Entry>,
                                          taken: seq<Entry>)
    requires multiset(taken) + multiset(after) == multiset(before)
    ensures multiset(after + unpulled) + multiset(taken) == multiset(before + unpulled)
  {
  }

  /** Replacing the middle of a pool. */
  lemma {:induction false} MiddleChanged(front: seq<Entry>, before: seq<Entry>, after: seq<Entry>, back: seq<Entry>,
                                         taken: seq<Entry>)
    requires multiset(after) + multiset(taken) == multiset(before)
    ensures multiset(front + after + back) + multiset(taken) == multiset(front + before + back)
  {
  }

  method ReleaseOne(it: Iterator, threshold: nat, since: nat) returns (taken: seq<Entry>)
    requires it.Valid()
    modifies it
    ensures it.last == old(it.last) && it.exhausted == old(it.exhausted) && it.rest == old(it.rest)
    ensures it.Valid() && Below(it.Waiting(), threshold)
    ensures forall e :: e in taken ==> e.ts >= threshold
    ensures multiset(Held(it, since)) + multiset(taken) == multiset(old(Held(it, since)))
    ensures Effort(it, since) == old(Effort(it, since))
  {
    hide Pairs, Yields, Backwards;
    taken := it.Release(threshold);
    WaitingChanged(old(it.Waiting()), it.Waiting(), it.Unpulled(since), taken);
  }

  /** Releases one iterator of the list. */
  method ReleaseAt(its: seq<Iterator>, i: nat, threshold: nat, since: nat) returns (taken: seq<Entry>)
    requires i < |its| && Distinct(its) && its[i].Valid()
    modifies its[i]
    ensures its[i].last == old(its[i].last) && its[i].exhausted == old(its[i].exhausted)
            && its[i].rest == old(its[i].rest)
    ensures its[i].Valid() && Below(its[i].Waiting(), threshold)
    ensures forall e :: e in taken ==> e.ts >= threshold
    ensures multiset(Pool(its, since)) + multiset(taken) == multiset(old(Pool(its, since)))
    ensures Efforts(its, since) == old(Efforts(its, since))
  {
    hide Pairs, Yields, Backwards, Held, Effort, Pool, Efforts, Below;
    ghost var front, back := Pool(its[..i], since), Pool(its[i + 1..], since);
    ghost var before := Held(its[i], since);
    ghost var eFront, eBack := Efforts(its[..i], since), Efforts(its[i + 1..], since);
    PoolSplit(its, i, since);
    taken := ReleaseOne(its[i], threshold, since);
    PoolSplit(its, i, since);
    assert Pool(its[..i], since) == front && Pool(its[i + 1..], since) == back;
    assert Efforts(its[..i], since) == eFront && Efforts(its[i + 1..], since) == eBack;
    MiddleChanged(front, before, Held(its[i], since), back, taken);
  }

  /** Collects every waiting key at or above the threshold. */
  method ReleaseAll(its: seq<Iterator>, threshold: nat, since: nat) returns (taken: seq<Entry>)
    requires Distinct(its) && AllReady(its, since)
    modifies its
    ensures AllReady(its, since)
    ensures forall i :: 0 <= i < |its| ==> its[i].last == old(its[i].last) && Below(its[i].Waiting(), threshold)
    ensures forall e :: e in taken ==> e.ts >= threshold
    ensures multiset(Pool(its, since)) + multiset(taken) == multiset(old(Pool(its, since)))
    ensures Efforts(its, since) == old(Efforts(its, since))
  {
    hide Pool, Efforts, Below, Pairs, Yields, Backwards;
    taken := [];
    var i := 0;
    while i < |its|
      invariant 0 <= i <= |its|
      invariant AllReady(its, since)
      invariant forall j :: 0 <= j < |its| ==> its[j].last == old(its[j].last)
      invariant forall j :: 0 <= j < i ==> Below(its[j].Waiting(), threshold)
      invariant forall e :: e in taken ==> e.ts >= threshold
      invariant multiset(Pool(its, since)) + multiset(taken) == multiset(old(Pool(its, since)))
      invariant Efforts(its, since) == old(Efforts(its, since))
      modifies its
    {
      var more := ReleaseAt(its, i, threshold, since);
      taken := taken + more;
      i := i + 1;
    }
  }

  /** Looks the entries up and applies the checks. */
  method FetchAll(taken: seq<Entry>, fetch: Fetch) returns (evs: seq<Event>)
    ensures evs == Fetched(taken, fetch)
  {
    evs := [];
    var i := 0;
    while i < |taken|
      invariant 0 <= i <= |taken| && evs == Fetched(taken[..i], fetch)
    {
      assert taken[..i + 1][..i] == taken[..i];
      var ev := fetch(taken[i].ptr);
      if ev.Some? {
        evs := evs + [ev.value];
      }
      i := i + 1;
    }
    assert taken[..|taken|] == taken;
  }

  method PullOne(it: Iterator, batch: nat, since: nat)
    requires it.Valid() && !it.exhausted && it.rest != [] && batch >= 1
    requires it.Bounded(since) || it.timestamps == []
    modifies it
    ensures Ready(it, since)
    ensures Held(it, since) == old(Held(it, since))
    ensures Effort(it, since) < old(Effort(it, since))
  {
    hide Pairs, Yields, Backwards;
    it.Pull(batch, since);
  }

  /** Pulls from one iterator of the list. */
  method PullAt(its: seq<Iterator>, i: nat, batch: nat, since: nat)
    requires i < |its| && Distinct(its) && AllReady(its, since) && !its[i].exhausted && batch >= 1
    modifies its[i]
    ensures AllReady(its, since)
    ensures multiset(Pool(its, since)) == multiset(old(Pool(its, since)))
    ensures Efforts(its, since) < old(Efforts(its, since))
  {
    hide Pairs, Yields, Backwards, Held, Effort, Pool, Efforts;
    ghost var front, back := Pool(its[..i], since), Pool(its[i + 1..], since);
    ghost var eFront, eBack := Efforts(its[..i], since), Efforts(its[i + 1..], since);
    PoolSplit(its, i, since);
    PullOne(its[i], batch, since);
    PoolSplit(its, i, since);
    assert Pool(its[..i], since) == front && Pool(its[i + 1..], since) == back;
    assert Efforts(its[..i], since) == eFront && Efforts(its[i + 1..], since) == eBack;
  }

  /** An exhausted iterator with nothing waiting leaves the list. */
  lemma {:induction false} DropAt(its: seq<Iterator>, i: nat, since: nat)
    requires i < |its| && Distinct(its) && AllReady(its, since) && its[i].exhausted && its[i].ptrs == []
    ensures var r := SwapDelete(its, i);
            && Distinct(r) && AllReady(r, since)
            && (forall it :: it in r ==> it in its)
            && multiset(Pool(r, since)) == multiset(Pool(its, since))
            && Efforts(r, since) < Efforts(its, since)
  {
    hide Pool, Efforts, Effort, SwapDelete, Ready;
    var r := SwapDelete(its, i);
    var rest := its[..i] + its[i + 1..];
    SwapDeleteIsRest(its, i);
    PoolPermuted(r, rest, since);
    PoolConcat(its[..i], its[i + 1..], since);
    PoolSplit(its, i, since);
    SpentHolds(its[i], since);
    assert Pool(its[..i], since) + [] + Pool(its[i + 1..], since) == Pool(rest, since);
    forall it | it in r ensures it in its {
      assert it in multiset(r);
      assert it in rest;
    }
    forall j | 0 <= j < |r| ensures Ready(r[j], since) {
      assert r[j] in r;
      assert r[j] in its;
    }
    assert Distinct(rest);
    DistinctPermuted(rest, r);
  }

  lemma {:induction false} SpentHolds(it: Iterator, since: nat)
    requires it.exhausted && it.ptrs == [] && Ready(it, since)
    ensures Held(it, since) == [] && Effort(it, since) >= 1
  {
  }

  lemma {:induction false} SwapDeleteIsRest<T>(its: seq<T>, i: nat)
    requires i < |its|
    ensures multiset(SwapDelete(its, i)) == multiset(its[..i] + its[i + 1..])
  {
    hide SwapDelete;
    SwapDeleteMultiset(its, i);
    assert its == its[..i] + [its[i]] + its[i + 1..];
    Cancel(multiset(SwapDelete(its, i)), multiset(its[..i] + its[i + 1..]), its[i]);
  }

  lemma {:induction false} Cancel<T>(a: multiset<T>, b: multiset<T>, x: T)
    requires a + multiset{x} == b + multiset{x}
    ensures a == b
  {
    forall y: T | true ensures a[y] == b[y] {
      assert (a + multiset{x})[y] == (b + multiset{x})[y];
    }
  }

  /**
   Pulls from the first `n` iterators, dropping the spent ones. The one that was last at the
   threshold has nothing waiting, so it moves: every round makes progress.
   */
  method PullMore(its: seq<Iterator>, n: nat, batch: nat, since: nat, threshold: nat, ghost top: nat)
    returns (r: seq<Iterator>)
    requires Distinct(its) && AllReady(its, since) && batch >= 1
    requires top < n && top < |its| && its[top].last == threshold
    requires forall i :: 0 <= i < |its| ==> Below(its[i].Waiting(), threshold)
    modifies its
    ensures Distinct(r) && AllReady(r, since) && forall it :: it in r ==> it in its
    ensures multiset(Pool(r, since)) == multiset(old(Pool(its, since)))
    ensures Efforts(r, since) < old(Efforts(its, since))
  {
    hide Pool, Efforts, Below, Pairs, Yields, Backwards, SwapDelete;
    r := its;
    ghost var moved := false;
    var i := 0;
    while i < n && i < |r|
      invariant 0 <= i && Distinct(r) && AllReady(r, since) && forall it :: it in r ==> it in its
      invariant multiset(Pool(r, since)) == multiset(old(Pool(its, since)))
      invariant if moved then Efforts(r, since) < old(Efforts(its, since))
                else Efforts(r, since) == old(Efforts(its, since))
      invariant !moved ==> r == its && i <= top
      invariant !moved ==> r[top].last == threshold && Below(r[top].Waiting(), threshold)
      decreases n - i, |r|
      modifies its
    {
      if r[i].exhausted {
        if |r[i].ptrs| == 0 {
          DropAt(r, i, since);
          ShorterBy(r, i);
          r := SwapDelete(r, i);
          moved := true;
          continue;
        }
        if !moved && i == top {
          NothingWaits(r[top], threshold);
        }
      } else {
        assert r[i] in r;
        PullAt(r, i, batch, since);
        moved := true;
      }
      i := i + 1;
    }
  }

  lemma {:induction false} ShorterBy(its: seq<Iterator>, i: nat)
    requires i < |its|
    ensures |SwapDelete(its, i)| == |its| - 1
  {
  }

  lemma {:induction false} WaitingAtLeast(it: Iterator)
    requires it.Valid()
    ensures forall e :: e in it.Waiting() ==> e.ts >= it.last
  {
  }

  lemma {:induction false} NothingWaits(it: Iterator, threshold: nat)
    requires it.Valid() && it.last == threshold && Below(it.Waiting(), threshold)
    ensures it.ptrs == []
  {
    HasHead(it.Waiting());
    WaitingAtLeast(it);
  }

  // ---- all rounds ----

  /** The first `limit` of some events, newest first. */
  ghost predicate FirstOf(out: seq<Event>, all: seq<Event>, limit: nat) {
    && NonIncreasing(out)
    && |out| == (if limit < |all| then limit else |all|)
    && exists rest: seq<Event> :: RestOf(out, rest, all)
  }

  /** `rest` is what `out` leaves of `all`, and is no newer. */
  ghost predicate RestOf(out: seq<Event>, rest: seq<Event>, all: seq<Event>) {
    && multiset(out + rest) == multiset(all)
    && forall i, j :: 0 <= i < |out| && 0 <= j < |rest| ==> out[i].createdAt >= rest[j].createdAt
  }

  ghost predicate NoneAbove(es: seq<Entry>, ts: int) {
    forall e :: e in es ==> e.ts <= ts
  }

  /** Emitted so far: the events of the entries taken, none older than what the pool still holds. */
  ghost predicate Emitted(out: seq<Event>, taken: seq<Entry>, low: int, fetch: Fetch) {
    && multiset(out) == multiset(Fetched(taken, fetch))
    && NonIncreasing(out) && AtLeast(out, low)
  }

  /** After the release nothing in the pool is above the threshold. */
  lemma {:induction false} PoolBelow(its: seq<Iterator>, threshold: nat, since: nat)
    requires AllReady(its, since)
    requires forall i :: 0 <= i < |its| ==> its[i].last <= threshold && Below(its[i].Waiting(), threshold)
    ensures NoneAbove(Pool(its, since), threshold)
  {
    hide Pairs, Yields, Backwards;
    if its != [] {
      assert forall i :: 0 <= i < |its[1..]| ==> its[1..][i] == its[i + 1];
      PoolBelow(its[1..], threshold, since);
      assert Ready(its[0], since);
      OneBelow(its[0], threshold, since);
      assert Pool(its, since) == Held(its[0], since) + Pool(its[1..], since);
    }
  }

  lemma {:induction false} OneBelow(it: Iterator, threshold: nat, since: nat)
    requires Ready(it, since) && it.last <= threshold && Below(it.Waiting(), threshold)
    ensures NoneAbove(Held(it, since), threshold)
  {
    hide Pairs, Yields, Backwards;
  }

  lemma {:induction false} NoneAbovePermuted(a: seq<Entry>, b: seq<Entry>, ts: int)
    requires NoneAbove(a, ts) && forall e :: e in multiset(b) ==> e in multiset(a)
    ensures NoneAbove(b, ts)
  {
    forall e | e in b ensures e.ts <= ts {
      assert e in multiset(b);
      assert e in a;
    }
  }

  /** The events fetched for entries in a range of times were created in that range. */
  lemma {:induction false} FetchedBetween(es: seq<Entry>, fetch: Fetch, lo: int, hi: int)
    requires Consistent(es, fetch) && forall e :: e in es ==> lo <= e.ts <= hi
    ensures AtLeast(Fetched(es, fetch), lo) && AtMost(Fetched(es, fetch), hi)
  {
    var evs := Fetched(es, fetch);
    FetchedFrom(es, fetch);
    forall i | 0 <= i < |evs| ensures lo <= evs[i].createdAt <= hi {
      assert evs[i] in evs;
      var e :| e in es && fetch(e.ptr) == Some(evs[i]);
    }
  }

  lemma {:induction false} BoundsPermuted(a: seq<Event>, b: seq<Event>, lo: int, hi: int)
    requires multiset(a) == multiset(b) && AtLeast(a, lo) && AtMost(a, hi)
    ensures AtLeast(b, lo) && AtMost(b, hi)
  {
    forall i | 0 <= i < |b| ensures lo <= b[i].createdAt <= hi {
      assert b[i] in multiset(b);
      assert b[i] in a;
    }
  }

  /** A round's events continue the order of those emitted before. */
  lemma {:induction false} RoundExtends(out: seq<Event>, sorted: seq<Event>, low: int, threshold: int)
    requires NonIncreasing(out) && AtLeast(out, low) && threshold <= low
    requires SortedEvents(sorted) && AtLeast(sorted, threshold) && AtMost(sorted, low)
    ensures NonIncreasing(out + sorted) && AtLeast(out + sorted, threshold)
  {
    var all := out + sorted;
    forall i, j | 0 <= i < j < |all| ensures all[i].createdAt >= all[j].createdAt {
      if i >= |out| {
        assert Precedes(sorted[i - |out|], sorted[j - |out|]);
      }
    }
  }

  /** Cutting the emitted events at the limit leaves nothing newer behind. */
  lemma {:induction false} CutIsFirst(emitted: seq<Event>, limit: nat, pool: seq<Event>, low: int, all: seq<Event>)
    requires NonIncreasing(emitted) && AtLeast(emitted, low) && AtMost(pool, low)
    requires multiset(emitted + pool) == multiset(all)
    requires |emitted| >= limit || pool == []
    ensures FirstOf(if limit < |emitted| then emitted[..limit] else emitted, all, limit)
  {
    hide NonIncreasing, AtLeast, AtMost, RestOf;
    SizeOf(emitted + pool, all);
    if limit < |emitted| {
      CutRest(emitted, limit, pool, low, all);
      FrontNonIncreasing(emitted, limit);
      assert RestOf(emitted[..limit], emitted[limit..] + pool, all);
    } else {
      WholeRest(emitted, pool, low, all);
      assert RestOf(emitted, pool, all);
    }
  }

  lemma {:induction false} WholeRest(emitted: seq<Event>, pool: seq<Event>, low: int, all: seq<Event>)
    requires AtLeast(emitted, low) && AtMost(pool, low) && multiset(emitted + pool) == multiset(all)
    ensures RestOf(emitted, pool, all)
  {
  }

  lemma {:induction false} CutRest(emitted: seq<Event>, limit: nat, pool: seq<Event>, low: int, all: seq<Event>)
    requires NonIncreasing(emitted) && AtLeast(emitted, low) && AtMost(pool, low) && limit < |emitted|
    requires multiset(emitted + pool) == multiset(all)
    ensures RestOf(emitted[..limit], emitted[limit..] + pool, all)
  {
    var out, rest := emitted[..limit], emitted[limit..] + pool;
    assert out + rest == emitted + pool;
    forall i, j | 0 <= i < |out| && 0 <= j < |rest| ensures out[i].createdAt >= rest[j].createdAt {
      if j < |emitted| - limit {
        assert rest[j] == emitted[limit + j];
      } else {
        assert rest[j] == pool[j - (|emitted| - limit)];
      }
    }
  }

  lemma {:induction false} FrontNonIncreasing(evs: seq<Event>, n: nat)
    requires NonIncreasing(evs) && n <= |evs|
    ensures NonIncreasing(evs[..n])
  {
  }

  lemma {:induction false} SizeOf<T>(a: seq<T>, b: seq<T>)
    requires multiset(a) == multiset(b)
    ensures |a| == |b|
  {
    assert |multiset(a)| == |a| && |multiset(b)| == |b|;
  }

  /** Yields events until the limit. */
  method Emit(out: seq<Event>, sorted: seq<Event>, limit: nat) returns (r: seq<Event>, full: bool)
    requires |out| < limit
    ensures r == (if limit < |out + sorted| then (out + sorted)[..limit] else out + sorted)
    ensures full <==> |out + sorted| >= limit
  {
    r := out;
    full := false;
    var i := 0;
    while i < |sorted|
      invariant 0 <= i <= |sorted| && r == out + sorted[..i] && |r| < limit
    {
      r := r + [sorted[i]];
      i := i + 1;
      assert out + sorted[..i] == (out + sorted)[..|out| + i];
      if |r| == limit {
        return r, true;
      }
    }
    assert out + sorted[..|sorted|] == out + sorted;
  }

  /** The first pull, from every iterator. */
  method PullAll(its: seq<Iterator>, batch: nat, since: nat)
    requires Distinct(its) && batch >= 1
    requires forall i :: 0 <= i < |its| ==>
                           its[i].Valid() && !its[i].exhausted && its[i].rest != [] && its[i].timestamps == []
    modifies its
    ensures AllReady(its, since)
    ensures multiset(Pool(its, since)) == multiset(old(Pool(its, since)))
  {
    hide Pool, Efforts, Below, Pairs, Yields, Backwards;
    var i := 0;
    while i < |its|
      invariant 0 <= i <= |its|
      invariant forall j :: 0 <= j < i ==> Ready(its[j], since)
      invariant forall j :: i <= j < |its| ==>
                              its[j].Valid() && !its[j].exhausted && its[j].rest != [] && its[j].timestamps == []
      invariant multiset(Pool(its, since)) == multiset(old(Pool(its, since)))
      modifies its
    {
      FirstPullAt(its, i, batch, since);
      i := i + 1;
    }
  }

  method FirstPullAt(its: seq<Iterator>, i: nat, batch: nat, since: nat)
    requires i < |its| && Distinct(its) && batch >= 1
    requires its[i].Valid() && !its[i].exhausted && its[i].rest != [] && its[i].timestamps == []
    modifies its[i]
    ensures Ready(its[i], since)
    ensures multiset(Pool(its, since)) == multiset(old(Pool(its, since)))
  {
    hide Pairs, Yields, Backwards, Held, Effort, Pool, Efforts, Ready;
    ghost var front, back := Pool(its[..i], since), Pool(its[i + 1..], since);
    PoolSplit(its, i, since);
    PullOne(its[i], batch, since);
    PoolSplit(its, i, since);
    assert Pool(its[..i], since) == front && Pool(its[i + 1..], since) == back;
  }

  /** The events of the pool's entries, after a release, together with those taken before. */
  lemma {:induction false} RoundAccounts(taken: seq<Entry>, more: seq<Entry>, pool: seq<Entry>, before: seq<Entry>,
                                         all: seq<Entry>, out: seq<Event>, sorted: seq<Event>, fetch: Fetch)
    requires multiset(taken) + multiset(before) == multiset(all)
    requires multiset(pool) + multiset(more) == multiset(before)
    requires multiset(out) == multiset(Fetched(taken, fetch)) && multiset(sorted) == multiset(Fetched(more, fetch))
    ensures multiset(taken + more) + multiset(pool) == multiset(all)
    ensures multiset(out + sorted) == multiset(Fetched(taken + more, fetch))
    ensures multiset(out + sorted + Fetched(pool, fetch)) == multiset(Fetched(all, fetch))
  {
    hide Fetched;
    FetchedConcat(taken, more, fetch);
    FetchedConcat(taken + more, pool, fetch);
    FetchedPermuted(taken + more + pool, all, fetch);
  }

  /**
   One round: the threshold bounds everything not yet pulled, so what is released comes after
   all that was emitted and before all that is left.
   */
  method Round(its: seq<Iterator>, threshold: nat, since: nat, fetch: Fetch,
               ghost all: seq<Entry>, ghost taken: seq<Entry>, ghost out: seq<Event>, ghost low: int)
    returns (sorted: seq<Event>, ghost more: seq<Entry>)
    requires Distinct(its) && AllReady(its, since) && Consistent(all, fetch)
    requires forall i :: 0 <= i < |its| ==> its[i].last <= threshold
    requires multiset(taken) + multiset(Pool(its, since)) == multiset(all)
    requires Emitted(out, taken, low, fetch) && NoneAbove(Pool(its, since), low)
    modifies its
    ensures AllReady(its, since)
    ensures forall i :: 0 <= i < |its| ==> its[i].last == old(its[i].last) && Below(its[i].Waiting(), threshold)
    ensures Efforts(its, since) == old(Efforts(its, since))
    ensures var low' := if threshold < low then threshold as int else low;
            && multiset(taken + more) + multiset(Pool(its, since)) == multiset(all)
            && Emitted(out + sorted, taken + more, low', fetch)
            && NoneAbove(Pool(its, since), low')
            && multiset(out + sorted + Fetched(Pool(its, since), fetch)) == multiset(Fetched(all, fetch))
  {
    hide Pool, Efforts, Below, Pairs, Yields, Backwards, Fetched, Ready;
    ghost var before := Pool(its, since);
    var released := ReleaseAll(its, threshold, since);
    more := released;
    PoolBelow(its, threshold, since);
    var evs := FetchAll(released, fetch);
    sorted := SortEvents(evs);
    ghost var pool := Pool(its, since);
    RoundAccounts(taken, more, pool, before, all, out, sorted, fetch);
    assert forall e :: e in more ==> e in before && e in all by {
      InParts(taken, before, all);
      InParts(pool, more, before);
    }
    RoundOrder(more, all, fetch, out, evs, sorted, low, threshold);
    NoneAbovePermuted(before, pool, low) by {
      InParts(more, pool, before);
    }
  }

  lemma {:induction false} HasHead<T>(s: seq<T>)
    ensures s == [] || s[0] in s
  {
  }

  lemma {:induction false} InParts<T>(a: seq<T>, b: seq<T>, all: seq<T>)
    requires multiset(a) + multiset(b) == multiset(all)
    ensures forall e :: e in b ==> e in all
    ensures forall e :: e in multiset(b) ==> e in multiset(all)
  {
    forall e | e in b ensures e in all {
      assert e in multiset(b);
      assert e in multiset(all);
    }
  }

  lemma {:induction false} RoundOrder(more: seq<Entry>, all: seq<Entry>, fetch: Fetch, out: seq<Event>, evs: seq<Event>,
                                      sorted: seq<Event>, low: int, threshold: nat)
    requires Consistent(all, fetch) && evs == Fetched(more, fetch)
    requires forall e :: e in more ==> e in all && threshold <= e.ts <= low
    requires SortedEvents(sorted) && multiset(sorted) == multiset(evs)
    requires NonIncreasing(out) && AtLeast(out, low)
    ensures NonIncreasing(out + sorted) && AtLeast(out + sorted, if threshold < low then threshold as int else low)
  {
    if threshold <= low {
      FetchedBetween(more, fetch, threshold, low);
      BoundsPermuted(evs, sorted, threshold, low);
      RoundExtends(out, sorted, low, threshold);
    } else {
      HasHead(more);
      SizeOf(sorted, evs);
      assert out + sorted == out;
    }
  }

  /** A bound on the times of some entries. */
  ghost function Newest(es: seq<Entry>): (ts: nat)
    ensures NoneAbove(es, ts)
  {
    if es == [] then 0
    else
      var rest := Newest(es[1..]);
      assert forall e :: e in es ==> e == es[0] || e in es[1..];
      if es[0].ts > rest then es[0].ts else rest
  }

  lemma {:induction false} NothingEmitted(low: int, fetch: Fetch)
    ensures Emitted([], [], low, fetch)
  {
  }

  lemma {:induction false} StillReady(a: seq<Iterator>, b: seq<Iterator>, since: nat)
    requires multiset(a) == multiset(b) && Distinct(a) && AllReady(a, since)
    ensures Distinct(b) && AllReady(b, since) && forall it :: it in b ==> it in a
  {
    hide Ready;
    DistinctPermuted(a, b);
    forall it | it in b ensures it in a {
      assert it in multiset(b);
    }
    forall i | 0 <= i < |b| ensures Ready(b[i], since) {
      assert b[i] in a;
    }
  }

  lemma {:induction false} LastsAre(its: seq<Iterator>)
    ensures |Lasts(its)| == |its| && forall i :: 0 <= i < |its| ==> Lasts(its)[i] == its[i].last
  {
  }

  lemma {:induction false} PoolEvents(pool: seq<Entry>, taken: seq<Entry>, all: seq<Entry>, fetch: Fetch, low: int)
    requires multiset(taken) + multiset(pool) == multiset(all) && Consistent(all, fetch) && NoneAbove(pool, low)
    ensures AtMost(Fetched(pool, fetch), low)
  {
    InParts(taken, pool, all);
    FetchedBetween(pool, fetch, 0, low);
  }

  lemma {:induction false} NothingLeft(its: seq<Iterator>, since: nat, out: seq<Event>, taken: seq<Entry>,
                                       all: seq<Entry>, fetch: Fetch, limit: nat)
    requires its == [] && multiset(taken) + multiset(Pool(its, since)) == multiset(all)
    requires multiset(out) == multiset(Fetched(taken, fetch)) && NonIncreasing(out) && |out| < limit
    ensures FirstOf(out, Fetched(all, fetch), limit)
  {
    hide Fetched;
    FetchedPermuted(taken, all, fetch);
    SizeOf(out, Fetched(all, fetch));
    assert out + [] == out;
    assert RestOf(out, [], Fetched(all, fetch));
  }

  /** Selects the iterators to pull from next, and the threshold they set for all. */
  method Choose(its: seq<Iterator>, k: nat, since: nat) returns (r: seq<Iterator>, threshold: nat, ghost top: nat)
    requires Distinct(its) && AllReady(its, since) && 1 <= k <= |its|
    ensures Distinct(r) && AllReady(r, since) && |r| == |its| && forall it :: it in r ==> it in its
    ensures multiset(Pool(r, since)) == multiset(Pool(its, since)) && Efforts(r, since) == Efforts(its, since)
    ensures top < k && r[top].last == threshold
    ensures forall i :: 0 <= i < |r| ==> r[i].last <= threshold
  {
    hide Pool, Efforts, Ready, CutAt, Lasts, Distinct, AllReady;
    r := Reorder(its, k);
    PoolPermuted(its, r, since);
    StillReady(its, r, since);
    threshold := Threshold(r, k);
    LastsAre(r);
    ThresholdIsMax(Lasts(r), k, threshold);
    top :| 0 <= top < k && r[top].last == threshold;
  }

  /** Between rounds: entries taken and entries pooled make up all, and the pool is no newer than what went out. */
  ghost predicate Between(its: seq<Iterator>, since: nat, fetch: Fetch, all: seq<Entry>,
                          out: seq<Event>, taken: seq<Entry>, low: int)
    reads its
  {
    && Distinct(its) && AllReady(its, since)
    && multiset(taken) + multiset(Pool(its, since)) == multiset(all)
    && Emitted(out, taken, low, fetch) && NoneAbove(Pool(its, since), low)
  }

  /** Select, release, emit, pull. */
  method FullRound(its0: seq<Iterator>, n: nat, batch: nat, limit: nat, since: nat, fetch: Fetch, out0: seq<Event>,
                   ghost all: seq<Entry>, ghost taken0: seq<Entry>, ghost low0: int)
    returns (its: seq<Iterator>, out: seq<Event>, full: bool, ghost taken: seq<Entry>, ghost low: int)
    requires its0 != [] && n >= 1 && batch >= 1 && |out0| < limit && Consistent(all, fetch)
    requires Between(its0, since, fetch, all, out0, taken0, low0)
    modifies its0
    ensures full ==> FirstOf(out, Fetched(all, fetch), limit)
    ensures !full ==> Between(its, since, fetch, all, out, taken, low) && |out| < limit
    ensures !full ==> Efforts(its, since) < old(Efforts(its0, since)) && forall it :: it in its ==> it in its0
  {
    hide Pool, Efforts, Below, Pairs, Yields, Backwards, Fetched, Ready, CutAt, Lasts, FirstOf, Consistent, Emitted,
      NoneAbove;
    var k := if n < |its0| then n else |its0|;
    var threshold;
    ghost var top;
    its, threshold, top := Choose(its0, k, since);
    assert forall i :: 0 <= i < |its| ==> its[i] in its && its[i] in its0;
    NoneAbovePermuted(Pool(its0, since), Pool(its, since), low0);
    var sorted;
    ghost var more;
    sorted, more := Round(its, threshold, since, fetch, all, taken0, out0, low0);
    taken := taken0 + more;
    low := if threshold < low0 then threshold as int else low0;
    out, full := Emit(out0, sorted, limit);
    ghost var pool := Pool(its, since);
    if full {
      PoolEvents(pool, taken, all, fetch, low);
      EmittedIs(out0 + sorted, taken, low, fetch);
      CutIsFirst(out0 + sorted, limit, Fetched(pool, fetch), low, Fetched(all, fetch));
      return;
    }
    its := PullMore(its, n, batch, since, threshold, top);
    NoneAbovePermuted(pool, Pool(its, since), low);
  }

  lemma {:induction false} EmittedIs(out: seq<Event>, taken: seq<Entry>, low: int, fetch: Fetch)
    requires Emitted(out, taken, low, fetch)
    ensures NonIncreasing(out) && AtLeast(out, low) && multiset(out) == multiset(Fetched(taken, fetch))
  {
  }

  /** All the keys before the cursors. */
  function Keys(its: seq<Iterator>): seq<Entry>
    reads its
  {
    if its == [] then [] else its[0].rest + Keys(its[1..])
  }

  ghost predicate Fresh(its: seq<Iterator>)
    reads its
  {
    forall i :: 0 <= i < |its| ==>
                  its[i].Valid() && !its[i].exhausted && its[i].rest != [] && its[i].timestamps == []
  }

  lemma {:induction false} FreshHeld(it: Iterator, since: nat)
    requires it.Valid() && !it.exhausted && it.timestamps == []
    ensures Held(it, since) == Due(it.rest, since)
  {
    hide Due, Yields;
    StoppingLosesNothing(it.rest, since);
    assert it.Waiting() == [];
  }

  /** Before the first pull the pool is what is due of all the keys. */
  lemma {:induction false} FreshPool(its: seq<Iterator>, since: nat)
    requires Fresh(its)
    ensures Pool(its, since) == Due(Keys(its), since)
  {
    hide Held, Yields, Backwards, Pairs;
    if its != [] {
      var first, others := its[0], its[1..];
      assert Fresh(others) by {
        forall i | 0 <= i < |others|
          ensures others[i].Valid() && !others[i].exhausted && others[i].rest != [] && others[i].timestamps == []
        {
          assert others[i] == its[i + 1];
        }
      }
      hide Fresh, Due;
      FreshPool(others, since);
      FreshHeld(first, since);
      DueConcat(first.rest, Keys(others), since);
    }
  }

  /**
   The merge. Its rounds end, and of all the keys before its cursors that have the prefix and are no
   older than `since` it emits the `limit` newest events they lead to that pass the checks, in
   non-increasing order of creation.
   */
  method Query(its0: seq<Iterator>, batch: nat, limit: nat, since: nat, fetch: Fetch)
    returns (out: seq<Event>)
    requires Distinct(its0) && batch >= 1 && limit >= 1 && Fresh(its0)
    requires Consistent(Due(Keys(its0), since), fetch)
    modifies its0
    ensures FirstOf(out, Fetched(Due(old(Keys(its0)), since), fetch), limit)
  {
    hide Pool, Efforts, Pairs, Yields, Backwards, Fetched, Ready, FirstOf, Consistent, Newest, Emitted, NoneAbove,
      Distinct, AllReady, Due, Keys;
    FreshPool(its0, since);
    ghost var all := Pool(its0, since);
    var its := its0;
    PullAll(its, batch, since);
    var n := (|its| + 11) / 12;
    if n < 1 {
      n := 1;
    }
    out := [];
    ghost var taken: seq<Entry> := [];
    ghost var low: int := Newest(Pool(its, since));
    NothingEmitted(low, fetch);
    while |its| > 0
      invariant Between(its, since, fetch, all, out, taken, low) && |out| < limit
      invariant forall it :: it in its ==> it in its0
      decreases Efforts(its, since)
      modifies its0
    {
      assert forall i :: 0 <= i < |its| ==> its[i] in its && its[i] in its0;
      var full;
      its, out, full, taken, low := FullRound(its, n, batch, limit, since, fetch, out, all, taken, low);
      if full {
        return;
      }
    }
    EmittedIs(out, taken, low, fetch);
    NothingLeft(its, since, out, taken, all, fetch, limit);
  }
}
