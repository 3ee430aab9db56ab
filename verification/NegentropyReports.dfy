/**
 Conservation of the reports: what a party has already reported plus what is left in the
 non-skip ranges of the message in flight is the set difference of the two lists.
 */
module NegentropyReports {
  import opened ByteStrings
  import opened NegentropyTypes
  import opened NegentropyReconcile
  import opened NegentropySegments

  function IdSet(items: seq<Item>): set<Id> {
    set i | 0 <= i < |items| :: items[i].id
  }

  /** The ids of `items` that `other` does not contain, each as often as it is listed. */
  function Missing(items: seq<Item>, other: set<Id>): multiset<Id> {
    if items == [] then multiset{}
    else
      var last := items[|items| - 1].id;
      Missing(items[..|items| - 1], other) + (if last in other then multiset{} else multiset{last})
  }

  ghost predicate DistinctIds(items: seq<Item>) {
    forall i, j :: 0 <= i < j < |items| ==> items[i].id != items[j].id
  }

  /** One id names one event: the two lists agree on the timestamp of a shared id. */
  ghost predicate SameItems(a: seq<Item>, b: seq<Item>) {
    forall i, j :: 0 <= i < |a| && 0 <= j < |b| && a[i].id == b[j].id ==> a[i] == b[j]
  }

  // ---- what the skipped part of a message accounts for ----

  /** Missing ids in the explicitly skipped ranges. */
  function Closed(items: seq<Item>, other: set<Id>, msg: Message): multiset<Id> {
    if msg == [] then multiset{}
    else
      var n := |msg| - 1;
      Closed(items, other, msg[..n])
      + (if msg[n].payload.Skip? then Missing(Segment(items, msg, n), other) else multiset{})
  }

  /** ... and in everything a message skips, written down or left out at its end. */
  function Accounted(items: seq<Item>, other: set<Id>, msg: Message): multiset<Id> {
    Closed(items, other, msg) + Missing(Tail(items, msg), other)
  }

  lemma {:induction false} MissingAppend(a: seq<Item>, b: seq<Item>, other: set<Id>)
    ensures Missing(a + b, other) == Missing(a, other) + Missing(b, other)
  {
    if b == [] {
      assert a + b == a;
    } else {
      var n := |b| - 1;
      assert (a + b)[..|a + b| - 1] == a + b[..n];
      MissingAppend(a, b[..n], other);
    }
  }

  lemma {:induction false} MissingNone(items: seq<Item>, other: set<Id>)
    requires IdSet(items) <= other
    ensures Missing(items, other) == multiset{}
  {
    if items != [] {
      var n := |items| - 1;
      assert IdSet(items[..n]) <= IdSet(items) by {
        assert forall i :: 0 <= i < n ==> items[..n][i] == items[i];
      }
      MissingNone(items[..n], other);
      assert items[n].id in IdSet(items);
    }
  }

  /** Two neighbouring slices make one. */
  lemma {:induction false} MissingJoin(items: seq<Item>, other: set<Id>, lo: nat, mid: nat, hi: nat)
    requires lo <= mid <= hi <= |items|
    ensures Missing(Slice(items, lo, hi), other)
         == Missing(Slice(items, lo, mid), other) + Missing(Slice(items, mid, hi), other)
  {
    assert items[lo..hi] == items[lo..mid] + items[mid..hi];
    MissingAppend(items[lo..mid], items[mid..hi], other);
  }

  lemma {:induction false} ClosedAppendOpen(items: seq<Item>, other: set<Id>, front: Message, pieces: Message)
    requires NoSkips(pieces)
    ensures Closed(items, other, front + pieces) == Closed(items, other, front)
  {
    if pieces == [] {
      assert front + pieces == front;
    } else {
      var n := |pieces| - 1;
      assert (front + pieces)[..|front + pieces| - 1] == front + pieces[..n];
      assert (front + pieces)[|front + pieces| - 1] == pieces[n];
      ClosedAppendOpen(items, other, front, pieces[..n]);
    }
  }

  lemma {:induction false} ClosedAppendSkip(items: seq<Item>, other: set<Id>, front: Message, upper: Bound)
    ensures Closed(items, other, front + [Range(upper, Skip)])
         == Closed(items, other, front)
            + Missing(Slice(items, CutFrom(items, 0, front, |front|), Cut(items, upper)), other)
  {
    var all := front + [Range(upper, Skip)];
    assert all[..|all| - 1] == front;
    assert Segment(items, all, |front|) == Slice(items, CutFrom(items, 0, front, |front|), Cut(items, upper));
  }

  /** Where the output ends when part of the message is done: at the bound reached so far. */
  lemma {:induction false} ReachedCut(items: seq<Item>, msg: Message, st: Progress)
    requires Shaped(st, msg)
    requires st.bound == if msg == [] then Bound(0, []) else msg[|msg| - 1].upper
    ensures CutFrom(items, 0, FinishSkip(st), |FinishSkip(st)|) == CutFrom(items, 0, msg, |msg|)
  {
  }

  /** Moving the bound of a trailing skip to the right accounts for the ids in between. */
  lemma {:induction false} SkipExtends(items: seq<Item>, other: set<Id>, front: Message, mid: Bound, upper: Bound)
    requires front != [] ==> BoundLe(front[|front| - 1].upper, mid)
    requires BoundLe(mid, upper)
    ensures Closed(items, other, front + [Range(upper, Skip)])
         == Closed(items, other, front + [Range(mid, Skip)])
            + Missing(Slice(items, Cut(items, mid), Cut(items, upper)), other)
  {
    ClosedAppendSkip(items, other, front, upper);
    ClosedAppendSkip(items, other, front, mid);
    if front != [] {
      CutMonotone(items, front[|front| - 1].upper, mid);
    }
    CutMonotone(items, mid, upper);
    MissingJoin(items, other, CutFrom(items, 0, front, |front|), Cut(items, mid), Cut(items, upper));
  }

  /** Extending or opening a skip accounts for exactly the new segment. */
  lemma {:induction false} SkipAccounts(items: seq<Item>, other: set<Id>, before: Message, st0: Progress, upper: Bound)
    requires Shaped(st0, before)
    requires st0.bound == if before == [] then Bound(0, []) else before[|before| - 1].upper
    requires Monotone(FinishSkip(st0))
    requires before != [] ==> BoundLe(st0.bound, upper)
    ensures Closed(items, other, st0.out + [Range(upper, Skip)])
         == Closed(items, other, FinishSkip(st0))
            + Missing(Slice(items, CutFrom(items, 0, before, |before|), Cut(items, upper)), other)
  {
    if st0.skipping {
      var eff := FinishSkip(st0);
      if st0.out != [] {
        assert eff[|st0.out| - 1] == st0.out[|st0.out| - 1] && eff[|st0.out|].upper == st0.bound;
      }
      SkipExtends(items, other, st0.out, st0.bound, upper);
    } else {
      ReachedCut(items, before, st0);
      ClosedAppendSkip(items, other, st0.out, upper);
    }
  }

  // ---- comparing an id list ----

  lemma {:induction false} IdSetLast(items: seq<Item>)
    requires items != []
    ensures var n := |items| - 1;
            && IdSet(items) == IdSet(items[..n]) + {items[n].id}
            && (DistinctIds(items) ==> DistinctIds(items[..n]) && items[n].id !in IdSet(items[..n]))
  {
    var n := |items| - 1;
    assert forall i :: 0 <= i < n ==> items[..n][i] == items[i];
  }

  /** With no id repeated, striking out one by one is taking differences. */
  lemma {:induction false} CompareMeaning(ours: seq<Item>, theirs: set<Id>)
    requires DistinctIds(ours)
    ensures Compare(ours, theirs).0 == Missing(ours, theirs)
    ensures Compare(ours, theirs).1 == theirs - IdSet(ours)
  {
    if ours != [] {
      IdSetLast(ours);
      CompareMeaning(ours[..|ours| - 1], theirs);
    }
  }

  lemma {:induction false} MultisetGrows(ids: set<Id>, id: Id)
    requires id !in ids
    ensures multiset(ids + {id}) == multiset(ids) + multiset{id}
  {
  }

  /** In a list without repeated ids, each missing id is reported once. */
  lemma {:induction false} MissingMultiplicity(items: seq<Item>, other: set<Id>)
    requires DistinctIds(items)
    ensures Missing(items, other) == multiset(IdSet(items) - other)
  {
    if items != [] {
      var front, id := items[..|items| - 1], items[|items| - 1].id;
      IdSetLast(items);
      MissingMultiplicity(front, other);
      if id in other {
        assert IdSet(items) - other == IdSet(front) - other;
      } else {
        assert IdSet(items) - other == (IdSet(front) - other) + {id};
        MultisetGrows(IdSet(front) - other, id);
      }
    }
  }

  /** A bound that both lists are cut by: the very left, or the bound of a range. */
  datatype Edge = Leftmost | At(bound: Bound)

  function EdgeCut(items: seq<Item>, e: Edge): (n: nat)
    ensures n <= |items|
  {
    match e case Leftmost => 0 case At(b) => Cut(items, b)
  }

  function Between(items: seq<Item>, lo: Edge, hi: Bound): seq<Item> {
    Slice(items, EdgeCut(items, lo), Cut(items, hi))
  }

  /** Being between two edges depends on the item only, not on the list it is found in. */
  lemma {:induction false} BetweenMembership(a: seq<Item>, lo: Edge, hi: Bound, i: nat)
    requires Sealed(a) && i < |a| && DistinctIds(a)
    ensures a[i].id in IdSet(Between(a, lo, hi))
       <==> Below(a[i], hi) && (lo.At? ==> !Below(a[i], lo.bound))
  {
    CutSplits(a, hi);
    if lo.At? {
      CutSplits(a, lo.bound);
    }
    var from, to := EdgeCut(a, lo), Cut(a, hi);
    var part := Between(a, lo, hi);
    if from <= i < to {
      assert part[i - from] == a[i];
    }
    if a[i].id in IdSet(part) {
      var k :| 0 <= k < |part| && part[k].id == a[i].id;
      assert part[k] == a[from + k];
    }
  }

  lemma {:induction false} BetweenIds(a: seq<Item>, lo: Edge, hi: Bound)
    ensures IdSet(Between(a, lo, hi)) <= IdSet(a)
    ensures DistinctIds(a) ==> DistinctIds(Between(a, lo, hi))
  {
    var from, part := EdgeCut(a, lo), Between(a, lo, hi);
    assert forall k :: 0 <= k < |part| ==> part[k] == a[from + k];
  }

  /** Comparing with the other side's segment is comparing with its whole list. */
  lemma {:induction false} SegmentDecides(a: seq<Item>, b: seq<Item>, lo: Edge, hi: Bound)
    requires Sealed(a) && Sealed(b) && DistinctIds(a) && DistinctIds(b) && SameItems(a, b)
    ensures IdSet(Between(a, lo, hi)) - IdSet(Between(b, lo, hi)) == IdSet(Between(a, lo, hi)) - IdSet(b)
  {
    BetweenIds(a, lo, hi);
    BetweenIds(b, lo, hi);
    forall id | id in IdSet(Between(a, lo, hi)) && id in IdSet(b) ensures id in IdSet(Between(b, lo, hi)) {
      var i :| 0 <= i < |a| && a[i].id == id;
      var j :| 0 <= j < |b| && b[j].id == id;
      assert a[i] == b[j];
      BetweenMembership(a, lo, hi, i);
      BetweenMembership(b, lo, hi, j);
    }
  }

  // ---- one range ----

  /** Two sealed lists in which an id names one event, on both sides. */
  ghost predicate Comparable(a: seq<Item>, b: seq<Item>) {
    Sealed(a) && Sealed(b) && DistinctIds(a) && DistinctIds(b) && SameItems(a, b) && SameItems(b, a)
  }

  /** No fingerprint in the message hides a difference between the two segments. */
  ghost predicate CollisionFree(own: seq<Item>, peer: seq<Item>, hash: Hash, msg: Message) {
    forall i :: 0 <= i < |msg| && msg[i].payload.Fingerprint? ==>
                  hash(Ids(Segment(own, msg, i))) == hash(Ids(Segment(peer, msg, i))) ==>
                    Ids(Segment(own, msg, i)) == Ids(Segment(peer, msg, i))
  }

  function EdgeOf(msg: Message, i: nat): Edge
    requires i <= |msg|
  {
    if i == 0 then Leftmost else At(msg[i - 1].upper)
  }

  lemma {:induction false} SegmentIsBetween(items: seq<Item>, msg: Message, i: nat)
    requires i < |msg|
    ensures Segment(items, msg, i) == Between(items, EdgeOf(msg, i), msg[i].upper)
  {
  }

  lemma {:induction false} IdsSet(items: seq<Item>)
    ensures (set id | id in Ids(items)) == IdSet(items)
  {
    var ids := Ids(items);
    assert forall i :: 0 <= i < |items| ==> ids[i] == items[i].id;
    forall id | id in IdSet(items) ensures id in ids {
      var i :| 0 <= i < |items| && items[i].id == id;
      assert ids[i] == id;
    }
  }

  lemma {:induction false} EqualIds(a: seq<Item>, b: seq<Item>)
    requires Ids(a) == Ids(b)
    ensures IdSet(a) == IdSet(b)
  {
    IdsSet(a);
    IdsSet(b);
  }

  /** What comparing an honest id list yields: the two differences, against the whole lists. */
  lemma {:induction false} CompareSegments(own: seq<Item>, peer: seq<Item>, lo: Edge, hi: Bound)
    requires Comparable(own, peer)
    ensures var (missing, left) := Compare(Between(own, lo, hi), IdSet(Between(peer, lo, hi)));
            && missing == Missing(Between(own, lo, hi), IdSet(peer))
            && multiset(left) == Missing(Between(peer, lo, hi), IdSet(own))
  {
    var mine, theirs := Between(own, lo, hi), Between(peer, lo, hi);
    BetweenIds(own, lo, hi);
    BetweenIds(peer, lo, hi);
    CompareMeaning(mine, IdSet(theirs));
    SegmentDecides(own, peer, lo, hi);
    SegmentDecides(peer, own, lo, hi);
    MissingMultiplicity(mine, IdSet(theirs));
    MissingMultiplicity(mine, IdSet(peer));
    MissingMultiplicity(theirs, IdSet(own));
  }

  function StateBefore(p: Party, hash: Hash, msg: Message, i: nat): (st: Progress)
    requires i <= |msg|
    ensures st.index <= |p.items|
  {
    Handle(p, hash, msg[..i])
  }

  /** The ids a party reports for range `i`, of those in `items` that `other` lacks. */
  function Emitted(items: seq<Item>, other: set<Id>, msg: Message, i: nat, reports: bool): multiset<Id>
    requires i < |msg|
  {
    if reports && msg[i].payload.IdList? then Missing(Segment(items, msg, i), other) else multiset{}
  }

  /** The reports a client makes for range `i`: nothing, or both differences of the segment. */
  lemma {:induction false} StepEmits(p: Party, peer: seq<Item>, hash: Hash, msg: Message, i: nat, st0: Progress)
    requires Comparable(p.items, peer) && Honest(peer, hash, msg) && i < |msg|
    requires st0 == StateBefore(p, hash, msg, i)
    requires st0.index == CutFrom(p.items, 0, msg, i) <= Cut(p.items, msg[i].upper)
    requires IndexAfter(p.items, st0.index, msg[i].upper) == Cut(p.items, msg[i].upper)
    ensures var st := StepRange(p, hash, msg[..i], msg[i]);
            && st.haves == st0.haves + Emitted(p.items, IdSet(peer), msg, i, p.isClient && p.up)
            && st.haveNots == st0.haveNots + Emitted(peer, IdSet(p.items), msg, i, p.isClient && p.down)
  {
    if msg[i].payload.IdList? {
      var lo := EdgeOf(msg, i);
      SegmentIsBetween(p.items, msg, i);
      SegmentIsBetween(peer, msg, i);
      assert HonestAt(peer, hash, 0, msg, i);
      IdsSet(Segment(peer, msg, i));
      CompareSegments(p.items, peer, lo, msg[i].upper);
    }
  }

  /** A range is skipped only if it was a skip, or was just reported, or differs in nothing. */
  lemma {:induction false} SkippedOwes(p: Party, peer: seq<Item>, hash: Hash, msg: Message, i: nat, st0: Progress)
    requires Comparable(p.items, peer) && Honest(peer, hash, msg) && i < |msg|
    requires st0 == StateBefore(p, hash, msg, i)
    requires CollisionFree(p.items, peer, hash, msg)
    requires st0.index == CutFrom(p.items, 0, msg, i) <= Cut(p.items, msg[i].upper)
    requires IndexAfter(p.items, st0.index, msg[i].upper) == Cut(p.items, msg[i].upper)
    requires StepRange(p, hash, msg[..i], msg[i]).skipping && msg[i].payload.Fingerprint?
    ensures Missing(Segment(p.items, msg, i), IdSet(peer)) == multiset{}
    ensures Missing(Segment(peer, msg, i), IdSet(p.items)) == multiset{}
  {
    assert HonestAt(peer, hash, 0, msg, i);
    var mine, theirs := Segment(p.items, msg, i), Segment(peer, msg, i);
    assert Ids(mine) == Ids(theirs);
    EqualIds(mine, theirs);
    SegmentIsBetween(p.items, msg, i);
    SegmentIsBetween(peer, msg, i);
    BetweenIds(p.items, EdgeOf(msg, i), msg[i].upper);
    BetweenIds(peer, EdgeOf(msg, i), msg[i].upper);
    MissingNone(mine, IdSet(peer));
    MissingNone(theirs, IdSet(p.items));
  }

  /** Which ranges of a message a step leaves skipped. */
  lemma {:induction false} WhenSkipped(p: Party, hash: Hash, before: Message, r: Range)
    ensures r.payload.Skip? ==> StepRange(p, hash, before, r).skipping
    ensures r.payload.IdList? ==> (StepRange(p, hash, before, r).skipping <==> p.isClient && p.down)
  {
  }

  // ---- one message ----

  lemma {:induction false} ClosedPrefix(items: seq<Item>, other: set<Id>, msg: Message, k: nat)
    requires k < |msg|
    ensures Closed(items, other, msg[..k + 1])
         == Closed(items, other, msg[..k])
            + (if msg[k].payload.Skip? then Missing(Segment(items, msg, k), other) else multiset{})
  {
    assert msg[..k + 1][..k] == msg[..k];
    assert Segment(items, msg[..k + 1], k) == Segment(items, msg, k);
  }

  /** What one step moves into the skipped part of the output: the segment, or nothing. */
  lemma {:induction false} StepAccounts(items: seq<Item>, other: set<Id>, p: Party, hash: Hash, msg: Message, k: nat,
                                        st0: Progress, st: Progress)
    requires Sealed(p.items) && Monotone(msg) && k < |msg|
    requires Shaped(st0, msg[..k]) && Monotone(FinishSkip(st0))
    requires st0.index == CutFrom(p.items, 0, msg, k)
    requires st0.bound == if k == 0 then Bound(0, []) else msg[k - 1].upper
    requires IndexAfter(p.items, st0.index, msg[k].upper) == Cut(p.items, msg[k].upper)
    requires st.bound == msg[k].upper && Stepped(p, hash, st0, msg[k], st)
    ensures Closed(items, other, FinishSkip(st))
         == Closed(items, other, FinishSkip(st0))
            + (if st.skipping then Missing(Segment(items, msg, k), other) else multiset{})
  {
    var before := msg[..k];
    assert before != [] ==> before[|before| - 1] == msg[k - 1];
    assert CutFrom(items, 0, before, |before|) == CutFrom(items, 0, msg, k);
    assert CutFrom(p.items, 0, before, |before|) == CutFrom(p.items, 0, msg, k);
    if st.skipping {
      SkipAccounts(items, other, before, st0, msg[k].upper);
    } else {
      PiecesHonest(p, hash, before, st0.index, st0.bound, msg[k]);
      ClosedAppendOpen(items, other, FinishSkip(st0), Pieces(p, hash, st0.index, msg[k]));
    }
  }

  /** The facts about the loop state before range `k` that the step lemmas ask for. */
  lemma {:induction false} StateFacts(p: Party, hash: Hash, msg: Message, k: nat)
    requires Sealed(p.items) && Monotone(msg) && k < |msg|
    ensures var st := StateBefore(p, hash, msg, k);
            && st.index == CutFrom(p.items, 0, msg, k)
            && st.bound == (if k == 0 then Bound(0, []) else msg[k - 1].upper)
            && Shaped(st, msg[..k]) && Monotone(FinishSkip(st))
            && st.index <= Cut(p.items, msg[k].upper)
            && IndexAfter(p.items, st.index, msg[k].upper) == Cut(p.items, msg[k].upper)
    ensures StateBefore(p, hash, msg, k + 1) == StepRange(p, hash, msg[..k], msg[k])
  {
    var before := msg[..k];
    assert before != [] ==> before[|before| - 1] == msg[k - 1];
    HandleHonest(p, hash, before);
    assert CutFrom(p.items, 0, before, |before|) == CutFrom(p.items, 0, msg, k);
    if k > 0 {
      CutMonotone(p.items, msg[k - 1].upper, msg[k].upper);
    }
    IndexAfterIsCut(p.items, StateBefore(p, hash, msg, k).bound, msg[k].upper, StateBefore(p, hash, msg, k).index);
    assert msg[..k + 1][..k] == msg[..k];
  }

  /** What range `i` of a message contributes to the ids the message accounts for. */
  function SkipGain(items: seq<Item>, other: set<Id>, msg: Message, i: nat): multiset<Id>
    requires i < |msg|
  {
    if msg[i].payload.Skip? then Missing(Segment(items, msg, i), other) else multiset{}
  }

  /** One step moves the ids skipped in the message and the ids just reported, and no others. */
  lemma {:induction false} StepBalances(items: seq<Item>, other: set<Id>, p: Party, hash: Hash, msg: Message, i: nat,
                                        st0: Progress, st: Progress)
    requires Sealed(p.items) && Monotone(msg) && i < |msg|
    requires Shaped(st0, msg[..i]) && Monotone(FinishSkip(st0))
    requires st0.index == CutFrom(p.items, 0, msg, i)
    requires st0.bound == if i == 0 then Bound(0, []) else msg[i - 1].upper
    requires IndexAfter(p.items, st0.index, msg[i].upper) == Cut(p.items, msg[i].upper)
    requires st.bound == msg[i].upper && Stepped(p, hash, st0, msg[i], st)
    requires msg[i].payload.Skip? ==> st.skipping
    requires msg[i].payload.IdList? ==> (st.skipping <==> p.isClient)
    requires msg[i].payload.Fingerprint? && st.skipping ==> Missing(Segment(items, msg, i), other) == multiset{}
    ensures Balanced(items, other, msg, i, FinishSkip(st0), FinishSkip(st), p.isClient)
  {
    StepAccounts(items, other, p, hash, msg, i, st0, st);
  }

  ghost predicate Balanced(items: seq<Item>, other: set<Id>, msg: Message, i: nat,
                           before: Message, after: Message, reports: bool)
    requires i < |msg|
  {
    Closed(items, other, after)
    == Closed(items, other, before) + (SkipGain(items, other, msg, i) + Emitted(items, other, msg, i, reports))
  }

  lemma {:induction false} Regroup(a: multiset<Id>, b: multiset<Id>, c: multiset<Id>, d: multiset<Id>)
    ensures (a + b) + (c + d) == (a + c) + (b + d)
  {
  }

  /** Conservation over the first `k` ranges. */
  lemma {:induction false} HandleAccounts(p: Party, peer: seq<Item>, hash: Hash, msg: Message, k: nat)
    requires Comparable(p.items, peer) && Honest(peer, hash, msg) && k <= |msg|
    requires CollisionFree(p.items, peer, hash, msg)
    requires p.isClient ==> p.down
    ensures AccountsFor(p, peer, msg[..k], StateBefore(p, hash, msg, k))
  {
    if k == 0 {
      assert msg[..k] == [];
    } else {
      var i := k - 1;
      HandleAccounts(p, peer, hash, msg, i);
      StateFacts(p, hash, msg, i);
      var st0 := StateBefore(p, hash, msg, i);
      StepEmits(p, peer, hash, msg, i, st0);
      BothBalance(p, peer, hash, msg, i, st0);
      StepAccountsFor(p, peer, msg, i, st0, StepRange(p, hash, msg[..i], msg[i]));
    }
  }

  lemma {:induction false} BothBalance(p: Party, peer: seq<Item>, hash: Hash, msg: Message, i: nat, st0: Progress)
    requires Comparable(p.items, peer) && Honest(peer, hash, msg) && i < |msg|
    requires st0 == StateBefore(p, hash, msg, i)
    requires CollisionFree(p.items, peer, hash, msg)
    requires p.isClient ==> p.down
    requires Shaped(st0, msg[..i]) && Monotone(FinishSkip(st0))
    requires st0.index == CutFrom(p.items, 0, msg, i) <= Cut(p.items, msg[i].upper)
    requires st0.bound == if i == 0 then Bound(0, []) else msg[i - 1].upper
    requires IndexAfter(p.items, st0.index, msg[i].upper) == Cut(p.items, msg[i].upper)
    ensures var after := FinishSkip(StepRange(p, hash, msg[..i], msg[i]));
            && Balanced(peer, IdSet(p.items), msg, i, FinishSkip(st0), after, p.isClient)
            && Balanced(p.items, IdSet(peer), msg, i, FinishSkip(st0), after, p.isClient)
  {
    var st := StepRange(p, hash, msg[..i], msg[i]);
    StepShape(p, hash, msg[..i], msg[i]);
    WhenSkipped(p, hash, msg[..i], msg[i]);
    if st.skipping && msg[i].payload.Fingerprint? {
      SkippedOwes(p, peer, hash, msg, i, st0);
    }
    StepBalances(peer, IdSet(p.items), p, hash, msg, i, st0, st);
    StepBalances(p.items, IdSet(peer), p, hash, msg, i, st0, st);
  }

  ghost predicate AccountsFor(p: Party, peer: seq<Item>, done: Message, st: Progress) {
    && Closed(peer, IdSet(p.items), FinishSkip(st)) == Closed(peer, IdSet(p.items), done) + st.haveNots
    && ((p.isClient ==> p.up) ==>
          Closed(p.items, IdSet(peer), FinishSkip(st)) == Closed(p.items, IdSet(peer), done) + st.haves)
  }

  lemma {:induction false} StepAccountsFor(p: Party, peer: seq<Item>, msg: Message, i: nat, st0: Progress, st: Progress)
    requires i < |msg| && (p.isClient ==> p.down)
    requires AccountsFor(p, peer, msg[..i], st0)
    requires Balanced(peer, IdSet(p.items), msg, i, FinishSkip(st0), FinishSkip(st), p.isClient)
    requires Balanced(p.items, IdSet(peer), msg, i, FinishSkip(st0), FinishSkip(st), p.isClient)
    requires st.haves == st0.haves + Emitted(p.items, IdSet(peer), msg, i, p.isClient && p.up)
    requires st.haveNots == st0.haveNots + Emitted(peer, IdSet(p.items), msg, i, p.isClient && p.down)
    ensures AccountsFor(p, peer, msg[..i + 1], st)
  {
    var mine, theirs := IdSet(p.items), IdSet(peer);
    ClosedPrefix(peer, mine, msg, i);
    ClosedPrefix(p.items, theirs, msg, i);
    Regroup(Closed(peer, mine, msg[..i]), st0.haveNots,
            SkipGain(peer, mine, msg, i), Emitted(peer, mine, msg, i, p.isClient));
    Regroup(Closed(p.items, theirs, msg[..i]), st0.haves,
            SkipGain(p.items, theirs, msg, i), Emitted(p.items, theirs, msg, i, p.isClient));
  }

  /** Leaving a trailing skip unwritten changes nothing: the tail takes over. */
  lemma {:induction false} DroppedSkip(items: seq<Item>, other: set<Id>, front: Message, upper: Bound)
    requires front != [] ==> BoundLe(front[|front| - 1].upper, upper)
    ensures Accounted(items, other, front) == Accounted(items, other, front + [Range(upper, Skip)])
  {
    ClosedAppendSkip(items, other, front, upper);
    var all := front + [Range(upper, Skip)];
    var lo := CutFrom(items, 0, front, |front|);
    if front != [] {
      CutMonotone(items, front[|front| - 1].upper, upper);
    }
    MissingJoin(items, other, lo, Cut(items, upper), |items|);
  }

  /**
   The answer to an honest message is honest, and it accounts for exactly what the message
   accounted for plus what the party reported while answering.
   */
  lemma {:induction false} AnswerAccounts(p: Party, peer: seq<Item>, hash: Hash, msg: Message)
    requires Comparable(p.items, peer) && Honest(peer, hash, msg)
    requires CollisionFree(p.items, peer, hash, msg)
    requires p.isClient ==> p.down
    ensures var st := Handle(p, hash, msg);
            && Honest(p.items, hash, st.out)
            && Accounted(peer, IdSet(p.items), st.out)
               == Accounted(peer, IdSet(p.items), msg) + st.haveNots
            && ((p.isClient ==> p.up) ==>
                  Accounted(p.items, IdSet(peer), st.out)
                  == Accounted(p.items, IdSet(peer), msg) + st.haves)
  {
    var st := Handle(p, hash, msg);
    assert msg[..|msg|] == msg;
    HandleHonest(p, hash, msg);
    HandleAccounts(p, peer, hash, msg, |msg|);
    OutAccounts(p, peer, hash, msg, st);
  }

  lemma {:induction false} OutAccounts(p: Party, peer: seq<Item>, hash: Hash, msg: Message, st: Progress)
    requires Shaped(st, msg) && Honest(p.items, hash, FinishSkip(st))
    requires st.bound == if msg == [] then Bound(0, []) else msg[|msg| - 1].upper
    requires AccountsFor(p, peer, msg, st)
    ensures Honest(p.items, hash, st.out)
    ensures Accounted(peer, IdSet(p.items), st.out) == Accounted(peer, IdSet(p.items), msg) + st.haveNots
    ensures (p.isClient ==> p.up) ==>
              Accounted(p.items, IdSet(peer), st.out) == Accounted(p.items, IdSet(peer), msg) + st.haves
  {
    OutHonest(p, hash, msg, st);
    TailTakesOver(peer, IdSet(p.items), msg, st, st.haveNots);
    if p.isClient ==> p.up {
      TailTakesOver(p.items, IdSet(peer), msg, st, st.haves);
    }
  }

  lemma {:induction false} TailTakesOver(items: seq<Item>, other: set<Id>, msg: Message, st: Progress,
                                         reports: multiset<Id>)
    requires Shaped(st, msg) && Monotone(FinishSkip(st))
    requires st.bound == if msg == [] then Bound(0, []) else msg[|msg| - 1].upper
    requires Closed(items, other, FinishSkip(st)) == Closed(items, other, msg) + reports
    ensures Accounted(items, other, st.out) == Accounted(items, other, msg) + reports
  {
    OutAccounted(items, other, msg, st);
    Regroup(Closed(items, other, msg), reports, Missing(Tail(items, msg), other), multiset{});
  }

  lemma {:induction false} OutHonest(p: Party, hash: Hash, msg: Message, st: Progress)
    requires Honest(p.items, hash, FinishSkip(st))
    ensures Honest(p.items, hash, st.out)
  {
    var eff := FinishSkip(st);
    assert st.out == eff[..|st.out|];
    forall i | 0 <= i < |st.out| ensures HonestAt(p.items, hash, 0, st.out, i) {
      HonestPrefix(p.items, hash, 0, st.out, eff, i);
      assert HonestAt(p.items, hash, 0, eff, i);
    }
  }

  lemma {:induction false} OutAccounted(items: seq<Item>, other: set<Id>, msg: Message, st: Progress)
    requires Shaped(st, msg) && Monotone(FinishSkip(st))
    requires st.bound == if msg == [] then Bound(0, []) else msg[|msg| - 1].upper
    ensures Accounted(items, other, st.out)
         == Closed(items, other, FinishSkip(st)) + Missing(Tail(items, msg), other)
  {
    ReachedCut(items, msg, st);
    if st.skipping {
      var eff := FinishSkip(st);
      if st.out != [] {
        assert eff[|st.out| - 1] == st.out[|st.out| - 1] && eff[|st.out|].upper == st.bound;
      }
      DroppedSkip(items, other, st.out, st.bound);
    }
  }
}
