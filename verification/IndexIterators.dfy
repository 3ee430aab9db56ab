/**
 The descending index iterators of the Bolt and Badger stores, and the selection of those to
 pull from next (eventstore/boltdb/helpers.go, eventstore/badgerdb/helpers.go).
 */
module IndexIterators {

  /** An index key before the cursor: whether it has the query's prefix, its time, the event it points to. */
  datatype Entry = Entry(prefixed: bool, ts: nat, ptr: nat)

  /** A key of the query's prefix, no older than `since`. */
  predicate Good(e: Entry, since: nat) {
    e.prefixed && e.ts >= since
  }

  /** What an iterator has still to give: the keys up to the first that is not good. */
  function Yields(rest: seq<Entry>, since: nat): (r: seq<Entry>)
    ensures |r| <= |rest| && r == rest[..|r|]
  {
    if rest == [] || !Good(rest[0], since) then [] else [rest[0]] + Yields(rest[1..], since)
  }

  /** The keys of a prefix are contiguous and run backwards in time. */
  ghost predicate Backwards(rest: seq<Entry>) {
    forall i, j :: 0 <= i < j < |rest| && rest[j].prefixed ==> rest[i].prefixed && rest[j].ts <= rest[i].ts
  }

  function Pairs(ptrs: seq<nat>, timestamps: seq<nat>): (r: seq<Entry>)
    ensures |ptrs| == |timestamps| ==> |r| == |ptrs|
  {
    if |ptrs| != |timestamps| then []
    else seq(|ptrs|, i requires 0 <= i < |ptrs| => Entry(true, timestamps[i], ptrs[i]))
  }

  lemma {:induction false} PairsAppend(ptrs: seq<nat>, timestamps: seq<nat>, e: Entry)
    requires |ptrs| == |timestamps| && e.prefixed
    ensures Pairs(ptrs + [e.ptr], timestamps + [e.ts]) == Pairs(ptrs, timestamps) + [e]
  {
  }

  /** `internal.SwapDelete`: the last element fills the gap. */
  function SwapDelete<T>(s: seq<T>, i: nat): seq<T>
    requires i < |s|
  {
    s[i := s[|s| - 1]][..|s| - 1]
  }

  lemma {:induction false} SwapDeleteMultiset<T>(s: seq<T>, i: nat)
    requires i < |s|
    ensures multiset(SwapDelete(s, i)) + multiset{s[i]} == multiset(s)
  {
    var n := |s| - 1;
    var r := s[i := s[n]];
    assert r == r[..n] + [r[n]];
    assert s == s[..n] + [s[n]];
    if i < n {
      assert r[..n] == s[..n][i := s[n]];
    }
  }

  lemma {:induction false} SwapDeletePairs(ptrs: seq<nat>, timestamps: seq<nat>, t: nat)
    requires |ptrs| == |timestamps| && t < |ptrs|
    ensures multiset(Pairs(SwapDelete(ptrs, t), SwapDelete(timestamps, t)))
            + multiset{Entry(true, timestamps[t], ptrs[t])}
         == multiset(Pairs(ptrs, timestamps))
  {
    SwapDeleteMultiset(Pairs(ptrs, timestamps), t);
    assert Pairs(SwapDelete(ptrs, t), SwapDelete(timestamps, t)) == SwapDelete(Pairs(ptrs, timestamps), t);
  }

  lemma {:induction false} PairsBelow(ptrs: seq<nat>, timestamps: seq<nat>, threshold: nat)
    requires |ptrs| == |timestamps| && forall i :: 0 <= i < |timestamps| ==> timestamps[i] < threshold
    ensures forall e :: e in Pairs(ptrs, timestamps) ==> e.ts < threshold
  {
  }

  lemma {:induction false} Regroup(waiting: seq<Entry>, e: Entry, more: seq<Entry>)
    ensures waiting + ([e] + more) == (waiting + [e]) + more
  {
  }

  class Iterator {
    /** From the cursor's position to the beginning of the bucket. */
    var rest: seq<Entry>
    var last: nat
    var exhausted: bool
    var ptrs: seq<nat>
    var timestamps: seq<nat>

    /** What is left to pull. */
    function Unpulled(since: nat): seq<Entry>
      reads this
    {
      if exhausted then [] else Yields(rest, since)
    }

    /** Pulled, not yet emitted. */
    function Waiting(): seq<Entry>
      reads this
    {
      Pairs(ptrs, timestamps)
    }

    /** Keys waiting are no older than the last one pulled. */
    ghost predicate Valid()
      reads this
    {
      && |ptrs| == |timestamps|
      && Backwards(rest)
      && (forall i :: 0 <= i < |timestamps| ==> timestamps[i] >= last)
    }

    /** Nothing left to pull is newer than the last key pulled. */
    ghost predicate Bounded(since: nat)
      reads this
    {
      forall e :: e in Unpulled(since) ==> e.ts <= last
    }

    constructor (rest: seq<Entry>)
      requires Backwards(rest)
      ensures this.rest == rest && !exhausted && ptrs == [] && timestamps == [] && last == 0
    {
      this.rest, last, exhausted, ptrs, timestamps := rest, 0, false, [], [];
    }

    /** Takes up to `n` keys more. */
    method Pull(n: nat, since: nat)
      requires Valid() && !exhausted && rest != []
      requires Bounded(since) || timestamps == []
      modifies this
      ensures Valid() && (!exhausted ==> rest != [])
      ensures Waiting() + Unpulled(since) == old(Waiting() + Unpulled(since))
      ensures n > 0 ==> Bounded(since)
      ensures n > 0 ==> exhausted || |Unpulled(since)| < old(|Unpulled(since)|)
    {
      hide Backwards, Pairs, Yields;
      var i := 0;
      while i < n
        invariant Valid() && rest != [] && !exhausted && i <= n
        invariant Bounded(since) || (i == 0 && timestamps == [])
        invariant Waiting() + Unpulled(since) == old(Waiting() + Unpulled(since))
        invariant |Unpulled(since)| <= old(|Unpulled(since)|) && (i > 0 ==> |Unpulled(since)| < old(|Unpulled(since)|))
        modifies this
      {
        YieldsStep(rest, since);
        if !rest[0].prefixed {
          exhausted := true;
          return;
        }
        var createdAt := rest[0].ts;
        if createdAt < since {
          exhausted := true;
          return;
        }
        Take(since);
        i := i + 1;
        if exhausted {
          return;
        }
      }
    }

    /** Takes the key at the cursor and moves the cursor one key back. */
    method Take(since: nat)
      requires Valid() && !exhausted && rest != [] && Good(rest[0], since)
      requires Bounded(since) || timestamps == []
      modifies this
      ensures Valid() && (!exhausted ==> rest != [])
      ensures Bounded(since)
      ensures Waiting() + Unpulled(since) == old(Waiting() + Unpulled(since))
      ensures |Unpulled(since)| < old(|Unpulled(since)|)
    {
      hide Backwards, Pairs, Yields;
      ghost var waiting, e, more := Waiting(), rest[0], Yields(rest[1..], since);
      YieldsStep(rest, since);
      YieldsStep(rest[1..], since);
      assert e in Unpulled(since);
      TailYields(rest, since);
      PairsAppend(ptrs, timestamps, e);
      ptrs := ptrs + [rest[0].ptr];
      timestamps := timestamps + [rest[0].ts];
      last := rest[0].ts;
      Next();
      assert Unpulled(since) == more;
      Regroup(waiting, e, more);
    }

    /** Gives up, in no particular order, every waiting key at or above the threshold. */
    method Release(threshold: nat) returns (taken: seq<Entry>)
      requires Valid()
      modifies this`ptrs, this`timestamps
      ensures Valid()
      ensures multiset(taken) + multiset(Waiting()) == multiset(old(Waiting()))
      ensures forall e :: e in taken ==> e.ts >= threshold
      ensures forall e :: e in Waiting() ==> e.ts < threshold
    {
      hide Backwards, Pairs;
      taken := [];
      var t := 0;
      while t < |timestamps|
        invariant Valid() && 0 <= t <= |timestamps|
        invariant multiset(taken) + multiset(Waiting()) == multiset(old(Waiting()))
        invariant forall e :: e in taken ==> e.ts >= threshold
        invariant forall i :: 0 <= i < t ==> timestamps[i] < threshold
        decreases |timestamps| - t
        modifies this`ptrs, this`timestamps
      {
        if timestamps[t] >= threshold {
          var e := Entry(true, timestamps[t], ptrs[t]);
          SwapDeletePairs(ptrs, timestamps, t);
          timestamps := SwapDelete(timestamps, t);
          ptrs := SwapDelete(ptrs, t);
          taken := taken + [e];
        } else {
          t := t + 1;
        }
      }
      PairsBelow(ptrs, timestamps, threshold);
    }

    /** Moves the cursor one key back. */
    method Next()
      requires rest != []
      modifies this`rest, this`exhausted
      ensures rest == old(rest)[1..]
      ensures exhausted <==> old(exhausted) || rest == []
    {
      rest := rest[1..];
      if rest == [] {
        exhausted := true;
      }
    }
  }

  lemma {:induction false} YieldsStep(rest: seq<Entry>, since: nat)
    ensures rest == [] ==> Yields(rest, since) == []
    ensures rest != [] && !Good(rest[0], since) ==> Yields(rest, since) == []
    ensures rest != [] && Good(rest[0], since) ==> Yields(rest, since) == [rest[0]] + Yields(rest[1..], since)
  {
  }

  /** What follows a good key is no newer, and still runs backwards. */
  lemma {:induction false} TailYields(rest: seq<Entry>, since: nat)
    requires Backwards(rest) && rest != [] && Good(rest[0], since)
    ensures Backwards(rest[1..])
    ensures forall e :: e in Yields(rest[1..], since) ==> e.ts <= rest[0].ts
  {
    forall i, j | 0 <= i < j < |rest[1..]| && rest[1..][j].prefixed
      ensures rest[1..][i].prefixed && rest[1..][j].ts <= rest[1..][i].ts
    {
      assert rest[j + 1].ts <= rest[i + 1].ts;
    }
    YieldsGood(rest[1..], since);
    forall e | e in Yields(rest[1..], since) ensures e.ts <= rest[0].ts {
      var j :| 0 <= j < |Yields(rest[1..], since)| && Yields(rest[1..], since)[j] == e;
      assert rest[1..][j] == e;
      assert rest[j + 1].ts <= rest[0].ts;
    }
  }

  lemma {:induction false} YieldsGood(rest: seq<Entry>, since: nat)
    ensures forall e :: e in Yields(rest, since) ==> Good(e, since)
  {
    if rest != [] && Good(rest[0], since) {
      YieldsGood(rest[1..], since);
    }
  }

  // ---- nothing is lost by stopping ----

  /** The keys with the prefix that are no older than `since`, wherever they stand. */
  function Due(rest: seq<Entry>, since: nat): seq<Entry> {
    if rest == [] then []
    else (if rest[0].prefixed && since <= rest[0].ts then [rest[0]] else []) + Due(rest[1..], since)
  }

  /** Those keys, each as often as it occurs. */
  lemma {:induction false} DueCounts(rest: seq<Entry>, since: nat, e: Entry)
    ensures multiset(Due(rest, since))[e] == if e.prefixed && since <= e.ts then multiset(rest)[e] else 0
  {
    if rest != [] {
      DueCounts(rest[1..], since, e);
      assert rest == [rest[0]] + rest[1..];
    }
  }

  /** Because keys run backwards, an iterator that stops at the first bad key has given all that are due. */
  lemma {:induction false} StoppingLosesNothing(rest: seq<Entry>, since: nat)
    requires Backwards(rest)
    ensures Yields(rest, since) == Due(rest, since)
  {
    if rest != [] {
      if Good(rest[0], since) {
        TailYields(rest, since);
        StoppingLosesNothing(rest[1..], since);
      } else {
        NoneDue(rest, since);
      }
    }
  }

  lemma {:induction false} NoneDue(rest: seq<Entry>, since: nat)
    requires forall i :: 0 <= i < |rest| ==> !(rest[i].prefixed && since <= rest[i].ts)
    ensures Due(rest, since) == []
  {
    if rest != [] {
      NoneDue(rest[1..], since);
    }
  }

  lemma {:induction false} DueConcat(a: seq<Entry>, b: seq<Entry>, since: nat)
    ensures Due(a + b, since) == Due(a, since) + Due(b, since)
  {
    if a == [] {
      assert a + b == b;
    } else {
      assert (a + b)[1..] == a[1..] + b;
      DueConcat(a[1..], b, since);
    }
  }
}
