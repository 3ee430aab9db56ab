/** `quickselect` and `threshold` over iterators (eventstore/boltdb/helpers.go, eventstore/badgerdb/helpers.go). */
module Quickselect {
  import opened IndexIterators

  /** The time each iterator last pulled. */
  function Lasts(its: seq<Iterator>): (r: seq<nat>)
    reads its
    ensures |r| == |its| && forall i :: 0 <= i < |its| ==> r[i] == its[i].last
  {
    if its == [] then [] else Lasts(its[..|its| - 1]) + [its[|its| - 1].last]
  }

  /** Nothing from `m` on is greater than anything before `m`. */
  ghost predicate CutAt(s: seq<nat>, m: int) {
    forall i, j :: 0 <= i < m <= j < |s| ==> s[i] >= s[j]
  }

  ghost predicate SortedIn(s: seq<nat>, left: int, right: int)
    requires 0 <= left && right < |s|
  {
    forall i, j :: left <= i < j <= right ==> s[i] >= s[j]
  }

  function Swapped(s: seq<nat>, i: nat, j: nat): seq<nat>
    requires i < |s| && j < |s|
  {
    s[i := s[j]][j := s[i]]
  }

  method Swap(a: array<Iterator>, i: nat, j: nat, ghost s: seq<nat>)
    requires i < a.Length && j < a.Length && s == Lasts(a[..])
    modifies a
    ensures Lasts(a[..]) == Swapped(s, i, j)
    ensures multiset(a[..]) == multiset(old(a[..]))
  {
    a[i], a[j] := a[j], a[i];
  }

  /** Exchanges inside a range keep the cuts at its ends. */
  lemma {:induction false} SwapKeepsCuts(s: seq<nat>, i: nat, j: nat, left: int, right: int)
    requires right < |s| && left <= i <= right && left <= j <= right
    requires CutAt(s, left) && CutAt(s, right + 1)
    ensures CutAt(Swapped(s, i, j), left) && CutAt(Swapped(s, i, j), right + 1)
  {
  }

  /** The range is sorted but for the element at `j`, which may belong further left. */
  ghost predicate OneOut(s: seq<nat>, left: nat, i: nat, j: nat)
    requires left <= j <= i < |s|
  {
    forall p, q :: left <= p < q <= i && q != j ==> s[p] >= s[q]
  }

  /** One exchange of the insertion: the moved element stays the only one out of order. */
  lemma {:induction false} InsertStep(s: seq<nat>, left: nat, i: nat, j: nat)
    requires left < j <= i < |s| && s[j] > s[j - 1] && OneOut(s, left, i, j)
    ensures OneOut(Swapped(s, j, j - 1), left, i, j - 1)
  {
    var t := Swapped(s, j, j - 1);
    forall p, q | left <= p < q <= i && q != j - 1 ensures t[p] >= t[q] {
      assert t[p] == if p == j then s[j - 1] else if p == j - 1 then s[j] else s[p];
      assert t[q] == if q == j then s[j - 1] else s[q];
    }
  }

  /** The small-range branch. Its inner loop may run below `left`, but never has to. */
  method InsertionSort(a: array<Iterator>, left: nat, right: int, ghost s0: seq<nat>)
    requires left <= right < a.Length && s0 == Lasts(a[..]) && CutAt(s0, left) && CutAt(s0, right + 1)
    modifies a
    ensures var s := Lasts(a[..]); CutAt(s, left) && CutAt(s, right + 1) && SortedIn(s, left, right)
    ensures multiset(a[..]) == multiset(old(a[..]))
  {
    hide Swapped, CutAt;
    ghost var s := s0;
    var i := left + 1;
    while i <= right
      invariant left + 1 <= i <= right + 1 && s == Lasts(a[..])
      invariant CutAt(s, left) && CutAt(s, right + 1)
      invariant SortedIn(s, left, i - 1)
      invariant multiset(a[..]) == multiset(old(a[..]))
    {
      var j := i;
      while j > 0 && a[j].last > a[j - 1].last
        invariant left <= j <= i && s == Lasts(a[..])
        invariant CutAt(s, left) && CutAt(s, right + 1)
        invariant OneOut(s, left, i, j)
        invariant multiset(a[..]) == multiset(old(a[..]))
        decreases j
      {
        AtFloor(s, left, j);
        SwapKeepsCuts(s, j, j - 1, left, right);
        InsertStep(s, left, i, j);
        Swap(a, j, j - 1, s);
        s := Swapped(s, j, j - 1);
        j := j - 1;
      }
      assert SortedIn(s, left, i) by {
        Settled(s, left, i, j);
      }
      i := i + 1;
    }
  }

  lemma {:induction false} AtFloor(s: seq<nat>, left: nat, j: nat)
    requires 0 < j < |s| && left <= j && CutAt(s, left) && s[j] > s[j - 1]
    ensures left < j
  {
  }

  lemma {:induction false} Settled(s: seq<nat>, left: nat, i: nat, j: nat)
    requires left <= j <= i < |s| && (j == 0 || s[j] <= s[j - 1])
    requires OneOut(s, left, i, j)
    ensures SortedIn(s, left, i)
  {
    forall p | left <= p < j ensures s[p] >= s[j] {
      if p < j - 1 {
        assert s[p] >= s[j - 1];
      }
    }
  }

  /** Moves the median of three to the front of the range. */
  method MedianToLeft(a: array<Iterator>, left: nat, right: nat, ghost s0: seq<nat>)
    requires left < right < a.Length && s0 == Lasts(a[..]) && CutAt(s0, left) && CutAt(s0, right + 1)
    modifies a
    ensures CutAt(Lasts(a[..]), left) && CutAt(Lasts(a[..]), right + 1)
    ensures multiset(a[..]) == multiset(old(a[..]))
  {
    hide Swapped, CutAt;
    var pivotIndex := left + (right - left) / 2;
    if a[right].last > a[left].last {
      SwapIn(a, right, left, left, right);
    }
    if a[pivotIndex].last > a[left].last {
      SwapIn(a, pivotIndex, left, left, right);
    }
    if a[right].last > a[pivotIndex].last {
      SwapIn(a, right, pivotIndex, left, right);
    }
    SwapIn(a, left, pivotIndex, left, right);
  }

  /** An exchange inside a range. */
  method SwapIn(a: array<Iterator>, i: nat, j: nat, ghost left: nat, ghost right: nat)
    requires right < a.Length && left <= i <= right && left <= j <= right
    requires CutAt(Lasts(a[..]), left) && CutAt(Lasts(a[..]), right + 1)
    modifies a
    ensures CutAt(Lasts(a[..]), left) && CutAt(Lasts(a[..]), right + 1)
    ensures Lasts(a[..]) == Swapped(old(Lasts(a[..])), i, j)
    ensures multiset(a[..]) == multiset(old(a[..]))
  {
    hide Swapped, CutAt;
    SwapKeepsCuts(Lasts(a[..]), i, j, left, right);
    Swap(a, i, j, Lasts(a[..]));
  }

  /** Between the scans: what `ll` has passed is at least the front, what `rr` has passed at most. */
  ghost predicate Scanned(s: seq<nat>, left: nat, right: nat, ll: int, rr: int)
    requires left < right < |s|
  {
    && left < ll <= right + 1 && left <= rr <= right
    && (forall p :: left < p < ll ==> s[p] >= s[left])
    && (forall p :: rr < p <= right ==> s[left] >= s[p])
  }

  lemma {:induction false} ScanSwap(s: seq<nat>, left: nat, right: nat, ll: nat, rr: nat)
    requires left < right < |s| && Scanned(s, left, right, ll, rr)
    requires ll <= rr && s[ll] <= s[left] <= s[rr]
    ensures Scanned(Swapped(s, ll, rr), left, right, ll + 1, rr - 1)
  {
  }

  /** Exchanging the front with the last of the greater part cuts the whole sequence at the pivot. */
  lemma {:induction false} PivotCuts(s: seq<nat>, left: nat, right: nat, ll: int, rr: nat)
    requires left < right < |s| && Scanned(s, left, right, ll, rr) && ll > rr
    requires CutAt(Swapped(s, left, rr), left) && CutAt(Swapped(s, left, rr), right + 1)
    ensures CutAt(Swapped(s, left, rr), rr) && CutAt(Swapped(s, left, rr), rr + 1)
  {
    var t := Swapped(s, left, rr);
    forall i, j | 0 <= i < rr <= j < |t| ensures t[i] >= t[j] {
      if left <= i && j <= right {
        assert t[i] >= t[rr];
      }
    }
    forall i, j | 0 <= i < rr + 1 <= j < |t| ensures t[i] >= t[j] {
      if left <= i && j <= right {
        assert t[i] >= t[rr];
      }
    }
  }

  /** Splits the range around the iterator at its front. */
  method Partition(a: array<Iterator>, left: nat, right: nat) returns (pivotIndex: nat)
    requires left < right < a.Length && CutAt(Lasts(a[..]), left) && CutAt(Lasts(a[..]), right + 1)
    modifies a
    ensures left <= pivotIndex <= right
    ensures CutAt(Lasts(a[..]), left) && CutAt(Lasts(a[..]), right + 1)
    ensures CutAt(Lasts(a[..]), pivotIndex) && CutAt(Lasts(a[..]), pivotIndex + 1)
    ensures multiset(a[..]) == multiset(old(a[..]))
  {
    hide Swapped, CutAt, Lasts;
    ghost var s := Lasts(a[..]);
    var ll, rr := left + 1, right as int;
    while ll <= rr
      invariant s == Lasts(a[..]) && Scanned(s, left, right, ll, rr)
      invariant CutAt(s, left) && CutAt(s, right + 1)
      invariant multiset(a[..]) == multiset(old(a[..]))
      decreases rr - ll
    {
      ghost var ll0, rr0 := ll, rr;
      while ll <= right && a[ll].last > a[left].last
        invariant ll0 <= ll && Scanned(s, left, right, ll, rr)
        modifies {}
      {
        assert s[ll] == a[..][ll].last && s[left] == a[..][left].last;
        ll := ll + 1;
      }
      while rr >= left && a[left].last > a[rr].last
        invariant rr <= rr0 && Scanned(s, left, right, ll, rr)
        modifies {}
      {
        assert s[rr] == a[..][rr].last && s[left] == a[..][left].last;
        rr := rr - 1;
      }
      assert s[left] == a[..][left].last && s[rr] == a[..][rr].last;
      assert ll <= right ==> s[ll] == a[..][ll].last;
      if ll <= rr {
        ScanSwap(s, left, right, ll, rr);
        SwapIn(a, ll, rr, left, right);
        s := Swapped(s, ll, rr);
        ll := ll + 1;
        rr := rr - 1;
      }
    }
    SwapIn(a, left, rr, left, right);
    PivotCuts(s, left, right, ll, rr);
    pivotIndex := rr;
  }

  /** Permutes the iterators so that the first `k` were last at times no older than all others. */
  method Select(a: array<Iterator>, k: nat)
    modifies a
    ensures multiset(a[..]) == multiset(old(a[..]))
    ensures CutAt(Lasts(a[..]), k)
  {
    hide Lasts, SortedIn;
    if a.Length == 0 || k >= a.Length {
      return;
    }
    var left, right := 0, a.Length - 1;
    ghost var s := Lasts(a[..]);
    assert CutAt(s, 0) && CutAt(s, right + 1);
    hide CutAt;
    while true
      invariant 0 <= left <= k <= right < a.Length
      invariant s == Lasts(a[..]) && CutAt(s, left) && CutAt(s, right + 1)
      invariant multiset(a[..]) == multiset(old(a[..]))
      decreases right - left
    {
      if right - left <= 20 {
        InsertionSort(a, left, right, s);
        SortedCut(Lasts(a[..]), left, right, k);
        return;
      }
      MedianToLeft(a, left, right, s);
      var pivotIndex := Partition(a, left, right);
      s := Lasts(a[..]);
      if k == pivotIndex {
        return;
      }
      if k < pivotIndex {
        right := pivotIndex - 1;
      } else {
        left := pivotIndex + 1;
      }
    }
  }

  lemma {:induction false} SortedCut(s: seq<nat>, left: nat, right: nat, k: nat)
    requires left <= k <= right < |s| && CutAt(s, left) && CutAt(s, right + 1) && SortedIn(s, left, right)
    ensures CutAt(s, k)
  {
  }

  /** The newest time among the first `k`. */
  method Threshold(its: seq<Iterator>, k: nat) returns (highest: nat)
    requires 1 <= k <= |its|
    ensures exists i :: 0 <= i < k && its[i].last == highest
    ensures forall i :: 0 <= i < k ==> its[i].last <= highest
  {
    highest := its[0].last;
    var i := 1;
    while i < k
      invariant 1 <= i <= k
      invariant exists j :: 0 <= j < i && its[j].last == highest
      invariant forall j :: 0 <= j < i ==> its[j].last <= highest
    {
      if its[i].last > highest {
        highest := its[i].last;
      }
      i := i + 1;
    }
  }

  /** After the selection the threshold over the first `k` bounds every iterator. */
  lemma {:induction false} ThresholdIsMax(s: seq<nat>, k: nat, highest: nat)
    requires 1 <= k <= |s| && CutAt(s, k)
    requires forall i :: 0 <= i < k ==> s[i] <= highest
    ensures forall i :: 0 <= i < |s| ==> s[i] <= highest
  {
    forall i | 0 <= i < |s| ensures s[i] <= highest {
      if i >= k {
        assert s[0] >= s[i];
      }
    }
  }
}
