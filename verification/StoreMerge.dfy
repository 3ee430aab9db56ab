/**
 The k-way merge over descending index iterators (eventstore/pebbledb2/query.go, `srcHeap`):
 popping the greatest head and skipping a repeat of the last pop walks the timeline of the union.
 */
module StoreMerge {
  import opened NostrEvents

  /** A positioned iterator: what it has still to yield, its current position first. */
  type Source = seq<Pos>

  ghost predicate Live(srcs: seq<Source>) {
    forall i :: 0 <= i < |srcs| ==> srcs[i] != [] && Descending(srcs[i])
  }

  ghost predicate HasPos(srcs: seq<Source>, p: Pos) {
    exists i :: 0 <= i < |srcs| && p in srcs[i]
  }

  /** The positions left, except those popped last. */
  ghost predicate Leaves(srcs: seq<Source>, last: Option<Pos>, rest: set<Pos>) {
    && (forall p :: p in rest <==> HasPos(srcs, p) && Some(p) != last)
    && (last.Some? ==> forall p :: HasPos(srcs, p) ==> p == last.value || PosLess(p, last.value))
  }

  /** The heap's top: a source whose head is as great as any (`container/heap` as extract-max). */
  method Top(srcs: seq<Source>) returns (top: nat)
    requires Live(srcs) && srcs != []
    ensures top < |srcs|
    ensures forall p :: HasPos(srcs, p) ==> p == srcs[top][0] || PosLess(p, srcs[top][0])
  {
    top := 0;
    var i := 1;
    while i < |srcs|
      invariant top < i <= |srcs|
      invariant forall j :: 0 <= j < i ==> srcs[j][0] == srcs[top][0] || PosLess(srcs[j][0], srcs[top][0])
    {
      PosTotal(srcs[i][0], srcs[top][0]);
      if PosLess(srcs[top][0], srcs[i][0]) {
        forall j | 0 <= j < i ensures PosLess(srcs[j][0], srcs[i][0]) {
          if srcs[j][0] != srcs[top][0] {
            PosTransitive(srcs[j][0], srcs[top][0], srcs[i][0]);
          }
        }
        top := i;
      }
      i := i + 1;
    }
    forall p | HasPos(srcs, p) ensures p == srcs[top][0] || PosLess(p, srcs[top][0]) {
      var j :| 0 <= j < |srcs| && p in srcs[j];
      BelowHead(srcs[j], p);
      if p != srcs[j][0] && srcs[j][0] != srcs[top][0] {
        PosTransitive(p, srcs[j][0], srcs[top][0]);
      }
    }
  }

  lemma {:induction false} BelowHead(s: Source, p: Pos)
    requires Descending(s) && p in s
    ensures p == s[0] || PosLess(p, s[0])
  {
    var k :| 0 <= k < |s| && s[k] == p;
  }

  /** Moves one source on; an exhausted source leaves the heap. */
  function Advanced(srcs: seq<Source>, top: nat): seq<Source>
    requires top < |srcs| && srcs[top] != []
  {
    if |srcs[top]| > 1 then srcs[top := srcs[top][1..]]
    else srcs[..top] + srcs[top + 1..]
  }

  lemma {:induction false} OnlyOne(s: Source)
    ensures |s| == 1 ==> forall p :: p in s ==> p == s[0]
  {
  }

  lemma {:induction false} AdvancedIs(srcs: seq<Source>, top: nat)
    requires Live(srcs) && top < |srcs|
    ensures Live(Advanced(srcs, top))
    ensures forall p :: HasPos(Advanced(srcs, top), p) ==> HasPos(srcs, p)
    ensures forall p :: HasPos(srcs, p) && p != srcs[top][0] ==> HasPos(Advanced(srcs, top), p)
  {
    var after := Advanced(srcs, top);
    TailOf(srcs[top]);
    if |srcs[top]| > 1 {
      forall p | HasPos(after, p) ensures HasPos(srcs, p) {
        var i :| 0 <= i < |after| && p in after[i];
        if i == top {
          assert p in srcs[top];
        }
      }
      forall p | HasPos(srcs, p) && p != srcs[top][0] ensures HasPos(after, p) {
        var i :| 0 <= i < |srcs| && p in srcs[i];
        assert p in after[i];
      }
    } else {
      forall p | HasPos(after, p) ensures HasPos(srcs, p) {
        var i :| 0 <= i < |after| && p in after[i];
        assert after[i] == srcs[if i < top then i else i + 1];
      }
      forall p | HasPos(srcs, p) && p != srcs[top][0] ensures HasPos(after, p) {
        var i :| 0 <= i < |srcs| && p in srcs[i];
        OnlyOne(srcs[top]);
        assert after[if i < top then i else i - 1] == srcs[i];
      }
    }
  }

  /** Popping a repeat of the last position loses nothing. */
  lemma {:induction false} PopRepeat(srcs: seq<Source>, top: nat, last: Option<Pos>, rest: set<Pos>)
    requires Live(srcs) && top < |srcs| && Leaves(srcs, last, rest)
    requires Some(srcs[top][0]) == last
    ensures Live(Advanced(srcs, top)) && Leaves(Advanced(srcs, top), last, rest)
  {
    AdvancedIs(srcs, top);
    hide HasPos, Advanced, Descending, PosLess;
    var after := Advanced(srcs, top);
    forall p ensures p in rest <==> HasPos(after, p) && Some(p) != last {
      assert p in rest <==> HasPos(srcs, p) && Some(p) != last;
    }
  }

  /** Any other pop takes the head of the timeline of what is left. */
  lemma {:induction false} PopNew(srcs: seq<Source>, top: nat, last: Option<Pos>, rest: set<Pos>)
    requires Live(srcs) && top < |srcs| && Leaves(srcs, last, rest)
    requires forall p :: HasPos(srcs, p) ==> p == srcs[top][0] || PosLess(p, srcs[top][0])
    requires Some(srcs[top][0]) != last
    ensures var p, after := srcs[top][0], Advanced(srcs, top);
            && Live(after) && p in rest && Leaves(after, Some(p), rest - {p})
            && Timeline(rest) == [p] + Timeline(rest - {p})
  {
    hide Advanced, Descending, PosLess, Timeline;
    var p := srcs[top][0];
    AdvancedIs(srcs, top);
    assert HasPos(srcs, p) by {
      assert p in srcs[top];
    }
    hide HasPos;
    LastIsGone(srcs, p, last);
    GreatestLeads(p, rest);
    RestLeft(srcs, Advanced(srcs, top), p, last, rest);
  }

  lemma {:induction false} RestLeft(srcs: seq<Source>, after: seq<Source>, p: Pos, last: Option<Pos>, rest: set<Pos>)
    requires forall x :: x in rest <==> HasPos(srcs, x) && Some(x) != last
    requires last.Some? ==> !HasPos(srcs, last.value)
    requires forall x :: HasPos(srcs, x) ==> x == p || PosLess(x, p)
    requires forall x :: HasPos(after, x) ==> HasPos(srcs, x)
    requires forall x :: HasPos(srcs, x) && x != p ==> HasPos(after, x)
    ensures Leaves(after, Some(p), rest - {p})
  {
    hide HasPos, PosLess;
  }

  lemma {:induction false} LastIsGone(srcs: seq<Source>, p: Pos, last: Option<Pos>)
    requires HasPos(srcs, p) && Some(p) != last
    requires forall x :: HasPos(srcs, x) ==> x == p || PosLess(x, p)
    requires last.Some? ==> forall x :: HasPos(srcs, x) ==> x == last.value || PosLess(x, last.value)
    ensures last.Some? ==> !HasPos(srcs, last.value)
  {
    hide HasPos, PosLess;
    if last.Some? && HasPos(srcs, last.value) {
      PosTransitive(p, last.value, p);
      PosIrreflexive(p);
    }
  }

  lemma {:induction false} GreatestLeads(p: Pos, rest: set<Pos>)
    requires p in rest && forall x :: x in rest ==> x == p || PosLess(x, p)
    ensures Timeline(rest) == [p] + Timeline(rest - {p})
  {
    hide PosLess;
    assert IsGreatest(p, rest);
    GreatestUnique(rest);
  }

  lemma {:induction false} NoneLeft(last: Option<Pos>, rest: set<Pos>)
    requires Leaves([], last, rest)
    ensures rest == {}
  {
  }

  /** How many positions the iterators have still to yield. */
  ghost function Size(srcs: seq<Source>): nat {
    if srcs == [] then 0 else Size(srcs[..|srcs| - 1]) + |srcs[|srcs| - 1]|
  }

  lemma {:induction false} SizeAt(srcs: seq<Source>, i: nat, s: Source)
    requires i < |srcs|
    ensures Size(srcs[i := s]) == Size(srcs) - |srcs[i]| + |s|
    ensures Size(srcs[..i] + srcs[i + 1..]) == Size(srcs) - |srcs[i]|
  {
    var n := |srcs| - 1;
    if i < n {
      SizeAt(srcs[..n], i, s);
      assert srcs[i := s][..n] == srcs[..n][i := s];
      var without := srcs[..i] + srcs[i + 1..];
      assert without[..n - 1] == srcs[..n][..i] + srcs[..n][i + 1..];
      assert without[n - 1] == srcs[n];
    } else {
      assert srcs[i := s][..n] == srcs[..n];
      assert srcs[..i] + srcs[i + 1..] == srcs[..n];
    }
  }

  lemma {:induction false} AdvancedShrinks(srcs: seq<Source>, top: nat)
    requires Live(srcs) && top < |srcs|
    ensures Size(Advanced(srcs, top)) == Size(srcs) - 1
  {
    SizeAt(srcs, top, srcs[top][1..]);
  }

  lemma {:induction false} SizeLive(srcs: seq<Source>)
    requires Live(srcs) && srcs != []
    ensures Size(srcs) > 0
  {
    assert |srcs[|srcs| - 1]| > 0;
  }

  lemma {:induction false} AllLeft(srcs: seq<Source>, total: set<Pos>)
    requires forall p :: p in total <==> HasPos(srcs, p)
    ensures Leaves(srcs, None, total)
  {
  }
}
