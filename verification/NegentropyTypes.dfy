/**
 The items two parties reconcile, the bounds that cut a sealed list in two, and the
 messages made of bounded ranges (nip77/negentropy/types.go, storage/vector).
 */
module NegentropyTypes {
  import opened ByteStrings

  /** The largest signed 64-bit value: the timestamp of the infinite bound. */
  const MAX_TIMESTAMP: int := 0x7FFF_FFFF_FFFF_FFFF

  type Digest = s: seq<byte> | |s| == 16 witness seq(16, i => 0)

  datatype Item = Item(ts: int, id: Id)
  datatype Bound = Bound(ts: int, prefix: seq<byte>)

  const INFINITE_BOUND := Bound(MAX_TIMESTAMP, [])

  datatype Payload =
    | Skip
    | Fingerprint(digest: Digest)
    | IdList(ids: seq<Id>)

  /** One range of a message: everything from the previous upper bound to `upper`. */
  datatype Range = Range(upper: Bound, payload: Payload)

  type Message = seq<Range>

  predicate ItemLess(x: Item, y: Item) {
    x.ts < y.ts || (x.ts == y.ts && LexLess(x.id, y.id))
  }

  /** The comparison by which storage decides that an item lies left of a bound. */
  predicate Below(x: Item, b: Bound) {
    x.ts < b.ts || (x.ts == b.ts && LexLess(x.id, b.prefix))
  }

  predicate BoundLe(a: Bound, b: Bound) {
    a.ts < b.ts || (a.ts == b.ts && LexLe(a.prefix, b.prefix))
  }

  /** A sealed vector: strictly increasing, with timestamps the wire format can carry. */
  ghost predicate Sealed(items: seq<Item>) {
    && (forall i, j {:trigger ItemLess(items[i], items[j])} :: 0 <= i < j < |items| ==> ItemLess(items[i], items[j]))
    && (forall i :: 0 <= i < |items| ==> 0 <= items[i].ts < MAX_TIMESTAMP)
  }

  function Ids(items: seq<Item>): (ids: seq<Id>)
    ensures |ids| == |items|
  {
    seq(|items|, i requires 0 <= i < |items| => items[i].id)
  }

  lemma {:induction false} BelowDownward(x: Item, y: Item, b: Bound)
    requires ItemLess(x, y) && Below(y, b)
    ensures Below(x, b)
  {
    if x.ts == b.ts {
      LexTransitive(x.id, y.id, b.prefix);
    }
  }

  lemma {:induction false} BelowMonotone(x: Item, a: Bound, b: Bound)
    requires Below(x, a) && BoundLe(a, b)
    ensures Below(x, b)
  {
    LexMixed(x.id, a.prefix, b.prefix);
  }

  /** An item between two bounds orders them. */
  lemma {:induction false} BetweenBounds(x: Item, a: Bound, b: Bound)
    requires !Below(x, a) && Below(x, b)
    ensures BoundLe(a, b)
  {
    if a.ts == b.ts {
      LexMixed(a.prefix, x.id, b.prefix);
      LexTotal(a.prefix, b.prefix);
      if LexLess(b.prefix, a.prefix) {
        LexTransitive(x.id, b.prefix, a.prefix);
      }
    }
  }

  lemma {:induction false} BoundLeReflexive(a: Bound)
    ensures BoundLe(a, a)
  {
    LexIrreflexive(a.prefix);
  }

  lemma {:induction false} BoundLeTransitive(a: Bound, b: Bound, c: Bound)
    requires BoundLe(a, b) && BoundLe(b, c)
    ensures BoundLe(a, c)
  {
    if a.ts == b.ts && b.ts == c.ts && LexLess(c.prefix, a.prefix) {
      LexMixed(b.prefix, c.prefix, a.prefix);
      LexMixed(c.prefix, a.prefix, b.prefix);
    }
  }

  // ---- where a bound cuts a list ----

  /** The number of leading items below `b`. */
  function Cut(items: seq<Item>, b: Bound): (n: nat)
    ensures n <= |items|
  {
    if items == [] || !Below(items[0], b) then 0 else 1 + Cut(items[1..], b)
  }

  lemma {:induction false} CutSpec(items: seq<Item>, b: Bound)
    ensures forall i :: 0 <= i < Cut(items, b) ==> Below(items[i], b)
    ensures Cut(items, b) < |items| ==> !Below(items[Cut(items, b)], b)
  {
    if items != [] && Below(items[0], b) {
      CutSpec(items[1..], b);
      assert forall i :: 0 < i < |items| ==> items[i] == items[1..][i - 1];
    }
  }

  /** In a sealed list nothing after the cut lies below the bound. */
  lemma {:induction false} CutSplits(items: seq<Item>, b: Bound)
    requires Sealed(items)
    ensures forall i :: 0 <= i < |items| ==> (Below(items[i], b) <==> i < Cut(items, b))
  {
    CutSpec(items, b);
    var n := Cut(items, b);
    forall i | n < i < |items| ensures !Below(items[i], b) {
      if Below(items[i], b) {
        BelowDownward(items[n], items[i], b);
      }
    }
  }

  lemma {:induction false} CutUnique(items: seq<Item>, b: Bound, n: nat)
    requires n <= |items|
    requires forall i :: 0 <= i < n ==> Below(items[i], b)
    requires n < |items| ==> !Below(items[n], b)
    ensures Cut(items, b) == n
  {
    if items != [] && n > 0 {
      CutUnique(items[1..], b, n - 1);
    }
  }

  lemma {:induction false} CutMonotone(items: seq<Item>, a: Bound, b: Bound)
    requires BoundLe(a, b)
    ensures Cut(items, a) <= Cut(items, b)
  {
    CutSpec(items, a);
    CutSpec(items, b);
    var n := Cut(items, b);
    if n < Cut(items, a) {
      BelowMonotone(items[n], a, b);
    }
  }

  lemma {:induction false} CutInfinite(items: seq<Item>)
    requires Sealed(items)
    ensures Cut(items, INFINITE_BOUND) == |items|
  {
    CutUnique(items, INFINITE_BOUND, |items|);
  }
}
