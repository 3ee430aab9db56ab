/** Events, their tags and the filters that select them (event.go, tags.go, kinds.go, filter.go). */
module NostrEvents {
  import opened ByteStrings

  type PubKey = Id
  type Kind = k: int | 0 <= k < 65536
  type Str = seq<byte>
  type Tag = seq<Str>

  datatype Option<+T> = None | Some(value: T)

  datatype Event = Event(id: Id, pubkey: PubKey, createdAt: int, kind: Kind, tags: seq<Tag>, content: Str)

  /** The tag name "d". */
  const D_TAG: Str := [0x64]

  predicate IsReplaceable(kind: Kind) {
    kind == 0 || kind == 3 || 10000 <= kind < 20000
  }

  predicate IsAddressable(kind: Kind) {
    30000 <= kind < 40000
  }

  /** The value of the first "d" tag that has one, or the empty string. */
  function GetD(tags: seq<Tag>): Str {
    if tags == [] then []
    else if |tags[0]| >= 2 && tags[0][0] == D_TAG then tags[0][1]
    else GetD(tags[1..])
  }

  predicate ContainsAny(tags: seq<Tag>, name: Str, values: seq<Str>) {
    exists i :: 0 <= i < |tags| && |tags[i]| >= 2 && tags[i][0] == name && tags[i][1] in values
  }

  /** An absent list (Go's nil) restricts nothing; an empty one matches nothing. */
  datatype Filter = Filter(
    ids: Option<seq<Id>>,
    kinds: Option<seq<Kind>>,
    authors: Option<seq<PubKey>>,
    tags: map<Str, seq<Str>>,
    since: int,
    until: int)

  predicate MatchesTags(f: Filter, ev: Event) {
    forall name :: name in f.tags ==> ContainsAny(ev.tags, name, f.tags[name])
  }

  predicate MatchesTime(f: Filter, ev: Event) {
    !(f.since != 0 && ev.createdAt < f.since) && !(f.until != 0 && ev.createdAt > f.until)
  }

  /** `Filter.Matches`. */
  predicate Matches(f: Filter, ev: Event) {
    && (f.ids.Some? ==> ev.id in f.ids.value)
    && (f.kinds.Some? ==> ev.kind in f.kinds.value)
    && (f.authors.Some? ==> ev.pubkey in f.authors.value)
    && MatchesTags(f, ev)
    && MatchesTime(f, ev)
  }

  // ---- the order of timelines ----

  /** Where an event stands in a timeline: by creation time, then by id. */
  datatype Pos = Pos(ts: int, id: Id)

  predicate PosLess(a: Pos, b: Pos) {
    a.ts < b.ts || (a.ts == b.ts && LexLess(a.id, b.id))
  }

  function PosOf(ev: Event): Pos {
    Pos(ev.createdAt, ev.id)
  }

  lemma {:induction false} PosTotal(a: Pos, b: Pos)
    ensures PosLess(a, b) || PosLess(b, a) || a == b
  {
    LexTotal(a.id, b.id);
  }

  lemma {:induction false} PosTransitive(a: Pos, b: Pos, c: Pos)
    requires PosLess(a, b) && PosLess(b, c)
    ensures PosLess(a, c)
  {
    if a.ts == b.ts && b.ts == c.ts {
      LexTransitive(a.id, b.id, c.id);
    }
  }

  lemma {:induction false} PosIrreflexive(a: Pos)
    ensures !PosLess(a, a)
  {
    LexIrreflexive(a.id);
  }

  ghost predicate Descending(ps: seq<Pos>) {
    forall i, j {:trigger PosLess(ps[j], ps[i])} :: 0 <= i < j < |ps| ==> PosLess(ps[j], ps[i])
  }

  predicate IsGreatest(m: Pos, s: set<Pos>) {
    m in s && forall x :: x in s && x != m ==> PosLess(x, m)
  }

  /** A nonempty finite set of positions has a greatest one. */
  lemma {:induction false} GreatestExists(s: set<Pos>) returns (m: Pos)
    requires s != {}
    ensures IsGreatest(m, s)
    decreases |s|
  {
    var y :| y in s;
    var rest := s - {y};
    assert forall x :: x in s ==> x == y || x in rest;
    if rest == {} {
      m := y;
    } else {
      var g := GreatestExists(rest);
      PosTotal(g, y);
      m := if PosLess(g, y) then y else g;
      forall x | x in s && x != m ensures PosLess(x, m) {
        if m == y && x != g {
          PosTransitive(x, g, y);
        }
      }
    }
  }

  function Greatest(s: set<Pos>): (m: Pos)
    requires s != {}
    ensures IsGreatest(m, s)
  {
    assert exists m :: m in s && IsGreatest(m, s) by { var m := GreatestExists(s); }
    GreatestUnique(s);
    var m :| m in s && IsGreatest(m, s);
    m
  }

  lemma {:induction false} GreatestUnique(s: set<Pos>)
    ensures forall m, n :: IsGreatest(m, s) && IsGreatest(n, s) ==> m == n
  {
    forall m, n | IsGreatest(m, s) && IsGreatest(n, s) ensures m == n {
      if m != n {
        PosTransitive(m, n, m);
        PosIrreflexive(m);
      }
    }
  }

  /** The positions of a set, newest first: what an iterator over an ordered index yields backwards. */
  function Timeline(s: set<Pos>): (ps: seq<Pos>)
    ensures |ps| == |s|
  {
    if s == {} then []
    else
      var m := Greatest(s);
      [m] + Timeline(s - {m})
  }

  lemma {:induction false} TimelineIs(s: set<Pos>)
    ensures Descending(Timeline(s))
    ensures forall p :: p in Timeline(s) <==> p in s
    decreases |s|
  {
    if s != {} {
      var m := Greatest(s);
      var rest := Timeline(s - {m});
      TimelineIs(s - {m});
      var ps := Timeline(s);
      assert ps == [m] + rest;
      forall i, j | 0 <= i < j < |ps| ensures PosLess(ps[j], ps[i]) {
        assert ps[j] == rest[j - 1];
        if i == 0 {
          assert rest[j - 1] in rest;
          assert rest[j - 1] in s - {m};
        } else {
          assert ps[i] == rest[i - 1];
          assert PosLess(rest[j - 1], rest[i - 1]);
        }
      }
    }
  }

  /** A descending sequence is determined by the positions it holds. */
  lemma {:induction false} DescendingUnique(a: seq<Pos>, b: seq<Pos>)
    requires Descending(a) && Descending(b)
    requires forall p :: p in a <==> p in b
    ensures a == b
  {
    if a == [] {
      if b != [] {
        HeadIn(b);
      }
    } else {
      assert a[0] in a;
      assert b != [] by {
        assert a[0] in b;
      }
      HeadsAgree(a, b);
      TailOf(a);
      TailOf(b);
      DescendingUnique(a[1..], b[1..]);
      assert a == [a[0]] + a[1..] && b == [b[0]] + b[1..];
    }
  }

  lemma {:induction false} HeadIn(a: seq<Pos>)
    requires a != []
    ensures a[0] in a
  {
  }

  lemma {:induction false} HeadsAgree(a: seq<Pos>, b: seq<Pos>)
    requires Descending(a) && Descending(b) && a != [] && b != []
    requires forall p :: p in a <==> p in b
    ensures a[0] == b[0]
  {
    assert a[0] in a && b[0] in b;
    var i :| 0 <= i < |b| && b[i] == a[0];
    var j :| 0 <= j < |a| && a[j] == b[0];
    if i > 0 && j > 0 {
      assert PosLess(b[i], b[0]) && PosLess(a[j], a[0]);
      PosTransitive(a[0], b[0], a[0]);
      PosIrreflexive(a[0]);
    }
  }

  lemma {:induction false} TailOf(a: seq<Pos>)
    requires Descending(a) && a != []
    ensures Descending(a[1..])
    ensures forall p :: p in a[1..] <==> p in a && p != a[0]
  {
    forall i, j | 0 <= i < j < |a[1..]| ensures PosLess(a[1..][j], a[1..][i]) {
      assert PosLess(a[j + 1], a[i + 1]);
    }
    forall p | p in a[1..] ensures p in a && p != a[0] {
      var k :| 0 <= k < |a[1..]| && a[1..][k] == p;
      assert PosLess(a[k + 1], a[0]);
      PosIrreflexive(a[0]);
    }
    forall p | p in a && p != a[0] ensures p in a[1..] {
      var k :| 0 <= k < |a| && a[k] == p;
      assert a[1..][k - 1] == p;
    }
  }

  /** The part of a sequence that lies in `s`. */
  ghost function Keep(ps: seq<Pos>, s: set<Pos>): seq<Pos> {
    if ps == [] then []
    else
      var front := Keep(ps[..|ps| - 1], s);
      if ps[|ps| - 1] in s then front + [ps[|ps| - 1]] else front
  }

  lemma {:induction false} KeepIs(ps: seq<Pos>, s: set<Pos>)
    ensures forall p :: p in Keep(ps, s) <==> p in ps && p in s
    ensures Descending(ps) ==> Descending(Keep(ps, s))
  {
    if ps != [] {
      var front, last := ps[..|ps| - 1], ps[|ps| - 1];
      KeepIs(front, s);
      assert ps == front + [last];
      if Descending(ps) {
        assert forall i, j {:trigger PosLess(front[j], front[i])} :: 0 <= i < j < |front| ==> PosLess(ps[j], ps[i]);
        var kept := Keep(front, s);
        assert forall p :: p in kept ==> PosLess(last, p) by {
          forall p | p in kept ensures PosLess(last, p) {
            assert p in front;
            var i :| 0 <= i < |front| && front[i] == p;
            assert PosLess(ps[|ps| - 1], ps[i]);
          }
        }
        forall i, j | 0 <= i < j < |Keep(ps, s)| ensures PosLess(Keep(ps, s)[j], Keep(ps, s)[i]) {
          if j == |kept| {
            assert kept[i] in kept;
          } else {
            assert PosLess(kept[j], kept[i]);
          }
        }
      }
    }
  }

  /** Filtering the timeline of a set gives the timeline of the subset. */
  lemma {:induction false} KeepTimeline(all: set<Pos>, s: set<Pos>)
    requires s <= all
    ensures Keep(Timeline(all), s) == Timeline(s)
  {
    TimelineIs(all);
    TimelineIs(s);
    KeepIs(Timeline(all), s);
    DescendingUnique(Keep(Timeline(all), s), Timeline(s));
  }

  lemma {:induction false} KeepStep(ps: seq<Pos>, s: set<Pos>, i: nat)
    requires i < |ps|
    ensures Keep(ps[..i + 1], s) == Keep(ps[..i], s) + (if ps[i] in s then [ps[i]] else [])
  {
    assert ps[..i + 1][..i] == ps[..i];
  }

  lemma {:induction false} KeepAppend(a: seq<Pos>, b: seq<Pos>, s: set<Pos>)
    ensures Keep(a + b, s) == Keep(a, s) + Keep(b, s)
  {
    if b == [] {
      assert a + b == a;
      assert Keep(a, s) + [] == Keep(a, s);
    } else {
      KeepAppend(a, b[..|b| - 1], s);
      assert (a + b)[..|a + b| - 1] == a + b[..|b| - 1];
    }
  }
}
