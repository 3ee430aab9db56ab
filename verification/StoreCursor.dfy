/**
 The query cursor (eventstore/pebbledb2/query.go, `filterCursor`): merge, adjacent dedup, prefetch
 in batches, post-checks and limit yield the first matches of the filter, newest first.
 */
module StoreCursor {
  import opened AsciiText
  import opened NostrEvents
  import opened StoreKeys
  import opened StoreTables
  import opened StoreSpec
  import opened StoreCommit
  import opened StoreMerge
  import opened Horspool

  const PREFETCH := 32

  /** A text pattern to search for; absent when the filter has no search. */
  type Pattern = Option<Str>

  ghost predicate Wanted(f: Filter, pattern: Pattern, ev: Event) {
    Matches(f, ev) && (pattern.Some? ==> Occurs(Lower(pattern.value), Lower(ev.content)))
  }

  /** What brute force over the stored events would select. */
  ghost function Hits(evs: Events, f: Filter, pattern: Pattern): set<Pos> {
    set id | id in evs && Wanted(f, pattern, evs[id]) :: PosOf(evs[id])
  }

  /** The events at some positions, and at the first `limit` of them; a zero limit is none. */
  function Cut<T>(s: seq<T>, limit: nat): seq<T> {
    if 0 < limit < |s| then s[..limit] else s
  }

  datatype Candidate = Candidate(at: Pos, ev: Option<Stored>)

  function Places(cands: seq<Candidate>): (ps: seq<Pos>)
    ensures |ps| == |cands| && forall i :: 0 <= i < |cands| ==> ps[i] == cands[i].at
  {
    seq(|cands|, i requires 0 <= i < |cands| => cands[i].at)
  }

  /** A candidate carries the stored event of its position, if any. */
  ghost predicate Carries(evs: Events, c: Candidate) {
    c.at.id in evs && PosOf(evs[c.at.id]) == c.at && (c.ev.Some? ==> c.ev.value == evs[c.at.id])
  }

  /** Buffered candidates come with their bodies. */
  ghost predicate AllCarry(evs: Events, cands: seq<Candidate>) {
    forall i :: 0 <= i < |cands| ==> Carries(evs, cands[i]) && cands[i].ev.Some?
  }

  /** A body whose signature fails the test does not contain the pattern. */
  lemma {:induction false} SkippedMisses(content: Str, pattern: Str, grams: seq<Bloom.Gram>)
    requires Bloom.GramsOf(pattern, grams) && grams != [] && Bloom.SignatureOf(content).Some?
    requires !Bloom.MayContain(Bloom.SignatureOf(content).value, grams)
    ensures !Occurs(Lower(pattern), Lower(content))
  {
    hide Bloom.SignatureOf, Occurs, Lower;
    assert |pattern| >= 3;
    if Occurs(Lower(pattern), Lower(content)) {
      Bloom.SignatureSound(content, pattern, grams);
    }
  }

  /** A signature that is there is that of the event's content. */
  lemma {:induction false} SignatureRow(rule: TagRule, db: Db, evs: Events, p: Pos)
    requires Legible(rule, db, evs) && p.id in evs && PosOf(evs[p.id]) == p
    ensures Signature(p) in db ==>
              Bloom.SignatureOf(evs[p.id].content).Some? &&
              db[Signature(p)] == Bits(Bloom.SignatureOf(evs[p.id].content).value)
  {
    var k := Signature(p);
    assert k in db ==> Get(db, k) == Expected(rule, evs, k);
  }

  lemma {:induction false} InHits(evs: Events, f: Filter, pattern: Pattern, p: Pos)
    requires Keyed(evs) && p.id in evs && PosOf(evs[p.id]) == p
    ensures p in Hits(evs, f, pattern) <==> Wanted(f, pattern, evs[p.id])
  {
    hide Matches, Occurs;
  }

  /** The search object and the signature test belong to the pattern. */
  ghost predicate SearchSuits(search: Searcher?, pattern: Pattern, grams: seq<Bloom.Gram>) {
    && (search == null <==> pattern.None?)
    && (search != null ==> search.Valid() && search.patLen > 0 && search.Needle() == Lower(pattern.value))
    && (pattern.Some? ==> Bloom.GramsOf(pattern.value, grams))
  }

  /** The driving positions are stored events; a text search checks them. */
  ghost predicate Suited(evs: Events, total: set<Pos>, postCheck: bool, pattern: Pattern) {
    (forall p :: p in total ==> p.id in evs && PosOf(evs[p.id]) == p) && (pattern.Some? ==> postCheck)
  }

  /** The driving positions whose events pass the check, if there is one. */
  ghost function Passing(evs: Events, total: set<Pos>, f: Filter, pattern: Pattern, postCheck: bool): (ps: set<Pos>)
    ensures ps <= total
  {
    set p | p in total && p.id in evs && (postCheck ==> Wanted(f, pattern, evs[p.id]))
  }

  lemma {:induction false} InPassing(evs: Events, total: set<Pos>, f: Filter, pattern: Pattern, postCheck: bool, p: Pos)
    requires Suited(evs, total, postCheck, pattern) && p in total
    ensures p.id in evs && PosOf(evs[p.id]) == p
    ensures p in Passing(evs, total, f, pattern, postCheck) <==> (postCheck ==> Wanted(f, pattern, evs[p.id]))
  {
    hide Wanted;
  }

  predicate IsPrefix<T(==)>(a: seq<T>, b: seq<T>) {
    |a| <= |b| && b[..|a|] == a
  }

  /** What passed so far is the front of all that passes. */
  lemma {:induction false} FrontOfAll(front: seq<Pos>, more: seq<Pos>, popped: seq<Pos>, rest: set<Pos>,
                                      total: set<Pos>, hits: set<Pos>)
    requires popped + Timeline(rest) == Timeline(total) && front + more == Keep(popped, hits)
    ensures IsPrefix(front, Keep(Timeline(total), hits))
    ensures rest == {} ==> Keep(popped, hits) == Keep(Timeline(total), hits)
  {
    KeepAppend(popped, Timeline(rest), hits);
    assert (front + more + Keep(Timeline(rest), hits))[..|front|] == front;
    if rest == {} {
      assert popped + Timeline(rest) == popped;
    }
  }

  lemma {:induction false} NothingYet(all: seq<Pos>, hits: set<Pos>)
    ensures [] + all == all && Keep([], hits) == [] && Places([]) == [] && IsPrefix([], Keep(all, hits))
  {
  }

  lemma {:induction false} ServeOne(out: seq<Pos>, buf: seq<Candidate>, i: nat)
    requires i < |buf|
    ensures out + Places(buf[i..]) == (out + [buf[i].at]) + Places(buf[i + 1..])
  {
    assert Places(buf[i..]) == [buf[i].at] + Places(buf[i + 1..]);
  }

  lemma {:induction false} Appended(popped: seq<Pos>, p: Pos, more: seq<Pos>, all: seq<Pos>)
    requires popped + ([p] + more) == all
    ensures (popped + [p]) + more == all && p in all
  {
    assert ((popped + [p]) + more)[|popped|] == p;
  }

  class FilterCursor {
    const store: PebbleStore
    const f: Filter
    const limit: nat
    const budget: nat
    /** Bodies are wanted, not just a count. */
    const query: bool
    const postCheck: bool
    const pattern: Pattern
    const search: Searcher?
    const grams: seq<Bloom.Gram>

    var heap: seq<Source>
    var prefBuf: seq<Candidate>
    var prefIdx: nat
    var accepted: nat
    var cur: Candidate
    var valid: bool
    var err: bool
    var scanned: nat
    var last: Option<Pos>

    /** The positions the sources held at first, and the hits among them. */
    ghost const total: set<Pos>
    ghost const hits: set<Pos>
    /** How many index keys the sources held at first. */
    ghost const work: nat
    ghost var rest: set<Pos>
    ghost var popped: seq<Pos>
    ghost var out: seq<Pos>

    ghost predicate Fits()
      reads store
    {
      && store.Readable() && SearchSuits(search, pattern, grams)
      && hits == Passing(store.events, total, f, pattern, postCheck)
      && Suited(store.events, total, postCheck, pattern)
    }

    predicate Full()
      reads this`accepted
    {
      limit > 0 && accepted >= limit
    }

    /** What has been popped is the front of the timeline of all driving positions. */
    ghost predicate Walked()
      reads this`heap, this`last, this`rest, this`popped, this`scanned
    {
      && Live(heap) && Leaves(heap, last, rest) && scanned + Size(heap) == work
      && popped + Timeline(rest) == Timeline(total)
    }

    /** What passed the checks has been yielded or waits in the buffer. */
    ghost predicate Progress()
      reads this, store
    {
      && Fits() && Walked()
      && accepted == |out| && prefIdx <= |prefBuf|
      && (prefBuf != [] ==> query || postCheck)
      && AllCarry(store.events, prefBuf)
      && IsPrefix(out, Keep(Timeline(total), hits))
      && (!Full() && !err ==> out + Places(prefBuf[prefIdx..]) == Keep(popped, hits))
    }

    constructor (store: PebbleStore, f: Filter, limit: nat, budget: nat, query: bool, postCheck: bool,
                 pattern: Pattern, search: Searcher?, grams: seq<Bloom.Gram>, srcs: seq<Source>, ghost total: set<Pos>)
      requires store.Readable() && SearchSuits(search, pattern, grams)
      requires Suited(store.events, total, postCheck, pattern)
      requires Live(srcs) && forall p :: p in total <==> HasPos(srcs, p)
      ensures this.store == store && this.f == f && this.pattern == pattern && this.limit == limit
      ensures this.budget == budget && this.query == query && this.total == total && work == Size(srcs)
      ensures hits == Passing(store.events, total, f, pattern, postCheck)
      ensures Progress() && out == [] && !err && scanned == 0
    {
      hide Legible, Passing, SearchSuits, Suited, Live, Leaves, HasPos, Timeline, Size, Keep, Places, IsPrefix;
      this.store, this.f, this.limit, this.budget := store, f, limit, budget;
      this.query, this.postCheck := query, postCheck;
      this.pattern, this.search, this.grams := pattern, search, grams;
      heap, prefBuf, prefIdx, accepted, valid, err, scanned, last := srcs, [], 0, 0, false, false, 0, None;
      cur := Candidate(Pos(0, seq(32, _ => 0)), None);
      this.total, this.hits := total, Passing(store.events, total, f, pattern, postCheck);
      rest, popped, out, work := total, [], [], Size(srcs);
      new;
      AllLeft(srcs, total);
      NothingYet(Timeline(total), this.hits);
    }

    /** Tests the signature, loads the body and checks it. */
    method Load(p: Pos) returns (ev: Option<Stored>)
      requires Fits() && p in total
      ensures ev.Some? <==> p in hits
      ensures ev.Some? ==> ev.value == store.events[p.id]
    {
      hide Matches, Legible, Occurs, Lower, Bloom.GramsOf, Bloom.MayContain, Bloom.SignatureOf, Passing;
      InPassing(store.events, total, f, pattern, postCheck, p);
      SignatureRow(store.rule, store.db, store.events, p);
      BodyAt(store.rule, store.db, store.events, p);
      var body: Stored := store.db[Body(p)].ev;
      if search != null && |grams| > 0 && Signature(p) in store.db {
        if !Bloom.MayContain(store.db[Signature(p)].bits, grams) {
          SkippedMisses(body.content, pattern.value, grams);
          return None;
        }
      }
      if postCheck && !Matches(f, body) {
        return None;
      }
      if search != null {
        var found := search.Contains(body.content);
        if !found {
          return None;
        }
      }
      ev := Some(body);
    }

    /** Takes the heap's top; `isNew` is false for a repeat of the position taken before. */
    method Pop() returns (p: Pos, isNew: bool)
      requires Fits() && Walked() && heap != []
      modifies this`heap, this`last, this`rest, this`popped, this`scanned
      ensures Fits() && Walked() && Size(heap) < old(Size(heap))
      ensures isNew ==> p in total && popped == old(popped) + [p]
      ensures !isNew ==> popped == old(popped)
    {
      hide Passing, Leaves, Descending, Advanced, HasPos, SearchSuits, Legible, Suited;
      var top := Top(heap);
      p := heap[top][0];
      AdvancedShrinks(heap, top);
      isNew := Some(p) != last;
      if isNew {
        PopNew(heap, top, last, rest);
        TimelineIs(total);
        Appended(popped, p, Timeline(rest - {p}), Timeline(total));
        last := Some(p);
        rest := rest - {p};
        popped := popped + [p];
      } else {
        PopRepeat(heap, top, last, rest);
      }
      heap := Advanced(heap, top);
      scanned := scanned + 1;
    }

    lemma {:induction false} OverBudget()
      requires Walked() && heap != [] && scanned >= budget
      ensures budget < work
    {
      SizeLive(heap);
    }

    /** Collects a batch of distinct positions. */
    method Collect() returns (raw: seq<Pos>)
      requires Fits() && Walked()
      modifies this`heap, this`last, this`rest, this`popped, this`scanned, this`err
      ensures Fits() && Walked()
      ensures old(err) ==> err
      ensures popped == old(popped) + raw && |raw| <= 32
      ensures forall i :: 0 <= i < |raw| ==> raw[i] in total
      ensures err || heap == [] || |raw| == 32
      ensures heap == old(heap) ==> err || raw == []
      ensures heap == old(heap) || Size(heap) < old(Size(heap))
      ensures !old(err) && err ==> budget < work
    {
      hide Passing, Leaves, Live, SearchSuits, Fits, Walked;
      raw := [];
      while heap != [] && |raw| < PREFETCH
        invariant Fits() && Walked()
        invariant err == old(err)
        invariant popped == old(popped) + raw && |raw| <= PREFETCH
        invariant forall i :: 0 <= i < |raw| ==> raw[i] in total
        invariant heap == old(heap) ==> raw == []
        invariant heap == old(heap) || Size(heap) < old(Size(heap))
        decreases Size(heap)
        modifies this`heap, this`last, this`rest, this`popped, this`scanned, this`err
      {
        if scanned >= budget {
          OverBudget();
          err := true;
          return;
        }
        var p, isNew := Pop();
        if isNew {
          raw := raw + [p];
        }
      }
    }

    /** Loads a batch, keeping what passes in index order. */
    method LoadAll(raw: seq<Pos>)
      requires Fits() && forall i :: 0 <= i < |raw| ==> raw[i] in total
      modifies this`prefBuf
      ensures AllCarry(store.events, prefBuf) && Places(prefBuf) == Keep(raw, hits)
    {
      hide Passing, SearchSuits;
      prefBuf := [];
      var i := 0;
      while i < |raw|
        invariant 0 <= i <= |raw|
        invariant AllCarry(store.events, prefBuf) && Places(prefBuf) == Keep(raw[..i], hits)
        modifies this`prefBuf
      {
        var ev := Load(raw[i]);
        KeepStep(raw, hits, i);
        if ev.Some? {
          assert Places(prefBuf + [Candidate(raw[i], ev)]) == Places(prefBuf) + [raw[i]];
          prefBuf := prefBuf + [Candidate(raw[i], ev)];
        }
        i := i + 1;
      }
      assert raw[..|raw|] == raw;
    }

    /** One position more was yielded, or none is left, the limit is reached, or the budget is spent. */
    ghost predicate Moved(before: seq<Pos>)
      reads this, store
    {
      && (valid ==>
            && !err && out == before + [cur.at] && Carries(store.events, cur)
            && (query || postCheck ==> cur.ev.Some?) && (limit > 0 ==> |out| <= limit))
      && (!valid ==> out == before && (err || Full() || out == Keep(Timeline(total), hits)))
      && (err ==> budget < work)
    }

    /** Steps a count: one more position, whose body is not needed. */
    method AdvanceOne()
      requires Progress() && !postCheck && !query && !err && (limit > 0 ==> |out| <= limit)
      modifies this
      ensures Progress() && Moved(old(out))
    {
      hide Passing, SearchSuits, Leaves, Live, Suited, Walked, Fits, HasPos, Timeline, Keep;
      while heap != []
        invariant Progress() && out == old(out) && !err && prefBuf == [] && prefIdx == 0
        decreases Size(heap)
        modifies this
      {
        if Full() {
          break;
        }
        if scanned >= budget {
          OverBudget();
          err := true;
          break;
        }
        ghost var before := popped;
        var p, isNew := Pop();
        if isNew {
          YieldCounted(p, before);
          return;
        }
      }
      if !Full() && !err {
        Exhausted();
      }
      valid := false;
    }

    /** Yields a position without its body. */
    method YieldCounted(p: Pos, ghost before: seq<Pos>)
      requires Fits() && Walked() && !postCheck && !query && !err && !Full() && p in total
      requires accepted == |out| && prefBuf == [] && prefIdx == 0
      requires out == Keep(before, hits) && popped == before + [p]
      modifies this`accepted, this`cur, this`valid, this`out
      ensures Progress() && Moved(old(out)) && valid
    {
      hide Passing, SearchSuits, Leaves, Live, Suited, Walked, Fits, HasPos, Timeline, Keep;
      CountedPop(p, before);
      accepted := accepted + 1;
      cur := Candidate(p, None);
      valid := true;
      out := out + [p];
    }

    lemma {:induction false} CountedPop(p: Pos, before: seq<Pos>)
      requires Fits() && Walked() && !postCheck && p in total
      requires out == Keep(before, hits) && popped == before + [p]
      ensures out + [p] == Keep(popped, hits)
      ensures IsPrefix(out + [p], Keep(Timeline(total), hits))
      ensures Carries(store.events, Candidate(p, None))
    {
      hide SearchSuits, Leaves, Live, HasPos, Wanted;
      assert popped[..|popped| - 1] == before;
      assert out + [p] + [] == Keep(popped, hits);
      FrontOfAll(out + [p], [], popped, rest, total, hits);
    }

    /** An empty heap has nothing left. */
    lemma {:induction false} Exhausted()
      requires Walked() && heap == []
      ensures Keep(popped, hits) == Keep(Timeline(total), hits)
    {
      NoneLeft(last, rest);
      FrontOfAll([], Keep(popped, hits), popped, rest, total, hits);
      assert [] + Keep(popped, hits) == Keep(popped, hits);
    }

    /** The next candidate of the buffer, unless the limit is reached. */
    method Serve()
      requires Progress() && prefIdx < |prefBuf| && !err && (limit > 0 ==> |out| <= limit)
      modifies this
      ensures Progress() && Moved(old(out))
    {
      hide Passing, SearchSuits, Leaves, Live, Suited, Walked, Fits, HasPos, Timeline, Keep, IsPrefix, Places;
      if Full() {
        prefBuf := [];
        prefIdx := 0;
        valid := false;
        return;
      }
      cur := prefBuf[prefIdx];
      ServeOne(out, prefBuf, prefIdx);
      Front(out + [cur.at], Places(prefBuf[prefIdx + 1..]));
      prefIdx := prefIdx + 1;
      accepted := accepted + 1;
      valid := true;
      out := out + [cur.at];
    }

    lemma {:induction false} Front(front: seq<Pos>, more: seq<Pos>)
      requires Walked() && front + more == Keep(popped, hits)
      ensures IsPrefix(front, Keep(Timeline(total), hits))
    {
      FrontOfAll(front, more, popped, rest, total, hits);
    }

    /** Refills an empty buffer, going on while whole batches fail the checks. */
    method Refill()
      requires Progress() && !err && prefBuf == [] && prefIdx == 0 && (query || postCheck)
      modifies this
      ensures Progress() && out == old(out) && accepted == old(accepted) && prefIdx == 0
      ensures err ==> budget < work
      ensures !err && prefBuf == [] && !Full() ==> out == Keep(Timeline(total), hits)
    {
      hide Passing, SearchSuits, Leaves, Live, Suited, Walked, Fits, HasPos, Timeline, Keep, IsPrefix;
      while heap != []
        invariant Progress() && out == old(out) && accepted == old(accepted) && !err && prefBuf == [] && prefIdx == 0
        decreases Size(heap)
        modifies this
      {
        ghost var before := popped;
        var raw := Collect();
        if err {
          return;
        }
        if raw == [] {
          assert popped == before && heap == [];
          break;
        }
        LoadAll(raw);
        KeepAppend(before, raw, hits);
        if prefBuf != [] {
          return;
        }
      }
      assert out + Places(prefBuf[prefIdx..]) == out;
      Exhausted();
    }

    /** Moves the cursor to the next accepted candidate. */
    method Advance()
      requires Progress() && !err && (limit > 0 ==> |out| <= limit)
      modifies this
      ensures Progress() && Moved(old(out))
    {
      hide Passing, SearchSuits, Leaves, Live, Suited, Walked, Fits, HasPos, Timeline, Keep, IsPrefix;
      if prefIdx < |prefBuf| {
        Serve();
        return;
      }
      assert Places(prefBuf[prefIdx..]) == [];
      prefBuf := [];
      prefIdx := 0;
      if !query && !postCheck {
        AdvanceOne();
        return;
      }
      Refill();
      if err || prefBuf == [] {
        valid := false;
        return;
      }
      Serve();
    }
  }
}
