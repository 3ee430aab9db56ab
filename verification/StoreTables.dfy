/**
 The database as an ordered map, and what it holds when it agrees with a set of events: every
 locator, body, signature and index key derived from a stored event and nothing else.
 */
module StoreTables {
  import opened ByteStrings
  import opened NostrEvents
  import opened StoreKeys
  import Bloom

  type Db = map<Key, Value>

  /** The stored events by id. */
  type Events = map<Id, Stored>

  /** The event each id names. */
  type Naming = Id -> Event

  ghost predicate Named(names: Naming, evs: Events) {
    forall id :: id in evs ==> evs[id] == names(id) && evs[id].id == id
  }

  function Get(db: Db, k: Key): Option<Value> {
    if k in db then Some(db[k]) else None
  }

  function CounterOf(db: Db, b: Bucket): int {
    if Counter(b) in db && db[Counter(b)].Total? then db[Counter(b)].count else 0
  }

  // ---- rows ----

  /** The value an event gives to a key, if the key is one of its own. */
  function Row(rule: TagRule, ev: Event, k: Key): Option<Value> {
    match k
    case Locator(id) => if id == ev.id then Some(Stamp(ev.createdAt)) else None
    case Body(at) => if at == PosOf(ev) then Some(Raw(ev)) else None
    case Signature(at) =>
      var s := Bloom.SignatureOf(ev.content);
      if at == PosOf(ev) && s.Some? then Some(Bits(s.value)) else None
    case Index(prefix, at) => if at == PosOf(ev) && prefix in Prefixes(rule, ev) then Some(Empty) else None
    case Counter(_) => None
  }

  function KeyId(k: Key): Id
    requires !k.Counter?
  {
    if k.Locator? then k.id else k.at.id
  }

  function Expected(rule: TagRule, evs: Events, k: Key): Option<Value>
    requires !k.Counter?
  {
    if KeyId(k) in evs then Row(rule, evs[KeyId(k)], k) else None
  }

  ghost predicate Describes(rule: TagRule, db: Db, evs: Events) {
    forall k: Key :: !k.Counter? ==> Get(db, k) == Expected(rule, evs, k)
  }

  /**
   What a reader needs: as described, except that an event may lack its signature, as those stored
   before there were signatures do. A signature that is there is the event's own.
   */
  ghost predicate Legible(rule: TagRule, db: Db, evs: Events) {
    && (forall k: Key :: !k.Counter? && !k.Signature? ==> Get(db, k) == Expected(rule, evs, k))
    && (forall k: Key :: k.Signature? && k in db ==> Get(db, k) == Expected(rule, evs, k))
  }

  lemma {:induction false} DescribedIsLegible(rule: TagRule, db: Db, evs: Events)
    requires Describes(rule, db, evs)
    ensures Legible(rule, db, evs)
  {
    hide Expected;
  }

  /** Whichever signatures are missing, the rest can be read. */
  lemma {:induction false} SignaturesOptional(rule: TagRule, db: Db, evs: Events, missing: set<Pos>)
    requires Legible(rule, db, evs)
    ensures Legible(rule, db - (set p | p in missing :: Signature(p)), evs)
  {
    hide Expected;
    var less := db - (set p | p in missing :: Signature(p));
    forall k: Key | !k.Counter? && !k.Signature? ensures Get(less, k) == Expected(rule, evs, k) {
      assert Get(less, k) == Get(db, k);
    }
  }

  // ---- batches ----

  datatype Op = Put(key: Key, value: Value) | Drop(key: Key) | Merge(bucket: Bucket, delta: int)

  function Apply(db: Db, op: Op): Db {
    match op
    case Put(k, v) => db[k := v]
    case Drop(k) => db - {k}
    case Merge(b, delta) => db[Counter(b) := Total(CounterOf(db, b) + delta)]
  }

  /** Later operations of a batch win. */
  function ApplyAll(db: Db, ops: seq<Op>): Db {
    if ops == [] then db else Apply(ApplyAll(db, ops[..|ops| - 1]), ops[|ops| - 1])
  }

  lemma {:induction false} ApplyOne(db: Db, ops: seq<Op>, op: Op)
    ensures ApplyAll(db, ops + [op]) == Apply(ApplyAll(db, ops), op)
  {
    assert (ops + [op])[..|ops|] == ops;
  }

  /** `after` is `before` with the rows of `ev` at the keys of `done` written over it. */
  ghost predicate Wrote(rule: TagRule, before: Db, after: Db, ev: Event, done: set<Key>) {
    forall k :: Get(after, k) == if k in done then Row(rule, ev, k) else Get(before, k)
  }

  ghost predicate Dropped(before: Db, after: Db, done: set<Key>) {
    forall k :: Get(after, k) == if k in done then None else Get(before, k)
  }

  /** All keys an event may own. */
  ghost function Footprint(rule: TagRule, ev: Event): set<Key> {
    {Locator(ev.id), Body(PosOf(ev)), Signature(PosOf(ev))}
    + set p | p in Prefixes(rule, ev) :: Index(p, PosOf(ev))
  }

  lemma {:induction false} WriteOne(rule: TagRule, before: Db, after: Db, ev: Event, done: set<Key>, k: Key, v: Value)
    requires Wrote(rule, before, after, ev, done) && Row(rule, ev, k) == Some(v)
    ensures Wrote(rule, before, Apply(after, Put(k, v)), ev, done + {k})
  {
    hide Row;
  }

  lemma {:induction false} DropOne(before: Db, after: Db, done: set<Key>, k: Key)
    requires Dropped(before, after, done)
    ensures Dropped(before, Apply(after, Drop(k)), done + {k})
  {
  }

  lemma {:induction false} RowsInFootprint(rule: TagRule, ev: Event, k: Key)
    ensures Row(rule, ev, k).Some? ==> k in Footprint(rule, ev)
    ensures k in Footprint(rule, ev) ==> !k.Counter? && KeyId(k) == ev.id
    ensures k in Footprint(rule, ev) && !k.Signature? ==> Row(rule, ev, k).Some?
  {
  }

  lemma {:induction false} WriteDescribes(rule: TagRule, before: Db, after: Db, evs: Events, ev: Stored, done: set<Key>)
    requires Describes(rule, before, evs)
    requires ev.id in evs ==> evs[ev.id] == ev
    requires forall k :: k in done ==> k in Footprint(rule, ev)
    requires forall k :: Row(rule, ev, k).Some? ==> k in done
    requires Wrote(rule, before, after, ev, done)
    ensures Describes(rule, after, evs[ev.id := ev])
  {
    hide Row, Footprint;
    forall k: Key | !k.Counter? ensures Get(after, k) == Expected(rule, evs[ev.id := ev], k) {
      RowsInFootprint(rule, ev, k);
      if k !in done && KeyId(k) == ev.id {
        assert Get(before, k) == Expected(rule, evs, k);
      }
    }
  }

  lemma {:induction false} DropDescribes(rule: TagRule, before: Db, after: Db, evs: Events, ev: Stored)
    requires Describes(rule, before, evs)
    requires ev.id in evs ==> evs[ev.id] == ev
    requires Dropped(before, after, Footprint(rule, ev))
    ensures Describes(rule, after, evs - {ev.id})
  {
    hide Row, Footprint;
    forall k: Key | !k.Counter? ensures Get(after, k) == Expected(rule, evs - {ev.id}, k) {
      RowsInFootprint(rule, ev, k);
      assert Get(before, k) == Expected(rule, evs, k);
    }
  }

  // ---- counting ----

  ghost function InBucket(evs: Events, b: Bucket): set<Id> {
    set id | id in evs && b in Buckets(evs[id])
  }

  /** The number of stored events in a bucket. */
  ghost function Count(evs: Events, b: Bucket): nat {
    |InBucket(evs, b)|
  }

  function Hit(ev: Stored, b: Bucket): int {
    if b in Buckets(ev) then 1 else 0
  }

  lemma {:induction false} CountAdded(evs: Events, ev: Stored, b: Bucket)
    requires ev.id !in evs
    ensures Count(evs[ev.id := ev], b) == Count(evs, b) + Hit(ev, b)
  {
    hide Buckets;
    var before, after := InBucket(evs, b), InBucket(evs[ev.id := ev], b);
    forall id ensures id in after <==> id in before || (id == ev.id && b in Buckets(ev)) {
      if id != ev.id {
        assert id in evs[ev.id := ev] <==> id in evs;
      }
    }
    if b in Buckets(ev) {
      assert after == before + {ev.id};
    } else {
      assert after == before;
    }
  }

  lemma {:induction false} CountRemoved(evs: Events, ev: Stored, b: Bucket)
    requires ev.id in evs && evs[ev.id] == ev
    ensures Count(evs - {ev.id}, b) == Count(evs, b) - Hit(ev, b)
  {
    hide Buckets;
    assert InBucket(evs - {ev.id}, b) == InBucket(evs, b) - {ev.id};
    assert ev.id in InBucket(evs, b) <==> b in Buckets(ev);
  }
}
