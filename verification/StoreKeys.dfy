/** The keys and values that pebbledb2 derives from an event (eventstore/pebbledb2/keys.go). */
module StoreKeys {
  import opened ByteStrings
  import opened NostrEvents

  const TWO_32 := 0x1_0000_0000
  const SECONDS_PER_DAY := 86400
  const SECONDS_PER_HOUR := 3600
  const MAX_INT64 := 0x7FFF_FFFF_FFFF_FFFF

  /** What the store accepts: a creation time that is not negative (and fits in 64 bits). */
  type Stored = ev: Event | 0 <= ev.createdAt <= MAX_INT64
    witness Event(seq(32, i => 0), seq(32, i => 0), 0, 0, [], [])

  /** Quotients are truncated to 32 bits. */
  function DayOf(ts: nat): nat {
    ts / SECONDS_PER_DAY % TWO_32
  }

  function HourOf(ts: nat): nat {
    ts / SECONDS_PER_HOUR % TWO_32
  }

  /** What a rollup counter counts. */
  datatype Bucket =
    | KindDay(kind: Kind, day: nat)
    | Day(day: nat)
    | KindHour(kind: Kind, hour: nat)
    | Hour(hour: nat)
    | AuthorKind(pubkey: PubKey, kind: Kind)

  function Buckets(ev: Stored): set<Bucket> {
    {KindDay(ev.kind, DayOf(ev.createdAt)), Day(DayOf(ev.createdAt)),
     KindHour(ev.kind, HourOf(ev.createdAt)), Hour(HourOf(ev.createdAt)),
     AuthorKind(ev.pubkey, ev.kind)}
  }

  /** The leading part of a secondary index key. */
  datatype Prefix =
    | ByAuthor(pubkey: PubKey)
    | ByAuthorKind(pubkey: PubKey, kind: Kind)
    | ByKind(kind: Kind)
    | ByTag(name: Str, value: Str)
    | ByTime

  datatype Key =
    | Locator(id: Id)
    | Body(at: Pos)
    | Signature(at: Pos)
    | Index(prefix: Prefix, at: Pos)
    | Counter(bucket: Bucket)

  datatype Value =
    | Stamp(ts: int)
    | Raw(ev: Event)
    | Bits(bits: set<nat>)
    | Empty
    | Total(count: int)

  /** Which tag names the store indexes. */
  type TagRule = Str -> bool

  predicate IsIndexed(rule: TagRule, t: Tag) {
    |t| >= 2 && rule(t[0]) && |t[0]| <= 255 && |t[1]| <= 65535
  }

  function TagPrefixes(rule: TagRule, tags: seq<Tag>): set<Prefix> {
    set i | 0 <= i < |tags| && IsIndexed(rule, tags[i]) :: ByTag(tags[i][0], tags[i][1])
  }

  function Prefixes(rule: TagRule, ev: Event): set<Prefix> {
    {ByAuthor(ev.pubkey), ByAuthorKind(ev.pubkey, ev.kind), ByKind(ev.kind), ByTime}
    + TagPrefixes(rule, ev.tags)
  }

  /** Every secondary index key of an event, each once. */
  method IndexKeysFor(rule: TagRule, ev: Event) returns (keys: seq<Key>)
    ensures forall k :: k in keys <==> k.Index? && k.at == PosOf(ev) && k.prefix in Prefixes(rule, ev)
    ensures forall i, j :: 0 <= i < j < |keys| ==> keys[i] != keys[j]
  {
    var at := PosOf(ev);
    keys := [Index(ByAuthor(ev.pubkey), at), Index(ByAuthorKind(ev.pubkey, ev.kind), at),
             Index(ByKind(ev.kind), at), Index(ByTime, at)];
    ghost var base := keys;
    var seen: set<Prefix> := {};
    var i := 0;
    while i < |ev.tags|
      invariant 0 <= i <= |ev.tags|
      invariant seen == TagPrefixes(rule, ev.tags[..i])
      invariant forall k :: k in keys <==> k in base || (k.Index? && k.at == at && k.prefix in seen)
      invariant forall j, k :: 0 <= j < k < |keys| ==> keys[j] != keys[k]
    {
      var t := ev.tags[i];
      TagPrefixesStep(rule, ev.tags, i);
      if IsIndexed(rule, t) {
        var prefix := ByTag(t[0], t[1]);
        if prefix !in seen {
          seen := seen + {prefix};
          keys := keys + [Index(prefix, at)];
        }
      }
      i := i + 1;
    }
    assert ev.tags[..i] == ev.tags;
  }

  predicate NamesTag(rule: TagRule, t: Tag, name: Str, value: Str) {
    |t| >= 2 && t[0] == name && t[1] == value && rule(name) && |name| < 256 && |value| < 65536
  }

  /** Under which prefixes an event is found: its author, kind and both, all events, and its indexed tags. */
  lemma {:induction false} PrefixesAre(rule: TagRule, ev: Event, p: Prefix)
    ensures p in Prefixes(rule, ev) <==>
            match p
            case ByAuthor(pk) => pk == ev.pubkey
            case ByAuthorKind(pk, kind) => pk == ev.pubkey && kind == ev.kind
            case ByKind(kind) => kind == ev.kind
            case ByTag(name, value) => exists i :: 0 <= i < |ev.tags| && NamesTag(rule, ev.tags[i], name, value)
            case ByTime => true
  {
    if p.ByTag? && p in Prefixes(rule, ev) {
      var i :| 0 <= i < |ev.tags| && IsIndexed(rule, ev.tags[i]) && p == ByTag(ev.tags[i][0], ev.tags[i][1]);
      assert NamesTag(rule, ev.tags[i], p.name, p.value);
    }
  }

  /** An event is counted in the day and the hour of its creation, numbered from 1970, alone and by kind. */
  lemma {:induction false} BucketsAre(ev: Stored, b: Bucket)
    ensures b in Buckets(ev) <==>
            match b
            case KindDay(kind, day) => kind == ev.kind && day == ev.createdAt / 86400 % 4294967296
            case Day(day) => day == ev.createdAt / 86400 % 4294967296
            case KindHour(kind, hour) => kind == ev.kind && hour == ev.createdAt / 3600 % 4294967296
            case Hour(hour) => hour == ev.createdAt / 3600 % 4294967296
            case AuthorKind(pk, kind) => pk == ev.pubkey && kind == ev.kind
  {
  }

  lemma {:induction false} TagPrefixesStep(rule: TagRule, tags: seq<Tag>, i: nat)
    requires i < |tags|
    ensures TagPrefixes(rule, tags[..i + 1]) ==
            TagPrefixes(rule, tags[..i]) + (if IsIndexed(rule, tags[i]) then {ByTag(tags[i][0], tags[i][1])} else {})
  {
    assert tags[..i + 1] == tags[..i] + [tags[i]];
    var a, b := TagPrefixes(rule, tags[..i + 1]), TagPrefixes(rule, tags[..i]);
    forall p | p in a ensures p in b || (IsIndexed(rule, tags[i]) && p == ByTag(tags[i][0], tags[i][1])) {
      var j :| 0 <= j < i + 1 && IsIndexed(rule, tags[..i + 1][j])
               && p == ByTag(tags[..i + 1][j][0], tags[..i + 1][j][1]);
      if j < i {
        assert tags[..i][j] == tags[j];
      }
    }
    forall p | p in b ensures p in a {
      var j :| 0 <= j < i && IsIndexed(rule, tags[..i][j]) && p == ByTag(tags[..i][j][0], tags[..i][j][1]);
      assert tags[..i + 1][j] == tags[j];
    }
    if IsIndexed(rule, tags[i]) {
      assert tags[..i + 1][i] == tags[i];
      assert ByTag(tags[i][0], tags[i][1]) in a;
    }
  }
}
