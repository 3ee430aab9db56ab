/**
 The canonical form of an event that is hashed into its id (event.go; NIP-01, "Events and
 signatures"): the word-at-a-time escaping, the two writers, and that nothing is lost.
 */
module EventSerialization {
  import opened ByteStrings
  import opened NostrEvents

  const QUOTE: byte := 0x22
  const BACKSLASH: byte := 0x5C
  const COMMA: byte := 0x2C
  const OPEN: byte := 0x5B
  const CLOSE: byte := 0x5D

  // ---- eight bytes at a time ----

  function MatchByte(w: bv64, v: bv64): bv64 {
    var x := w ^ (0x0101010101010101 * v);
    (x - 0x0101010101010101) & (!x) & 0x8080808080808080
  }

  function Or(a: bv64, b: bv64): bv64 {
    a | b
  }

  predicate AnyBit(a: bv64, b: bv64, c: bv64, d: bv64, e: bv64) {
    Or(Or(Or(Or(a, b), c), d), e) != 0
  }

  /** The bit trick of `hasSpecial`. */
  predicate HasSpecial(w: bv64) {
    AnyBit(MatchByte(w, 0x09), MatchByte(w, 0x0A), MatchByte(w, 0x0D), MatchByte(w, 0x22), MatchByte(w, 0x5C))
  }

  predicate HasByte(w: bv64, v: bv64) {
    || w & 0xFF == v || (w >> 8) & 0xFF == v || (w >> 16) & 0xFF == v || (w >> 24) & 0xFF == v
    || (w >> 32) & 0xFF == v || (w >> 40) & 0xFF == v || (w >> 48) & 0xFF == v || (w >> 56) & 0xFF == v
  }

  /** The bytes the code escapes. */
  predicate IsSpecial(b: byte) {
    b == QUOTE || b == BACKSLASH || b == 0x0A || b == 0x0D || b == 0x09
  }

  // Subtracting one from every byte borrows exactly where a byte is zero, as far as the lowest one.

  lemma {:induction false} MatchTab(w: bv64)
    ensures MatchByte(w, 0x09) != 0 <==> HasByte(w, 0x09)
  {
  }

  lemma {:induction false} MatchNewline(w: bv64)
    ensures MatchByte(w, 0x0A) != 0 <==> HasByte(w, 0x0A)
  {
  }

  lemma {:induction false} MatchReturn(w: bv64)
    ensures MatchByte(w, 0x0D) != 0 <==> HasByte(w, 0x0D)
  {
  }

  lemma {:induction false} MatchQuote(w: bv64)
    ensures MatchByte(w, 0x22) != 0 <==> HasByte(w, 0x22)
  {
  }

  lemma {:induction false} MatchBackslash(w: bv64)
    ensures MatchByte(w, 0x5C) != 0 <==> HasByte(w, 0x5C)
  {
  }

  lemma {:induction false} AnyBitIs(a: bv64, b: bv64, c: bv64, d: bv64, e: bv64)
    ensures AnyBit(a, b, c, d, e) <==> a != 0 || b != 0 || c != 0 || d != 0 || e != 0
  {
    hide Or;
    OrIs(a, b);
    OrIs(Or(a, b), c);
    OrIs(Or(Or(a, b), c), d);
    OrIs(Or(Or(Or(a, b), c), d), e);
  }

  lemma {:induction false} OrIs(a: bv64, b: bv64)
    ensures Or(a, b) != 0 <==> a != 0 || b != 0
  {
  }

  /** True exactly when one of the eight bytes is special. */
  lemma {:induction false} HasSpecialIs(w: bv64)
    ensures HasSpecial(w) <==>
            HasByte(w, 0x09) || HasByte(w, 0x0A) || HasByte(w, 0x0D) || HasByte(w, 0x22) || HasByte(w, 0x5C)
  {
    hide MatchByte, HasByte, AnyBit;
    MatchTab(w);
    MatchNewline(w);
    MatchReturn(w);
    MatchQuote(w);
    MatchBackslash(w);
    AnyBitIs(MatchByte(w, 0x09), MatchByte(w, 0x0A), MatchByte(w, 0x0D), MatchByte(w, 0x22), MatchByte(w, 0x5C));
  }

  function Wide(b: byte): bv64 {
    (b as bv8) as bv64
  }

  /** The bytes of a word, lowest first. */
  ghost predicate Holds(w: bv64, a: bv64, b: bv64, c: bv64, d: bv64, e: bv64, f: bv64, g: bv64, h: bv64) {
    && w & 0xFF == a && (w >> 8) & 0xFF == b && (w >> 16) & 0xFF == c && (w >> 24) & 0xFF == d
    && (w >> 32) & 0xFF == e && (w >> 40) & 0xFF == f && (w >> 48) & 0xFF == g && (w >> 56) & 0xFF == h
  }

  lemma {:induction false} PackHolds(a: bv64, b: bv64, c: bv64, d: bv64, e: bv64, f: bv64, g: bv64, h: bv64, w: bv64)
    requires a <= 0xFF && b <= 0xFF && c <= 0xFF && d <= 0xFF && e <= 0xFF && f <= 0xFF && g <= 0xFF && h <= 0xFF
    requires w == a | (b << 8) | (c << 16) | (d << 24) | (e << 32) | (f << 40) | (g << 48) | (h << 56)
    ensures Holds(w, a, b, c, d, e, f, g, h)
  {
  }

  lemma {:induction false} WideIs(b: byte)
    ensures Wide(b) <= 0xFF
    ensures IsSpecial(b) <==> Wide(b) == 0x09 || Wide(b) == 0x0A || Wide(b) == 0x0D || Wide(b) == 0x22
                              || Wide(b) == 0x5C
  {
  }

  /** Eight bytes read as a little-endian word. */
  function LoadWord(s: seq<byte>, i: nat): bv64
    requires i + 8 <= |s|
  {
    Wide(s[i]) | (Wide(s[i + 1]) << 8) | (Wide(s[i + 2]) << 16) | (Wide(s[i + 3]) << 24)
    | (Wide(s[i + 4]) << 32) | (Wide(s[i + 5]) << 40) | (Wide(s[i + 6]) << 48) | (Wide(s[i + 7]) << 56)
  }

  lemma {:induction false} LoadHolds(s: seq<byte>, i: nat)
    requires i + 8 <= |s|
    ensures Holds(LoadWord(s, i), Wide(s[i]), Wide(s[i + 1]), Wide(s[i + 2]), Wide(s[i + 3]),
                  Wide(s[i + 4]), Wide(s[i + 5]), Wide(s[i + 6]), Wide(s[i + 7]))
  {
    hide Holds, Wide, IsSpecial;
    WideIs(s[i]);
    WideIs(s[i + 1]);
    WideIs(s[i + 2]);
    WideIs(s[i + 3]);
    WideIs(s[i + 4]);
    WideIs(s[i + 5]);
    WideIs(s[i + 6]);
    WideIs(s[i + 7]);
    PackHolds(Wide(s[i]), Wide(s[i + 1]), Wide(s[i + 2]), Wide(s[i + 3]),
              Wide(s[i + 4]), Wide(s[i + 5]), Wide(s[i + 6]), Wide(s[i + 7]), LoadWord(s, i));
  }

  lemma {:induction false} HoldsByte(w: bv64, a: bv64, b: bv64, c: bv64, d: bv64, e: bv64, f: bv64, g: bv64, h: bv64)
    requires Holds(w, a, b, c, d, e, f, g, h)
    ensures forall v :: HasByte(w, v) <==> a == v || b == v || c == v || d == v || e == v || f == v || g == v || h == v
  {
  }

  /** A loaded word passes the test exactly when its eight bytes need no escape. */
  lemma {:induction false} WordIsClean(s: seq<byte>, i: nat)
    requires i + 8 <= |s|
    ensures HasSpecial(LoadWord(s, i)) <==> exists k :: i <= k < i + 8 && IsSpecial(s[k])
  {
    hide HasSpecial, HasByte, Wide, IsSpecial, LoadWord, Holds;
    WideIs(s[i]);
    WideIs(s[i + 1]);
    WideIs(s[i + 2]);
    WideIs(s[i + 3]);
    WideIs(s[i + 4]);
    WideIs(s[i + 5]);
    WideIs(s[i + 6]);
    WideIs(s[i + 7]);
    LoadHolds(s, i);
    HoldsByte(LoadWord(s, i), Wide(s[i]), Wide(s[i + 1]), Wide(s[i + 2]), Wide(s[i + 3]),
              Wide(s[i + 4]), Wide(s[i + 5]), Wide(s[i + 6]), Wide(s[i + 7]));
    HasSpecialIs(LoadWord(s, i));
  }

  // ---- strings ----

  /** The second byte of an escape. */
  function Letter(b: byte): byte
    requires IsSpecial(b)
  {
    if b == 0x0A then 0x6E else if b == 0x0D then 0x72 else if b == 0x09 then 0x74 else b
  }

  function EscapeByte(b: byte): seq<byte> {
    if IsSpecial(b) then [BACKSLASH, Letter(b)] else [b]
  }

  /** Byte by byte. */
  function Escape(s: seq<byte>): seq<byte> {
    if s == [] then [] else Escape(s[..|s| - 1]) + EscapeByte(s[|s| - 1])
  }

  function Quoted(s: seq<byte>): seq<byte> {
    [QUOTE] + Escape(s) + [QUOTE]
  }

  lemma {:induction false} EscapeStep(s: seq<byte>, i: nat)
    requires i < |s|
    ensures Escape(s[..i + 1]) == Escape(s[..i]) + EscapeByte(s[i])
  {
    assert s[..i + 1][..i] == s[..i];
  }

  /** What the hash has been fed. */
  class Stream {
    var data: seq<byte>

    constructor ()
      ensures data == []
    {
      data := [];
    }

    method Write(b: seq<byte>)
      modifies this
      ensures data == old(data) + b
    {
      data := data + b;
    }
  }

  /** All but the clean bytes since `start` has been appended. */
  ghost predicate Caught(dst: seq<byte>, front: seq<byte>, s: seq<byte>, start: nat, i: nat) {
    start <= i <= |s| && dst + s[start..i] == front + Escape(s[..i])
  }

  lemma {:induction false} CaughtClean(dst: seq<byte>, front: seq<byte>, s: seq<byte>, start: nat, i: nat)
    requires Caught(dst, front, s, start, i) && i < |s| && !IsSpecial(s[i])
    ensures Caught(dst, front, s, start, i + 1)
  {
    hide Escape;
    EscapeStep(s, i);
    assert s[start..i + 1] == s[start..i] + [s[i]];
    assert dst + s[start..i + 1] == (dst + s[start..i]) + [s[i]];
    assert front + Escape(s[..i + 1]) == (front + Escape(s[..i])) + [s[i]];
  }

  lemma {:induction false} CaughtClean8(dst: seq<byte>, front: seq<byte>, s: seq<byte>, start: nat, i: nat, n: nat)
    requires Caught(dst, front, s, start, i) && i + n <= |s|
    requires forall k :: i <= k < i + n ==> !IsSpecial(s[k])
    ensures Caught(dst, front, s, start, i + n)
    decreases n
  {
    hide Caught, IsSpecial;
    if n > 0 {
      CaughtClean(dst, front, s, start, i);
      CaughtClean8(dst, front, s, start, i + 1, n - 1);
    }
  }

  lemma {:induction false} CaughtSpecial(dst: seq<byte>, front: seq<byte>, s: seq<byte>, start: nat, i: nat)
    requires Caught(dst, front, s, start, i) && i < |s| && IsSpecial(s[i])
    ensures Caught(dst + s[start..i] + [BACKSLASH, Letter(s[i])], front, s, i + 1, i + 1)
  {
    hide Escape;
    EscapeStep(s, i);
    assert s[i + 1..i + 1] == [];
    var letter := [BACKSLASH, Letter(s[i])];
    assert (dst + s[start..i] + letter) + s[i + 1..i + 1] == (dst + s[start..i]) + letter;
    assert front + Escape(s[..i + 1]) == (front + Escape(s[..i])) + letter;
  }

  /** Appends one byte, or puts it off. */
  method StepByte(dst0: seq<byte>, ghost front: seq<byte>, s: seq<byte>, start0: nat, i: nat)
    returns (dst: seq<byte>, start: nat)
    requires Caught(dst0, front, s, start0, i) && i < |s|
    ensures Caught(dst, front, s, start, i + 1)
  {
    hide Caught;
    dst, start := dst0, start0;
    InOrder(dst0, front, s, start0, i);
    if IsSpecial(s[i]) {
      CaughtSpecial(dst, front, s, start, i);
      dst := dst + s[start..i];
      dst := dst + [BACKSLASH, Letter(s[i])];
      start := i + 1;
    } else {
      CaughtClean(dst, front, s, start, i);
    }
  }

  lemma {:induction false} InOrder(dst: seq<byte>, front: seq<byte>, s: seq<byte>, start: nat, i: nat)
    requires Caught(dst, front, s, start, i)
    ensures start <= i <= |s|
  {
  }

  /** `appendJSONString`: words without specials are passed over, others byte by byte. */
  method AppendJSONString(dst0: seq<byte>, s: seq<byte>) returns (dst: seq<byte>)
    ensures dst == dst0 + Quoted(s)
  {
    hide Caught, HasSpecial, LoadWord, Escape;
    dst := dst0 + [QUOTE];
    ghost var front := dst;
    CaughtStart(front, s);
    var n := |s|;
    if n == 0 {
      assert s == [];
      EscapeNone();
      return dst + [QUOTE];
    }
    var start: nat, i: nat := 0, 0;
    while i + 8 <= n
      invariant i <= n && Caught(dst, front, s, start, i)
    {
      WordIsClean(s, i);
      if HasSpecial(LoadWord(s, i)) {
        var end := i + 8;
        while i < end
          invariant i <= end <= n && Caught(dst, front, s, start, i)
        {
          dst, start := StepByte(dst, front, s, start, i);
          i := i + 1;
        }
      } else {
        CaughtClean8(dst, front, s, start, i, 8);
        i := i + 8;
      }
    }
    while i < n
      invariant i <= n && Caught(dst, front, s, start, i)
    {
      dst, start := StepByte(dst, front, s, start, i);
      i := i + 1;
    }
    CaughtEnd(dst, front, s, start);
    dst := dst + s[start..];
    assert dst + [QUOTE] == dst0 + ([QUOTE] + Escape(s) + [QUOTE]);
    dst := dst + [QUOTE];
  }

  lemma {:induction false} EscapeNone()
    ensures Escape([]) == []
  {
  }

  lemma {:induction false} CaughtStart(front: seq<byte>, s: seq<byte>)
    ensures Caught(front, front, s, 0, 0)
  {
  }

  lemma {:induction false} CaughtEnd(dst: seq<byte>, front: seq<byte>, s: seq<byte>, start: nat)
    requires Caught(dst, front, s, start, |s|)
    ensures start <= |s| && dst + s[start..] == front + Escape(s)
  {
    assert s[..|s|] == s && s[start..|s|] == s[start..];
  }

  /** Feeds one byte to the hash, or puts it off. */
  method StreamByte(h: Stream, ghost front: seq<byte>, s: seq<byte>, start0: nat, i: nat) returns (start: nat)
    requires Caught(h.data, front, s, start0, i) && i < |s|
    modifies h
    ensures Caught(h.data, front, s, start, i + 1)
  {
    hide Caught;
    start := start0;
    InOrder(h.data, front, s, start0, i);
    if IsSpecial(s[i]) {
      CaughtSpecial(h.data, front, s, start, i);
      if i > start {
        h.Write(s[start..i]);
      } else {
        assert h.data + s[start..i] == h.data;
      }
      h.Write([BACKSLASH, Letter(s[i])]);
      start := i + 1;
    } else {
      CaughtClean(h.data, front, s, start, i);
    }
  }

  /** `writeJSONString` feeds the hash what `appendJSONString` appends. */
  method WriteJSONString(h: Stream, s: seq<byte>)
    modifies h
    ensures h.data == old(h.data) + Quoted(s)
  {
    hide Caught, HasSpecial, LoadWord, Escape;
    h.Write([QUOTE]);
    ghost var front := h.data;
    CaughtStart(front, s);
    var n := |s|;
    if n == 0 {
      assert s == [];
      EscapeNone();
      h.Write([QUOTE]);
      return;
    }
    var start: nat, i: nat := 0, 0;
    while i + 8 <= n
      invariant i <= n && Caught(h.data, front, s, start, i)
    {
      WordIsClean(s, i);
      if HasSpecial(LoadWord(s, i)) {
        var end := i + 8;
        while i < end
          invariant i <= end <= n && Caught(h.data, front, s, start, i)
        {
          start := StreamByte(h, front, s, start, i);
          i := i + 1;
        }
      } else {
        CaughtClean8(h.data, front, s, start, i, 8);
        i := i + 8;
      }
    }
    while i < n
      invariant i <= n && Caught(h.data, front, s, start, i)
    {
      start := StreamByte(h, front, s, start, i);
      i := i + 1;
    }
    CaughtEnd(h.data, front, s, start);
    if start < n {
      h.Write(s[start..]);
    } else {
      assert h.data + s[start..] == h.data;
    }
    h.Write([QUOTE]);
    assert h.data == old(h.data) + ([QUOTE] + Escape(s) + [QUOTE]);
  }

  // ---- numbers, keys and tags ----

  function Digits(n: nat): seq<byte> {
    if n < 10 then [0x30 + n] else Digits(n / 10) + [0x30 + n % 10]
  }

  /** `strconv.AppendInt`. */
  function Decimal(n: int): seq<byte> {
    if n < 0 then [0x2D] + Digits(-n) else Digits(n)
  }

  function HexDigit(n: nat): byte
    requires n < 16
  {
    if n < 10 then 0x30 + n else 0x61 + n - 10
  }

  function Hex(b: seq<byte>): seq<byte> {
    if b == [] then [] else Hex(b[..|b| - 1]) + [HexDigit(b[|b| - 1] / 16), HexDigit(b[|b| - 1] % 16)]
  }

  function Separator(first: bool): seq<byte> {
    if first then [] else [COMMA]
  }

  /** The items of a tag from some point on, and the end of the tag. */
  function ItemsTail(items: seq<Str>, first: bool): seq<byte> {
    if items == [] then [CLOSE] else Separator(first) + Quoted(items[0]) + ItemsTail(items[1..], false)
  }

  function TagsTail(tags: seq<Tag>, first: bool): seq<byte> {
    if tags == [] then [CLOSE]
    else Separator(first) + [OPEN] + ItemsTail(tags[0], true) + TagsTail(tags[1..], false)
  }

  const START: seq<byte> := [OPEN, 0x30, COMMA, QUOTE]

  /** `[0,"<pubkey>",<created_at>,<kind>,<tags>,<content>]`. */
  function Serialize(ev: Event): seq<byte> {
    START + Hex(ev.pubkey) + [QUOTE, COMMA] + Decimal(ev.createdAt) + [COMMA] + Digits(ev.kind) + [COMMA]
    + [OPEN] + TagsTail(ev.tags, true) + [COMMA] + Quoted(ev.content) + [CLOSE]
  }

  lemma {:induction false} ItemsStep(items: seq<Str>, i: nat, out: seq<byte>)
    requires i < |items|
    ensures out + ItemsTail(items[i..], i == 0) ==
            out + Separator(i == 0) + Quoted(items[i]) + ItemsTail(items[i + 1..], false)
  {
    hide Quoted;
    assert items[i..][1..] == items[i + 1..];
  }

  method AppendTag(dst0: seq<byte>, tag: Tag) returns (dst: seq<byte>)
    ensures dst == dst0 + [OPEN] + ItemsTail(tag, true)
  {
    hide Quoted, ItemsTail;
    dst := dst0 + [OPEN];
    assert tag[0..] == tag;
    var i := 0;
    while i < |tag|
      invariant 0 <= i <= |tag|
      invariant dst + ItemsTail(tag[i..], i == 0) == dst0 + [OPEN] + ItemsTail(tag, true)
    {
      ItemsStep(tag, i, dst);
      if i > 0 {
        dst := dst + [COMMA];
      }
      dst := AppendJSONString(dst, tag[i]);
      i := i + 1;
    }
    TailEnds(tag);
    dst := dst + [CLOSE];
  }

  lemma {:induction false} TailEnds<T>(items: seq<T>)
    ensures items[|items|..] == []
    ensures ItemsTail([], true) == [CLOSE] && ItemsTail([], false) == [CLOSE]
    ensures TagsTail([], true) == [CLOSE] && TagsTail([], false) == [CLOSE]
  {
  }

  lemma {:induction false} TagsStep(tags: seq<Tag>, i: nat, out: seq<byte>)
    requires i < |tags|
    ensures out + TagsTail(tags[i..], i == 0) ==
            out + Separator(i == 0) + [OPEN] + ItemsTail(tags[i], true) + TagsTail(tags[i + 1..], false)
  {
    hide ItemsTail;
    assert tags[i..][1..] == tags[i + 1..];
  }

  /** `appendSerialized`. */
  method AppendSerialized(dst0: seq<byte>, ev: Event) returns (dst: seq<byte>)
    ensures dst == dst0 + Serialize(ev)
  {
    hide Quoted, ItemsTail, TagsTail, Hex, Digits, Decimal;
    dst := dst0 + START + Hex(ev.pubkey) + [QUOTE, COMMA];
    dst := dst + Decimal(ev.createdAt) + [COMMA];
    dst := dst + Digits(ev.kind) + [COMMA];
    dst := AppendTags(dst, ev.tags);
    dst := dst + [COMMA];
    dst := AppendJSONString(dst, ev.content);
    dst := dst + [CLOSE];
    Joined(dst0, START, Hex(ev.pubkey), [QUOTE, COMMA], Decimal(ev.createdAt), [COMMA], Digits(ev.kind), [COMMA],
           [OPEN] + TagsTail(ev.tags, true), [COMMA], Quoted(ev.content), [CLOSE]);
  }

  method AppendTags(dst0: seq<byte>, tags: seq<Tag>) returns (dst: seq<byte>)
    ensures dst == dst0 + ([OPEN] + TagsTail(tags, true))
  {
    hide ItemsTail, TagsTail;
    dst := dst0 + [OPEN];
    assert tags[0..] == tags;
    var i := 0;
    while i < |tags|
      invariant 0 <= i <= |tags|
      invariant dst + TagsTail(tags[i..], i == 0) == dst0 + [OPEN] + TagsTail(tags, true)
    {
      TagsStep(tags, i, dst);
      if i > 0 {
        dst := dst + [COMMA];
      }
      dst := AppendTag(dst, tags[i]);
      i := i + 1;
    }
    TailEnds(tags);
    dst := dst + [CLOSE];
  }

  /** Pieces appended one by one are the pieces appended together. */
  lemma {:induction false} Joined(z: seq<byte>, a: seq<byte>, b: seq<byte>, c: seq<byte>, d: seq<byte>, e: seq<byte>,
                                  f: seq<byte>, g: seq<byte>, h: seq<byte>, i: seq<byte>, j: seq<byte>, k: seq<byte>)
    ensures z + a + b + c + d + e + f + g + h + i + j + k == z + (a + b + c + d + e + f + g + h + i + j + k)
  {
  }

  method WriteTag(h: Stream, tag: Tag)
    modifies h
    ensures h.data == old(h.data) + [OPEN] + ItemsTail(tag, true)
  {
    hide Quoted, ItemsTail;
    h.Write([OPEN]);
    assert tag[0..] == tag;
    var i := 0;
    while i < |tag|
      invariant 0 <= i <= |tag|
      invariant h.data + ItemsTail(tag[i..], i == 0) == old(h.data) + [OPEN] + ItemsTail(tag, true)
    {
      ItemsStep(tag, i, h.data);
      if i > 0 {
        h.Write([COMMA]);
      }
      WriteJSONString(h, tag[i]);
      i := i + 1;
    }
    TailEnds(tag);
    h.Write([CLOSE]);
  }

  method WriteTags(h: Stream, tags: seq<Tag>)
    modifies h
    ensures h.data == old(h.data) + ([OPEN] + TagsTail(tags, true))
  {
    hide ItemsTail, TagsTail;
    h.Write([OPEN]);
    assert tags[0..] == tags;
    var i := 0;
    while i < |tags|
      invariant 0 <= i <= |tags|
      invariant h.data + TagsTail(tags[i..], i == 0) == old(h.data) + [OPEN] + TagsTail(tags, true)
    {
      TagsStep(tags, i, h.data);
      if i > 0 {
        h.Write([COMMA]);
      }
      WriteTag(h, tags[i]);
      i := i + 1;
    }
    TailEnds(tags);
    h.Write([CLOSE]);
  }

  /** `serializedHash`: the stream that is hashed into the id is the serialization. */
  method SerializedHash(ev: Event) returns (h: Stream)
    ensures fresh(h) && h.data == Serialize(ev)
  {
    hide Quoted, ItemsTail, TagsTail, Hex, Digits, Decimal;
    h := new Stream();
    h.Write(START);
    h.Write(Hex(ev.pubkey));
    h.Write([QUOTE, COMMA]);
    h.Write(Decimal(ev.createdAt));
    h.Write([COMMA]);
    h.Write(Digits(ev.kind));
    h.Write([COMMA]);
    WriteTags(h, ev.tags);
    h.Write([COMMA]);
    WriteJSONString(h, ev.content);
    h.Write([CLOSE]);
    Joined([], START, Hex(ev.pubkey), [QUOTE, COMMA], Decimal(ev.createdAt), [COMMA], Digits(ev.kind), [COMMA],
           [OPEN] + TagsTail(ev.tags, true), [COMMA], Quoted(ev.content), [CLOSE]);
    Assembled(ev, [OPEN] + TagsTail(ev.tags, true));
  }

  lemma {:induction false} Assembled(ev: Event, tags: seq<byte>)
    requires tags == [OPEN] + TagsTail(ev.tags, true)
    ensures START + Hex(ev.pubkey) + [QUOTE, COMMA] + Decimal(ev.createdAt) + [COMMA] + Digits(ev.kind) + [COMMA]
            + tags + [COMMA] + Quoted(ev.content) + [CLOSE] == Serialize(ev)
  {
    hide Quoted, TagsTail, Hex, Digits, Decimal;
  }

  // ---- nothing is lost ----

  lemma {:induction false} EscapeFront(s: seq<byte>)
    requires s != []
    ensures Escape(s) == EscapeByte(s[0]) + Escape(s[1..])
  {
    if |s| > 1 {
      EscapeFront(s[..|s| - 1]);
      assert s[..|s| - 1][1..] == s[1..][..|s| - 2];
    }
  }

  /** What an escaped byte starts with, and that it is read back unambiguously. */
  lemma {:induction false} EscapeByteCancel(a: byte, b: byte, x: seq<byte>, y: seq<byte>)
    requires EscapeByte(a) + x == EscapeByte(b) + y
    ensures a == b && x == y
  {
    var u, v := EscapeByte(a) + x, EscapeByte(b) + y;
    assert u[0] == EscapeByte(a)[0] && v[0] == EscapeByte(b)[0];
    assert IsSpecial(a) ==> u[1] == Letter(a);
    assert IsSpecial(b) ==> v[1] == Letter(b);
    assert x == u[|EscapeByte(a)|..] && y == v[|EscapeByte(b)|..];
  }

  lemma {:induction false} EscapeStarts(a: byte, x: seq<byte>)
    ensures (EscapeByte(a) + x)[0] != QUOTE
  {
  }

  /** A quote comes first exactly when nothing is left of the string. */
  lemma {:induction false} QuoteEnds(s: seq<byte>, x: seq<byte>)
    ensures (Escape(s) + [QUOTE] + x)[0] == QUOTE <==> s == []
  {
    hide EscapeByte;
    if s != [] {
      EscapeFront(s);
      EscapeStarts(s[0], Escape(s[1..]) + [QUOTE] + x);
      assert Escape(s) + [QUOTE] + x == EscapeByte(s[0]) + (Escape(s[1..]) + [QUOTE] + x);
    }
  }

  /** The closing quote of an escaped string is recognised. */
  lemma {:induction false} EscapeCancel(s: seq<byte>, t: seq<byte>, x: seq<byte>, y: seq<byte>)
    requires Escape(s) + [QUOTE] + x == Escape(t) + [QUOTE] + y
    ensures s == t && x == y
    decreases |s|
  {
    hide EscapeByte;
    QuoteEnds(s, x);
    QuoteEnds(t, y);
    if s == [] {
      EscapeNone();
      assert [] + [QUOTE] + x == [QUOTE] + x && [] + [QUOTE] + y == [QUOTE] + y;
      FrontCancel([QUOTE], [QUOTE], x, y);
    } else {
      EscapeFront(s);
      EscapeFront(t);
      assert Escape(s) + [QUOTE] + x == EscapeByte(s[0]) + (Escape(s[1..]) + [QUOTE] + x);
      assert Escape(t) + [QUOTE] + y == EscapeByte(t[0]) + (Escape(t[1..]) + [QUOTE] + y);
      EscapeByteCancel(s[0], t[0], Escape(s[1..]) + [QUOTE] + x, Escape(t[1..]) + [QUOTE] + y);
      EscapeCancel(s[1..], t[1..], x, y);
      assert s == [s[0]] + s[1..] && t == [t[0]] + t[1..];
    }
  }

  lemma {:induction false} QuotedCancel(s: seq<byte>, t: seq<byte>, x: seq<byte>, y: seq<byte>)
    requires Quoted(s) + x == Quoted(t) + y
    ensures s == t && x == y
  {
    hide Escape;
    assert (Quoted(s) + x)[1..] == Escape(s) + [QUOTE] + x;
    assert (Quoted(t) + y)[1..] == Escape(t) + [QUOTE] + y;
    EscapeCancel(s, t, x, y);
  }

  /** Equal lengths in front can be taken off. */
  lemma {:induction false} FrontCancel(a: seq<byte>, b: seq<byte>, x: seq<byte>, y: seq<byte>)
    requires |a| == |b| && a + x == b + y
    ensures a == b && x == y
  {
    assert a == (a + x)[..|a|] && b == (b + y)[..|b|];
    assert x == (a + x)[|a|..] && y == (b + y)[|b|..];
  }

  lemma {:induction false} ItemsCancel(s: seq<Str>, t: seq<Str>, first: bool, x: seq<byte>, y: seq<byte>)
    requires ItemsTail(s, first) + x == ItemsTail(t, first) + y
    ensures s == t && x == y
    decreases |s|
  {
    hide Quoted;
    var u, v := ItemsTail(s, first) + x, ItemsTail(t, first) + y;
    ItemsStart(s, first, x);
    ItemsStart(t, first, y);
    if s == [] {
      FrontCancel([CLOSE], [CLOSE], x, y);
    } else {
      var sep := Separator(first);
      assert u == sep + (Quoted(s[0]) + (ItemsTail(s[1..], false) + x));
      assert v == sep + (Quoted(t[0]) + (ItemsTail(t[1..], false) + y));
      FrontCancel(sep, sep, Quoted(s[0]) + (ItemsTail(s[1..], false) + x),
                  Quoted(t[0]) + (ItemsTail(t[1..], false) + y));
      QuotedCancel(s[0], t[0], ItemsTail(s[1..], false) + x, ItemsTail(t[1..], false) + y);
      ItemsCancel(s[1..], t[1..], false, x, y);
      assert s == [s[0]] + s[1..] && t == [t[0]] + t[1..];
    }
  }

  /** The first byte tells an item from the end. */
  lemma {:induction false} ItemsStart(s: seq<Str>, first: bool, x: seq<byte>)
    ensures (ItemsTail(s, first) + x)[0] == if s == [] then CLOSE else if first then QUOTE else COMMA
  {
    if s != [] {
      assert Quoted(s[0])[0] == QUOTE;
    }
  }

  lemma {:induction false} TagsStart(s: seq<Tag>, first: bool, x: seq<byte>)
    ensures (TagsTail(s, first) + x)[0] == if s == [] then CLOSE else if first then OPEN else COMMA
  {
  }

  lemma {:induction false} TagsCancel(s: seq<Tag>, t: seq<Tag>, first: bool, x: seq<byte>, y: seq<byte>)
    requires TagsTail(s, first) + x == TagsTail(t, first) + y
    ensures s == t && x == y
    decreases |s|
  {
    hide ItemsTail;
    var u, v := TagsTail(s, first) + x, TagsTail(t, first) + y;
    TagsStart(s, first, x);
    TagsStart(t, first, y);
    if s == [] {
      FrontCancel([CLOSE], [CLOSE], x, y);
    } else {
      var sep := Separator(first) + [OPEN];
      assert u == sep + (ItemsTail(s[0], true) + (TagsTail(s[1..], false) + x));
      assert v == sep + (ItemsTail(t[0], true) + (TagsTail(t[1..], false) + y));
      FrontCancel(sep, sep, ItemsTail(s[0], true) + (TagsTail(s[1..], false) + x),
                  ItemsTail(t[0], true) + (TagsTail(t[1..], false) + y));
      ItemsCancel(s[0], t[0], true, TagsTail(s[1..], false) + x, TagsTail(t[1..], false) + y);
      TagsCancel(s[1..], t[1..], false, x, y);
      assert s == [s[0]] + s[1..] && t == [t[0]] + t[1..];
    }
  }

  function FromDigits(b: seq<byte>): int {
    if b == [] then 0 else 10 * FromDigits(b[..|b| - 1]) + b[|b| - 1] - 0x30
  }

  lemma {:induction false} DigitsReadBack(n: nat)
    ensures FromDigits(Digits(n)) == n
    ensures Digits(n) != [] && forall i :: 0 <= i < |Digits(n)| ==> 0x30 <= Digits(n)[i] <= 0x39
  {
    if n >= 10 {
      DigitsReadBack(n / 10);
      assert Digits(n)[..|Digits(n)| - 1] == Digits(n / 10);
    } else {
      assert Digits(n)[..0] == [];
      assert FromDigits([]) == 0;
    }
  }

  function FirstComma(u: seq<byte>): nat {
    if u == [] || u[0] == COMMA then 0 else 1 + FirstComma(u[1..])
  }

  lemma {:induction false} FirstCommaIs(a: seq<byte>, x: seq<byte>)
    requires COMMA !in a
    ensures FirstComma(a + [COMMA] + x) == |a|
  {
    if a != [] {
      assert (a + [COMMA] + x)[1..] == a[1..] + [COMMA] + x;
      FirstCommaIs(a[1..], x);
    }
  }

  /** The first comma ends both. */
  lemma {:induction false} CommaCancel(a: seq<byte>, b: seq<byte>, x: seq<byte>, y: seq<byte>)
    requires a + [COMMA] + x == b + [COMMA] + y && COMMA !in a && COMMA !in b
    ensures a == b && x == y
  {
    var u, v := a + [COMMA] + x, b + [COMMA] + y;
    FirstCommaIs(a, x);
    FirstCommaIs(b, y);
    assert u == a + ([COMMA] + x) && v == b + ([COMMA] + y);
    FrontCancel(a, b, [COMMA] + x, [COMMA] + y);
    FrontCancel([COMMA], [COMMA], x, y);
  }

  lemma {:induction false} DecimalInjective(m: int, n: int)
    ensures COMMA !in Decimal(m)
    ensures Decimal(m) == Decimal(n) ==> m == n
  {
    DigitsReadBack(if m < 0 then -m else m);
    DigitsReadBack(if n < 0 then -n else n);
    hide Digits;
    assert m < 0 ==> Decimal(m)[0] == 0x2D && Decimal(m)[1..] == Digits(-m);
    assert n < 0 ==> Decimal(n)[0] == 0x2D && Decimal(n)[1..] == Digits(-n);
  }

  lemma {:induction false} HexInjective(a: seq<byte>, b: seq<byte>)
    ensures |Hex(a)| == 2 * |a|
    ensures |a| == |b| && Hex(a) == Hex(b) ==> a == b
  {
    HexIs(a);
    HexIs(b);
    hide Hex;
    if |a| == |b| && Hex(a) == Hex(b) {
      forall i | 0 <= i < |a| ensures a[i] == b[i] {
        PairIs(a, i);
        PairIs(b, i);
        LettersInjective(a[i], b[i]);
      }
    }
  }

  lemma {:induction false} PairIs(b: seq<byte>, i: nat)
    requires i < |b|
    ensures StandardHex(b)[2 * i] == HexLetter(b[i] / 16) && StandardHex(b)[2 * i + 1] == HexLetter(b[i] % 16)
  {
  }

  lemma {:induction false} LettersInjective(a: byte, b: byte)
    requires HexLetter(a / 16) == HexLetter(b / 16) && HexLetter(a % 16) == HexLetter(b % 16)
    ensures a == b
  {
  }

  /** Events with the same serialization differ in nothing but the id. */
  lemma {:induction false} SerializationInjective(a: Event, b: Event)
    requires Serialize(a) == Serialize(b)
    ensures a.pubkey == b.pubkey && a.createdAt == b.createdAt && a.kind == b.kind && a.tags == b.tags
            && a.content == b.content
  {
    hide Quoted, TagsTail, Hex, Digits, Decimal;
    HexInjective(a.pubkey, b.pubkey);
    HexInjective(b.pubkey, a.pubkey);
    var fa, fb := START + Hex(a.pubkey) + [QUOTE, COMMA], START + Hex(b.pubkey) + [QUOTE, COMMA];
    var a4, b4 := Quoted(a.content) + [CLOSE], Quoted(b.content) + [CLOSE];
    var a3, b3 := TagsTail(a.tags, true) + ([COMMA] + a4), TagsTail(b.tags, true) + ([COMMA] + b4);
    var a2, b2 := Digits(a.kind) + [COMMA] + ([OPEN] + a3), Digits(b.kind) + [COMMA] + ([OPEN] + b3);
    var a1, b1 := Decimal(a.createdAt) + [COMMA] + a2, Decimal(b.createdAt) + [COMMA] + b2;
    assert Serialize(a) == fa + a1 && Serialize(b) == fb + b1 by {
      Nested(a);
      Nested(b);
    }
    FrontCancel(fa, fb, a1, b1);
    assert Hex(a.pubkey) == fa[4..4 + |Hex(a.pubkey)|] && Hex(b.pubkey) == fb[4..4 + |Hex(b.pubkey)|];
    DecimalInjective(a.createdAt, b.createdAt);
    DecimalInjective(b.createdAt, a.createdAt);
    CommaCancel(Decimal(a.createdAt), Decimal(b.createdAt), a2, b2);
    KindInjective(a.kind, b.kind);
    KindInjective(b.kind, a.kind);
    CommaCancel(Digits(a.kind), Digits(b.kind), [OPEN] + a3, [OPEN] + b3);
    FrontCancel([OPEN], [OPEN], a3, b3);
    TagsCancel(a.tags, b.tags, true, [COMMA] + a4, [COMMA] + b4);
    FrontCancel([COMMA], [COMMA], a4, b4);
    QuotedCancel(a.content, b.content, [CLOSE], [CLOSE]);
  }

  lemma {:induction false} KindInjective(m: nat, n: nat)
    ensures COMMA !in Digits(m)
    ensures Digits(m) == Digits(n) ==> m == n
  {
    DigitsReadBack(m);
    DigitsReadBack(n);
  }

  lemma {:induction false} Nested(ev: Event)
    ensures Serialize(ev) ==
            (START + Hex(ev.pubkey) + [QUOTE, COMMA])
            + (Decimal(ev.createdAt) + [COMMA]
               + (Digits(ev.kind) + [COMMA]
                  + ([OPEN] + (TagsTail(ev.tags, true) + ([COMMA] + (Quoted(ev.content) + [CLOSE]))))))
  {
    hide Quoted, TagsTail, Hex, Digits, Decimal;
  }

  // ---- the standard's escapes ----

  /** The escapes of NIP-01 in numbers: line feed, quote, backslash, carriage return, tab, backspace, form feed. */
  function StandardByte(b: byte): seq<byte> {
    if b == 0x0A then [0x5C, 0x6E]
    else if b == 0x22 then [0x5C, 0x22]
    else if b == 0x5C then [0x5C, 0x5C]
    else if b == 0x0D then [0x5C, 0x72]
    else if b == 0x09 then [0x5C, 0x74]
    else if b == 0x08 then [0x5C, 0x62]
    else if b == 0x0C then [0x5C, 0x66]
    else [b]
  }

  lemma {:induction false} EscapeByteIs(b: byte)
    ensures EscapeByte(b) == if b == 0x08 || b == 0x0C then [b] else StandardByte(b)
  {
  }

  function StandardEscape(s: seq<byte>): seq<byte> {
    if s == [] then [] else StandardEscape(s[..|s| - 1]) + StandardByte(s[|s| - 1])
  }

  /** The code writes what NIP-01 asks for exactly when no byte is a backspace or a form feed. */
  lemma {:induction false} EscapeMeetsStandardIff(s: seq<byte>)
    ensures |Escape(s)| <= |StandardEscape(s)|
    ensures |Escape(s)| == |StandardEscape(s)| <==> 0x08 !in s && 0x0C !in s
    ensures Escape(s) == StandardEscape(s) <==> 0x08 !in s && 0x0C !in s
  {
    if s != [] {
      EscapeMeetsStandardIff(s[..|s| - 1]);
      assert s == s[..|s| - 1] + [s[|s| - 1]];
    }
  }

  // ---- the standard's serialization ----

  function StandardQuoted(s: seq<byte>): seq<byte> {
    [0x22] + StandardEscape(s) + [0x22]
  }

  function StandardItems(items: seq<Str>, first: bool): seq<byte> {
    if items == [] then [0x5D]
    else (if first then [] else [0x2C]) + StandardQuoted(items[0]) + StandardItems(items[1..], false)
  }

  function StandardTags(tags: seq<Tag>, first: bool): seq<byte> {
    if tags == [] then [0x5D]
    else (if first then [] else [0x2C]) + [0x5B] + StandardItems(tags[0], true) + StandardTags(tags[1..], false)
  }

  /** The letter of a hexadecimal digit, in lower case. */
  function HexLetter(n: nat): int {
    if n <= 9 then 0x30 + n else 0x57 + n
  }

  /** The bytes of a key as pairs of hexadecimal digits. */
  function StandardHex(b: seq<byte>): seq<byte> {
    seq(2 * |b|, i requires 0 <= i < 2 * |b| => HexLetter(if i % 2 == 0 then b[i / 2] / 16 else b[i / 2] % 16))
  }

  lemma {:induction false} HexIs(b: seq<byte>)
    ensures Hex(b) == StandardHex(b)
  {
    if b != [] {
      var front, last := b[..|b| - 1], b[|b| - 1];
      HexIs(front);
      var n := 2 * |front|;
      assert Hex(b) == StandardHex(front) + [HexDigit(last / 16), HexDigit(last % 16)];
      forall i | 0 <= i < n + 2 ensures Hex(b)[i] == StandardHex(b)[i] {
        if i < n {
          assert front[i / 2] == b[i / 2];
        }
      }
    }
  }

  /** Digits of which the first is not zero, unless it is the only one. */
  predicate IsNumeral(b: seq<byte>) {
    b != [] && (forall i :: 0 <= i < |b| ==> 0x30 <= b[i] <= 0x39) && (|b| > 1 ==> b[0] != 0x30)
  }

  lemma {:induction false} DigitsAre(n: nat)
    ensures IsNumeral(Digits(n)) && FromDigits(Digits(n)) == n
    ensures n > 0 ==> Digits(n)[0] != 0x30
  {
    DigitsReadBack(n);
    if n >= 10 {
      DigitsAre(n / 10);
    }
  }

  /** What NIP-01 hashes into the id of an event. */
  function StandardSerialize(ev: Event): seq<byte> {
    [0x5B, 0x30, 0x2C, 0x22] + StandardHex(ev.pubkey) + [0x22, 0x2C] + Decimal(ev.createdAt) + [0x2C] + Digits(ev.kind)
    + [0x2C, 0x5B] + StandardTags(ev.tags, true) + [0x2C] + StandardQuoted(ev.content) + [0x5D]
  }

  lemma {:induction false} DecimalIs(n: int)
    ensures n >= 0 ==> IsNumeral(Decimal(n)) && FromDigits(Decimal(n)) == n
    ensures n < 0 ==> Decimal(n)[0] == 0x2D && IsNumeral(Decimal(n)[1..]) && FromDigits(Decimal(n)[1..]) == -n
  {
    DigitsAre(if n < 0 then -n else n);
    assert n < 0 ==> Decimal(n)[1..] == Digits(-n);
  }

  predicate NoControls(s: Str) {
    0x08 !in s && 0x0C !in s
  }

  predicate NoneInItems(items: seq<Str>) {
    forall i :: 0 <= i < |items| ==> NoControls(items[i])
  }

  predicate NoneInTags(tags: seq<Tag>) {
    forall i :: 0 <= i < |tags| ==> NoneInItems(tags[i])
  }

  lemma {:induction false} ItemsMeetStandardIff(items: seq<Str>, first: bool)
    ensures |ItemsTail(items, first)| <= |StandardItems(items, first)|
    ensures |ItemsTail(items, first)| == |StandardItems(items, first)| <==> NoneInItems(items)
    ensures NoneInItems(items) ==> ItemsTail(items, first) == StandardItems(items, first)
    decreases |items|
  {
    hide Escape, StandardEscape, NoControls;
    if items != [] {
      QuotedMeetsStandardIff(items[0]);
      ItemsMeetStandardIff(items[1..], false);
      assert NoneInItems(items) <==> NoControls(items[0]) && NoneInItems(items[1..]) by {
        assert items == [items[0]] + items[1..];
      }
    }
  }

  lemma {:induction false} QuotedMeetsStandardIff(s: Str)
    ensures |Quoted(s)| <= |StandardQuoted(s)|
    ensures |Quoted(s)| == |StandardQuoted(s)| <==> NoControls(s)
    ensures NoControls(s) ==> Quoted(s) == StandardQuoted(s)
  {
    EscapeMeetsStandardIff(s);
  }

  lemma {:induction false} TagsMeetStandardIff(tags: seq<Tag>, first: bool)
    ensures |TagsTail(tags, first)| <= |StandardTags(tags, first)|
    ensures |TagsTail(tags, first)| == |StandardTags(tags, first)| <==> NoneInTags(tags)
    ensures NoneInTags(tags) ==> TagsTail(tags, first) == StandardTags(tags, first)
    decreases |tags|
  {
    hide ItemsTail, StandardItems, NoneInItems;
    if tags != [] {
      ItemsMeetStandardIff(tags[0], true);
      TagsMeetStandardIff(tags[1..], false);
      assert NoneInTags(tags) <==> NoneInItems(tags[0]) && NoneInTags(tags[1..]) by {
        assert tags == [tags[0]] + tags[1..];
      }
    }
  }

  /** An event is serialized as NIP-01 asks exactly when no tag and not the content holds a backspace or form feed. */
  lemma {:induction false} SerializeMeetsStandardIff(ev: Event)
    ensures Serialize(ev) == StandardSerialize(ev) <==> NoneInTags(ev.tags) && NoControls(ev.content)
  {
    hide Quoted, StandardQuoted, TagsTail, StandardTags, NoneInTags, NoControls, Hex, StandardHex, Decimal, Digits;
    HexIs(ev.pubkey);
    TagsMeetStandardIff(ev.tags, true);
    QuotedMeetsStandardIff(ev.content);
  }
}
