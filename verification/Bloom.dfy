/**
 Content signatures (eventstore/pebbledb2/bloom.go): a 1024-bit bloom filter over the byte
 trigrams of lower-cased content. The filter never denies a pattern the content contains.
 */
module Bloom {
  import opened ByteStrings
  import opened AsciiText
  import opened NostrEvents

  const BLOOM_BYTES := 128
  const BLOOM_BITS := 1024
  const BLOOM_K := 4
  const MAX_SEARCH_GRAMS := 16

  const FNV_OFFSET: bv64 := 14695981039346656037
  const FNV_PRIME: bv64 := 1099511628211
  const FNV_OFFSET_ALT: bv64 := 0x9e3779b97f4a7c15

  type Gram = s: seq<byte> | |s| == 3 witness [0, 0, 0]

  function Fnv1a64(h: bv64, b: seq<byte>): bv64
    decreases |b|
  {
    if b == [] then h else Fnv1a64(FnvByte(h, Wide(b[0])), b[1..])
  }

  function Wide(b: byte): bv64 {
    b as bv64
  }

  function FnvByte(h: bv64, c: bv64): bv64 {
    (h ^ c) * FNV_PRIME
  }

  /** The `k`-th probe of a trigram. */
  function BitOf(g: Gram, k: nat): (bit: nat)
    requires k < BLOOM_K
    ensures bit < BLOOM_BITS
  {
    var h1, h2 := Fnv1a64(FNV_OFFSET, g), Fnv1a64(FNV_OFFSET_ALT, g);
    var bit := (h1 + (k as bv64) * h2) % 1024;
    bit as nat
  }

  function Bits(g: Gram, n: nat): set<nat>
    requires n <= BLOOM_K
  {
    set k | 0 <= k < n :: BitOf(g, k)
  }

  lemma {:induction false} WideLetters()
    ensures Wide(0x61) == 0x61 && Wide(0x62) == 0x62 && Wide(0x63) == 0x63
  {
  }

  lemma {:induction false} HashOfAbc(h: bv64)
    ensures Fnv1a64(h, [0x61, 0x62, 0x63]) == FnvByte(FnvByte(FnvByte(h, 0x61), 0x62), 0x63)
  {
    WideLetters();
    hide Wide, FnvByte;
    var s: seq<byte> := [0x61, 0x62, 0x63];
    assert s[1..] == [0x62, 0x63] && s[1..][1..] == [0x63];
  }

  /** The first hash is FNV-1a with 64 bits: of no bytes, and of "abc". */
  lemma {:induction false} FnvVectors()
    ensures Fnv1a64(FNV_OFFSET, []) == 0xcbf29ce484222325
    ensures Fnv1a64(FNV_OFFSET, [0x61, 0x62, 0x63]) == 0xe71fa2190541574b
    ensures Fnv1a64(FNV_OFFSET_ALT, [0x61, 0x62, 0x63]) == 0x09e0885c0c03d09b
  {
    HashOfAbc(FNV_OFFSET);
    HashOfAbc(FNV_OFFSET_ALT);
  }

  /** The four probes of "abc". */
  lemma {:induction false} ProbesOfAbc()
    ensures Bits([0x61, 0x62, 0x63], BLOOM_K) == {843, 998, 129, 284}
  {
    FnvVectors();
    hide Fnv1a64;
    var g: Gram := [0x61, 0x62, 0x63];
    assert BitOf(g, 0) == 843;
    assert BitOf(g, 1) == 998;
    assert BitOf(g, 2) == 129;
    assert BitOf(g, 3) == 284;
  }

  // ---- bits in a byte buffer ----

  /** The place of a bit in its byte. */
  function Mask(bit: nat): bv8 {
    (1 as bv8) << (bit % 8)
  }

  predicate HasBit(bloom: seq<bv8>, bit: nat)
    requires |bloom| == BLOOM_BYTES && bit < BLOOM_BITS
  {
    Shows(bloom[bit / 8], bit)
  }

  predicate Shows(x: bv8, bit: nat) {
    x & Mask(bit) != 0
  }

  function BitSet(bloom: seq<bv8>): set<nat>
    requires |bloom| == BLOOM_BYTES
  {
    set bit | 0 <= bit < BLOOM_BITS && HasBit(bloom, bit)
  }

  lemma {:induction false} MaskIs(bit: nat)
    ensures Mask(bit) == [1, 2, 4, 8, 16, 32, 64, 128][bit % 8]
  {
  }

  lemma {:induction false} MaskSets(x: bv8, bit: nat)
    ensures (x | Mask(bit)) & Mask(bit) != 0
  {
    ShiftSets(x, bit % 8);
  }

  lemma {:induction false} MaskKeeps(x: bv8, bit: nat, other: nat)
    requires bit % 8 != other % 8
    ensures (x | Mask(bit)) & Mask(other) == x & Mask(other)
  {
    ShiftKeeps(x, bit % 8, other % 8);
  }

  lemma {:induction false} ShiftSets(x: bv8, k: nat)
    requires k < 8
    ensures (x | ((1 as bv8) << k)) & ((1 as bv8) << k) != 0
  {
  }

  lemma {:induction false} ShiftKeeps(x: bv8, k: nat, j: nat)
    requires k < 8 && j < 8 && j != k
    ensures (x | ((1 as bv8) << k)) & ((1 as bv8) << j) == x & ((1 as bv8) << j)
  {
  }

  lemma {:induction false} SetBitSet(bloom: seq<bv8>, bit: nat)
    requires |bloom| == BLOOM_BYTES && bit < BLOOM_BITS
    ensures var after := bloom[bit / 8 := bloom[bit / 8] | Mask(bit)];
            BitSet(after) == BitSet(bloom) + {bit}
  {
    var after := bloom[bit / 8 := bloom[bit / 8] | Mask(bit)];
    forall b | 0 <= b < BLOOM_BITS ensures HasBit(after, b) <==> HasBit(bloom, b) || b == bit {
      SetBitIs(bloom, bit, b);
    }
    hide Mask, HasBit;
  }

  /** Setting one bit changes no other. */
  lemma {:induction false} SetBitIs(bloom: seq<bv8>, bit: nat, b: nat)
    requires |bloom| == BLOOM_BYTES && bit < BLOOM_BITS && b < BLOOM_BITS
    ensures var after := bloom[bit / 8 := bloom[bit / 8] | Mask(bit)];
            HasBit(after, b) <==> HasBit(bloom, b) || b == bit
  {
    hide Mask, Shows;
    if b / 8 == bit / 8 {
      ShowsAfter(bloom[bit / 8], bit, b);
    }
  }

  lemma {:induction false} ShowsAfter(x: bv8, bit: nat, b: nat)
    requires bit / 8 == b / 8
    ensures Shows(x | Mask(bit), b) <==> Shows(x, b) || b == bit
  {
    hide Mask;
    if b == bit {
      MaskSets(x, bit);
    } else {
      Places(bit, b);
      MaskKeeps(x, bit, b);
    }
  }

  lemma {:induction false} Places(a: nat, b: nat)
    requires a / 8 == b / 8 && a != b
    ensures a % 8 != b % 8
  {
  }

  lemma {:induction false} TestBit(bloom: seq<bv8>, bit: nat)
    requires |bloom| == BLOOM_BYTES && bit < BLOOM_BITS
    ensures bit in BitSet(bloom) <==> bloom[bit / 8] & Mask(bit) != 0
  {
  }

  /** Sets the bits of one trigram, and says whether any of them was new. */
  method BloomSetCount(bloom: array<bv8>, g: Gram) returns (added: bool)
    requires bloom.Length == BLOOM_BYTES
    modifies bloom
    ensures BitSet(bloom[..]) == old(BitSet(bloom[..])) + Bits(g, BLOOM_K)
    ensures added <==> !(Bits(g, BLOOM_K) <= old(BitSet(bloom[..])))
  {
    hide Fnv1a64, BitOf, HasBit, BitSet, Bits;
    added := false;
    assert Bits(g, 0) == {} by { NoBits(g); }
    var k := 0;
    while k < BLOOM_K
      invariant 0 <= k <= BLOOM_K
      invariant BitSet(bloom[..]) == old(BitSet(bloom[..])) + Bits(g, k)
      invariant added <==> !(Bits(g, k) <= old(BitSet(bloom[..])))
    {
      BitsStep(g, k);
      var isNew := SetBit(bloom, BitOf(g, k));
      if isNew {
        added := true;
      }
      k := k + 1;
    }
  }

  method SetBit(bloom: array<bv8>, bit: nat) returns (isNew: bool)
    requires bloom.Length == BLOOM_BYTES && bit < BLOOM_BITS
    modifies bloom
    ensures BitSet(bloom[..]) == old(BitSet(bloom[..])) + {bit}
    ensures isNew <==> bit !in old(BitSet(bloom[..]))
  {
    hide HasBit, BitSet, Mask;
    var mask := Mask(bit);
    TestBit(bloom[..], bit);
    isNew := false;
    if bloom[bit / 8] & mask == 0 {
      SetBitSet(bloom[..], bit);
      ghost var after := bloom[..][bit / 8 := bloom[bit / 8] | mask];
      bloom[bit / 8] := bloom[bit / 8] | mask;
      assert bloom[..] == after;
      isNew := true;
    }
  }

  lemma {:induction false} NoBits(g: Gram)
    ensures Bits(g, 0) == {}
  {
  }

  lemma {:induction false} BitsStep(g: Gram, k: nat)
    requires k < BLOOM_K
    ensures Bits(g, k + 1) == Bits(g, k) + {BitOf(g, k)}
  {
    hide BitOf;
  }

  // ---- signatures ----

  function GramAt(s: seq<byte>, i: nat): Gram
    requires i + 3 <= |s|
  {
    s[i..i + 3]
  }

  /** The bits of the first `n` trigrams. */
  function GramBits(lower: seq<byte>, n: nat): set<nat>
    requires n == 0 || n + 2 <= |lower|
  {
    if n == 0 then {} else GramBits(lower, n - 1) + Bits(GramAt(lower, n - 1), BLOOM_K)
  }

  /** The set bits of a content's signature; content below three bytes has none. */
  function SignatureOf(content: Str): Option<set<nat>> {
    if |content| < 3 then None else Some(GramBits(Lower(content), |content| - 2))
  }

  /** Some probe of the trigram at `i`. */
  predicate Probed(content: Str, i: nat, k: nat, bit: nat) {
    i + 3 <= |content| && k < 4 && BitOf(Lower(content[i..i + 3]), k) == bit
  }

  /** Content of three bytes or more has a signature, the four probes of each of its lowered trigrams. */
  lemma {:induction false} SignatureIs(content: Str)
    ensures SignatureOf(content).Some? <==> |content| >= 3
    ensures |content| >= 3 ==>
              forall bit :: bit in SignatureOf(content).value <==> exists i: nat, k: nat :: Probed(content, i, k, bit)
  {
    if |content| >= 3 {
      GramBitsAre(content, |content| - 2);
    }
  }

  lemma {:induction false} GramBitsAre(content: Str, n: nat)
    requires n == 0 || n + 2 <= |content|
    ensures forall bit :: bit in GramBits(Lower(content), n) <==>
                          exists i: nat, k: nat :: i < n && Probed(content, i, k, bit)
  {
    hide BitOf;
    if n > 0 {
      GramBitsAre(content, n - 1);
      var last: nat := n - 1;
      var g := GramAt(Lower(content), last);
      assert g == Lower(content[last..last + 3]);
      forall bit
        ensures bit in GramBits(Lower(content), n) <==> exists i: nat, k: nat :: i < n && Probed(content, i, k, bit)
      {
        if bit in Bits(g, BLOOM_K) {
          var k: nat :| k < BLOOM_K && BitOf(g, k) == bit;
          assert Probed(content, last, k, bit);
        }
        if i: nat, k: nat :| i < n && Probed(content, i, k, bit) {
          assert i == last ==> bit in Bits(g, BLOOM_K);
        }
      }
    }
  }

  function Upto(n: nat): (r: set<nat>)
    ensures |r| == n
    ensures forall i: nat :: i in r <==> i < n
  {
    if n == 0 then {} else Upto(n - 1) + {n - 1}
  }

  lemma {:induction false} SubsetCardinality(a: set<nat>, b: set<nat>)
    requires a <= b
    ensures |a| <= |b| && (|a| == |b| ==> a == b)
  {
    assert b == a + (b - a);
    if |a| == |b| {
      assert b - a == {};
    }
  }

  /** A signature with 1024 counted additions has every bit set. */
  lemma {:induction false} Saturated(bits: set<nat>)
    requires bits <= Upto(BLOOM_BITS) && |bits| >= BLOOM_BITS
    ensures bits == Upto(BLOOM_BITS)
  {
    SubsetCardinality(bits, Upto(BLOOM_BITS));
  }

  lemma {:induction false} BitsBelow(g: Gram)
    ensures Bits(g, BLOOM_K) <= Upto(BLOOM_BITS)
  {
    hide BitOf;
  }

  lemma {:induction false} GramBitsMonotone(lower: seq<byte>, m: nat, n: nat)
    requires m <= n && (n == 0 || n + 2 <= |lower|)
    ensures GramBits(lower, m) <= GramBits(lower, n) <= Upto(BLOOM_BITS)
  {
    hide Fnv1a64, BitOf, Bits, Upto;
    if n > 0 {
      if m < n {
        GramBitsMonotone(lower, m, n - 1);
      } else {
        GramBitsMonotone(lower, n - 1, n - 1);
      }
      BitsBelow(GramAt(lower, n - 1));
    }
  }

  lemma {:induction false} GrowsByOne(bits: set<nat>, more: set<nat>)
    requires !(more <= bits)
    ensures |bits + more| >= |bits| + 1
  {
    var b :| b in more && b !in bits;
    SubsetCardinality(bits + {b}, bits + more);
  }

  /** One trigram more: the count of additions stays below the number of set bits. */
  lemma {:induction false} CountBelow(lower: seq<byte>, i: nat, setBits: nat, added: bool)
    requires i + 3 <= |lower| && setBits <= |GramBits(lower, i)|
    requires added ==> !(Bits(GramAt(lower, i), BLOOM_K) <= GramBits(lower, i))
    ensures GramBits(lower, i + 1) == GramBits(lower, i) + Bits(GramAt(lower, i), BLOOM_K)
    ensures setBits + (if added then 1 else 0) <= |GramBits(lower, i + 1)|
    ensures setBits + 1 >= BLOOM_BITS && added ==> GramBits(lower, i + 1) == GramBits(lower, |lower| - 2)
  {
    hide Bits, Upto;
    var before, after := GramBits(lower, i), GramBits(lower, i + 1);
    assert after == before + Bits(GramAt(lower, i), BLOOM_K);
    hide GramBits;
    GramBitsMonotone(lower, i, i + 1);
    SubsetCardinality(before, after);
    if added {
      GrowsByOne(before, Bits(GramAt(lower, i), BLOOM_K));
      if setBits + 1 >= BLOOM_BITS {
        GramBitsMonotone(lower, i + 1, |lower| - 2);
        GramBitsMonotone(lower, |lower| - 2, |lower| - 2);
        Saturated(after);
      }
    }
  }

  /** Builds the signature, stopping early once every bit is set. */
  method ContentBloom(content: Str) returns (bloom: Option<seq<bv8>>)
    ensures bloom.None? <==> SignatureOf(content).None?
    ensures bloom.Some? ==> |bloom.value| == BLOOM_BYTES && BitSet(bloom.value) == SignatureOf(content).value
  {
    hide Fnv1a64, BitOf, Bits, HasBit, BitSet, Upto, GramBits, GramAt;
    if |content| < 3 {
      return None;
    }
    var buf := new bv8[BLOOM_BYTES](i => 0);
    var lower := Lower(content);
    EmptyBuffer(buf[..]);
    assert GramBits(lower, 0) == {} by { NoGrams(lower); }
    var setBits: nat, i: nat := 0, 0;
    while i + 3 <= |lower|
      invariant i <= |lower| - 2 && buf.Length == BLOOM_BYTES
      invariant BitSet(buf[..]) == GramBits(lower, i)
      invariant setBits <= |GramBits(lower, i)| && setBits < BLOOM_BITS
      modifies buf
    {
      var added := BloomSetCount(buf, GramAt(lower, i));
      CountBelow(lower, i, setBits, added);
      assert BitSet(buf[..]) == GramBits(lower, i + 1);
      if added {
        setBits := setBits + 1;
        if setBits >= BLOOM_BITS {
          break;
        }
      }
      i := i + 1;
    }
    bloom := Some(buf[..]);
  }

  lemma {:induction false} NoGrams(lower: seq<byte>)
    ensures GramBits(lower, 0) == {}
  {
  }

  lemma {:induction false} EmptyBuffer(buf: seq<bv8>)
    requires |buf| == BLOOM_BYTES && forall i :: 0 <= i < |buf| ==> buf[i] == 0
    ensures BitSet(buf) == {}
  {
    forall bit | 0 <= bit < BLOOM_BITS ensures !HasBit(buf, bit) {
      assert buf[bit / 8] == 0;
    }
  }

  // ---- search patterns ----

  /** The first `n` trigrams of a pattern, without repetition. */
  function GramSet(lower: seq<byte>, n: nat): set<Gram>
    requires n == 0 || n + 2 <= |lower|
  {
    set i | 0 <= i < n :: GramAt(lower, i)
  }

  /** The trigrams are those of a front of the lowered pattern, all of it unless the cap was met. */
  ghost predicate GramsUpTo(pattern: Str, grams: seq<Gram>, n: nat) {
    && 3 <= |pattern| && n + 2 <= |pattern|
    && (forall g: Gram :: g in grams <==> g in GramSet(Lower(pattern), n))
    && (n == |pattern| - 2 || |grams| == 16)
  }

  ghost predicate GramsOf(pattern: Str, grams: seq<Gram>) {
    if |pattern| < 3 then grams == [] else exists n: nat :: GramsUpTo(pattern, grams, n)
  }

  /** Distinct trigrams of the lowered pattern, at most sixteen of them. */
  method BuildSearchGrams(pattern: Str) returns (grams: seq<Gram>)
    ensures GramsOf(pattern, grams)
    ensures |grams| <= 16 && (|pattern| >= 3 ==> grams != [])
    ensures forall i, j :: 0 <= i < j < |grams| ==> grams[i] != grams[j]
  {
    grams := [];
    if |pattern| < 3 {
      return;
    }
    var lower := Lower(pattern);
    var seen: set<Gram> := {};
    var i: nat := 0;
    assert GramSet(lower, 0) == {};
    while i + 3 <= |pattern| && |grams| < MAX_SEARCH_GRAMS
      invariant i <= |pattern| - 2
      invariant seen == GramSet(lower, i)
      invariant forall g: Gram :: g in grams <==> g in seen
      invariant forall j, k :: 0 <= j < k < |grams| ==> grams[j] != grams[k]
      invariant |grams| <= MAX_SEARCH_GRAMS && (i > 0 ==> grams != [])
    {
      var g: Gram := [LowerByte(pattern[i]), LowerByte(pattern[i + 1]), LowerByte(pattern[i + 2])];
      assert g == GramAt(lower, i);
      assert GramSet(lower, i + 1) == GramSet(lower, i) + {g};
      if g !in seen {
        seen := seen + {g};
        grams := grams + [g];
      }
      i := i + 1;
    }
    assert GramsUpTo(pattern, grams, i);
  }

  /** What the test of a signature decides. */
  predicate MayContain(bits: set<nat>, grams: seq<Gram>) {
    forall g :: g in grams ==> Bits(g, BLOOM_K) <= bits
  }

  method BloomMaybeContains(bloom: seq<bv8>, grams: seq<Gram>) returns (maybe: bool)
    ensures maybe <==> |bloom| != BLOOM_BYTES || MayContain(BitSet(bloom), grams)
  {
    hide Fnv1a64, BitOf;
    if |bloom| != BLOOM_BYTES {
      return true;
    }
    var i := 0;
    while i < |grams|
      invariant 0 <= i <= |grams|
      invariant forall j :: 0 <= j < i ==> Bits(grams[j], BLOOM_K) <= BitSet(bloom)
    {
      var k := 0;
      while k < BLOOM_K
        invariant 0 <= k <= BLOOM_K
        invariant Bits(grams[i], k) <= BitSet(bloom)
      {
        var bit := BitOf(grams[i], k);
        assert bit in Bits(grams[i], BLOOM_K);
        assert Bits(grams[i], k + 1) == Bits(grams[i], k) + {bit};
        if bloom[bit / 8] & Mask(bit) == 0 {
          assert bit !in BitSet(bloom);
          return false;
        }
        k := k + 1;
      }
      i := i + 1;
    }
    maybe := true;
  }

  lemma {:induction false} GramBitsContain(lower: seq<byte>, n: nat, i: nat)
    requires i < n && n + 2 <= |lower|
    ensures Bits(GramAt(lower, i), BLOOM_K) <= GramBits(lower, n)
  {
    hide Fnv1a64, BitOf, Bits;
    if i < n - 1 {
      GramBitsContain(lower, n - 1, i);
    }
  }

  /**
   No false negatives: content that contains the lowered pattern passes the test of any of the
   pattern's trigrams, whatever cap or saturation cut the two computations short.
   */
  lemma {:induction false} SignatureSound(content: Str, pattern: Str, grams: seq<Gram>)
    requires |pattern| >= 3 && GramsOf(pattern, grams)
    requires Occurs(Lower(pattern), Lower(content))
    ensures SignatureOf(content).Some? && MayContain(SignatureOf(content).value, grams)
  {
    hide Fnv1a64, BitOf, Bits;
    var n: nat :| GramsUpTo(pattern, grams, n);
    var p, c := Lower(pattern), Lower(content);
    var at :| OccursAt(p, c, at);
    forall g | g in grams ensures Bits(g, BLOOM_K) <= SignatureOf(content).value {
      var i :| 0 <= i < n && GramAt(p, i) == g;
      assert GramAt(c, at + i) == g by {
        assert c[at + i..at + i + 3] == c[at..at + |p|][i..i + 3];
      }
      GramBitsContain(c, |c| - 2, at + i);
    }
  }
}
