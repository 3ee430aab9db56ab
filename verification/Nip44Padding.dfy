/** NIP-44 padding (nip44/nip44.go): the padded length, and the header that tells it back. */
module Nip44Padding {
  import opened ByteStrings
  import opened NostrEvents

  const TWO_16 := 0x1_0000
  const TWO_32 := 0x1_0000_0000

  function Pow2(k: nat): (r: nat)
    ensures r >= 1
  {
    if k == 0 then 1 else 2 * Pow2(k - 1)
  }

  /** `math.Floor(math.Log2(x))`, without rounding. */
  function FloorLog2(x: nat): nat
    requires x >= 1
  {
    if x == 1 then 0 else 1 + FloorLog2(x / 2)
  }

  function Chunk(n: nat): (r: nat)
    requires n > 32
    ensures r >= 32
  {
    var c := Pow2(FloorLog2(n - 1) + 1) / 8;
    if c < 32 then 32 else c
  }

  function CalcPadding(n: nat): nat {
    if n <= 32 then 32 else Chunk(n) * ((n - 1) / Chunk(n) + 1)
  }

  lemma {:induction false} Log2Is(x: nat)
    requires x >= 1
    ensures Pow2(FloorLog2(x)) <= x < Pow2(FloorLog2(x) + 1)
  {
    if x > 1 {
      Log2Is(x / 2);
    }
  }

  lemma {:induction false} Pow2Mono(a: nat, b: nat)
    requires a <= b
    ensures Pow2(a) <= Pow2(b)
  {
    if a < b {
      Pow2Mono(a, b - 1);
    }
  }

  lemma {:induction false} Pow2Less(a: nat, b: nat)
    ensures Pow2(a) < Pow2(b) ==> a < b
  {
    if b <= a {
      Pow2Mono(b, a);
    }
  }

  lemma {:induction false} Log2Unique(x: nat, k: nat)
    requires x >= 1 && Pow2(k) <= x < Pow2(k + 1)
    ensures FloorLog2(x) == k
  {
    Log2Is(x);
    var j := FloorLog2(x);
    if j < k {
      Pow2Mono(j + 1, k);
    } else if k < j {
      Pow2Mono(k + 1, j);
    }
  }

  /** The length rounded up to a multiple. */
  lemma {:induction false} RoundUp(n: nat, c: nat)
    requires n >= 1 && c >= 1
    ensures n <= c * ((n - 1) / c + 1) < n + c
  {
    var q := (n - 1) / c;
    assert n - 1 == q * c + (n - 1) % c;
    assert c * (q + 1) == q * c + c;
  }

  lemma {:induction false} RoundUpMono(m: nat, n: nat, c: nat)
    requires 1 <= m <= n && c >= 1
    ensures c * ((m - 1) / c + 1) <= c * ((n - 1) / c + 1)
  {
    var p, q := (m - 1) / c, (n - 1) / c;
    assert m - 1 == p * c + (m - 1) % c;
    assert n - 1 == q * c + (n - 1) % c;
    QuotientMono(m - 1, n - 1, c);
    assert c * (q + 1) == c * (p + 1) + c * (q - p);
    assert c * (q - p) >= 0;
  }

  lemma {:induction false} MulLess(p: nat, q: nat, c: nat)
    requires c >= 1 && p * c < (q + 1) * c
    ensures p <= q
  {
    assert (p - q) * c == p * c - q * c;
    assert (q + 1) * c == q * c + c;
    Bounded(p - q, c);
  }

  lemma {:induction false} QuotientMono(a: nat, b: nat, c: nat)
    requires a <= b && c >= 1
    ensures a / c <= b / c
  {
    var p, q := a / c, b / c;
    assert a == p * c + a % c && b == q * c + b % c;
    MulLess(p, q, c);
  }

  lemma {:induction false} Bounded(d: int, c: nat)
    requires c >= 1 && d * c < c
    ensures d <= 0
  {
    assert (d - 1) * c == d * c - c;
  }

  lemma {:induction false} RoundUpMultiple(k: nat, c: nat)
    requires c >= 1 && k >= 1
    ensures c * k >= 1 && (c * k - 1) / c == k - 1
  {
    assert c * k == c * (k - 1) + c;
    QuotientIs(c * k - 1, c, k - 1);
  }

  lemma {:induction false} QuotientIs(a: nat, c: nat, q: nat)
    requires c >= 1 && c * q <= a < c * q + c
    ensures a / c == q
  {
    var p := a / c;
    assert a == p * c + a % c;
    assert (p - q) * c == p * c - c * q;
    Bounded(p - q, c);
    assert (q - p) * c == c * q - p * c;
    Bounded(q - p, c);
  }

  /** The next power of two above `n - 1`: a multiple of the chunk, and at least the padded length. */
  lemma {:induction false} ChunkDivides(n: nat)
    requires n > 32
    ensures var top := Pow2(FloorLog2(n - 1) + 1);
            && n - 1 < top <= 2 * (n - 1)
            && (Chunk(n) == 32 || 4 * Chunk(n) <= n - 1)
            && exists k: nat :: k >= 1 && top == Chunk(n) * k
  {
    var e := FloorLog2(n - 1) + 1;
    var top := Pow2(e);
    Log2Is(n - 1);
    SmallPowers();
    Pow2Less(5, e);
    if e <= 8 {
      Pow2Mono(e, 8);
      assert Chunk(n) == 32;
      Pow2Split(e, 5);
      assert top == 32 * Pow2(e - 5);
    } else {
      Pow2Split(e, 3);
      Pow2Mono(8, e);
      assert top == 8 * Pow2(e - 3);
      assert Chunk(n) == Pow2(e - 3);
      assert top == Chunk(n) * 8;
    }
  }

  lemma {:induction false} SmallPowers()
    ensures Pow2(3) == 8 && Pow2(5) == 32 && Pow2(8) == 256
  {
    assert Pow2(1) == 2 && Pow2(2) == 4;
    assert Pow2(4) == 16 && Pow2(6) == 64 && Pow2(7) == 128;
  }

  lemma {:induction false} Pow2Split(e: nat, k: nat)
    requires k <= e
    ensures Pow2(e) == Pow2(k) * Pow2(e - k)
  {
    if k > 0 {
      Pow2Split(e, k - 1);
      assert Pow2(e - k + 1) == 2 * Pow2(e - k);
      assert Pow2(k) == 2 * Pow2(k - 1);
      assert Pow2(k - 1) * (2 * Pow2(e - k)) == (2 * Pow2(k - 1)) * Pow2(e - k);
    }
  }

  /** The padded length never exceeds the power of two above. */
  lemma {:induction false} PaddingBelowPower(n: nat)
    requires n > 32
    ensures CalcPadding(n) <= Pow2(FloorLog2(n - 1) + 1)
  {
    hide CalcPadding, Chunk, FloorLog2, Pow2;
    var c, top := Chunk(n), Pow2(FloorLog2(n - 1) + 1);
    ChunkDivides(n);
    var k: nat :| k >= 1 && top == c * k;
    assert CalcPadding(n) == c * ((n - 1) / c + 1) by { PaddingIs(n); }
    RoundUpMono(n, top, c);
    RoundUpMultiple(k, c);
  }

  lemma {:induction false} PaddingIs(n: nat)
    ensures CalcPadding(n) == if n <= 32 then 32 else Chunk(n) * ((n - 1) / Chunk(n) + 1)
  {
  }

  /** Padding covers the text and adds less than 32 bytes or a quarter of it. */
  lemma {:induction false} PaddingSize(n: nat)
    requires n >= 1
    ensures n <= CalcPadding(n)
    ensures CalcPadding(n) < n + 32 || CalcPadding(n) - n < n / 4
  {
    if n > 32 {
      hide Chunk;
      RoundUp(n, Chunk(n));
      ChunkDivides(n);
    }
  }

  predicate Times(m: nat, c: nat, q: nat) {
    m == c * q
  }

  /** The least multiple of `c` that covers `n`. */
  ghost predicate LeastMultiple(m: nat, c: nat, n: nat) {
    n <= m < n + c && exists q: nat :: Times(m, c, q)
  }

  lemma {:induction false} RoundUpLeast(n: nat, c: nat)
    requires n > 32 && Chunk(n) == c
    ensures LeastMultiple(CalcPadding(n), c, n)
  {
    hide Chunk;
    RoundUp(n, c);
    assert Times(CalcPadding(n), c, (n - 1) / c + 1);
  }

  lemma {:induction false} ShortChunk(n: nat)
    requires 32 < n <= 256
    ensures Chunk(n) == 32
  {
    SmallPowers();
    Log2Is(n - 1);
    hide FloorLog2, Pow2;
    Pow2Less(FloorLog2(n - 1), 8);
    Pow2Mono(FloorLog2(n - 1) + 1, 8);
  }

  lemma {:induction false} LongChunk(n: nat, k: nat)
    requires k >= 8 && Pow2(k) < n <= Pow2(k + 1)
    ensures n > 32 && Chunk(n) == Pow2(k - 2) && Pow2(k) == 4 * Pow2(k - 2)
  {
    SmallPowers();
    Pow2Mono(8, k);
    Pow2Mono(5, k - 2);
    assert Pow2(2) == 4;
    hide FloorLog2, Pow2;
    Log2Unique(n - 1, k);
    Pow2Split(k + 1, 3);
    Pow2Split(k, 2);
  }

  /**
   Up to 256 bytes a text is padded to the least multiple of 32 that covers it; above a power of two
   from 256 on, up to the next one, to the least multiple of a quarter of that power.
   */
  lemma {:induction false} PaddingLeast(n: nat, k: nat)
    requires n >= 1
    ensures n <= 256 ==> LeastMultiple(CalcPadding(n), 32, n)
    ensures k >= 8 && Pow2(k) < n <= Pow2(k + 1) ==>
              Pow2(k) == 4 * Pow2(k - 2) && LeastMultiple(CalcPadding(n), Pow2(k - 2), n)
  {
    hide Chunk;
    if n <= 32 {
      assert Times(32, 32, 1);
    } else if n <= 256 {
      ShortChunk(n);
      RoundUpLeast(n, 32);
    }
    if k >= 8 && Pow2(k) < n <= Pow2(k + 1) {
      LongChunk(n, k);
      RoundUpLeast(n, Pow2(k - 2));
    }
  }

  /** A longer text is never padded to a shorter length. */
  lemma {:induction false} PaddingMonotone(m: nat, n: nat)
    requires 1 <= m <= n
    ensures CalcPadding(m) <= CalcPadding(n)
  {
    hide Chunk, CalcPadding, FloorLog2, Pow2;
    PaddingSize(n);
    PaddingIs(m);
    PaddingIs(n);
    if m > 32 {
      var a, b := FloorLog2(m - 1), FloorLog2(n - 1);
      Log2Is(m - 1);
      Log2Is(n - 1);
      if a == b {
        SameChunk(m, n);
        RoundUpMono(m, n, Chunk(n));
      } else {
        Pow2Less(a, b + 1);
        Pow2Mono(a + 1, b);
        PaddingBelowPower(m);
      }
    } else if n > 32 {
      assert CalcPadding(m) == 32;
    }
  }

  lemma {:induction false} SameChunk(m: nat, n: nat)
    requires m > 32 && n > 32 && FloorLog2(m - 1) == FloorLog2(n - 1)
    ensures Chunk(m) == Chunk(n)
  {
  }

  /** A padded length is its own padded length. */
  lemma {:induction false} PaddingIdempotent(n: nat)
    requires n >= 1
    ensures CalcPadding(CalcPadding(n)) == CalcPadding(n)
  {
    hide Chunk, CalcPadding, FloorLog2, Pow2;
    PaddingIs(n);
    PaddingIs(CalcPadding(n));
    if n > 32 {
      var p, c := CalcPadding(n), Chunk(n);
      PaddingSize(n);
      PaddingBelowPower(n);
      Log2Is(n - 1);
      Log2Unique(p - 1, FloorLog2(n - 1));
      SameChunk(p, n);
      assert p == c * ((n - 1) / c + 1);
      RoundUpMultiple((n - 1) / c + 1, c);
    }
  }

  // ---- header and text ----

  function Zeros(n: nat): (r: seq<byte>)
    ensures |r| == n && forall i :: 0 <= i < n ==> r[i] == 0
  {
    seq(n, _ => 0)
  }

  /** The number a big-endian header holds; `PutUint16` and `PutUint32` keep the low bits. */
  function Put16(n: nat): (r: seq<byte>)
    ensures |r| == 2
  {
    [n / 256 % 256, n % 256]
  }

  function Put32(n: nat): (r: seq<byte>)
    ensures |r| == 4
  {
    [n / 256 / 256 / 256 % 256, n / 256 / 256 % 256, n / 256 % 256, n % 256]
  }

  function Get16(b: seq<byte>): nat
    requires |b| == 2
  {
    256 * (b[0] as int) + b[1] as int
  }

  function Get32(b: seq<byte>): nat
    requires |b| == 4
  {
    256 * (256 * (256 * (b[0] as int) + b[1] as int) + b[2] as int) + b[3] as int
  }

  lemma {:induction false} HeadersReadBack(n: nat)
    ensures Get16(Put16(n)) == n % TWO_16
    ensures Get32(Put32(n)) == n % TWO_32
  {
    var a := n / 256;
    var b := a / 256;
    var c := b / 256;
    assert Get16(Put16(n)) == 256 * (a % 256) + n % 256;
    assert Get32(Put32(n)) == 256 * (256 * (256 * (c % 256) + b % 256) + a % 256) + n % 256;
    hide Get16, Get32, Put16, Put32;
    LowDigits(n, b, TWO_16, 256 * (a % 256) + n % 256);
    LowDigits(n, c / 256, TWO_32, 256 * (256 * (256 * (c % 256) + b % 256) + a % 256) + n % 256);
  }

  lemma {:induction false} LowDigits(n: nat, high: nat, base: nat, low: nat)
    requires low < base && n == base * high + low
    ensures n % base == low
  {
    QuotientIs(n, base, high);
  }

  function Header(n: nat): seq<byte> {
    if n < TWO_16 then Put16(n) else [0, 0] + Put32(n)
  }

  /** Lengths below 65536 are written in two bytes, others after two zeros in four, the greatest first. */
  lemma {:induction false} HeaderIs(n: nat)
    ensures n < 65536 ==> |Header(n)| == 2 && 256 * Header(n)[0] as int + Header(n)[1] as int == n
    ensures 65536 <= n < 4294967296 ==>
              && |Header(n)| == 6 && Header(n)[..2] == [0, 0]
              && 16777216 * Header(n)[2] as int + 65536 * Header(n)[3] as int + 256 * Header(n)[4] as int
                 + Header(n)[5] as int == n
  {
    HeadersReadBack(n);
  }

  /** The buffer that is encrypted. */
  function Padded(plain: seq<byte>): seq<byte>
    requires plain != []
  {
    PaddingSize(|plain|);
    Header(|plain|) + plain + Zeros(CalcPadding(|plain|) - |plain|)
  }

  /** Fills the zeroed buffer with header and text; there is no empty text. */
  method Pad(plain: seq<byte>) returns (padded: Option<seq<byte>>)
    ensures padded == if plain == [] then None else Some(Padded(plain))
  {
    hide CalcPadding, Get16, Get32, Put16, Put32;
    var size := |plain|;
    if size == 0 {
      return None;
    }
    PaddingSize(size);
    var padding := CalcPadding(size);
    var header := if size < TWO_16 then Put16(size) else [0, 0] + Put32(size);
    var buf := new byte[|header| + padding](_ => 0);
    Copy(buf, 0, header);
    Copy(buf, |header|, plain);
    assert buf[..] == Padded(plain);
    padded := Some(buf[..]);
  }

  /** `copy(buf[at:], b)` into a buffer that has the room. */
  method Copy(buf: array<byte>, at: nat, b: seq<byte>)
    requires at + |b| <= buf.Length
    modifies buf
    ensures forall i :: 0 <= i < buf.Length ==> buf[i] == if at <= i < at + |b| then b[i - at] else old(buf[i])
  {
    var k := 0;
    while k < |b|
      invariant 0 <= k <= |b|
      invariant forall i :: 0 <= i < buf.Length ==> buf[i] == if at <= i < at + k then b[i - at] else old(buf[i])
    {
      buf[at + k] := b[k];
      k := k + 1;
    }
  }

  /** Reads the header back, and refuses a buffer of any but the right length. */
  function Unpad(padded: seq<byte>): Option<seq<byte>>
    requires |padded| >= 34
  {
    var short := Get16(padded[..2]);
    var n := if short == 0 then Get32(padded[2..6]) else short;
    var offset := if short == 0 then 6 else 2;
    if n < 1 || |padded| != offset + CalcPadding(n) || |padded| < offset + n then None
    else Some(padded[offset..offset + n])
  }

  lemma {:induction false} PaddedLength(plain: seq<byte>)
    requires plain != []
    ensures |Padded(plain)| == |Header(|plain|)| + CalcPadding(|plain|) >= 34
  {
    PaddingSize(|plain|);
    if |plain| > 32 {
      PaddingMonotone(32, |plain|);
    }
  }

  /** Below 2^16 bytes the header has two bytes. */
  lemma {:induction false} ShortRoundTrip(plain: seq<byte>)
    requires plain != [] && |plain| < TWO_16
    ensures |Padded(plain)| >= 34 && Unpad(Padded(plain)) == Some(plain)
  {
    hide CalcPadding, Put16, Get16, Put32, Get32, Padded;
    PaddedLength(plain);
    HeadersReadBack(|plain|);
    PaddingSize(|plain|);
    var p := Padded(plain);
    assert p == Put16(|plain|) + plain + Zeros(CalcPadding(|plain|) - |plain|) by { PaddedIs(plain); }
    assert p[..2] == Put16(|plain|);
    assert p[2..2 + |plain|] == plain;
  }

  lemma {:induction false} PaddedIs(plain: seq<byte>)
    requires plain != []
    ensures |plain| <= CalcPadding(|plain|)
    ensures Padded(plain) == Header(|plain|) + plain + Zeros(CalcPadding(|plain|) - |plain|)
  {
    hide CalcPadding;
    PaddingSize(|plain|);
  }

  /** From 2^16 bytes on the header has six, the first two of them zero. */
  lemma {:induction false} LongHeader(plain: seq<byte>)
    requires |plain| >= TWO_16
    ensures var p := Padded(plain);
            && |p| == 6 + CalcPadding(|plain|) >= 34
            && Get16(p[..2]) == 0 && Get32(p[2..6]) == |plain| % TWO_32
            && p[6..6 + |plain|] == plain
  {
    hide CalcPadding, Put32, Get32;
    PaddedLength(plain);
    PaddedIs(plain);
    HeadersReadBack(|plain|);
    PaddingSize(|plain|);
    var p := Padded(plain);
    assert p[..2] == [0, 0];
    assert p[2..6] == Put32(|plain|);
    assert p[6..6 + |plain|] == plain;
  }

  /** A wrapped length never fits the buffer. */
  lemma {:induction false} TooLong(plain: seq<byte>)
    requires |plain| >= TWO_32
    ensures |Padded(plain)| >= 34 && Unpad(Padded(plain)) == None
  {
    hide Padded, Get16, Get32, CalcPadding;
    LongHeader(plain);
    PaddingSize(|plain|);
    var n := |plain| % TWO_32;
    if n >= 1 {
      PaddingMonotone(n, TWO_32);
      PowerIsPadded();
      assert |plain| > TWO_32;
    }
  }

  lemma {:induction false} PowerIsPadded()
    ensures CalcPadding(TWO_32) == TWO_32
  {
    Power32();
    Pow2Mono(31, 32);
    Log2Unique(TWO_32 - 1, 31);
    assert Chunk(TWO_32) == TWO_32 / 8;
  }

  lemma {:induction false} Power32()
    ensures Pow2(32) == TWO_32 && Pow2(31) == TWO_32 / 2
  {
    SmallPowers();
    Pow2Split(16, 8);
    Pow2Split(32, 16);
    assert Pow2(32) == 2 * Pow2(31);
  }

  /** A text comes back from its padding exactly when its length fits in 32 bits. */
  lemma {:induction false} RoundTripIff(plain: seq<byte>)
    requires plain != []
    ensures |Padded(plain)| >= 34
    ensures Unpad(Padded(plain)) == Some(plain) <==> |plain| < TWO_32
  {
    hide Padded, Get16, Get32, CalcPadding;
    if |plain| < TWO_16 {
      ShortRoundTrip(plain);
    } else if |plain| < TWO_32 {
      LongHeader(plain);
      PaddingSize(|plain|);
      assert |plain| % TWO_32 == |plain|;
    } else {
      TooLong(plain);
    }
  }

  // ---- what is accepted ----

  /** The headers read as a length: two bytes, or two zeros and four bytes, even where two would do. */
  predicate IsHeader(h: seq<byte>, n: nat) {
    || (0 < n < TWO_16 && h == Put16(n))
    || (0 < n < TWO_32 && h == [0, 0] + Put32(n))
  }

  /** A header for the length of the text, the text, and anything up to the padded length. */
  predicate FramedBy(padded: seq<byte>, plain: seq<byte>, h: seq<byte>) {
    && IsHeader(h, |plain|) && |padded| == |h| + CalcPadding(|plain|)
    && |h| + |plain| <= |padded| && padded[..|h|] == h && padded[|h|..|h| + |plain|] == plain
  }

  ghost predicate Framed(padded: seq<byte>, plain: seq<byte>) {
    exists h :: FramedBy(padded, plain, h)
  }

  lemma {:induction false} HeadersUnique(b: seq<byte>)
    ensures |b| == 2 ==> Put16(Get16(b)) == b && Get16(b) < TWO_16
    ensures |b| == 4 ==> Put32(Get32(b)) == b && Get32(b) < TWO_32
  {
    if |b| == 2 {
      TopDigits(b[0], b[1]);
    } else if |b| == 4 {
      var top: nat := b[0];
      TopDigits(top, b[1]);
      TopDigits(256 * top + b[1] as int, b[2]);
      TopDigits(256 * (256 * top + b[1] as int) + b[2] as int, b[3]);
    }
  }

  lemma {:induction false} TopDigits(high: nat, low: byte)
    ensures (256 * high + low) / 256 == high && (256 * high + low) % 256 == low
  {
  }

  /** Exactly the framed texts are accepted; what stands in the padding is not looked at. */
  lemma {:induction false} AcceptedIff(padded: seq<byte>, plain: seq<byte>)
    requires |padded| >= 34
    ensures Unpad(padded) == Some(plain) <==> Framed(padded, plain)
  {
    hide CalcPadding, Put16, Get16, Put32, Get32;
    HeadersUnique(padded[..2]);
    HeadersUnique(padded[2..6]);
    if Unpad(padded) == Some(plain) {
      var short := Get16(padded[..2]);
      if short == 0 {
        HeadersZero(padded[..2]);
        assert padded[..6] == [0, 0] + Put32(|plain|);
        assert FramedBy(padded, plain, padded[..6]);
      } else {
        assert FramedBy(padded, plain, padded[..2]);
      }
    }
    if h :| FramedBy(padded, plain, h) {
      HeadersReadBack(|plain|);
      if |plain| < TWO_16 && h == Put16(|plain|) {
        assert padded[..2] == Put16(|plain|);
      } else {
        HeadersZero([0, 0]);
        assert padded[..2] == h[..2] == [0, 0];
        assert padded[2..6] == h[2..6] == Put32(|plain|);
      }
    }
  }

  lemma {:induction false} HeadersZero(b: seq<byte>)
    requires |b| == 2
    ensures Get16(b) == 0 <==> b == [0, 0]
  {
  }

  /** The header is the short one where it can be, and the padding is zero. */
  predicate Canonical(padded: seq<byte>, plain: seq<byte>) {
    var n := |Header(|plain|)|;
    && |padded| == n + CalcPadding(|plain|)
    && padded[..n] == Header(|plain|)
    && forall i :: n + |plain| <= i < |padded| ==> padded[i] == 0
  }

  /** A buffer is the padding of a text if and only if it is accepted as that text and canonical. */
  lemma {:induction false} CanonicalIff(padded: seq<byte>, plain: seq<byte>)
    requires |padded| >= 34 && 0 < |plain| < TWO_32
    ensures padded == Padded(plain) <==> Unpad(padded) == Some(plain) && Canonical(padded, plain)
  {
    hide CalcPadding, Put16, Get16, Put32, Get32, Unpad;
    PaddedIs(plain);
    PaddedLength(plain);
    RoundTripIff(plain);
    AcceptedIff(padded, plain);
    var n := |Header(|plain|)|;
    if Unpad(padded) == Some(plain) && Canonical(padded, plain) {
      var h :| FramedBy(padded, plain, h);
      assert |h| == n;
      assert padded[n + |plain|..] == Zeros(CalcPadding(|plain|) - |plain|);
      assert padded == padded[..n] + padded[n..n + |plain|] + padded[n + |plain|..];
    }
  }

  /** Nonzero padding is accepted. */
  lemma {:induction false} LaxExample()
    ensures var padded := [0, 1, 7] + seq(31, _ => 9);
            |padded| == 34 && Unpad(padded) == Some([7]) && padded != Padded([7])
  {
    var padded: seq<byte> := [0, 1, 7] + seq(31, _ => 9);
    assert padded[..2] == [0, 1] && padded[2..3] == [7];
    assert CalcPadding(1) == 32;
    PaddedIs([7]);
    assert padded[3] == 9 && Padded([7])[3] == 0;
  }
}
