/** Byte strings and the lexicographic order that `bytes.Compare` decides. */
module ByteStrings {
  type byte = b: int | 0 <= b < 256

  /** A 32-byte event id or public key. */
  type Id = s: seq<byte> | |s| == 32 witness seq(32, i => 0)

  /** `bytes.Compare(a, b) == -1`. */
  predicate LexLess(a: seq<byte>, b: seq<byte>) {
    if b == [] then false
    else if a == [] then true
    else if a[0] != b[0] then a[0] < b[0]
    else LexLess(a[1..], b[1..])
  }

  predicate LexLe(a: seq<byte>, b: seq<byte>) {
    !LexLess(b, a)
  }

  lemma {:induction false} LexIrreflexive(a: seq<byte>)
    ensures !LexLess(a, a)
  {
    if a != [] {
      LexIrreflexive(a[1..]);
    }
  }

  lemma {:induction false} LexTotal(a: seq<byte>, b: seq<byte>)
    ensures LexLess(a, b) || LexLess(b, a) || a == b
  {
    if a != [] && b != [] && a[0] == b[0] {
      LexTotal(a[1..], b[1..]);
      assert a == [a[0]] + a[1..];
      assert b == [b[0]] + b[1..];
    }
  }

  lemma {:induction false} LexTransitive(a: seq<byte>, b: seq<byte>, c: seq<byte>)
    requires LexLess(a, b) && LexLess(b, c)
    ensures LexLess(a, c)
  {
    if a != [] && a[0] == b[0] && b[0] == c[0] {
      LexTransitive(a[1..], b[1..], c[1..]);
    }
  }

  /** A strict step after a weak one, and the other way round, is strict. */
  lemma {:induction false} LexMixed(a: seq<byte>, b: seq<byte>, c: seq<byte>)
    ensures LexLess(a, b) && LexLe(b, c) ==> LexLess(a, c)
    ensures LexLe(a, b) && LexLess(b, c) ==> LexLess(a, c)
  {
    LexTotal(b, c);
    LexTotal(a, b);
    if LexLess(a, b) && LexLess(b, c) {
      LexTransitive(a, b, c);
    }
  }

  /** The first string is a proper front of the second, or smaller at the first place where they differ. */
  lemma {:induction false} LexLessIff(a: seq<byte>, b: seq<byte>)
    ensures LexLess(a, b) <==>
            exists n :: 0 <= n < |b| && n <= |a| && a[..n] == b[..n] && (n == |a| || a[n] < b[n])
  {
    if LexLess(a, b) {
      if a != [] && a[0] == b[0] {
        LexLessIff(a[1..], b[1..]);
        var m :| 0 <= m < |b[1..]| && m <= |a[1..]| && a[1..][..m] == b[1..][..m]
                 && (m == |a[1..]| || a[1..][m] < b[1..][m]);
        assert a[..m + 1] == [a[0]] + a[1..][..m] && b[..m + 1] == [b[0]] + b[1..][..m];
        assert a[..m + 1] == b[..m + 1];
      } else {
        assert a[..0] == b[..0];
      }
    }
    if n :| 0 <= n < |b| && n <= |a| && a[..n] == b[..n] && (n == |a| || a[n] < b[n]) {
      if n > 0 {
        assert a[0] == a[..n][0] == b[..n][0] == b[0];
        assert a[1..][..n - 1] == a[..n][1..] == b[..n][1..] == b[1..][..n - 1];
        LexLessIff(a[1..], b[1..]);
      }
    }
  }
}
