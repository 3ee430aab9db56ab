/** ASCII lower-casing of byte strings, and substring occurrence. */
module AsciiText {
  import opened ByteStrings

  function LowerByte(c: byte): byte {
    if 0x41 <= c <= 0x5A then c + 32 else c
  }

  function Lower(s: seq<byte>): (r: seq<byte>)
    ensures |r| == |s|
    ensures forall i :: 0 <= i < |s| ==> r[i] == LowerByte(s[i])
  {
    seq(|s|, i requires 0 <= i < |s| => LowerByte(s[i]))
  }

  ghost predicate OccursAt(pattern: seq<byte>, text: seq<byte>, at: int) {
    0 <= at <= |text| - |pattern| && text[at..at + |pattern|] == pattern
  }

  ghost predicate Occurs(pattern: seq<byte>, text: seq<byte>) {
    exists at :: OccursAt(pattern, text, at)
  }

  // ---- in numbers ----

  /** The first byte, with A to Z made a to z, is the second. */
  predicate FoldsTo(a: byte, b: byte) {
    if 0x41 <= a <= 0x5A then b == a + 32 else b == a
  }

  predicate FoldedAt(text: seq<byte>, needle: seq<byte>, at: int) {
    0 <= at <= |text| - |needle| && forall i :: 0 <= i < |needle| ==> FoldsTo(text[at + i], needle[i])
  }

  /** The bytes are equal but for the case of a letter from A to Z. */
  predicate SameLetter(a: byte, b: byte) {
    a == b || (0x41 <= a <= 0x5A && b == a + 32) || (0x41 <= b <= 0x5A && a == b + 32)
  }

  predicate SameText(a: seq<byte>, b: seq<byte>) {
    |a| == |b| && forall i :: 0 <= i < |a| ==> SameLetter(a[i], b[i])
  }

  predicate TextAt(content: seq<byte>, text: seq<byte>, at: int) {
    0 <= at <= |content| - |text| && SameText(content[at..at + |text|], text)
  }

  ghost predicate HasText(content: seq<byte>, text: seq<byte>) {
    exists at :: TextAt(content, text, at)
  }

  /** A needle occurs in the folded text where the bytes of the text fold to it. */
  lemma {:induction false} FoldedAtIff(text: seq<byte>, needle: seq<byte>, at: int)
    ensures FoldedAt(text, needle, at) <==> OccursAt(needle, Lower(text), at)
  {
    if 0 <= at <= |text| - |needle| {
      var part := Lower(text)[at..at + |needle|];
      assert forall i :: 0 <= i < |needle| ==> part[i] == LowerByte(text[at + i]);
      if part == needle {
        forall i | 0 <= i < |needle| ensures FoldsTo(text[at + i], needle[i]) {
          assert part[i] == needle[i];
        }
      }
    }
  }

  /** Some part of the text folds to the needle. */
  ghost predicate FoldsIn(text: seq<byte>, needle: seq<byte>) {
    exists at :: FoldedAt(text, needle, at)
  }

  lemma {:induction false} FoldsInIff(text: seq<byte>, needle: seq<byte>)
    ensures FoldsIn(text, needle) <==> Occurs(needle, Lower(text))
  {
    forall at ensures FoldedAt(text, needle, at) <==> OccursAt(needle, Lower(text), at) {
      FoldedAtIff(text, needle, at);
    }
  }
}
