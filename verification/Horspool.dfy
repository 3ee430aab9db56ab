/** Case-folding Boyer-Moore-Horspool search (eventstore/searcher/searcher.go). */
module Horspool {
  import opened ByteStrings
  import opened AsciiText

  /**
   The two folds agree on a pattern: what `strings.ToLower` makes of it begins, over the length of the
   pattern, with its ASCII fold. They agree on ASCII patterns, and on others without letters to fold.
   */
  predicate FoldsAlike(substr: seq<byte>, folded: seq<byte>) {
    |folded| >= |substr| && folded[..|substr|] == Lower(substr)
  }

  /** No shift `skip[c]` passes over a place where the pattern has `c`; every shift moves. */
  ghost predicate SkipsNothing(skip: seq<int>, pattern: seq<byte>) {
    && |skip| == 256
    && (forall c: byte :: 1 <= skip[c] <= |pattern|)
    && forall c: byte, i :: |pattern| - skip[c] <= i < |pattern| - 1 && 0 <= i ==> pattern[i] != c
  }

  class Searcher {
    const pattern: seq<byte>
    const patLen: nat
    const skip: seq<int>

    ghost predicate Valid() {
      && patLen <= |pattern|
      && (patLen > 0 ==> SkipsNothing(skip, Needle()))
    }

    /** What is looked for: as much of the folded pattern as the pattern is long. */
    ghost function Needle(): seq<byte>
      requires patLen <= |pattern|
    {
      pattern[..patLen]
    }

    /** `folded` is what `strings.ToLower` makes of the pattern. */
    constructor (substr: seq<byte>, folded: seq<byte>)
      requires |folded| >= |substr|
      ensures Valid() && pattern == folded && patLen == |substr|
    {
      pattern := folded;
      patLen := |substr|;
      var table := seq(256, _ => |substr|);
      if |substr| >= 1 {
        var t := new int[256](_ => |substr|);
        var i := 0;
        while i < |substr| - 1
          invariant 0 <= i <= |substr| - 1
          invariant forall c: byte :: 1 <= t[c] <= |substr|
          invariant forall c: byte, j :: |substr| - t[c] <= j < i && 0 <= j ==> folded[j] != c
        {
          t[folded[i]] := |substr| - 1 - i;
          i := i + 1;
        }
        table := t[..];
      }
      skip := table;
    }

    method Contains(text: seq<byte>) returns (found: bool)
      requires Valid()
      ensures found <==> patLen > 0 && Occurs(Needle(), Lower(text))
      ensures found <==> patLen > 0 && FoldsIn(text, Needle())
    {
      if patLen < 1 {
        return false;
      }
      var textLen := |text|;
      if textLen < patLen {
        return false;
      }
      hide SkipsNothing, OccursAt, FoldsIn, Agrees;
      FoldsInIff(text, Needle());
      ghost var lower, needle := Lower(text), Needle();
      SkipRange(skip, needle);
      StartsLate(needle, lower);
      var i := patLen - 1;
      while i < textLen
        invariant patLen - 1 <= i
        invariant forall at :: OccursAt(needle, lower, at) ==> at + patLen - 1 >= i
        decreases textLen - i
      {
        var c := LowerByte(text[i]);
        ghost var start := i - (patLen - 1);
        if c == pattern[patLen - 1] {
          var j, k := patLen - 2, i - 1;
          var match' := true;
          AgreesFrom(needle, lower, start, patLen - 2);
          while j >= 0
            invariant -1 <= j <= patLen - 2 && k == start + j
            invariant match' ==> Agrees(needle, lower, start, j)
            decreases j
          {
            if LowerByte(text[k]) != pattern[j] {
              match' := false;
              break;
            }
            AgreesFrom(needle, lower, start, j - 1);
            j := j - 1;
            k := k - 1;
          }
          assert !match' ==> 0 <= j < patLen && lower[start + j] != needle[j];
          if match' {
            OccursHere(needle, lower, start);
            return true;
          }
          OccurrenceAgrees(needle, lower, start, j);
        } else {
          OccurrenceAgrees(needle, lower, start, patLen - 1);
        }
        forall at | OccursAt(needle, lower, at) ensures at + patLen - 1 >= i + skip[c] {
          NoMatchSkipped(skip, needle, lower, i, at);
        }
        i := i + skip[c];
      }
      found := false;
    }
  }

  lemma {:induction false} SkipRange(skip: seq<int>, pattern: seq<byte>)
    requires SkipsNothing(skip, pattern)
    ensures |skip| == 256 && forall c: byte :: 1 <= skip[c] <= |pattern|
  {
  }

  /** No occurrence ends before the pattern's length, or after the text. */
  lemma {:induction false} StartsLate(pattern: seq<byte>, text: seq<byte>)
    ensures forall at :: OccursAt(pattern, text, at) ==> 0 <= at && at + |pattern| <= |text|
  {
  }

  /** The text agrees with the pattern behind place `j`. */
  predicate Agrees(pattern: seq<byte>, text: seq<byte>, at: nat, j: int)
    requires at + |pattern| <= |text| && -1 <= j < |pattern|
  {
    forall m :: j < m < |pattern| ==> text[at + m] == pattern[m]
  }

  lemma {:induction false} AgreesFrom(pattern: seq<byte>, text: seq<byte>, at: nat, j: int)
    requires at + |pattern| <= |text| && -1 <= j < |pattern| - 1
    ensures Agrees(pattern, text, at, j) <==>
            text[at + j + 1] == pattern[j + 1] && (j + 2 == |pattern| || Agrees(pattern, text, at, j + 1))
  {
  }

  lemma {:induction false} OccursHere(pattern: seq<byte>, text: seq<byte>, at: nat)
    requires at + |pattern| <= |text| && pattern != [] && Agrees(pattern, text, at, -1)
    ensures Occurs(pattern, text)
  {
    assert text[at..at + |pattern|] == pattern;
    assert OccursAt(pattern, text, at);
  }

  /** An occurrence agrees with the pattern at every place. */
  lemma {:induction false} OccurrenceAgrees(pattern: seq<byte>, text: seq<byte>, at: nat, j: nat)
    requires j < |pattern| && at + j < |text|
    ensures OccursAt(pattern, text, at) ==> text[at + j] == pattern[j]
  {
    if OccursAt(pattern, text, at) {
      assert text[at..at + |pattern|][j] == text[at + j];
    }
  }

  /** An occurrence ending after `i` ends no sooner than the shift from `i` arrives. */
  lemma {:induction false} NoMatchSkipped(skip: seq<int>, pattern: seq<byte>, text: seq<byte>, i: nat, at: int)
    requires SkipsNothing(skip, pattern) && |pattern| > 0 && |pattern| - 1 <= i < |text|
    requires OccursAt(pattern, text, at) && at + |pattern| - 1 >= i
    requires !OccursAt(pattern, text, i - (|pattern| - 1))
    ensures at + |pattern| - 1 >= i + skip[text[i]]
  {
    if at <= i {
      OccurrenceAgrees(pattern, text, at, i - at);
    }
  }

  /** The search finds, in every text, what an ASCII search would if and only if the folds agree on the pattern. */
  lemma {:induction false} FoldsAlikeIff(substr: seq<byte>, folded: seq<byte>)
    requires |folded| >= |substr|
    ensures (forall text :: Occurs(folded[..|substr|], Lower(text)) <==> Occurs(Lower(substr), Lower(text))) <==>
            FoldsAlike(substr, folded)
  {
    hide Lower;
    var lower := Lower(substr);
    assert lower[0..0 + |lower|] == lower;
    assert OccursAt(lower, Lower(substr), 0);
    if Occurs(folded[..|substr|], Lower(substr)) {
      var at :| OccursAt(folded[..|substr|], lower, at);
      assert at == 0 && lower[at..at + |substr|] == lower;
    }
  }
}
