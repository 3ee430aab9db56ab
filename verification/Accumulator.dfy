/**
 The fingerprint accumulator (nip77/negentropy/storage/accumulator.go): eight 32-bit words,
 least significant first, added with a carry that is detected by comparing the wrapped sum
 with the two summands.
 */
module Accumulator {
  const BASE: int := 0x1_0000_0000
  const WORDS := 8

  type word = w: int | 0 <= w < 0x1_0000_0000

  /** The number that the words stand for. */
  function Value(words: seq<word>): nat {
    if words == [] then 0 else words[0] + BASE * Value(words[1..])
  }

  /** The carry the code computes out of one word. */
  function CodeCarry(orig: word, other: word, carry: nat): nat
    requires carry <= 1
  {
    var next := (orig + carry + other) % BASE;
    if next < orig || next < other then 1 else 0
  }

  /** The word sums of the code, from a given carry on. */
  function CodeSum(a: seq<word>, b: seq<word>, carry: nat): (r: seq<word>)
    requires |a| == |b| && carry <= 1
    ensures |r| == |a|
  {
    if a == [] then []
    else [(a[0] + carry + b[0]) % BASE] + CodeSum(a[1..], b[1..], CodeCarry(a[0], b[0], carry))
  }

  /** The carry into word `i`, as the code computes it. */
  function CarryInto(a: seq<word>, b: seq<word>, carry: nat, i: nat): (c: nat)
    requires |a| == |b| && carry <= 1 && i <= |a|
    ensures c <= 1
  {
    if i == 0 then carry else CarryInto(a[1..], b[1..], CodeCarry(a[0], b[0], carry), i - 1)
  }

  /** Both words are all ones and a carry comes in: the wrapped sum equals both summands. */
  predicate LosesCarry(a: seq<word>, b: seq<word>, carry: nat, i: nat)
    requires |a| == |b| && carry <= 1 && i < |a|
  {
    a[i] == b[i] == BASE - 1 && CarryInto(a, b, carry, i) == 1
  }

  function Power(n: nat): nat {
    if n == 0 then 1 else BASE * Power(n - 1)
  }

  /** `r` is the sum of the two numbers and the carry, modulo 2^(32 n). */
  predicate IsSum(a: seq<word>, b: seq<word>, carry: nat, r: seq<word>) {
    var sum := Value(a) + Value(b) + carry;
    Value(r) == sum || Value(r) + Power(|a|) == sum
  }

  /** The comparison detects the carry except in that one case. */
  lemma {:induction false} CarryDetected(orig: word, other: word, carry: nat)
    requires carry <= 1
    ensures CodeCarry(orig, other, carry) == (orig + carry + other) / BASE
       <==> !(orig == other == BASE - 1 && carry == 1)
    ensures orig == other == BASE - 1 && carry == 1 ==> CodeCarry(orig, other, carry) == 0
  {
    var sum := orig + carry + other;
    if sum < BASE {
      assert sum % BASE == sum && sum / BASE == 0;
    } else {
      assert sum % BASE == sum - BASE && sum / BASE == 1;
    }
  }

  /** One word taken off the front: the rest must be the sum with the true carry. */
  lemma {:induction false} SumStep(a: seq<word>, b: seq<word>, carry: nat, rest: seq<word>)
    requires |a| == |b| && a != []
    ensures var sum := a[0] + carry + b[0];
            IsSum(a, b, carry, [sum % BASE] + rest) <==> IsSum(a[1..], b[1..], sum / BASE, rest)
  {
    var sum := a[0] + carry + b[0];
    var r := [sum % BASE] + rest;
    assert r[0] == sum % BASE && r[1..] == rest;
    assert sum == BASE * (sum / BASE) + sum % BASE;
  }

  /** A carry missing from the front word alone already makes the sum wrong. */
  lemma {:induction false} MissingCarryShows(a: seq<word>, b: seq<word>, rest: seq<word>)
    requires |a| == |b| && a != []
    ensures !IsSum(a, b, 1, [(a[0] + b[0]) % BASE] + rest)
  {
    var r := [(a[0] + b[0]) % BASE] + rest;
    assert r[0] == (a[0] + b[0]) % BASE && r[1..] == rest;
    var low := a[0] as int + b[0] as int;
    assert low == BASE * (low / BASE) + low % BASE;
    // the low words of the two sides of either equation differ by one
    var x, y := Value(rest), Value(a[1..]) + Value(b[1..]) + low / BASE;
    assert Value(a) + Value(b) == low % BASE + BASE * y;
    assert Value(r) == low % BASE + BASE * x;
  }

  /** No word but the last loses its carry. */
  predicate KeepsCarries(a: seq<word>, b: seq<word>, carry: nat)
    requires |a| == |b| && carry <= 1
  {
    forall i :: 0 <= i < |a| - 1 ==> !LosesCarry(a, b, carry, i)
  }

  lemma {:induction false} KeepsCarriesStep(a: seq<word>, b: seq<word>, carry: nat)
    requires |a| == |b| && carry <= 1 && a != []
    ensures KeepsCarries(a, b, carry)
       <==> (|a| > 1 ==> !(a[0] == b[0] == BASE - 1 && carry == 1))
            && KeepsCarries(a[1..], b[1..], CodeCarry(a[0], b[0], carry))
  {
    var a', b', c := a[1..], b[1..], CodeCarry(a[0], b[0], carry);
    assert forall i :: 0 <= i < |a| - 1 ==> (LosesCarry(a, b, carry, i + 1) <==> LosesCarry(a', b', c, i));
    assert |a| > 1 ==> (LosesCarry(a, b, carry, 0) <==> a[0] == b[0] == BASE - 1 && carry == 1);
    if KeepsCarries(a, b, carry) {
      forall i | 0 <= i < |a'| - 1 ensures !LosesCarry(a', b', c, i) {
        assert !LosesCarry(a, b, carry, i + 1);
      }
    }
    if (|a| > 1 ==> !LosesCarry(a, b, carry, 0)) && KeepsCarries(a', b', c) {
      forall i | 0 <= i < |a| - 1 ensures !LosesCarry(a, b, carry, i) {
        if i > 0 {
          assert !LosesCarry(a', b', c, i - 1);
        }
      }
    }
  }

  /**
   The words hold the sum modulo 2^(32 n) exactly when no word but the last loses its carry.
   */
  lemma {:induction false} SumExact(a: seq<word>, b: seq<word>, carry: nat)
    requires |a| == |b| && carry <= 1
    ensures IsSum(a, b, carry, CodeSum(a, b, carry)) <==> KeepsCarries(a, b, carry)
  {
    if a != [] {
      var sum, c := a[0] + carry + b[0], CodeCarry(a[0], b[0], carry);
      var rest := CodeSum(a[1..], b[1..], c);
      SumExact(a[1..], b[1..], c);
      SumStepExact(a, b, carry, c, sum, rest);
    }
  }

  lemma {:induction false} SumStepExact(a: seq<word>, b: seq<word>, carry: nat, c: nat, sum: nat, rest: seq<word>)
    requires |a| == |b| && carry <= 1 && a != []
    requires sum == a[0] + carry + b[0] && c == CodeCarry(a[0], b[0], carry)
    requires rest == CodeSum(a[1..], b[1..], c)
    requires IsSum(a[1..], b[1..], c, rest) <==> KeepsCarries(a[1..], b[1..], c)
    ensures IsSum(a, b, carry, [sum % BASE] + rest) <==> KeepsCarries(a, b, carry)
  {
    hide KeepsCarries;
    SumStep(a, b, carry, rest);
    CarryDetected(a[0], b[0], carry);
    KeepsCarriesStep(a, b, carry);
    if a[0] == b[0] == BASE - 1 && carry == 1 && |a| > 1 {
      var a', b' := a[1..], b[1..];
      MissingCarryShows(a', b', CodeSum(a'[1..], b'[1..], CodeCarry(a'[0], b'[0], 0)));
    }
  }

  class Accumulator {
    var buf: array<word>

    ghost predicate Valid()
      reads this
    {
      buf.Length == 8
    }

    constructor ()
      ensures Valid() && fresh(buf) && buf[..] == seq(8, i => 0)
    {
      buf := new word[WORDS](i => 0);
    }

    /** Adds eight words in place; the last carry is dropped. */
    method AddWords(other: seq<word>)
      requires Valid() && |other| == 8
      modifies buf
      ensures buf[..] == CodeSum(old(buf[..]), other, 0)
    {
      hide CodeSum, CarryInto;
      ghost var was := buf[..];
      CarryStart(was, other, 0);
      var currCarry, nextCarry := 0, 0;
      var i := 0;
      while i < WORDS
        invariant 0 <= i <= WORDS && nextCarry == 0
        invariant currCarry == CarryInto(was, other, 0, i)
        invariant buf[i..] == was[i..]
        invariant buf[..i] + CodeSum(was[i..], other[i..], currCarry) == CodeSum(was, other, 0)
      {
        var orig, otherV := buf[i], other[i];
        assert orig == was[i];
        var next := (orig + currCarry + otherV) % BASE;
        if next < orig || next < otherV {
          nextCarry := 1;
        }
        ghost var done := buf[..i];
        CarryNext(was, other, 0, i);
        SumNext(was, other, i, currCarry);
        buf[i] := next;
        assert buf[..i + 1] == done + [next];
        currCarry := nextCarry;
        nextCarry := 0;
        i := i + 1;
      }
      assert buf[..] == buf[..WORDS];
    }
  }

  lemma {:induction false} CarryStart(a: seq<word>, b: seq<word>, carry: nat)
    requires |a| == |b| && carry <= 1
    ensures CarryInto(a, b, carry, 0) == carry
  {
  }

  lemma {:induction false} CarryNext(a: seq<word>, b: seq<word>, carry: nat, i: nat)
    requires |a| == |b| && carry <= 1 && i < |a|
    ensures CarryInto(a, b, carry, i + 1) == CodeCarry(a[i], b[i], CarryInto(a, b, carry, i))
  {
    if i > 0 {
      CarryNext(a[1..], b[1..], CodeCarry(a[0], b[0], carry), i - 1);
    }
  }

  lemma {:induction false} SumNext(a: seq<word>, b: seq<word>, i: nat, carry: nat)
    requires |a| == |b| && carry <= 1 && i < |a|
    ensures CodeSum(a[i..], b[i..], carry)
         == [(a[i] + carry + b[i]) % BASE] + CodeSum(a[i + 1..], b[i + 1..], CodeCarry(a[i], b[i], carry))
  {
    assert a[i..][1..] == a[i + 1..] && b[i..][1..] == b[i + 1..];
  }

  /** The smallest family of inputs on which the carry is lost: a carry into two words of ones. */
  lemma {:induction false} LostCarryExample()
    ensures var a := [BASE - 1, BASE - 1, 0, 0, 0, 0, 0, 0];
            var b := [1, BASE - 1, 0, 0, 0, 0, 0, 0];
            !IsSum(a, b, 0, CodeSum(a, b, 0))
  {
    var a: seq<word> := [BASE - 1, BASE - 1, 0, 0, 0, 0, 0, 0];
    var b: seq<word> := [1, BASE - 1, 0, 0, 0, 0, 0, 0];
    SumExact(a, b, 0);
    assert CarryInto(a, b, 0, 1) == CodeCarry(a[0], b[0], 0) == 1;
    assert LosesCarry(a, b, 0, 1);
  }
}
