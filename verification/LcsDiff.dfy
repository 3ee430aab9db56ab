/** Line diffs by longest common subsequence (nip34/gitnaturalapi/diff.go). */
module LcsDiff {
  import opened ByteStrings

  type Line = seq<byte>

  const NEWLINE: byte := 0x0A

  datatype Op = Equal(line: Line) | Del(line: Line) | Add(line: Line)

  // ---- lines ----

  /** The text the lines stand for, each line ended. */
  function Unlines(lines: seq<Line>): seq<byte> {
    if lines == [] then [] else Unlines(lines[..|lines| - 1]) + lines[|lines| - 1] + [NEWLINE]
  }

  /** A text as a sequence of ended lines. */
  function Ended(text: seq<byte>): seq<byte> {
    if text == [] || text[|text| - 1] == NEWLINE then text else text + [NEWLINE]
  }

  /** Splits at line ends; a final line end opens no further line. */
  method SplitLines(text: seq<byte>) returns (lines: seq<Line>)
    ensures Unlines(lines) == Ended(text)
    ensures forall k :: 0 <= k < |lines| ==> 0x0A !in lines[k]
  {
    lines := [];
    var current: Line := [];
    var i := 0;
    while i < |text|
      invariant 0 <= i <= |text|
      invariant Unlines(lines) + current == text[..i]
      invariant NEWLINE !in current && forall k :: 0 <= k < |lines| ==> NEWLINE !in lines[k]
      invariant i > 0 ==> (current == [] <==> text[i - 1] == NEWLINE)
      invariant i == 0 ==> current == []
    {
      assert text[..i + 1] == text[..i] + [text[i]];
      if text[i] == NEWLINE {
        UnlinesMore(lines, current);
        lines, current := lines + [current], [];
      } else {
        current := current + [text[i]];
      }
      i := i + 1;
    }
    assert text[..|text|] == text;
    if current != [] {
      UnlinesMore(lines, current);
      lines := lines + [current];
    }
  }

  lemma {:induction false} UnlinesMore(lines: seq<Line>, line: Line)
    ensures Unlines(lines + [line]) == Unlines(lines) + line + [NEWLINE]
  {
    assert (lines + [line])[..|lines|] == lines;
  }

  // ---- common subsequences ----

  /** `c` can be picked out of `a` in order. */
  ghost predicate Sub(c: seq<Line>, a: seq<Line>) {
    if c == [] then true
    else if a == [] then false
    else
      || (c[|c| - 1] == a[|a| - 1] && Sub(c[..|c| - 1], a[..|a| - 1]))
      || Sub(c, a[..|a| - 1])
  }

  /** The recurrence of the table. */
  function Table(a: seq<Line>, b: seq<Line>, i: nat, j: nat): nat
    requires i <= |a| && j <= |b|
    decreases i + j
  {
    if i == 0 || j == 0 then 0
    else if a[i - 1] == b[j - 1] then Table(a, b, i - 1, j - 1) + 1
    else if Table(a, b, i - 1, j) >= Table(a, b, i, j - 1) then Table(a, b, i - 1, j)
    else Table(a, b, i, j - 1)
  }

  lemma {:induction false} SubFront(c: seq<Line>, a: seq<Line>)
    requires c != [] && Sub(c, a)
    ensures Sub(c[..|c| - 1], a)
    ensures a != [] && Sub(c[..|c| - 1], a[..|a| - 1])
    decreases |a|
  {
    var d := c[..|c| - 1];
    if Sub(c, a[..|a| - 1]) {
      SubFront(c, a[..|a| - 1]);
    }
    SubMore(d, a);
  }

  lemma {:induction false} SubMore(c: seq<Line>, a: seq<Line>)
    requires a != [] && Sub(c, a[..|a| - 1])
    ensures Sub(c, a)
  {
  }

  /** No common subsequence of two fronts is longer than the table says. */
  lemma {:induction false} TableBounds(a: seq<Line>, b: seq<Line>, i: nat, j: nat, c: seq<Line>)
    requires i <= |a| && j <= |b| && Sub(c, a[..i]) && Sub(c, b[..j])
    ensures |c| <= Table(a, b, i, j)
    decreases i + j
  {
    if c != [] {
      assert i > 0 && j > 0;
      assert a[..i][..i - 1] == a[..i - 1] && b[..j][..j - 1] == b[..j - 1];
      if a[i - 1] == b[j - 1] {
        SubFront(c, a[..i]);
        SubFront(c, b[..j]);
        TableBounds(a, b, i - 1, j - 1, c[..|c| - 1]);
      } else if Sub(c, a[..i - 1]) {
        TableBounds(a, b, i - 1, j, c);
      } else {
        TableBounds(a, b, i, j - 1, c);
      }
    }
  }

  // ---- operations ----

  function OldSide(ops: seq<Op>): seq<Line> {
    if ops == [] then []
    else if ops[0].Add? then OldSide(ops[1..])
    else [ops[0].line] + OldSide(ops[1..])
  }

  function NewSide(ops: seq<Op>): seq<Line> {
    if ops == [] then []
    else if ops[0].Del? then NewSide(ops[1..])
    else [ops[0].line] + NewSide(ops[1..])
  }

  function Kept(ops: seq<Op>): seq<Line> {
    if ops == [] then []
    else if ops[0].Equal? then [ops[0].line] + Kept(ops[1..])
    else Kept(ops[1..])
  }

  function Reversed<T>(s: seq<T>): (r: seq<T>)
    ensures |r| == |s|
  {
    if s == [] then [] else Reversed(s[1..]) + [s[0]]
  }

  lemma {:induction false} ReversedAt<T>(s: seq<T>, k: nat)
    requires k < |s|
    ensures Reversed(s)[k] == s[|s| - 1 - k]
  {
    if k < |s| - 1 {
      ReversedAt(s[1..], k);
    }
  }

  lemma {:induction false} ReversedMore<T>(s: seq<T>, x: T)
    ensures Reversed(s + [x]) == [x] + Reversed(s)
  {
    var r, t := Reversed(s + [x]), [x] + Reversed(s);
    forall k | 0 <= k < |r| ensures r[k] == t[k] {
      ReversedAt(s + [x], k);
      if k > 0 {
        ReversedAt(s, k - 1);
      }
    }
  }

  /** The operations in a row from the back, once they are turned round. */
  lemma {:induction false} SidesStep(ops: seq<Op>, op: Op)
    ensures OldSide([op] + ops) == (if op.Add? then [] else [op.line]) + OldSide(ops)
    ensures NewSide([op] + ops) == (if op.Del? then [] else [op.line]) + NewSide(ops)
    ensures Kept([op] + ops) == (if op.Equal? then [op.line] else []) + Kept(ops)
  {
    assert ([op] + ops)[1..] == ops;
  }

  /** The lines kept are a common subsequence of the two sides. */
  lemma {:induction false} KeptIsCommon(ops: seq<Op>)
    ensures Sub(Kept(ops), OldSide(ops)) && Sub(Kept(ops), NewSide(ops))
  {
    if ops != [] {
      KeptIsCommon(ops[1..]);
      var op, rest := ops[0], ops[1..];
      assert ops == [op] + rest;
      SidesStep(rest, op);
      if op.Equal? {
        SubCons(op.line, Kept(rest), OldSide(rest));
        SubCons(op.line, Kept(rest), NewSide(rest));
      } else if op.Del? {
        SubSkip(op.line, Kept(rest), OldSide(rest));
      } else {
        SubSkip(op.line, Kept(rest), NewSide(rest));
      }
    }
  }

  lemma {:induction false} SubCons(x: Line, c: seq<Line>, a: seq<Line>)
    requires Sub(c, a)
    ensures Sub([x] + c, [x] + a)
    decreases |a|
  {
    var c', a' := [x] + c, [x] + a;
    if a == [] {
      assert c'[..0] == [] && c'[0] == a'[0];
    } else {
      assert a'[..|a'| - 1] == [x] + a[..|a| - 1];
      if c == [] {
        SubCons(x, c, a[..|a| - 1]);
      } else if Sub(c, a[..|a| - 1]) {
        SubCons(x, c, a[..|a| - 1]);
      } else {
        SubCons(x, c[..|c| - 1], a[..|a| - 1]);
        assert c'[..|c'| - 1] == [x] + c[..|c| - 1];
      }
    }
  }

  lemma {:induction false} SubSkip(x: Line, c: seq<Line>, a: seq<Line>)
    requires Sub(c, a)
    ensures Sub(c, [x] + a)
    decreases |a|
  {
    var a' := [x] + a;
    if c != [] {
      assert a'[..|a'| - 1] == [x] + a[..|a| - 1];
      if Sub(c, a[..|a| - 1]) {
        SubSkip(x, c, a[..|a| - 1]);
      } else {
        SubSkip(x, c[..|c| - 1], a[..|a| - 1]);
      }
    }
  }

  // ---- the algorithm ----

  /** The first `j` cells of row `i` are filled. */
  ghost predicate RowDone(dp: array2<nat>, a: seq<Line>, b: seq<Line>, i: nat, j: nat)
    requires dp.Length0 == |a| + 1 && dp.Length1 == |b| + 1 && i <= |a| && j <= |b| + 1
    reads dp
  {
    forall q: nat :: q < j ==> dp[i, q] == Table(a, b, i, q)
  }

  ghost predicate RowFull(dp: array2<nat>, a: seq<Line>, b: seq<Line>, i: nat)
    requires dp.Length0 == |a| + 1 && dp.Length1 == |b| + 1 && i <= |a|
    reads dp
  {
    forall q: nat :: q <= |b| ==> dp[i, q] == Table(a, b, i, q)
  }

  lemma {:induction false} TableStep(a: seq<Line>, b: seq<Line>, i: nat, j: nat)
    requires 0 < i <= |a| && 0 < j <= |b|
    ensures Table(a, b, i, j) ==
            if a[i - 1] == b[j - 1] then Table(a, b, i - 1, j - 1) + 1
            else if Table(a, b, i - 1, j) >= Table(a, b, i, j - 1) then Table(a, b, i - 1, j)
            else Table(a, b, i, j - 1)
    ensures Table(a, b, i, 0) == 0
  {
  }

  method FillRow(a: seq<Line>, b: seq<Line>, dp: array2<nat>, i: nat)
    requires dp.Length0 == |a| + 1 && dp.Length1 == |b| + 1 && 0 < i <= |a|
    requires RowFull(dp, a, b, i - 1) && dp[i, 0] == 0
    modifies dp
    ensures RowFull(dp, a, b, i)
    ensures forall p: nat, q: nat :: p <= |a| && q <= |b| && p != i ==> dp[p, q] == old(dp[p, q])
    ensures forall p: nat :: p <= |a| && p != i && old(RowFull(dp, a, b, p)) ==> RowFull(dp, a, b, p)
  {
    hide Table;
    if |b| > 0 {
      TableStep(a, b, i, |b|);
    } else {
      TableEdge(a, b, i);
    }
    var j := 1;
    while j <= |b|
      invariant 1 <= j <= |b| + 1
      invariant RowDone(dp, a, b, i, j) && RowFull(dp, a, b, i - 1)
      invariant forall p: nat, q: nat :: p <= |a| && q <= |b| && p != i ==> dp[p, q] == old(dp[p, q])
    {
      TableStep(a, b, i, j);
      if a[i - 1] == b[j - 1] {
        dp[i, j] := dp[i - 1, j - 1] + 1;
      } else if dp[i - 1, j] >= dp[i, j - 1] {
        dp[i, j] := dp[i - 1, j];
      } else {
        dp[i, j] := dp[i, j - 1];
      }
      j := j + 1;
    }
  }

  lemma {:induction false} TableEdge(a: seq<Line>, b: seq<Line>, i: nat)
    requires i <= |a|
    ensures Table(a, b, i, 0) == 0 && forall j: nat :: j <= |b| ==> Table(a, b, 0, j) == 0
  {
  }

  /** Fills the table row by row. */
  method FillTable(a: seq<Line>, b: seq<Line>) returns (dp: array2<nat>)
    ensures fresh(dp) && dp.Length0 == |a| + 1 && dp.Length1 == |b| + 1
    ensures forall i: nat :: i <= |a| ==> RowFull(dp, a, b, i)
  {
    hide Table;
    var n, m := |a|, |b|;
    dp := new nat[n + 1, m + 1]((i, j) => 0);
    TableEdge(a, b, 0);
    var i := 1;
    while i <= n
      invariant 1 <= i <= n + 1
      invariant forall p: nat :: p < i ==> RowFull(dp, a, b, p)
      invariant forall p: nat :: p <= n ==> dp[p, 0] == 0
    {
      FillRow(a, b, dp, i);
      TableEdge(a, b, i);
      i := i + 1;
    }
  }

  // ---- the walk back ----

  /** The operations of the walk from the corner `(i, j)`, put in order. */
  function Script(a: seq<Line>, b: seq<Line>, i: nat, j: nat): seq<Op>
    requires i <= |a| && j <= |b|
    decreases i + j
  {
    if i == 0 && j == 0 then []
    else if i > 0 && j > 0 && a[i - 1] == b[j - 1] then Script(a, b, i - 1, j - 1) + [Equal(a[i - 1])]
    else if i > 0 && (j == 0 || Table(a, b, i - 1, j) >= Table(a, b, i, j - 1)) then
      Script(a, b, i - 1, j) + [Del(a[i - 1])]
    else Script(a, b, i, j - 1) + [Add(b[j - 1])]
  }

  lemma {:induction false} SidesMore(ops: seq<Op>, op: Op)
    ensures OldSide(ops + [op]) == OldSide(ops) + if op.Add? then [] else [op.line]
    ensures NewSide(ops + [op]) == NewSide(ops) + if op.Del? then [] else [op.line]
    ensures Kept(ops + [op]) == Kept(ops) + if op.Equal? then [op.line] else []
  {
    if ops == [] {
      assert [] + [op] == [op];
    } else {
      assert (ops + [op])[1..] == ops[1..] + [op];
      SidesMore(ops[1..], op);
    }
  }

  lemma {:induction false} Grown(s: seq<Line>, i: nat)
    requires 0 < i <= |s|
    ensures s[..i - 1] + [s[i - 1]] == s[..i] && s[..i][..i - 1] == s[..i - 1] && s[..i] + [] == s[..i]
  {
  }

  lemma {:induction false} ScriptNone(a: seq<Line>, b: seq<Line>)
    ensures Script(a, b, 0, 0) == []
  {
  }

  lemma {:induction false} ScriptStep(a: seq<Line>, b: seq<Line>, i: nat, j: nat)
    requires i <= |a| && j <= |b| && i + j > 0
    ensures Script(a, b, i, j) ==
            if i > 0 && j > 0 && a[i - 1] == b[j - 1] then Script(a, b, i - 1, j - 1) + [Equal(a[i - 1])]
            else if i > 0 && (j == 0 || Table(a, b, i - 1, j) >= Table(a, b, i, j - 1)) then
              Script(a, b, i - 1, j) + [Del(a[i - 1])]
            else Script(a, b, i, j - 1) + [Add(b[j - 1])]
  {
  }

  /** The walk rebuilds both fronts and keeps as many lines as its cell says. */
  lemma {:induction false} ScriptIs(a: seq<Line>, b: seq<Line>, i: nat, j: nat)
    requires i <= |a| && j <= |b|
    ensures var ops := Script(a, b, i, j);
            OldSide(ops) == a[..i] && NewSide(ops) == b[..j] && |Kept(ops)| == Table(a, b, i, j)
    decreases i + j
  {
    hide OldSide, NewSide, Kept, Script, Table;
    TableEdge(a, b, i);
    if i == 0 && j == 0 {
      NoOps();
      ScriptNone(a, b);
    } else if i > 0 && j > 0 && a[i - 1] == b[j - 1] {
      ScriptStep(a, b, i, j);
      TableStep(a, b, i, j);
      ScriptIs(a, b, i - 1, j - 1);
      SidesMore(Script(a, b, i - 1, j - 1), Equal(a[i - 1]));
      Grown(a, i);
      Grown(b, j);
    } else if i > 0 && (j == 0 || Table(a, b, i - 1, j) >= Table(a, b, i, j - 1)) {
      ScriptStep(a, b, i, j);
      if j > 0 {
        TableStep(a, b, i, j);
      } else {
        TableEdge(a, b, i - 1);
      }
      ScriptIs(a, b, i - 1, j);
      SidesMore(Script(a, b, i - 1, j), Del(a[i - 1]));
      Grown(a, i);
    } else {
      ScriptStep(a, b, i, j);
      if i > 0 {
        TableStep(a, b, i, j);
      }
      ScriptIs(a, b, i, j - 1);
      SidesMore(Script(a, b, i, j - 1), Add(b[j - 1]));
      Grown(b, j);
    }
  }

  /** One more operation collected. */
  lemma {:induction false} WalkBack(before: seq<Op>, op: Op, ops: seq<Op>, whole: seq<Op>)
    requires (before + [op]) + Reversed(ops) == whole
    ensures before + Reversed(ops + [op]) == whole
  {
    hide Reversed;
    ReversedMore(ops, op);
  }

  /** Walks the table from its last corner, collecting operations back to front. */
  method Backtrack(a: seq<Line>, b: seq<Line>, dp: array2<nat>) returns (ops: seq<Op>)
    requires dp.Length0 == |a| + 1 && dp.Length1 == |b| + 1
    requires forall i: nat :: i <= |a| ==> RowFull(dp, a, b, i)
    ensures Reversed(ops) == Script(a, b, |a|, |b|)
  {
    hide Reversed, Table, Script;
    ops := [];
    var i: nat, j: nat := |a|, |b|;
    ghost var whole := Script(a, b, i, j);
    NoOps();
    while i > 0 || j > 0
      invariant i <= |a| && j <= |b| && Script(a, b, i, j) + Reversed(ops) == whole
      decreases i + j
    {
      assert RowFull(dp, a, b, i) && (i > 0 ==> RowFull(dp, a, b, i - 1));
      ScriptStep(a, b, i, j);
      if i > 0 && j > 0 && a[i - 1] == b[j - 1] {
        WalkBack(Script(a, b, i - 1, j - 1), Equal(a[i - 1]), ops, whole);
        ops := ops + [Equal(a[i - 1])];
        i := i - 1;
        j := j - 1;
      } else if i > 0 && (j == 0 || dp[i - 1, j] >= dp[i, j - 1]) {
        WalkBack(Script(a, b, i - 1, j), Del(a[i - 1]), ops, whole);
        ops := ops + [Del(a[i - 1])];
        i := i - 1;
      } else {
        WalkBack(Script(a, b, i, j - 1), Add(b[j - 1]), ops, whole);
        ops := ops + [Add(b[j - 1])];
        j := j - 1;
      }
    }
    ScriptNone(a, b);
  }

  // ---- which operations ----

  ghost predicate Common(c: seq<Line>, a: seq<Line>, b: seq<Line>) {
    Sub(c, a) && Sub(c, b)
  }

  /** A longest common subsequence can do without the last of the old lines. */
  ghost predicate Spare(a: seq<Line>, b: seq<Line>)
    requires a != []
  {
    forall c :: Common(c, a, b) ==> exists d :: Common(d, a[..|a| - 1], b) && |d| >= |c|
  }

  /**
   Read from the end, two last lines that are alike are kept; otherwise the old one is deleted if
   it can be spared, and the new one added if not.
   */
  ghost predicate Placed(ops: seq<Op>, a: seq<Line>, b: seq<Line>) {
    if ops == [] then a == [] && b == []
    else
      var n, m := |a| - 1, |b| - 1;
      var front := ops[..|ops| - 1];
      match ops[|ops| - 1]
      case Equal(x) => n >= 0 && m >= 0 && a[n] == x && b[m] == x && Placed(front, a[..n], b[..m])
      case Del(x) => n >= 0 && a[n] == x && (m >= 0 ==> b[m] != x) && Spare(a, b) && Placed(front, a[..n], b)
      case Add(x) => m >= 0 && b[m] == x && (n >= 0 ==> a[n] != x && !Spare(a, b)) && Placed(front, a, b[..m])
  }

  lemma {:induction false} SpareIff(a: seq<Line>, b: seq<Line>, i: nat, j: nat)
    requires 0 < i <= |a| && j <= |b|
    ensures Spare(a[..i], b[..j]) <==> Table(a, b, i - 1, j) >= Table(a, b, i, j)
  {
    hide Table, Sub;
    Grown(a, i);
    var most, fewer := Kept(Script(a, b, i, j)), Kept(Script(a, b, i - 1, j));
    KeptIsCommon(Script(a, b, i, j));
    KeptIsCommon(Script(a, b, i - 1, j));
    ScriptIs(a, b, i, j);
    ScriptIs(a, b, i - 1, j);
    hide Script, Kept;
    assert Common(most, a[..i], b[..j]) && Common(fewer, a[..i - 1], b[..j]);
    if Table(a, b, i - 1, j) >= Table(a, b, i, j) {
      forall c | Common(c, a[..i], b[..j]) ensures Common(fewer, a[..i - 1], b[..j]) && |fewer| >= |c| {
        TableBounds(a, b, i, j, c);
      }
    } else if d :| Common(d, a[..i - 1], b[..j]) && |d| >= |most| {
      TableBounds(a, b, i - 1, j, d);
    }
  }

  lemma {:induction false} ScriptPlaced(a: seq<Line>, b: seq<Line>, i: nat, j: nat)
    requires i <= |a| && j <= |b|
    ensures Placed(Script(a, b, i, j), a[..i], b[..j])
    decreases i + j
  {
    hide Spare, Table;
    if i > 0 {
      Grown(a, i);
      SpareIff(a, b, i, j);
    }
    if j > 0 {
      Grown(b, j);
    }
    if i > 0 && j > 0 {
      TableStep(a, b, i, j);
      if a[i - 1] == b[j - 1] {
        ScriptPlaced(a, b, i - 1, j - 1);
      } else if Table(a, b, i - 1, j) >= Table(a, b, i, j - 1) {
        ScriptPlaced(a, b, i - 1, j);
      } else {
        ScriptPlaced(a, b, i, j - 1);
      }
    } else if i > 0 {
      TableEdge(a, b, i);
      TableEdge(a, b, i - 1);
      ScriptPlaced(a, b, i - 1, j);
    } else if j > 0 {
      ScriptPlaced(a, b, i, j - 1);
    }
  }

  /** Only one list of operations is so placed. */
  lemma {:induction false} OnlyOne(p: seq<Op>, q: seq<Op>, a: seq<Line>, b: seq<Line>)
    requires Placed(p, a, b) && Placed(q, a, b)
    ensures p == q
    decreases |p|
  {
    hide Spare;
    if p != [] && q != [] {
      var op := p[|p| - 1];
      assert op == q[|q| - 1];
      OnlyOne(p[..|p| - 1], q[..|q| - 1], if op.Add? then a else a[..|a| - 1], if op.Del? then b else b[..|b| - 1]);
      assert p == p[..|p| - 1] + [op] && q == q[..|q| - 1] + [op];
    }
  }

  /** Where lines were replaced the additions come first: no addition directly follows a deletion. */
  lemma {:induction false} AdditionsFirst(ops: seq<Op>, a: seq<Line>, b: seq<Line>, k: nat)
    requires Placed(ops, a, b) && k + 1 < |ops|
    ensures !(ops[k].Del? && ops[k + 1].Add?)
    decreases |ops|
  {
    hide Spare;
    var op, front := ops[|ops| - 1], ops[..|ops| - 1];
    if k + 2 < |ops| {
      AdditionsFirst(front, if op.Add? then a else a[..|a| - 1], if op.Del? then b else b[..|b| - 1], k);
    } else if ops[k].Del? && op.Add? {
      assert front[|front| - 1] == ops[k];
      SpareMore(a, b);
    }
  }

  lemma {:induction false} SpareMore(a: seq<Line>, b: seq<Line>)
    requires a != [] && b != [] && a[|a| - 1] != b[|b| - 1] && Spare(a, b[..|b| - 1])
    ensures Spare(a, b)
  {
    forall c | Common(c, a, b) ensures exists d :: Common(d, a[..|a| - 1], b) && |d| >= |c| {
      if Sub(c, b[..|b| - 1]) {
        assert Common(c, a, b[..|b| - 1]);
        var d :| Common(d, a[..|a| - 1], b[..|b| - 1]) && |d| >= |c|;
        assert Common(d, a[..|a| - 1], b);
      } else {
        assert Common(c, a[..|a| - 1], b);
      }
    }
  }

  lemma {:induction false} NoOps()
    ensures Reversed<Op>([]) == [] && OldSide([]) == [] && NewSide([]) == [] && Kept([]) == []
  {
  }

  method ReverseInPlace(ops: array<Op>)
    modifies ops
    ensures ops[..] == Reversed(old(ops[..]))
  {
    var n := ops.Length;
    var i, j := 0, n - 1;
    while i < j
      invariant 0 <= i && j == n - 1 - i && i <= j + 1
      invariant forall k :: 0 <= k < i ==> ops[k] == old(ops[n - 1 - k]) && ops[n - 1 - k] == old(ops[k])
      invariant forall k :: i <= k <= j ==> ops[k] == old(ops[k])
    {
      ops[i], ops[j] := ops[j], ops[i];
      i, j := i + 1, j - 1;
    }
    ghost var was := old(ops[..]);
    forall k | 0 <= k < n ensures ops[..][k] == Reversed(was)[k] {
      ReversedAt(was, k);
    }
  }

  /**
   The operations rebuild the old and the new lines, no common subsequence of the two is longer
   than the lines they keep, which are one, and no other operations are so placed.
   */
  method LcsOperations(oldLines: seq<Line>, newLines: seq<Line>) returns (ops: seq<Op>)
    ensures OldSide(ops) == oldLines && NewSide(ops) == newLines
    ensures Sub(Kept(ops), oldLines) && Sub(Kept(ops), newLines)
    ensures forall c :: Sub(c, oldLines) && Sub(c, newLines) ==> |c| <= |Kept(ops)|
    ensures Placed(ops, oldLines, newLines)
  {
    hide Reversed, Table, Sub, OldSide, NewSide, Kept, Script, Placed;
    var dp := FillTable(oldLines, newLines);
    var back := Backtrack(oldLines, newLines, dp);
    var buf := new Op[|back|](i requires 0 <= i < |back| => back[i]);
    assert buf[..] == back;
    ReverseInPlace(buf);
    ops := buf[..];
    KeptIsCommon(ops);
    assert oldLines[..|oldLines|] == oldLines && newLines[..|newLines|] == newLines;
    ScriptIs(oldLines, newLines, |oldLines|, |newLines|);
    ScriptPlaced(oldLines, newLines, |oldLines|, |newLines|);
    forall c | Sub(c, oldLines) && Sub(c, newLines) ensures |c| <= |Kept(ops)| {
      TableBounds(oldLines, newLines, |oldLines|, |newLines|, c);
    }
  }
}
