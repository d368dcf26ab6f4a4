/** Line diff: a longest-common-subsequence table, the edit script read off it, and
    the hunks cut out of the script. */
module LineDiff {
  import opened Basics

  datatype Kind = Equal | Delete | Insert

  /** A line without its terminator. */
  datatype Line = Line(text: string)

  datatype Op = Op(kind: Kind, line: Line)

  // ---- what a script means ----------------------------------------------------

  function OldSide(ops: seq<Op>): seq<Line> {
    if ops == [] then []
    else (if ops[0].kind == Insert then [] else [ops[0].line]) + OldSide(ops[1..])
  }

  function NewSide(ops: seq<Op>): seq<Line> {
    if ops == [] then []
    else (if ops[0].kind == Delete then [] else [ops[0].line]) + NewSide(ops[1..])
  }

  /** The lines a script keeps. */
  function Kept(ops: seq<Op>): seq<Line> {
    if ops == [] then []
    else (if ops[0].kind == Equal then [ops[0].line] else []) + Kept(ops[1..])
  }

  ghost predicate IsScript(a: seq<Line>, b: seq<Line>, ops: seq<Op>) {
    OldSide(ops) == a && NewSide(ops) == b
  }

  predicate Subsequence(s: seq<Line>, a: seq<Line>) {
    s == [] || (a != [] && ((s[0] == a[0] && Subsequence(s[1..], a[1..])) || Subsequence(s, a[1..])))
  }

  // ---- the table ---------------------------------------------------------------

  /** Length of a longest common subsequence of the suffixes at i and j. */
  function Lcs(a: seq<Line>, b: seq<Line>, i: nat, j: nat): nat
    requires i <= |a| && j <= |b|
    decreases |a| - i + |b| - j
  {
    if i == |a| || j == |b| then 0
    else if a[i] == b[j] then Lcs(a, b, i + 1, j + 1) + 1
    else Max(Lcs(a, b, i + 1, j), Lcs(a, b, i, j + 1))
  }

  /** The script read off the table from (i, j) on: keep equal lines, and otherwise
      delete while that does not lose a common line. */
  function Script(a: seq<Line>, b: seq<Line>, i: nat, j: nat): seq<Op>
    requires i <= |a| && j <= |b|
    decreases |a| - i + |b| - j
  {
    if i == |a| && j == |b| then []
    else if i < |a| && j < |b| && a[i] == b[j] then [Op(Equal, a[i])] + Script(a, b, i + 1, j + 1)
    else if j >= |b| || (i < |a| && Lcs(a, b, i + 1, j) >= Lcs(a, b, i, j + 1))
    then [Op(Delete, a[i])] + Script(a, b, i + 1, j)
    else [Op(Insert, b[j])] + Script(a, b, i, j + 1)
  }

  /** The table's rows: distinct arrays, one more than there are old lines. */
  ghost predicate Table(dp: seq<array<nat>>, rows: nat, columns: nat) {
    && |dp| == rows
    && (forall x :: 0 <= x < rows ==> dp[x].Length == columns)
    && (forall x, y :: 0 <= x < y < rows ==> dp[x] != dp[y])
  }

  method MakeTable(rows: nat, columns: nat) returns (dp: seq<array<nat>>)
    ensures Table(dp, rows, columns)
    ensures forall x :: 0 <= x < rows ==> fresh(dp[x]) && forall y :: 0 <= y < columns ==> dp[x][y] == 0
  {
    dp := [];
    while |dp| < rows
      invariant |dp| <= rows && Table(dp, |dp|, columns)
      invariant forall x :: 0 <= x < |dp| ==> fresh(dp[x]) && forall y :: 0 <= y < columns ==> dp[x][y] == 0
    {
      var row := new nat[columns](_ => 0);
      dp := dp + [row];
    }
  }

  ghost predicate RowDone(a: seq<Line>, b: seq<Line>, row: array<nat>, i: nat)
    requires i <= |a| && row.Length == |b| + 1
    reads row
  {
    forall y :: 0 <= y <= |b| ==> row[y] == Lcs(a, b, i, y)
  }

  /** The nested loops of diffLines, filling the table from its far corner. */
  method FillTable(a: seq<Line>, b: seq<Line>, dp: seq<array<nat>>)
    requires Table(dp, |a| + 1, |b| + 1)
    requires forall x :: 0 <= x <= |a| ==> forall y :: 0 <= y <= |b| ==> dp[x][y] == 0
    modifies set x | 0 <= x < |dp| :: dp[x]
    ensures forall x :: 0 <= x <= |a| ==> RowDone(a, b, dp[x], x)
  {
    var i := |a|;
    while i > 0
      invariant 0 <= i <= |a|
      invariant forall x :: 0 <= x < i ==> dp[x][|b|] == 0
      invariant forall x :: i <= x <= |a| ==> RowDone(a, b, dp[x], x)
    {
      i := i - 1;
      FillRow(a, b, i, dp[i + 1], dp[i]);
    }
  }

  /** The inner loop: one row from the row below it. */
  method FillRow(a: seq<Line>, b: seq<Line>, i: nat, below: array<nat>, row: array<nat>)
    requires i < |a| && row.Length == below.Length == |b| + 1 && row != below
    requires row[|b|] == 0 && RowDone(a, b, below, i + 1)
    modifies row
    ensures RowDone(a, b, row, i)
  {
    var j := |b|;
    while j > 0
      invariant 0 <= j <= |b|
      invariant forall y :: j <= y <= |b| ==> row[y] == Lcs(a, b, i, y)
    {
      j := j - 1;
      if a[i] == b[j] {
        row[j] := below[j + 1] + 1;
      } else if below[j] >= row[j + 1] {
        row[j] := below[j];
      } else {
        row[j] := row[j + 1];
      }
    }
  }

  lemma ScriptStep(a: seq<Line>, b: seq<Line>, i: nat, j: nat, done: seq<Op>, op: Op, i': nat, j': nat)
    requires i <= i' <= |a| && j <= j' <= |b|
    requires Script(a, b, 0, 0) == done + Script(a, b, i, j)
    requires Script(a, b, i, j) == [op] + Script(a, b, i', j')
    ensures Script(a, b, 0, 0) == (done + [op]) + Script(a, b, i', j')
  {
  }

  lemma ScriptHead(a: seq<Line>, b: seq<Line>, i: nat, j: nat)
    requires i <= |a| && j <= |b|
    ensures Script(a, b, i, j)
         == if i == |a| && j == |b| then []
            else if i < |a| && j < |b| && a[i] == b[j] then [Op(Equal, a[i])] + Script(a, b, i + 1, j + 1)
            else if j == |b| || (i < |a| && Lcs(a, b, i + 1, j) >= Lcs(a, b, i, j + 1))
            then [Op(Delete, a[i])] + Script(a, b, i + 1, j)
            else [Op(Insert, b[j])] + Script(a, b, i, j + 1)
  {
  }

  method DiffLines(a: seq<Line>, b: seq<Line>) returns (ops: seq<Op>)
    ensures ops == Script(a, b, 0, 0)
    ensures IsScript(a, b, ops)
    ensures forall other :: IsScript(a, b, other) ==> |Kept(other)| <= |Kept(ops)|
  {
    hide Script, Lcs, IsScript, Kept;
    var n, m := |a|, |b|;
    var dp := MakeTable(n + 1, m + 1);
    FillTable(a, b, dp);
    ops := [];
    var i: nat, j: nat := 0, 0;
    while i < n || j < m
      invariant i <= n && j <= m
      invariant Script(a, b, 0, 0) == ops + Script(a, b, i, j)
      invariant forall x :: 0 <= x <= n ==> RowDone(a, b, dp[x], x)
      decreases n - i + m - j
    {
      ScriptHead(a, b, i, j);
      if i < n && j < m && a[i] == b[j] {
        ScriptStep(a, b, i, j, ops, Op(Equal, a[i]), i + 1, j + 1);
        ops := ops + [Op(Equal, a[i])];
        i, j := i + 1, j + 1;
      } else if j >= m || (i < n && dp[i + 1][j] >= dp[i][j + 1]) {
        ScriptStep(a, b, i, j, ops, Op(Delete, a[i]), i + 1, j);
        ops := ops + [Op(Delete, a[i])];
        i := i + 1;
      } else {
        ScriptStep(a, b, i, j, ops, Op(Insert, b[j]), i, j + 1);
        ops := ops + [Op(Insert, b[j])];
        j := j + 1;
      }
    }
    ScriptHead(a, b, n, m);
    ScriptKeepsMost(a, b);
  }

  // ---- the script is right, and no script keeps more -----------------------------

  lemma {:induction false} ScriptSides(a: seq<Line>, b: seq<Line>, i: nat, j: nat)
    requires i <= |a| && j <= |b|
    ensures IsScript(a[i..], b[j..], Script(a, b, i, j))
    ensures |Kept(Script(a, b, i, j))| == Lcs(a, b, i, j)
    decreases |a| - i + |b| - j
  {
    if i < |a| && j < |b| && a[i] == b[j] {
      ScriptSides(a, b, i + 1, j + 1);
      ConsSides(Op(Equal, a[i]), Script(a, b, i + 1, j + 1));
      Suffix(a, i);
      Suffix(b, j);
    } else if i < |a| && (j >= |b| || Lcs(a, b, i + 1, j) >= Lcs(a, b, i, j + 1)) {
      ScriptSides(a, b, i + 1, j);
      ConsSides(Op(Delete, a[i]), Script(a, b, i + 1, j));
      Suffix(a, i);
    } else if j < |b| {
      ScriptSides(a, b, i, j + 1);
      ConsSides(Op(Insert, b[j]), Script(a, b, i, j + 1));
      Suffix(b, j);
    }
  }

  lemma Suffix(a: seq<Line>, i: nat)
    requires i < |a|
    ensures a[i..] == [a[i]] + a[i + 1..]
  {
  }

  lemma ConsSides(op: Op, rest: seq<Op>)
    ensures var ops := [op] + rest;
            && OldSide(ops) == (if op.kind == Insert then OldSide(rest) else [op.line] + OldSide(rest))
            && NewSide(ops) == (if op.kind == Delete then NewSide(rest) else [op.line] + NewSide(rest))
            && Kept(ops) == (if op.kind == Equal then [op.line] + Kept(rest) else Kept(rest))
  {
    assert ([op] + rest)[1..] == rest;
  }

  lemma {:induction false} SubsequenceTail(s: seq<Line>, a: seq<Line>)
    requires Subsequence(s, a) && s != []
    ensures a != [] && Subsequence(s[1..], a[1..]) && Subsequence(s[1..], a)
  {
    if !(s[0] == a[0] && Subsequence(s[1..], a[1..])) { SubsequenceTail(s, a[1..]); }
  }

  /** No common subsequence is longer than the table says. */
  lemma {:induction false} LcsIsLongest(a: seq<Line>, b: seq<Line>, i: nat, j: nat, s: seq<Line>)
    requires i <= |a| && j <= |b|
    requires Subsequence(s, a[i..]) && Subsequence(s, b[j..])
    ensures |s| <= Lcs(a, b, i, j)
    decreases |a| - i + |b| - j
  {
    if s != [] && i < |a| && j < |b| {
      assert a[i..][1..] == a[i + 1..] && b[j..][1..] == b[j + 1..];
      if a[i] == b[j] {
        SubsequenceTail(s, a[i..]);
        SubsequenceTail(s, b[j..]);
        LcsIsLongest(a, b, i + 1, j + 1, s[1..]);
      } else if s[0] != a[i] {
        LcsIsLongest(a, b, i + 1, j, s);
      } else {
        LcsIsLongest(a, b, i, j + 1, s);
      }
    }
  }

  lemma SubsequenceCons(s: seq<Line>, a: seq<Line>, x: Line)
    requires Subsequence(s, a)
    ensures Subsequence(s, [x] + a) && Subsequence([x] + s, [x] + a)
  {
    assert ([x] + a)[1..] == a && ([x] + s)[1..] == s;
  }

  /** The lines a script keeps are a common subsequence of its two sides. */
  lemma {:induction false} KeptIsCommon(ops: seq<Op>)
    ensures Subsequence(Kept(ops), OldSide(ops)) && Subsequence(Kept(ops), NewSide(ops))
  {
    if ops != [] {
      var rest, x := ops[1..], ops[0].line;
      KeptIsCommon(rest);
      assert ops == [ops[0]] + rest;
      ConsSides(ops[0], rest);
      SubsequenceCons(Kept(rest), OldSide(rest), x);
      SubsequenceCons(Kept(rest), NewSide(rest), x);
    }
  }

  /** Lines changed by a script: with the two sides given, keeping most is changing least. */
  lemma {:induction false} ChangesCount(ops: seq<Op>)
    ensures |ops| == |OldSide(ops)| + |NewSide(ops)| - |Kept(ops)|
  {
    if ops != [] { ChangesCount(ops[1..]); }
  }

  lemma ScriptKeepsMost(a: seq<Line>, b: seq<Line>)
    ensures IsScript(a, b, Script(a, b, 0, 0))
    ensures forall other :: IsScript(a, b, other) ==> |Kept(other)| <= |Kept(Script(a, b, 0, 0))|
  {
    ScriptSides(a, b, 0, 0);
    assert a[0..] == a && b[0..] == b;
    forall other | IsScript(a, b, other) ensures |Kept(other)| <= |Kept(Script(a, b, 0, 0))| {
      KeptIsCommon(other);
      LcsIsLongest(a, b, 0, 0, Kept(other));
    }
  }

  /** The kept lines are a longest common subsequence of the two texts. */
  lemma ScriptKeepsLongest(a: seq<Line>, b: seq<Line>, s: seq<Line>)
    requires Subsequence(s, a) && Subsequence(s, b)
    ensures var k := Kept(Script(a, b, 0, 0)); Subsequence(k, a) && Subsequence(k, b) && |s| <= |k|
  {
    ScriptSides(a, b, 0, 0);
    assert a[0..] == a && b[0..] == b;
    KeptIsCommon(Script(a, b, 0, 0));
    LcsIsLongest(a, b, 0, 0, s);
  }

  lemma LcsShrinks(a: seq<Line>, b: seq<Line>, i: nat, j: nat)
    requires i <= |a| && j < |b|
    ensures Lcs(a, b, i, j + 1) <= Lcs(a, b, i, j)
  {
    var kept := Kept(Script(a, b, i, j + 1));
    ScriptSides(a, b, i, j + 1);
    KeptIsCommon(Script(a, b, i, j + 1));
    SubsequenceCons(kept, b[j + 1..], b[j]);
    Suffix(b, j);
    LcsIsLongest(a, b, i, j, kept);
  }

  /** An inserted line is not followed by a deleted one. */
  ghost predicate DeletesFirst(ops: seq<Op>) {
    forall k :: 0 < k < |ops| && ops[k - 1].kind == Insert ==> ops[k].kind != Delete
  }

  lemma NoDeleteNext(a: seq<Line>, b: seq<Line>, i: nat, j: nat)
    requires i <= |a| && j <= |b| && Script(a, b, i, j) != [] && Script(a, b, i, j)[0].kind == Insert
    ensures j < |b| && Script(a, b, i, j) == [Op(Insert, b[j])] + Script(a, b, i, j + 1)
    ensures Script(a, b, i, j + 1) != [] ==> Script(a, b, i, j + 1)[0].kind != Delete
  {
    if i < |a| { LcsShrinks(a, b, i + 1, j); }
  }

  lemma DeletesFirstCons(op: Op, rest: seq<Op>)
    requires DeletesFirst(rest) && (op.kind == Insert && rest != [] ==> rest[0].kind != Delete)
    ensures DeletesFirst([op] + rest)
  {
    var ops := [op] + rest;
    forall k | 0 < k < |ops| && ops[k - 1].kind == Insert ensures ops[k].kind != Delete {
      if k > 1 { assert rest[k - 2].kind == Insert; }
    }
  }

  /** Where the two texts differ, the deleted lines come before the inserted ones. */
  lemma {:induction false} ScriptDeletesFirst(a: seq<Line>, b: seq<Line>, i: nat, j: nat)
    requires i <= |a| && j <= |b|
    ensures DeletesFirst(Script(a, b, i, j))
    decreases |a| - i + |b| - j
  {
    var ops := Script(a, b, i, j);
    if ops != [] {
      var i', j' := i + (if ops[0].kind == Insert then 0 else 1), j + (if ops[0].kind == Delete then 0 else 1);
      if ops[0].kind == Insert { NoDeleteNext(a, b, i, j); }
      ScriptDeletesFirst(a, b, i', j');
      DeletesFirstCons(ops[0], Script(a, b, i', j'));
    }
  }

  /** diffLines gives a shortest script: no other script for the same texts has fewer ops. */
  lemma ScriptIsShortest(a: seq<Line>, b: seq<Line>, other: seq<Op>)
    requires IsScript(a, b, other)
    ensures |Script(a, b, 0, 0)| <= |other|
  {
    ScriptKeepsMost(a, b);
    ChangesCount(other);
    ChangesCount(Script(a, b, 0, 0));
  }
}
