/** What single operations do to any text, with and without a final newline, and what the
    edits of a batch have to do with each of them alone. */
module EditLone {
  import opened Options
  import opened EditText
  import opened EditBatch
  import opened EditOps
  import opened EditLines
  import opened EditLineOps

  // ---- one or two ranges ---------------------------------------------------------------------

  /** Text `text` with one range replaced. */
  function Cut(text: string, start: nat, end: nat, put: string): string
    requires start <= end <= |text|
  {
    text[..start] + put + text[end..]
  }

  lemma OneSubstituted(text: string, m: Resolved)
    requires m.start <= m.end <= |text| && m.order == 0
    ensures InText(text, [m]) && Compatible([m]) && Substitute(text, [m]) == Cut(text, m.start, m.end, m.text)
  {
    Untouched(text, [m], [m]);
    SpliceOne(text, [m], [m], 0, text);
    AllDone(text, [m], [m], Cut(text, m.start, m.end, m.text));
  }

  /** Whether the text of `a` ends up in front of that of `b`, which comes after it in the
      batch: it starts earlier, or at the same place and `b` does not go in front of it. */
  predicate Ahead(a: Resolved, b: Resolved) {
    a.start < b.start || (a.start == b.start && (a.start == a.end || b.start < b.end))
  }

  /** Two edits that do not overlap: both texts are there, that of the earlier range first; of
      two insertions at one place that of the first in the batch; and an insertion in front of
      what replaces the text that starts there. */
  lemma TwoSubstituted(text: string, a: Resolved, b: Resolved)
    requires a.start <= a.end <= |text| && b.start <= b.end <= |text| && a.order == 0 && b.order == 1
    requires a.end <= b.start || b.end <= a.start
    ensures InText(text, [a, b]) && Compatible([a, b])
    ensures var first, second := if Ahead(a, b) then a else b, if Ahead(a, b) then b else a;
            && first.end <= second.start
            && Substitute(text, [a, b]) == text[..first.start] + first.text + text[first.end..second.start]
                                           + second.text + text[second.end..]
  {
    hide Substitute, Reached;
    var first, second := if Ahead(a, b) then a else b, if Ahead(a, b) then b else a;
    var edits, sorted := [a, b], [second, first];
    assert multiset(sorted) == multiset(edits);
    var out := Cut(text, second.start, second.end, second.text);
    Untouched(text, edits, sorted);
    SpliceOne(text, edits, sorted, 0, text);
    SpliceOne(text, edits, sorted, 1, out);
    AllDone(text, edits, sorted, out[..first.start] + first.text + out[first.end..]);
    CutTwice(text, first.start, first.end, first.text, second.start, second.end, second.text);
  }

  lemma CutTwice(text: string, a: nat, b: nat, put: string, c: nat, d: nat, more: string)
    requires a <= b <= c <= d <= |text|
    ensures var out := Cut(text, c, d, more);
            b <= |out| && out[..a] + put + out[b..] == text[..a] + put + text[b..c] + more + text[d..]
  {
    var out := Cut(text, c, d, more);
    assert out[..a] == text[..a];
    assert out[b..] == text[b..c] + more + text[d..];
  }

  // ---- one operation -------------------------------------------------------------------------

  lemma LoneRange(text: string, e: Edit, m: Resolved, r: Result<string, EditError>)
    requires '\r' !in text && !e.operation.Overwrite? && Applied(text, [e], r)
    requires Resolution(text, LinesFrom(text, 0), e) == Ok([m]) && m.start <= m.end <= |text| && m.order == 0
    ensures r == Ok(Cut(text, m.start, m.end, m.text))
  {
    NormalizeKeeps(text);
    var lines := LinesFrom(text, 0);
    assert Resolutions(text, lines, [e], 0, []) == Resolutions(text, lines, [e], 1, [] + Number([m], 0));
    assert [] + Number([m], 0) == [m];
    OneSubstituted(text, m);
  }

  lemma LoneError(text: string, e: Edit, error: FieldError, r: Result<string, EditError>)
    requires '\r' !in text && !e.operation.Overwrite? && Applied(text, [e], r)
    requires Resolution(text, LinesFrom(text, 0), e) == Err(error)
    ensures r == Err(At(0, error))
  {
    NormalizeKeeps(text);
  }

  /** The text is normalised before anything else is done; there must be an edit. */
  lemma NormalizedFirst(text: string, edits: seq<Edit>, r: Result<string, EditError>)
    ensures Applied(text, edits, r) <==> Applied(Normalize(text), edits, r)
    ensures edits == [] && Applied(text, edits, r) ==> r == Err(EditsRequired)
  {
    NormalizeNormalizes(text);
  }

  /** A lone overwrite: its normalised text, whatever was there. */
  lemma OverwriteOperation(text: string, e: Edit, r: Result<string, EditError>)
    requires e.operation.Overwrite? && Applied(text, [e], r)
    ensures r.Ok? <==>
              && e.newText.Some? && e.line == 0 && e.endLine == 0 && e.oldText == "" && e.anchor == ""
              && e.index.None? && !e.allMatches
    ensures r.Ok? ==> r.value == Normalize(e.newText.value)
  {
  }

  // ---- any text as lines ------------------------------------------------------------------------

  /** Lines, each with its newline, and the last line when no newline ends it. */
  function TextOf(lines: seq<string>, tail: string): string { Unlines(lines) + tail }

  ghost predicate Parts(lines: seq<string>, tail: string) { LineList(lines) && OneLine(tail) }

  function LineCount(lines: seq<string>, tail: string): nat { |lines| + (if tail == "" then 0 else 1) }

  /** Every normalised text is of this form. */
  lemma {:induction false} EveryText(text: string) returns (lines: seq<string>, tail: string)
    requires '\r' !in text
    ensures Parts(lines, tail) && text == TextOf(lines, tail)
    decreases |text|
  {
    var end := NextNewline(text, 0);
    if end == |text| {
      lines, tail := [], text;
    } else {
      var more;
      more, tail := EveryText(text[end + 1..]);
      lines := [text[..end]] + more;
      assert text == text[..end] + "\n" + text[end + 1..];
    }
  }

  lemma PartsPlain(lines: seq<string>, tail: string)
    requires Parts(lines, tail)
    ensures '\r' !in TextOf(lines, tail)
  {
    if lines != [] { SplitUnlines(lines); }
  }

  lemma LineFromParts(lines: seq<string>, tail: string, i: nat)
    requires Parts(lines, tail) && i < |lines|
    ensures Offset(lines, i) < |Unlines(lines)| && LineFrom(TextOf(lines, tail), Offset(lines, i)) == LineOf(lines, i)
  {
    LineInText(lines, i);
    var t, u, p, q := TextOf(lines, tail), Unlines(lines), Offset(lines, i), Offset(lines, i + 1);
    assert t[p..q] == u[p..q];
    assert t[p..q - 1] == t[p..q][..|lines[i]|] == lines[i];
    assert t[q - 1] == t[p..q][|lines[i]|];
    assert OneLine(lines[i]);
    NextNewlineIs(t, p, q - 1);
  }

  lemma {:induction false} NoNewline(text: string, p: nat)
    requires p <= |text| && '\n' !in text[p..]
    ensures NextNewline(text, p) == |text|
    decreases |text| - p
  {
    if p < |text| {
      assert text[p] == text[p..][0] && text[p + 1..] == text[p..][1..];
      NoNewline(text, p + 1);
    }
  }

  /** The last line when no newline ends it. */
  function TailLine(lines: seq<string>, tail: string): SourceLine {
    SourceLine(|Unlines(lines)|, |TextOf(lines, tail)|, |TextOf(lines, tail)|, tail)
  }

  ghost predicate ScansParts(lines: seq<string>, tail: string, scanned: seq<SourceLine>) {
    && |scanned| == LineCount(lines, tail)
    && (forall i :: 0 <= i < |lines| ==> scanned[i] == LineOf(lines, i))
    && (tail != "" ==> scanned[|lines|] == TailLine(lines, tail))
  }

  lemma {:induction false} PartsFrom(lines: seq<string>, tail: string, i: nat)
    requires Parts(lines, tail) && i <= |lines|
    ensures Offset(lines, i) <= |Unlines(lines)|
    ensures var s := LinesFrom(TextOf(lines, tail), Offset(lines, i));
            && |s| == LineCount(lines, tail) - i
            && (forall k :: i <= k < |lines| ==> s[k - i] == LineOf(lines, k))
            && (tail != "" ==> s[|lines| - i] == TailLine(lines, tail))
    decreases |lines| - i
  {
    OffsetInText(lines, i);
    var text := TextOf(lines, tail);
    var s := LinesFrom(text, Offset(lines, i));
    if i < |lines| {
      LineFromParts(lines, tail, i);
      PartsFrom(lines, tail, i + 1);
      var rest := LinesFrom(text, Offset(lines, i + 1));
      assert s == [LineOf(lines, i)] + rest;
      forall k | i <= k < |lines| ensures s[k - i] == LineOf(lines, k) {
        if k > i { assert s[k - i] == rest[k - (i + 1)]; }
      }
    } else {
      assert lines[..i] == lines && text[|Unlines(lines)|..] == tail;
      if tail != "" {
        NoNewline(text, |Unlines(lines)|);
        assert s == [TailLine(lines, tail)] + LinesFrom(text, |text|);
      }
    }
  }

  lemma ScanOfParts(lines: seq<string>, tail: string)
    requires Parts(lines, tail)
    ensures ScansParts(lines, tail, LinesFrom(TextOf(lines, tail), 0))
  {
    PartsFrom(lines, tail, 0);
    assert lines[..0] == [];
    var s := LinesFrom(TextOf(lines, tail), 0);
    forall i | 0 <= i < |lines| ensures s[i] == LineOf(lines, i) { assert s[i - 0] == LineOf(lines, i); }
    assert tail != "" ==> s[|lines| - 0] == TailLine(lines, tail);
  }

  // ---- replace and delete ------------------------------------------------------------------------

  /** What is left in front of line `i` and from line `i` on. */
  lemma SplitAt(lines: seq<string>, tail: string, i: nat)
    requires i <= |lines|
    ensures Offset(lines, i) <= |TextOf(lines, tail)|
    ensures TextOf(lines, tail)[..Offset(lines, i)] == Unlines(lines[..i])
    ensures TextOf(lines, tail)[Offset(lines, i)..] == Unlines(lines[i..]) + tail
  {
    UnlinesAppend(lines[..i], lines[i..]);
    assert lines[..i] + lines[i..] == lines;
  }

  /** The last line of an unterminated text, and the newline before it. */
  lemma BeforeTail(lines: seq<string>, tail: string, i: nat)
    requires 0 < i <= |lines|
    ensures LineOf(lines, i - 1).end == Offset(lines, i) - 1
    ensures Offset(lines, i) <= |TextOf(lines, tail)| && TextOf(lines, tail)[..Offset(lines, i) - 1] == Join(lines[..i])
  {
    OffsetNext(lines, i - 1);
    SplitAt(lines, tail, i);
    JoinUnlines(lines[..i]);
    var t, n := TextOf(lines, tail), Offset(lines, i);
    assert t[..n - 1] == t[..n][..n - 1];
  }

  predicate RangeOp(op: Operation) { op.Replace? || op.Delete? }

  /** The text that a replace or delete puts in. */
  function NewText(e: Edit): string { if e.newText.Some? then Normalize(e.newText.value) else "" }

  /** What replacing lines `from` to `to` by `put` makes of the text; when an unterminated last
      line goes, so does the newline before it. */
  function RangeReplaced(lines: seq<string>, tail: string, from: nat, to: nat, put: string): string
    requires 1 <= from <= to <= LineCount(lines, tail)
  {
    if to <= |lines| then Unlines(lines[..from - 1]) + put + Unlines(lines[to..]) + tail
    else Join(lines[..from - 1]) + put
  }

  lemma RangeInside(lines: seq<string>, tail: string, from: nat, to: nat, put: string)
    requires 1 <= from <= to <= |lines|
    ensures Offset(lines, from - 1) <= Offset(lines, to) <= |TextOf(lines, tail)|
    ensures Cut(TextOf(lines, tail), Offset(lines, from - 1), Offset(lines, to), put)
            == RangeReplaced(lines, tail, from, to, put)
  {
    OffsetsAscend(lines, from - 1, to);
    SplitAt(lines, tail, from - 1);
    SplitAt(lines, tail, to);
  }

  lemma RangeToEnd(lines: seq<string>, tail: string, from: nat, put: string)
    requires 1 < from <= |lines| + 1 && tail != ""
    ensures var text, end := TextOf(lines, tail), LineOf(lines, from - 2).end;
            end <= |text| && Cut(text, end, |text|, put) == RangeReplaced(lines, tail, from, |lines| + 1, put)
  {
    BeforeTail(lines, tail, from - 1);
  }

  lemma RangeOf(lines: seq<string>, tail: string, scanned: seq<SourceLine>, from: nat, to: nat, put: string)
    requires Parts(lines, tail) && ScansParts(lines, tail, scanned) && 1 <= from <= to <= LineCount(lines, tail)
    ensures var (start, end) := LineRangeOf(scanned, from, to);
            && start <= end <= |TextOf(lines, tail)|
            && Cut(TextOf(lines, tail), start, end, put) == RangeReplaced(lines, tail, from, to, put)
  {
    hide Cut, RangeReplaced, TextOf, Unlines;
    if to <= |lines| {
      assert scanned[from - 1] == LineOf(lines, from - 1) && scanned[to - 1] == LineOf(lines, to - 1);
      OffsetNext(lines, to - 1);
      RangeInside(lines, tail, from, to, put);
    } else {
      assert scanned[to - 1] == TailLine(lines, tail);
      if from > 1 {
        assert scanned[from - 2] == LineOf(lines, from - 2);
        RangeToEnd(lines, tail, from, put);
      } else {
        if |lines| > 0 { assert scanned[0] == LineOf(lines, 0); } else { assert scanned[0] == TailLine(lines, tail); }
        WholeText(lines, tail, put);
      }
    }
  }

  lemma WholeText(lines: seq<string>, tail: string, put: string)
    requires tail != ""
    ensures Offset(lines, 0) == 0 && (lines == [] ==> |Unlines(lines)| == 0)
    ensures Cut(TextOf(lines, tail), 0, |TextOf(lines, tail)|, put) == RangeReplaced(lines, tail, 1, |lines| + 1, put)
  {
    assert lines[..0] == [];
  }

  /** A lone replace or delete of existing lines, on any text. */
  lemma RangeOperation(lines: seq<string>, tail: string, e: Edit, last: int, r: Result<string, EditError>)
    requires Parts(lines, tail) && RangeOp(e.operation) && ValidateFields(e).None?
    requires last == (if e.endLine == 0 then e.line else e.endLine) && Applied(TextOf(lines, tail), [e], r)
    ensures last < e.line ==> r == Err(At(0, EndBeforeLine))
    ensures last >= e.line && LineCount(lines, tail) == 0 ==> r == Err(At(0, NoLines))
    ensures last >= e.line && LineCount(lines, tail) > 0 ==>
              if last > LineCount(lines, tail) then r == Err(At(0, LineRange))
              else r == Ok(RangeReplaced(lines, tail, e.line, last, NewText(e)))
  {
    hide Applied, TextOf, Unlines, Cut, RangeReplaced, LineRangeOf;
    var text, n := TextOf(lines, tail), LineCount(lines, tail);
    var scanned := LinesFrom(text, 0);
    PartsPlain(lines, tail);
    ScanOfParts(lines, tail);
    if last < e.line {
      LoneError(text, e, EndBeforeLine, r);
    } else if n == 0 {
      LoneError(text, e, NoLines, r);
    } else if last > n {
      LoneError(text, e, LineRange, r);
    } else {
      var (start, end) := LineRangeOf(scanned, e.line, last);
      RangeOf(lines, tail, scanned, e.line, last, NewText(e));
      LoneRange(text, e, Resolved(start, end, NewText(e), 0), r);
    }
  }

  // ---- insert ------------------------------------------------------------------------------------------

  /** Where an insert in front of line `line` goes, and what it puts there. */
  function Place(lines: seq<string>, tail: string, line: nat, block: string): (nat, string)
    requires 1 <= line <= LineCount(lines, tail) + 1
  {
    if lines == [] && tail == "" then (0, block)
    else if line <= |lines| + 1 then (Offset(lines, line - 1), block + "\n")
    else (|TextOf(lines, tail)|, "\n" + block)
  }

  function WithInserted(lines: seq<string>, tail: string, line: nat, block: seq<string>): string
    requires 1 <= line <= LineCount(lines, tail) + 1
  {
    if lines == [] && tail == "" then Join(block)
    else if line <= |lines| + 1 then Unlines(lines[..line - 1]) + Unlines(block) + Unlines(lines[line - 1..]) + tail
    else Unlines(lines) + tail + "\n" + Join(block)
  }

  /** A lone insert of a non-empty block, on any text: in front of the line it names, or behind
      the last one; in an empty text without a newline of its own. */
  lemma InsertAnywhere(lines: seq<string>, tail: string, e: Edit, block: seq<string>, r: Result<string, EditError>)
    requires Parts(lines, tail) && e.operation.Insert? && ValidateFields(e).None?
    requires block == BlockLines(e.newText.value) && Applied(TextOf(lines, tail), [e], r)
    ensures block == [] ==> r == Err(At(0, BlockRequired))
    ensures block != [] && e.line > LineCount(lines, tail) + 1 ==> r == Err(At(0, InsertPosition))
    ensures block != [] && e.line <= LineCount(lines, tail) + 1 ==>
              r == Ok(WithInserted(lines, tail, e.line, block))
  {
    hide TextOf, Unlines, Applied;
    var text, n := TextOf(lines, tail), LineCount(lines, tail);
    var scanned := LinesFrom(text, 0);
    PartsPlain(lines, tail);
    ScanOfParts(lines, tail);
    BlockIsLines(e.newText.value);
    if block == [] {
      LoneError(text, e, BlockRequired, r);
    } else {
      if e.line > n + 1 {
        InsertBeyond(lines, tail, scanned, e.line, Join(block));
        LoneError(text, e, InsertPosition, r);
      } else {
        InsertAt(lines, tail, scanned, e.line, Join(block));
        InsertCut(lines, tail, e.line, block);
        var (start, put) := LineInsert(text, scanned, e.line, Join(block)).value;
        LoneRange(text, e, Resolved(start, start, put, 0), r);
      }
    }
  }

  lemma InsertCut(lines: seq<string>, tail: string, line: nat, block: seq<string>)
    requires 1 <= line <= LineCount(lines, tail) + 1 && block != []
    ensures var (start, put) := Place(lines, tail, line, Join(block));
            && start <= |TextOf(lines, tail)|
            && Cut(TextOf(lines, tail), start, start, put) == WithInserted(lines, tail, line, block)
  {
    hide Unlines, Offset, Join;
    var text := TextOf(lines, tail);
    if lines == [] && tail == "" {
      NoLinesNoText();
      assert text[..0] == "" && text[0..] == "";
    } else if line <= |lines| + 1 {
      JoinUnlines(block);
      SplitAt(lines, tail, line - 1);
      CutHere(text, Offset(lines, line - 1), Unlines(block), Unlines(lines[line - 1..]), tail);
    } else {
      assert text[|text|..] == "" && text[..|text|] == text;
    }
  }

  lemma NoLinesNoText()
    ensures TextOf([], "") == ""
  {
  }

  lemma CutHere(text: string, p: nat, put: string, rest: string, tail: string)
    requires p <= |text| && text[p..] == rest + tail
    ensures Cut(text, p, p, put) == text[..p] + put + rest + tail
  {
  }

  lemma InsertBeyond(lines: seq<string>, tail: string, scanned: seq<SourceLine>, line: int, block: string)
    requires |scanned| == LineCount(lines, tail) && line > LineCount(lines, tail) + 1
    ensures LineInsert(TextOf(lines, tail), scanned, line, block) == Err(InsertPosition)
  {
  }

  lemma InsertAt(lines: seq<string>, tail: string, scanned: seq<SourceLine>, line: nat, block: string)
    requires Parts(lines, tail) && ScansParts(lines, tail, scanned) && 1 <= line <= LineCount(lines, tail) + 1
    ensures LineInsert(TextOf(lines, tail), scanned, line, block)
            == Ok(Place(lines, tail, line, block))
  {
    var text := TextOf(lines, tail);
    assert lines[..|lines|] == lines;
    if line <= |lines| {
      assert scanned[line - 1] == LineOf(lines, line - 1);
    } else if tail != "" {
      assert text[|text| - 1] == tail[|tail| - 1];
    } else if lines != [] {
      SplitUnlines(lines);
      assert text == Unlines(lines);
    }
  }

  // ---- insert_before, insert_after, replace_line, delete_line -------------------------------------

  function AllLines(lines: seq<string>, tail: string): seq<string> { if tail == "" then lines else lines + [tail] }

  /** What an anchored operation makes of the text when it applies at line `i`, counted from 0. */
  function AnchorApplied(lines: seq<string>, tail: string, op: Operation, i: nat, block: seq<string>): string
    requires i < LineCount(lines, tail)
  {
    if i < |lines| then
      Unlines(if op.InsertBefore? then lines[..i] + block + lines[i..]
              else if op.InsertAfter? then lines[..i + 1] + block + lines[i + 1..]
              else if op.ReplaceLine? then lines[..i] + block + lines[i + 1..]
              else lines[..i] + lines[i + 1..]) + tail
    else if op.InsertBefore? then Unlines(lines + block) + tail
    else if op.InsertAfter? then Unlines(lines + [tail]) + Join(block)
    else if op.ReplaceLine? then Unlines(lines) + Join(block)
    else Join(lines)
  }

  lemma LineAtIs(lines: seq<string>, tail: string, scanned: seq<SourceLine>, i: nat)
    requires Parts(lines, tail) && ScansParts(lines, tail, scanned) && i < LineCount(lines, tail)
    ensures i < |AllLines(lines, tail)| && scanned[i].text == AllLines(lines, tail)[i]
    ensures scanned[i] == if i < |lines| then LineOf(lines, i) else TailLine(lines, tail)
  {
  }

  /** Lines before and behind line `i`, and the line itself, in the text. */
  lemma AroundTerminated(lines: seq<string>, tail: string, i: nat)
    requires i < |lines|
    ensures Offset(lines, i) + |lines[i]| + 1 == Offset(lines, i + 1) <= |TextOf(lines, tail)|
    ensures var t, p, q := TextOf(lines, tail), Offset(lines, i), Offset(lines, i + 1);
            && t[..p] == Unlines(lines[..i]) && t[p..] == Unlines(lines[i..]) + tail
            && t[..q] == Unlines(lines[..i + 1]) && t[q..] == Unlines(lines[i + 1..]) + tail
            && t[q - 1..] == "\n" + Unlines(lines[i + 1..]) + tail
  {
    OffsetNext(lines, i);
    SplitAt(lines, tail, i);
    SplitAt(lines, tail, i + 1);
    var t, q := TextOf(lines, tail), Offset(lines, i + 1);
    LineInText(lines, i);
    assert t[q - 1] == Unlines(lines)[Offset(lines, i)..q][|lines[i]|] == '\n';
    assert t[q - 1..] == [t[q - 1]] + t[q..];
  }

  lemma ThreeLines(a: seq<string>, b: seq<string>, c: seq<string>)
    ensures Unlines(a + b + c) == Unlines(a) + Unlines(b) + Unlines(c)
  {
    UnlinesAppend(a + b, c);
    UnlinesAppend(a, b);
  }

  lemma AnchoredCutTerminated(lines: seq<string>, tail: string, op: Operation, i: nat, block: seq<string>)
    requires AnchorOp(op) && i < |lines| && (op.DeleteLine? || block != [])
    ensures var l := LineOf(lines, i); var text := TextOf(lines, tail);
            && l.start <= l.end < l.fullEnd <= |text|
            && AnchorApplied(lines, tail, op, i, block)
               == if op.InsertBefore? then Cut(text, l.start, l.start, Join(block) + "\n")
                  else if op.InsertAfter? then Cut(text, l.fullEnd, l.fullEnd, Join(block) + "\n")
                  else if op.ReplaceLine? then Cut(text, l.start, l.end, Join(block))
                  else Cut(text, l.start, l.fullEnd, "")
  {
    hide Unlines, Join, Offset, Cut, TextOf;
    AroundTerminated(lines, tail, i);
    if block != [] { JoinUnlines(block); }
    var t, p, q, rest := TextOf(lines, tail), Offset(lines, i), Offset(lines, i + 1), Unlines(lines[i + 1..]);
    if op.InsertBefore? {
      ThreeLines(lines[..i], block, lines[i..]);
      CutHere(t, p, Unlines(block), Unlines(lines[i..]), tail);
    } else if op.InsertAfter? {
      ThreeLines(lines[..i + 1], block, lines[i + 1..]);
      CutHere(t, q, Unlines(block), rest, tail);
    } else if op.ReplaceLine? {
      ThreeLines(lines[..i], block, lines[i + 1..]);
      Joined(t[..p], Join(block), rest, tail);
      CutIs(t, p, q - 1, Join(block), "\n" + rest + tail);
    } else {
      UnlinesAppend(lines[..i], lines[i + 1..]);
      CutIs(t, p, q, "", rest + tail);
      Dropped(t[..p], rest, tail);
    }
  }

  lemma CutIs(text: string, p: nat, q: nat, put: string, rest: string)
    requires p <= q <= |text| && text[q..] == rest
    ensures Cut(text, p, q, put) == text[..p] + put + rest
  {
  }

  lemma Dropped(a: string, b: string, c: string)
    ensures a + "" + (b + c) == a + b + c
  {
  }

  lemma Joined(a: string, b: string, c: string, d: string)
    ensures a + (b + "\n") + c + d == a + b + ("\n" + c + d)
  {
  }

  /** The text around a last line that no newline ends. */
  lemma AroundTail(lines: seq<string>, tail: string)
    requires tail != ""
    ensures var t, n := TextOf(lines, tail), |Unlines(lines)|;
            && n <= |t| && t[..n] == Unlines(lines) && t[n..] == tail && t[..|t|] == t && t[|t|..] == ""
            && |Join(lines)| <= |t| && t[..|Join(lines)|] == Join(lines)
  {
    if lines != [] { JoinUnlines(lines); }
  }

  lemma OneUnlines(line: string)
    ensures Unlines([line]) == line + "\n"
  {
    assert [line][1..] == [];
  }

  /** The same at a last line that no newline ends. */
  lemma AnchoredCutTail(lines: seq<string>, tail: string, op: Operation, block: seq<string>)
    requires AnchorOp(op) && tail != "" && (op.DeleteLine? || block != [])
    ensures |Unlines(lines)| <= |TextOf(lines, tail)| && |Join(lines)| <= |TextOf(lines, tail)|
    ensures var text, n := TextOf(lines, tail), |Unlines(lines)|;
            AnchorApplied(lines, tail, op, |lines|, block)
            == if op.InsertBefore? then Cut(text, n, n, Join(block) + "\n")
               else if op.InsertAfter? then Cut(text, |text|, |text|, "\n" + Join(block))
               else if op.ReplaceLine? then Cut(text, n, |text|, Join(block))
               else Cut(text, |Join(lines)|, |text|, "")
  {
    hide Unlines, Join, TextOf;
    AroundTail(lines, tail);
    if block != [] { JoinUnlines(block); }
    if op.InsertBefore? {
      UnlinesAppend(lines, block);
    } else if op.InsertAfter? {
      UnlinesAppend(lines, [tail]);
      OneUnlines(tail);
      BehindTail(lines, tail, Join(block));
    }
  }

  lemma BehindTail(lines: seq<string>, tail: string, put: string)
    ensures Unlines(lines) + (tail + "\n") + put == TextOf(lines, tail) + ("\n" + put)
  {
  }

  /** The range that an anchored operation resolves to at line `i`. */
  lemma AnchorCut(lines: seq<string>, tail: string, scanned: seq<SourceLine>, op: Operation, i: nat, block: seq<string>)
    requires Parts(lines, tail) && ScansParts(lines, tail, scanned) && AnchorOp(op) && i < LineCount(lines, tail)
    requires op.DeleteLine? || block != []
    ensures var m, text := AtLine(scanned, op, i, Join(block)), TextOf(lines, tail);
            && m.start <= m.end <= |text| && m.order == 0
            && Cut(text, m.start, m.end, m.text) == AnchorApplied(lines, tail, op, i, block)
  {
    hide TextOf, Unlines, Cut, AnchorApplied, Join;
    LineAtIs(lines, tail, scanned, i);
    if i < |lines| {
      AnchoredCutTerminated(lines, tail, op, i, block);
    } else {
      AnchoredCutTail(lines, tail, op, block);
      TailStart(lines, tail);
      if lines != [] { assert scanned[i - 1] == LineOf(lines, i - 1); }
    }
  }

  /** Where the last line begins and where a delete of it does. */
  lemma TailStart(lines: seq<string>, tail: string)
    ensures |Unlines(lines)| <= |TextOf(lines, tail)| == |Unlines(lines)| + |tail|
    ensures |Join(lines)| <= |Unlines(lines)|
    ensures lines == [] ==> |Unlines(lines)| == |Join(lines)| == 0
    ensures lines != [] ==> LineOf(lines, |lines| - 1).end == |Join(lines)|
  {
    if lines != [] {
      JoinUnlines(lines);
      OffsetNext(lines, |lines| - 1);
      assert lines[..|lines|] == lines;
    }
  }

  lemma {:induction false} AnchorsOfParts(lines: seq<string>, tail: string, scanned: seq<SourceLine>, anchor: string,
                                          n: nat)
    requires Parts(lines, tail) && ScansParts(lines, tail, scanned) && n <= LineCount(lines, tail)
    ensures n <= |AllLines(lines, tail)|
    ensures AnchoredLines(scanned, anchor, n) == AnchoredAt(AllLines(lines, tail), anchor, n)
  {
    if n > 0 {
      AnchorsOfParts(lines, tail, scanned, anchor, n - 1);
      LineAtIs(lines, tail, scanned, n - 1);
    }
  }

  lemma AnchorResolvesTo(scanned: seq<SourceLine>, e: Edit, i: nat, block: seq<string>)
    requires AnchorOp(e.operation) && i < |scanned| && ValidateFields(e).None?
    requires SelectMatches(AnchoredLines(scanned, Normalize(e.anchor), |scanned|), e.index, e.allMatches) == Ok([i])
    requires block == (if e.newText.None? then [] else BlockLines(e.newText.value))
    ensures AnchorResolution(scanned, e)
            == if !e.operation.DeleteLine? && block == [] then Err(BlockRequired)
               else Ok([AtLine(scanned, e.operation, i, Join(block))])
  {
    hide AtLine, BlockLines, SelectMatches, AnchoredLines, Normalize;
    if e.newText.Some? { BlockIsLines(e.newText.value); }
    assert AtLines(scanned, e.operation, [i], Join(block)) == [AtLine(scanned, e.operation, i, Join(block))];
  }

  /** A lone anchored operation that selects one line, on any text. */
  lemma AnchoredAnywhere(lines: seq<string>, tail: string, e: Edit, i: nat, block: seq<string>,
                         r: Result<string, EditError>)
    requires Parts(lines, tail) && AnchorOp(e.operation) && ValidateFields(e).None? && i < LineCount(lines, tail)
    requires var at := AnchoredAt(AllLines(lines, tail), Normalize(e.anchor), LineCount(lines, tail));
             SelectMatches(at, e.index, e.allMatches) == Ok([i])
    requires block == if e.newText.None? then [] else BlockLines(e.newText.value)
    requires Applied(TextOf(lines, tail), [e], r)
    ensures if !e.operation.DeleteLine? && block == [] then r == Err(At(0, BlockRequired))
            else r == Ok(AnchorApplied(lines, tail, e.operation, i, block))
  {
    hide TextOf, Unlines, Cut, AnchorApplied, Applied, AtLine, BlockLines, AnchorResolution, SelectMatches, Normalize;
    var text := TextOf(lines, tail);
    var scanned := LinesFrom(text, 0);
    PartsPlain(lines, tail);
    ScanOfParts(lines, tail);
    AnchorsOfParts(lines, tail, scanned, Normalize(e.anchor), |scanned|);
    AnchorResolvesTo(scanned, e, i, block);
    if !e.operation.DeleteLine? && block == [] {
      LoneError(text, e, BlockRequired, r);
    } else {
      AnchorCut(lines, tail, scanned, e.operation, i, block);
      LoneRange(text, e, AtLine(scanned, e.operation, i, Join(block)), r);
    }
  }

  // ---- replace_text --------------------------------------------------------------------------------

  /** The matches of a needle: everywhere the needle, from left to right, without overlap, and
      none is passed over. */
  ghost predicate LeftmostMatches(text: string, needle: string, matches: seq<Match>, from: nat) {
    && (forall k :: 0 <= k < |matches| ==>
          from <= matches[k].start && matches[k].end == matches[k].start + |needle| <= |text|
          && text[matches[k].start..matches[k].end] == needle)
    && (forall j, k :: 0 <= j < k < |matches| ==> matches[j].end <= matches[k].start)
    && (forall p :: from <= p && StartsAt(text, p, needle) ==> Covered(matches, p))
  }

  lemma {:induction false} MatchesAreLeftmost(text: string, from: nat, needle: string)
    requires from <= |text| && needle != ""
    ensures LeftmostMatches(text, needle, MatchesFrom(text, from, needle), from)
    decreases |text| - from
  {
    hide LeftmostMatches, IndexFrom;
    var found := IndexFrom(text, from, needle);
    if found.Some? {
      var i := found.value;
      MatchesAreLeftmost(text, i + |needle|, needle);
      MatchesCons(text, needle, from, i, MatchesFrom(text, i + |needle|, needle));
    } else {
      NoMatchFrom(text, needle, from);
    }
  }

  lemma NoMatchFrom(text: string, needle: string, from: nat)
    requires needle != "" && forall p :: from <= p < |text| ==> !StartsAt(text, p, needle)
    ensures LeftmostMatches(text, needle, [], from)
  {
  }

  /** Some match reaches over place `p`. */
  ghost predicate Covered(matches: seq<Match>, p: nat) {
    exists k :: 0 <= k < |matches| && matches[k].start <= p < matches[k].end
  }

  lemma CoveredMore(m: Match, rest: seq<Match>, p: nat)
    ensures Covered([m] + rest, p) <==> m.start <= p < m.end || Covered(rest, p)
  {
    var all := [m] + rest;
    if m.start <= p < m.end { assert all[0].start <= p < all[0].end; }
    if Covered(rest, p) {
      var k :| 0 <= k < |rest| && rest[k].start <= p < rest[k].end;
      assert all[k + 1].start <= p < all[k + 1].end;
    }
  }

  lemma MatchesCons(text: string, needle: string, from: nat, i: nat, rest: seq<Match>)
    requires from <= i && needle != "" && StartsAt(text, i, needle)
    requires forall p :: from <= p < i ==> !StartsAt(text, p, needle)
    requires LeftmostMatches(text, needle, rest, i + |needle|)
    ensures LeftmostMatches(text, needle, [Match(i, i + |needle|)] + rest, from)
  {
    hide Covered;
    forall p | from <= p && StartsAt(text, p, needle) ensures Covered([Match(i, i + |needle|)] + rest, p) {
      CoveredMore(Match(i, i + |needle|), rest, p);
    }
  }

  /** A lone replace_text of one occurrence, the only one or the one with the given number. */
  lemma TextOperation(text: string, e: Edit, k: nat, r: Result<string, EditError>)
    requires '\r' !in text && e.operation.ReplaceText? && ValidateFields(e).None? && !e.allMatches
    requires Applied(text, [e], r)
    requires var matches := MatchesFrom(text, 0, Normalize(e.oldText));
             k < |matches| && if e.index.Some? then e.index.value == k + 1 else |matches| == 1
    ensures var m := MatchesFrom(text, 0, Normalize(e.oldText))[k];
            m.start <= m.end <= |text| && r == Ok(Cut(text, m.start, m.end, Normalize(e.newText.value)))
  {
    hide Applied, MatchesFrom, Normalize, LinesFrom;
    var needle, put := Normalize(e.oldText), Normalize(e.newText.value);
    var m := MatchesFrom(text, 0, needle)[k];
    MatchesAreLeftmost(text, 0, needle);
    OneSelected(MatchesFrom(text, 0, needle), k, e.index);
    assert AtMatches([m], put) == [Resolved(m.start, m.end, put, 0)];
    assert TextResolution(text, e) == Ok([Resolved(m.start, m.end, put, 0)]);
    LoneRange(text, e, Resolved(m.start, m.end, put, 0), r);
  }

  lemma OneSelected(matches: seq<Match>, k: nat, index: Option<int>)
    requires k < |matches| && if index.Some? then index.value == k + 1 else |matches| == 1
    ensures SelectMatches(matches, index, false) == Ok([matches[k]])
  {
    if index.None? { assert matches == [matches[k]]; }
  }

  // ---- the fields of an edit -------------------------------------------------------------------------

  datatype Field = Line | EndLine | NewTextField | OldText | Anchor | Matches

  /** The fields that an edit fills in. */
  predicate Has(e: Edit, f: Field) {
    match f
    case Line => e.line != 0
    case EndLine => e.endLine != 0
    case NewTextField => e.newText.Some?
    case OldText => e.oldText != ""
    case Anchor => e.anchor != ""
    case Matches => e.index.Some? || e.allMatches
  }

  /** The fields an operation must have, and those it may have besides. */
  function Needed(op: Operation): set<Field> {
    match op
    case ReplaceText => {NewTextField, OldText}
    case Replace => {Line, NewTextField}
    case Insert => {Line, NewTextField}
    case Delete => {Line}
    case InsertBefore | InsertAfter | ReplaceLine => {NewTextField, Anchor}
    case DeleteLine => {Anchor}
    case Overwrite => {NewTextField}
    case Missing | Unsupported => {}
  }

  function Optional(op: Operation): set<Field> {
    match op
    case ReplaceText => {Matches}
    case InsertBefore | InsertAfter | ReplaceLine | DeleteLine => {Matches}
    case Replace | Delete => {EndLine}
    case _ => {}
  }

  /** A needed field is filled in, and a field that is filled in is used; a blank anchor does
      not matter to replace_text. */
  predicate FieldFits(e: Edit, f: Field) {
    && (f in Needed(e.operation) ==> Has(e, f))
    && (Has(e, f) ==> f in Needed(e.operation) + Optional(e.operation)
                      || (f == Anchor && e.operation.ReplaceText? && Blank(e.anchor)))
  }

  ghost predicate FieldsFit(e: Edit) { forall f :: FieldFits(e, f) }

  lemma SixFields(e: Edit)
    ensures FieldsFit(e) <==>
              && FieldFits(e, Line) && FieldFits(e, EndLine) && FieldFits(e, NewTextField)
              && FieldFits(e, OldText) && FieldFits(e, Anchor) && FieldFits(e, Matches)
  {
    hide FieldFits;
    forall f | FieldFits(e, Line) && FieldFits(e, EndLine) && FieldFits(e, NewTextField)
               && FieldFits(e, OldText) && FieldFits(e, Anchor) && FieldFits(e, Matches)
      ensures FieldFits(e, f)
    {
      match f case Line => case EndLine => case NewTextField => case OldText => case Anchor => case Matches =>
    }
  }

  /** An edit is valid exactly when its fields fit its operation, with a line of at least 1, a
      single-line anchor and a text to look for where those are needed, and not both an index
      and all_matches. */
  lemma ValidExactly(e: Edit)
    ensures ValidateFields(e).None? <==>
              && !e.operation.Missing? && !e.operation.Unsupported? && !(e.index.Some? && e.allMatches) && FieldsFit(e)
              && (Line in Needed(e.operation) ==> e.line >= 1)
              && (Anchor in Needed(e.operation) ==> Normalize(e.anchor) != "" && '\n' !in Normalize(e.anchor))
              && (OldText in Needed(e.operation) ==> Normalize(e.oldText) != "")
  {
    hide Blank, FieldsFit;
    BlankIsEmpty();
    SixFields(e);
  }

  /** A field is filled in that the operation does not use. */
  predicate Unused(e: Edit, f: Field) { Has(e, f) && f !in Needed(e.operation) + Optional(e.operation) }

  /** What a refusal says is wrong with the edit. */
  predicate Wrong(e: Edit, error: FieldError) {
    match error
    case OperationRequired => e.operation.Missing?
    case UnsupportedOperation => e.operation.Unsupported?
    case IndexAndAll => e.index.Some? && e.allMatches
    case LineTooSmall => Line in Needed(e.operation) && e.line < 1
    case NewTextRequired => NewTextField in Needed(e.operation) && e.newText.None?
    case OldTextRequired => OldText in Needed(e.operation) && Normalize(e.oldText) == ""
    case AnchorRequired => Anchor in Needed(e.operation) && Normalize(e.anchor) == ""
    case AnchorNotOneLine => Anchor in Needed(e.operation) && '\n' in Normalize(e.anchor)
    case LineFieldsUnused => Unused(e, Line) || Unused(e, EndLine)
    case MatchFieldsUnused => Unused(e, Matches)
    case NewTextUnused => Unused(e, NewTextField)
    case OldTextNotAnchor => OldText in Needed(e.operation) && Unused(e, Anchor)
    case AnchorNotOldText => Anchor in Needed(e.operation) && Unused(e, OldText)
    case OtherFieldsUnused =>
      || Unused(e, Line) || Unused(e, EndLine) || Unused(e, NewTextField) || Unused(e, OldText) || Unused(e, Anchor)
      || Unused(e, Matches)
    case _ => false
  }

  /** Every refusal for its fields names something that is wrong with the edit. */
  lemma RefusedFor(e: Edit)
    ensures ValidateFields(e).Some? ==> Wrong(e, ValidateFields(e).value)
  {
    hide Blank, Normalize;
    BlankIsEmpty();
  }

  lemma BlankIsEmpty()
    ensures Normalize("") == "" && Blank("")
  {
  }

  // ---- a batch and its edits alone -----------------------------------------------------------------

  /** A batch with an overwrite among several edits fails. */
  lemma OverwriteAmongOthers(text: string, edits: seq<Edit>, i: nat, r: Result<string, EditError>)
    requires |edits| > 1 && i < |edits| && edits[i].operation.Overwrite? && Applied(text, edits, r)
    ensures r.Err?
  {
    var t := Normalize(text);
    if !edits[0].operation.Overwrite? { OverwriteFound(t, LinesFrom(t, 0), edits, 0, [], i); }
  }

  lemma {:induction false} OverwriteFound(text: string, lines: seq<SourceLine>, edits: seq<Edit>, k: nat,
                                          done: seq<Resolved>, i: nat)
    requires k <= i < |edits| && edits[i].operation.Overwrite?
    ensures Resolutions(text, lines, edits, k, done).Err?
    decreases |edits| - k
  {
    hide Resolution, Number, InText;
    if k < i && !edits[k].operation.Overwrite? {
      var items := Resolution(text, lines, edits[k]);
      if items.Ok? { OverwriteFound(text, lines, edits, k + 1, done + Number(items.value, |done|), i); }
    }
  }

  /** The error of a batch is that of its first edit which fails alone; otherwise the batch
      can only fail for an overlap. */
  lemma BatchError(text: string, edits: seq<Edit>, r: Result<string, EditError>)
    requires edits != [] && (forall k :: 0 <= k < |edits| ==> !edits[k].operation.Overwrite?) && Applied(text, edits, r)
    ensures r.Err? && r.error.At? ==>
              && r.error.edit < |edits| && Applied(text, [edits[r.error.edit]], Err(At(0, r.error.error)))
              && forall k, error :: 0 <= k < r.error.edit ==> !Applied(text, [edits[k]], Err(At(0, error)))
    ensures (r.Ok? || r.error == EditsOverlap) ==>
              forall k, error :: 0 <= k < |edits| ==> !Applied(text, [edits[k]], Err(At(0, error)))
    ensures r.Err? ==> r.error.At? || r.error == EditsOverlap
  {
    var t := Normalize(text);
    var lines := LinesFrom(t, 0);
    FirstFailure(t, lines, edits, 0, []);
    forall k | 0 <= k < |edits|
      ensures Resolution(t, lines, edits[k]).Ok? ==> forall error :: !Applied(text, [edits[k]], Err(At(0, error)))
      ensures Resolution(t, lines, edits[k]).Err?
              ==> Applied(text, [edits[k]], Err(At(0, Resolution(t, lines, edits[k]).error)))
    {
      AloneFails(text, edits[k]);
    }
  }

  lemma AloneFails(text: string, e: Edit)
    requires !e.operation.Overwrite?
    ensures var res := Resolution(Normalize(text), LinesFrom(Normalize(text), 0), e);
            && (res.Ok? ==> forall error :: !Applied(text, [e], Err(At(0, error))))
            && (res.Err? ==> Applied(text, [e], Err(At(0, res.error))))
  {
    var t := Normalize(text);
    var lines := LinesFrom(t, 0);
    var res := Resolution(t, lines, e);
    if res.Ok? {
      assert Resolutions(t, lines, [e], 0, []) == Resolutions(t, lines, [e], 1, [] + Number(res.value, 0));
    }
  }

  lemma {:induction false} FirstFailure(text: string, lines: seq<SourceLine>, edits: seq<Edit>, i: nat,
                                        done: seq<Resolved>)
    requires i <= |edits| && forall k :: 0 <= k < |edits| ==> !edits[k].operation.Overwrite?
    ensures var all := Resolutions(text, lines, edits, i, done);
            && (all.Ok? ==> forall k :: i <= k < |edits| ==> Resolution(text, lines, edits[k]).Ok?)
            && (all.Err? ==>
                  && all.error.At? && i <= all.error.edit < |edits|
                  && Resolution(text, lines, edits[all.error.edit]) == Err(all.error.error)
                  && forall k :: i <= k < all.error.edit ==> Resolution(text, lines, edits[k]).Ok?)
    decreases |edits| - i
  {
    hide Resolution, Number;
    if i < |edits| {
      var items := Resolution(text, lines, edits[i]);
      if items.Ok? { FirstFailure(text, lines, edits, i + 1, done + Number(items.value, |done|)); }
    }
  }
}
