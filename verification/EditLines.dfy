/** On newline-terminated text the line operations act on the list of lines: a batch of
    them inserts, removes and replaces whole lines, all at once. */
module EditLines {
  import opened Options
  import opened EditText
  import opened EditBatch
  import opened EditOps

  /** A line operation, with lines counted from 0; `to` is exclusive. */
  datatype LineEdit =
    | InsertLines(at: nat, block: seq<string>)
    | RemoveLines(from: nat, to: nat)
    | ReplaceOne(at: nat, block: seq<string>)

  ghost predicate FitsOne(lines: seq<string>, e: LineEdit) {
    match e
    case InsertLines(at, block) => at <= |lines| && block != [] && LineList(block)
    case RemoveLines(from, to) => from < to <= |lines|
    case ReplaceOne(at, block) => at < |lines| && lines[at] != "" && block != [] && LineList(block)
  }

  ghost predicate Fits(lines: seq<string>, edits: seq<LineEdit>) {
    forall k :: 0 <= k < |edits| ==> FitsOne(lines, edits[k])
  }

  // ---- what a batch means for the list of lines ---------------------------------------

  /** The lines inserted in front of line `i` by the first `n` edits, in batch order. */
  function InsertedLines(edits: seq<LineEdit>, i: nat, n: nat): seq<string>
    requires n <= |edits|
  {
    if n == 0 then []
    else
      var e := edits[n - 1];
      InsertedLines(edits, i, n - 1) + (if e.InsertLines? && e.at == i then e.block else [])
  }

  predicate TakesFrom(e: LineEdit, i: nat) {
    (e.RemoveLines? && e.from == i) || (e.ReplaceOne? && e.at == i)
  }

  /** The edit that removes or replaces lines from line `i` on. */
  function Taking(edits: seq<LineEdit>, i: nat, n: nat): (c: Choice)
    requires n <= |edits|
    ensures c.Replace? ==> c.edit < n && TakesFrom(edits[c.edit], i)
  {
    if n == 0 then Keep
    else if TakesFrom(edits[n - 1], i) then Choice.Replace(n - 1)
    else Taking(edits, i, n - 1)
  }

  /** The lines from line `i` on after the batch. */
  function EditedLines(lines: seq<string>, edits: seq<LineEdit>, i: nat): seq<string>
    requires i <= |lines| && Fits(lines, edits)
    decreases |lines| - i
  {
    InsertedLines(edits, i, |edits|) +
    if i == |lines| then []
    else match Taking(edits, i, |edits|)
         case Keep => [lines[i]] + EditedLines(lines, edits, i + 1)
         case Replace(k) =>
           assert FitsOne(lines, edits[k]);
           if edits[k].RemoveLines? then EditedLines(lines, edits, edits[k].to)
           else edits[k].block + EditedLines(lines, edits, i + 1)
  }

  function First(e: LineEdit): nat { if e.RemoveLines? then e.from else e.at }

  function Last(e: LineEdit): nat { if e.RemoveLines? then e.to else e.at + 1 }

  /** Two edits clash when they take a common line, or one inserts strictly inside what
      the other removes. */
  predicate LineConflict(a: LineEdit, b: LineEdit) {
    match (a.InsertLines?, b.InsertLines?)
    case (false, false) => First(a) < Last(b) && First(b) < Last(a)
    case (true, false) => First(b) < a.at < Last(b)
    case (false, true) => First(a) < b.at < Last(a)
    case (true, true) => false
  }

  ghost predicate LinesCompatible(edits: seq<LineEdit>) {
    forall i, j :: 0 <= i < j < |edits| ==> !LineConflict(edits[i], edits[j])
  }

  // ---- the same batch as ranges of the text ----------------------------------------------

  /** Where line `i` starts in the text of the lines. */
  function Offset(lines: seq<string>, i: nat): nat
    requires i <= |lines|
  {
    |Unlines(lines[..i])|
  }

  function Image(lines: seq<string>, e: LineEdit, order: nat): Resolved
    requires FitsOne(lines, e)
  {
    match e
    case InsertLines(at, block) => Resolved(Offset(lines, at), Offset(lines, at), Join(block) + "\n", order)
    case RemoveLines(from, to) => Resolved(Offset(lines, from), Offset(lines, to), "", order)
    case ReplaceOne(at, block) => Resolved(Offset(lines, at), Offset(lines, at) + |lines[at]|, Join(block), order)
  }

  function Images(lines: seq<string>, edits: seq<LineEdit>): (r: seq<Resolved>)
    requires Fits(lines, edits)
    ensures |r| == |edits| && forall k :: 0 <= k < |r| ==> FitsOne(lines, edits[k]) && r[k] == Image(lines, edits[k], k)
  {
    seq(|edits|, k requires 0 <= k < |edits| => assert FitsOne(lines, edits[k]); Image(lines, edits[k], k))
  }

  lemma OffsetNext(lines: seq<string>, i: nat)
    requires i < |lines|
    ensures Offset(lines, i + 1) == Offset(lines, i) + |lines[i]| + 1
  {
    UnlinesAppend(lines[..i], [lines[i]]);
    assert lines[..i + 1] == lines[..i] + [lines[i]];
    assert Unlines([lines[i]][1..]) == "";
  }

  lemma {:induction false} OffsetsAscend(lines: seq<string>, i: nat, j: nat)
    requires i <= j <= |lines|
    ensures i < j ==> Offset(lines, i) < Offset(lines, j)
    ensures Offset(lines, i) + (j - i) <= Offset(lines, j)
    decreases j - i
  {
    if i < j {
      OffsetsAscend(lines, i, j - 1);
      OffsetNext(lines, j - 1);
    }
  }

  lemma OffsetInText(lines: seq<string>, i: nat)
    requires i <= |lines|
    ensures Offset(lines, i) <= |Unlines(lines)| == Offset(lines, |lines|)
  {
    assert lines[..|lines|] == lines;
    OffsetsAscend(lines, i, |lines|);
  }

  /** Line `i` in the text, and its newline. */
  lemma UnlinesFrom(lines: seq<string>, i: nat)
    requires i < |lines|
    ensures Unlines(lines[i..]) == lines[i] + "\n" + Unlines(lines[i + 1..])
  {
    assert lines[i..][1..] == lines[i + 1..];
  }

  lemma LineInText(lines: seq<string>, i: nat)
    requires i < |lines|
    ensures Offset(lines, i + 1) == Offset(lines, i) + |lines[i]| + 1 <= |Unlines(lines)|
    ensures Unlines(lines)[Offset(lines, i)..Offset(lines, i + 1)] == lines[i] + "\n"
    ensures Unlines(lines)[Offset(lines, i)..] == lines[i] + "\n" + Unlines(lines)[Offset(lines, i + 1)..]
  {
    hide Unlines;
    OffsetNext(lines, i);
    OffsetInText(lines, i + 1);
    UnlinesAppend(lines[..i], lines[i..]);
    UnlinesFrom(lines, i);
    assert lines == lines[..i] + lines[i..];
    var p, q, t, rest := Offset(lines, i), Offset(lines, i + 1), Unlines(lines), Unlines(lines[i + 1..]);
    assert t == Unlines(lines[..i]) + (lines[i] + "\n" + rest);
    CutLine(t, Unlines(lines[..i]), lines[i], rest);
  }

  lemma CutLine(t: string, before: string, line: string, rest: string)
    requires t == before + (line + "\n" + rest)
    ensures t[|before|..|before| + |line| + 1] == line + "\n"
    ensures t[|before|..] == line + "\n" + t[|before| + |line| + 1..]
  {
    assert t[|before|..] == line + "\n" + rest;
    assert t[|before| + |line| + 1..] == rest;
  }

  // ---- how the code scans such a text ------------------------------------------------------

  function LineOf(lines: seq<string>, i: nat): SourceLine
    requires i < |lines|
  {
    SourceLine(Offset(lines, i), Offset(lines, i) + |lines[i]|, Offset(lines, i + 1), lines[i])
  }

  ghost predicate Scans(lines: seq<string>, scanned: seq<SourceLine>) {
    |scanned| == |lines| && forall i :: 0 <= i < |lines| ==> scanned[i] == LineOf(lines, i)
  }

  lemma {:induction false} NextNewlineIs(t: string, p: nat, end: nat)
    requires p <= end < |t| && t[end] == '\n' && '\n' !in t[p..end]
    ensures NextNewline(t, p) == end
    decreases end - p
  {
    if p < end {
      assert t[p] == t[p..end][0];
      assert t[p + 1..end] == t[p..end][1..];
      NextNewlineIs(t, p + 1, end);
    }
  }

  lemma NewlineAfter(lines: seq<string>, i: nat)
    requires LineList(lines) && i < |lines|
    ensures Offset(lines, i) < |Unlines(lines)| && LineFrom(Unlines(lines), Offset(lines, i)) == LineOf(lines, i)
  {
    LineInText(lines, i);
    var t, p, q := Unlines(lines), Offset(lines, i), Offset(lines, i + 1);
    assert t[p..q - 1] == t[p..q][..|lines[i]|] == lines[i];
    assert t[q - 1] == t[p..q][|lines[i]|];
    assert OneLine(lines[i]);
    NextNewlineIs(t, p, q - 1);
  }

  lemma {:induction false} ScansFrom(lines: seq<string>, i: nat)
    requires LineList(lines) && i <= |lines|
    ensures Offset(lines, i) <= |Unlines(lines)|
    ensures var s := LinesFrom(Unlines(lines), Offset(lines, i));
            |s| == |lines| - i && forall k :: i <= k < |lines| ==> s[k - i] == LineOf(lines, k)
    decreases |lines| - i
  {
    OffsetInText(lines, i);
    if i < |lines| {
      NewlineAfter(lines, i);
      ScansFrom(lines, i + 1);
      var s, rest := LinesFrom(Unlines(lines), Offset(lines, i)), LinesFrom(Unlines(lines), Offset(lines, i + 1));
      assert s == [LineOf(lines, i)] + rest;
      forall k | i <= k < |lines| ensures s[k - i] == LineOf(lines, k) {
        if k > i { assert s[k - i] == rest[k - (i + 1)]; }
      }
    }
  }

  lemma ScansLines(lines: seq<string>)
    requires LineList(lines)
    ensures Scans(lines, LinesFrom(Unlines(lines), 0))
  {
    ScansFrom(lines, 0);
    assert lines[..0] == [];
    forall i | 0 <= i < |lines| ensures LinesFrom(Unlines(lines), 0)[i] == LineOf(lines, i) {
      assert LinesFrom(Unlines(lines), 0)[i - 0] == LineOf(lines, i);
    }
  }

  // ---- substituting the images edits the list -----------------------------------------------

  lemma SameOffset(lines: seq<string>, i: nat, j: nat)
    requires i <= |lines| && j <= |lines|
    ensures Offset(lines, i) == Offset(lines, j) <==> i == j
    ensures Offset(lines, i) < Offset(lines, j) <==> i < j
  {
    OffsetsAscend(lines, if i < j then i else j, if i < j then j else i);
  }

  /** How the image of one edit looks at the start of line `i`. */
  lemma ImageAt(lines: seq<string>, e: LineEdit, order: nat, i: nat)
    requires FitsOne(lines, e) && i <= |lines|
    ensures var m, p := Image(lines, e, order), Offset(lines, i);
            && (m.start == p && m.end == p <==> e.InsertLines? && e.at == i)
            && (m.start == p < m.end <==> TakesFrom(e, i))
            && m.start <= m.end <= |Unlines(lines)|
            && (i < |lines| ==> !(p < m.start < Offset(lines, i + 1)))
  {
    hide Unlines, Join;
    SameOffset(lines, First(e), i);
    OffsetInText(lines, First(e));
    if i < |lines| { SameOffset(lines, First(e), i + 1); }
    match e
    case InsertLines(at, block) =>
    case RemoveLines(from, to) => OffsetsAscend(lines, from, to); OffsetInText(lines, to);
    case ReplaceOne(at, block) => OffsetNext(lines, at); OffsetInText(lines, at + 1);
  }

  lemma ImagesInText(lines: seq<string>, edits: seq<LineEdit>)
    requires Fits(lines, edits)
    ensures InText(Unlines(lines), Images(lines, edits))
  {
    forall k | 0 <= k < |edits|
      ensures Images(lines, edits)[k].start <= Images(lines, edits)[k].end <= |Unlines(lines)|
    {
      ImageAt(lines, edits[k], k, 0);
    }
  }

  /** How a range of the text and a line edit agree at the start `p` of line `i`. */
  ghost predicate Agrees(m: Resolved, e: LineEdit, p: nat, i: nat) {
    && (m.start == p && m.end == p <==> e.InsertLines? && e.at == i)
    && (m.start == p < m.end <==> TakesFrom(e, i))
    && (e.InsertLines? ==> m.text == Unlines(e.block))
  }

  ghost predicate AllAgree(images: seq<Resolved>, edits: seq<LineEdit>, p: nat, i: nat) {
    |images| == |edits| && forall k :: 0 <= k < |edits| ==> Agrees(images[k], edits[k], p, i)
  }

  lemma ImagesAgree(lines: seq<string>, edits: seq<LineEdit>, i: nat)
    requires Fits(lines, edits) && i <= |lines|
    ensures AllAgree(Images(lines, edits), edits, Offset(lines, i), i)
  {
    forall k | 0 <= k < |edits| ensures Agrees(Images(lines, edits)[k], edits[k], Offset(lines, i), i) {
      assert FitsOne(lines, edits[k]);
      ImageAt(lines, edits[k], k, i);
      if edits[k].InsertLines? { JoinUnlines(edits[k].block); }
    }
  }

  lemma {:induction false} InsertedAgrees(images: seq<Resolved>, edits: seq<LineEdit>, p: nat, i: nat, n: nat)
    requires AllAgree(images, edits, p, i) && n <= |edits|
    ensures Inserted(images, Orders(|edits|), p, n) == Unlines(InsertedLines(edits, i, n))
  {
    if n > 0 {
      hide Unlines;
      var e := edits[n - 1];
      assert Agrees(images[n - 1], e, p, i);
      InsertedAgrees(images, edits, p, i, n - 1);
      var before := InsertedLines(edits, i, n - 1);
      if e.InsertLines? && e.at == i { UnlinesAppend(before, e.block); } else { assert before + [] == before; }
    }
  }

  lemma {:induction false} TakingAgrees(images: seq<Resolved>, edits: seq<LineEdit>, p: nat, i: nat, n: nat)
    requires AllAgree(images, edits, p, i) && n <= |edits|
    ensures Replacing(images, Orders(|edits|), p, n) == Taking(edits, i, n)
  {
    if n > 0 {
      assert Agrees(images[n - 1], edits[n - 1], p, i);
      TakingAgrees(images, edits, p, i, n - 1);
    }
  }

  lemma ImagesAt(lines: seq<string>, edits: seq<LineEdit>, i: nat)
    requires Fits(lines, edits) && i <= |lines|
    ensures Inserted(Images(lines, edits), Orders(|edits|), Offset(lines, i), |edits|)
            == Unlines(InsertedLines(edits, i, |edits|))
    ensures Replacing(Images(lines, edits), Orders(|edits|), Offset(lines, i), |edits|) == Taking(edits, i, |edits|)
  {
    ImagesAgree(lines, edits, i);
    InsertedAgrees(Images(lines, edits), edits, Offset(lines, i), i, |edits|);
    TakingAgrees(Images(lines, edits), edits, Offset(lines, i), i, |edits|);
  }

  lemma NoneInside(lines: seq<string>, edits: seq<LineEdit>, i: nat)
    requires Fits(lines, edits) && i < |lines|
    ensures NoneIn(Images(lines, edits), Orders(|edits|), Offset(lines, i) + 1, Offset(lines, i + 1))
  {
    forall k | k in Orders(|edits|) && k < |edits|
      ensures !(Offset(lines, i) + 1 <= Images(lines, edits)[k].start < Offset(lines, i + 1))
    {
      ImageAt(lines, edits[k], k, i);
    }
  }

  /** What the pass over the text does from the start of line `i` on. */
  function PassFrom(lines: seq<string>, edits: seq<LineEdit>, i: nat): string
    requires i <= |lines| && Fits(lines, edits)
  {
    ImagesInText(lines, edits);
    OffsetInText(lines, i);
    Pass(Unlines(lines), Images(lines, edits), Orders(|edits|), Offset(lines, i))
  }

  lemma KeepLine(lines: seq<string>, edits: seq<LineEdit>, i: nat)
    requires Fits(lines, edits) && i < |lines| && Taking(edits, i, |edits|).Keep?
    ensures PassFrom(lines, edits, i)
            == Unlines(InsertedLines(edits, i, |edits|)) + (lines[i] + "\n" + PassFrom(lines, edits, i + 1))
  {
    hide Unlines, Offset;
    var t, p, q := Unlines(lines), Offset(lines, i), Offset(lines, i + 1);
    var images, all := Images(lines, edits), Orders(|edits|);
    ImagesInText(lines, edits);
    ImagesAt(lines, edits, i);
    LineInText(lines, i);
    NoneInside(lines, edits, i);
    PassCopies(t, images, all, p + 1, q);
    CopyMore(t, p, q, PassFrom(lines, edits, i + 1));
  }

  lemma LineEnd(lines: seq<string>, i: nat)
    requires i < |lines|
    ensures Offset(lines, i) + |lines[i]| + 1 == Offset(lines, i + 1) <= |Unlines(lines)|
    ensures Unlines(lines)[Offset(lines, i + 1) - 1] == '\n'
  {
    LineInText(lines, i);
    var p, q := Offset(lines, i), Offset(lines, i + 1);
    assert Unlines(lines)[q - 1] == Unlines(lines)[p..q][|lines[i]|];
  }

  lemma CopiesNewline(text: string, edits: seq<Resolved>, part: set<nat>, p: nat)
    requires p < |text| && InText(text, edits) && NoneIn(edits, part, p, p + 1) && text[p] == '\n'
    ensures Pass(text, edits, part, p) == "\n" + Pass(text, edits, part, p + 1)
  {
    PassCopiesOne(text, edits, part, p);
    assert [text[p]] == "\n";
  }

  lemma NoneAtEnd(lines: seq<string>, edits: seq<LineEdit>, i: nat)
    requires Fits(lines, edits) && i < |lines| && lines[i] != ""
    ensures var end := Offset(lines, i) + |lines[i]|; NoneIn(Images(lines, edits), Orders(|edits|), end, end + 1)
  {
    OffsetNext(lines, i);
    NoneInside(lines, edits, i);
  }

  lemma NewlineStays(lines: seq<string>, edits: seq<LineEdit>, i: nat)
    requires Fits(lines, edits) && i < |lines| && lines[i] != "" && InText(Unlines(lines), Images(lines, edits))
    ensures Offset(lines, i) + |lines[i]| + 1 == Offset(lines, i + 1) <= |Unlines(lines)|
    ensures Pass(Unlines(lines), Images(lines, edits), Orders(|edits|), Offset(lines, i) + |lines[i]|)
            == "\n" + PassFrom(lines, edits, i + 1)
  {
    LineEnd(lines, i);
    NoneAtEnd(lines, edits, i);
    CopiesNewline(Unlines(lines), Images(lines, edits), Orders(|edits|), Offset(lines, i) + |lines[i]|);
  }

  lemma BlockThen(block: seq<string>, rest: string)
    requires block != []
    ensures Join(block) + ("\n" + rest) == Unlines(block) + rest
  {
    JoinUnlines(block);
    assert Join(block) + ("\n" + rest) == (Join(block) + "\n") + rest;
  }

  lemma ReplaceLineAt(lines: seq<string>, edits: seq<LineEdit>, i: nat, k: nat)
    requires Fits(lines, edits) && i < |lines| && k < |edits|
    requires Taking(edits, i, |edits|) == Choice.Replace(k) && edits[k].ReplaceOne?
    ensures PassFrom(lines, edits, i)
            == Unlines(InsertedLines(edits, i, |edits|)) + (Unlines(edits[k].block) + PassFrom(lines, edits, i + 1))
  {
    ImagesInText(lines, edits);
    ImagesAt(lines, edits, i);
    assert FitsOne(lines, edits[k]);
    NewlineStays(lines, edits, i);
    BlockThen(edits[k].block, PassFrom(lines, edits, i + 1));
  }

  lemma RemoveLinesAt(lines: seq<string>, edits: seq<LineEdit>, i: nat, k: nat)
    requires Fits(lines, edits) && i < |lines| && k < |edits|
    requires Taking(edits, i, |edits|) == Choice.Replace(k) && edits[k].RemoveLines?
    ensures edits[k].to <= |lines|
    ensures PassFrom(lines, edits, i) == Unlines(InsertedLines(edits, i, |edits|)) + PassFrom(lines, edits, edits[k].to)
  {
    ImagesInText(lines, edits);
    ImagesAt(lines, edits, i);
    LineInText(lines, i);
    assert FitsOne(lines, edits[k]);
    var rest := PassFrom(lines, edits, edits[k].to);
    assert "" + rest == rest;
  }

  lemma {:induction false} PassEditsLines(lines: seq<string>, edits: seq<LineEdit>, i: nat)
    requires Fits(lines, edits) && i <= |lines|
    ensures PassFrom(lines, edits, i) == Unlines(EditedLines(lines, edits, i))
    decreases |lines| - i
  {
    var inserted := InsertedLines(edits, i, |edits|);
    if i == |lines| {
      ImagesInText(lines, edits);
      OffsetInText(lines, i);
      ImagesAt(lines, edits, i);
      assert inserted + [] == inserted;
    } else {
      match Taking(edits, i, |edits|)
      case Keep =>
        PassEditsLines(lines, edits, i + 1);
        KeepLine(lines, edits, i);
        var rest := EditedLines(lines, edits, i + 1);
        UnlinesAppend(inserted, [lines[i]] + rest);
      case Replace(k) =>
        assert FitsOne(lines, edits[k]);
        if edits[k].RemoveLines? {
          PassEditsLines(lines, edits, edits[k].to);
          RemoveLinesAt(lines, edits, i, k);
          UnlinesAppend(inserted, EditedLines(lines, edits, edits[k].to));
        } else {
          PassEditsLines(lines, edits, i + 1);
          ReplaceLineAt(lines, edits, i, k);
          var rest := EditedLines(lines, edits, i + 1);
          UnlinesAppend(edits[k].block, rest);
          UnlinesAppend(inserted, edits[k].block + rest);
        }
    }
  }

  lemma SubstituteEditsLines(lines: seq<string>, edits: seq<LineEdit>)
    requires Fits(lines, edits)
    ensures InText(Unlines(lines), Images(lines, edits))
    ensures Substitute(Unlines(lines), Images(lines, edits)) == Unlines(EditedLines(lines, edits, 0))
  {
    ImagesInText(lines, edits);
    PassEditsLines(lines, edits, 0);
    assert lines[..0] == [];
  }

  lemma ConflictImage(lines: seq<string>, a: LineEdit, b: LineEdit, i: nat, j: nat)
    requires FitsOne(lines, a) && FitsOne(lines, b)
    ensures Conflict(Image(lines, a, i), Image(lines, b, j)) <==> LineConflict(a, b)
  {
    ImageEnds(lines, a, i, First(b));
    ImageEnds(lines, b, j, First(a));
  }

  /** The end of an image lies beyond the start of line `i` exactly when the edit's last
      line does. */
  lemma ImageEnds(lines: seq<string>, e: LineEdit, order: nat, i: nat)
    requires FitsOne(lines, e) && i <= |lines|
    ensures var m, p := Image(lines, e, order), Offset(lines, i);
            && (m.start == m.end <==> e.InsertLines?)
            && (m.start < p <==> First(e) < i) && (m.start > p <==> First(e) > i)
            && (!e.InsertLines? ==> (p < m.end <==> i < Last(e)))
  {
    SameOffset(lines, First(e), i);
    SameOffset(lines, i, First(e));
    match e
    case InsertLines(at, block) =>
    case RemoveLines(from, to) => SameOffset(lines, from, to); SameOffset(lines, i, to);
    case ReplaceOne(at, block) =>
      OffsetNext(lines, at);
      SameOffset(lines, i, at + 1);
      if i > at { SameOffset(lines, at + 1, i); }
  }

  lemma CompatibleImages(lines: seq<string>, edits: seq<LineEdit>)
    requires Fits(lines, edits)
    ensures Compatible(Images(lines, edits)) <==> LinesCompatible(edits)
  {
    var images := Images(lines, edits);
    forall i, j | 0 <= i < j < |edits| ensures Conflict(images[i], images[j]) <==> LineConflict(edits[i], edits[j]) {
      ConflictImage(lines, edits[i], edits[j], i, j);
    }
  }
}
