/** insert, delete, insert_before, insert_after, replace_line and delete_line, on
    newline-terminated text, are the line edits they read as. */
module EditLineOps {
  import opened Options
  import opened EditText
  import opened EditBatch
  import opened EditOps
  import opened EditLines

  predicate AnchorOp(op: Operation) { op.InsertBefore? || op.InsertAfter? || op.ReplaceLine? || op.DeleteLine? }

  predicate LineOp(op: Operation) { op.Insert? || op.Delete? || AnchorOp(op) }

  /** The new text of an edit as lines. */
  function BlockLines(text: string): seq<string> { SplitLines(EnsureTrailingNewline(text)) }

  function AnchoredAt(lines: seq<string>, anchor: string, n: nat): (r: seq<nat>)
    requires n <= |lines|
    ensures forall k :: 0 <= k < |r| ==> r[k] < n && Anchored(lines[r[k]], anchor)
    ensures forall j, k :: 0 <= j < k < |r| ==> r[j] < r[k]
  {
    if n == 0 then []
    else AnchoredAt(lines, anchor, n - 1) + (if Anchored(lines[n - 1], anchor) then [n - 1] else [])
  }

  lemma {:induction false} AnchoredExactly(lines: seq<string>, anchor: string, n: nat, i: nat)
    requires n <= |lines|
    ensures i in AnchoredAt(lines, anchor, n) <==> i < n && Anchored(lines[i], anchor)
  {
    if n > 0 { AnchoredExactly(lines, anchor, n - 1, i); }
  }

  /** What an anchored operation does at line `i`. */
  function AnchorEdit(op: Operation, i: nat, block: seq<string>): LineEdit {
    match op
    case InsertBefore => InsertLines(i, block)
    case InsertAfter => InsertLines(i + 1, block)
    case ReplaceLine => ReplaceOne(i, block)
    case _ => RemoveLines(i, i + 1)
  }

  function AnchorEdits(op: Operation, at: seq<nat>, block: seq<string>): (r: seq<LineEdit>)
    ensures |r| == |at| && forall k :: 0 <= k < |r| ==> r[k] == AnchorEdit(op, at[k], block)
  {
    seq(|at|, k requires 0 <= k < |at| => AnchorEdit(op, at[k], block))
  }

  /** The lines an anchored operation needs: all but delete_line need at least one. */
  function AnchorBlock(e: Edit): Option<seq<string>> {
    if e.newText.None? then Some([])
    else if BlockLines(e.newText.value) == [] then None else Some(BlockLines(e.newText.value))
  }

  function AnchorLineEdits(lines: seq<string>, e: Edit): Result<seq<LineEdit>, FieldError> {
    match SelectMatches(AnchoredAt(lines, Normalize(e.anchor), |lines|), e.index, e.allMatches)
    case Err(error) => Err(error)
    case Ok(at) =>
      match AnchorBlock(e)
      case None => Err(BlockRequired)
      case Some(block) => Ok(AnchorEdits(e.operation, at, block))
  }

  /** The line edits that one operation amounts to. */
  function LineEditsOf(lines: seq<string>, e: Edit): Result<seq<LineEdit>, FieldError>
    requires LineOp(e.operation)
  {
    if ValidateFields(e).Some? then Err(ValidateFields(e).value)
    else if e.operation.Insert? then
      var block := BlockLines(e.newText.value);
      if block == [] then Err(BlockRequired)
      else if e.line > |lines| + 1 then Err(InsertPosition)
      else Ok([InsertLines(e.line - 1, block)])
    else if e.operation.Delete? then
      var endLine := if e.endLine == 0 then e.line else e.endLine;
      match ValidateLineRange(|lines|, e.line, endLine)
      case Some(error) => Err(error)
      case None => Ok([RemoveLines(e.line - 1, endLine)])
    else AnchorLineEdits(lines, e)
  }

  /** All line edits of a batch from operation `i` on, after `done`. */
  function BatchLineEdits(lines: seq<string>, edits: seq<Edit>, i: nat, done: seq<LineEdit>): Result<seq<LineEdit>,
                          EditError>
    requires i <= |edits| && forall k :: 0 <= k < |edits| ==> LineOp(edits[k].operation)
    decreases |edits| - i
  {
    if i == |edits| then Ok(done)
    else match LineEditsOf(lines, edits[i])
         case Err(error) => Err(At(i, error))
         case Ok(more) => BatchLineEdits(lines, edits, i + 1, done + more)
  }

  // ---- one operation ----------------------------------------------------------------------

  lemma BlockIsLines(text: string)
    ensures LineList(BlockLines(text))
    ensures LineBlock(text) == if BlockLines(text) == [] then Err(BlockRequired) else Ok(Join(BlockLines(text)))
  {
    NormalizeNormalizes(text);
    var t := EnsureTrailingNewline(text);
    if t == "" {
      NormalizeKeeps("");
    } else {
      TerminatedText(t);
    }
  }

  /** The lines of a new text: they hold no newline, and each followed by one they are the
      normalised text, with a newline more where its last line has none. */
  lemma BlockLinesAre(text: string)
    ensures forall i :: 0 <= i < |BlockLines(text)| ==> '\n' !in BlockLines(text)[i]
    ensures var t := Normalize(text);
            Unlines(BlockLines(text)) == if t == "" || t[|t| - 1] == '\n' then t else t + "\n"
  {
    NormalizeNormalizes(text);
    NormalizeKeeps(EnsureTrailingNewline(text));
    SplitLinesAre(EnsureTrailingNewline(text));
  }

  lemma {:induction false} SameAnchors(lines: seq<string>, scanned: seq<SourceLine>, anchor: string, n: nat)
    requires Scans(lines, scanned) && n <= |lines|
    ensures AnchoredLines(scanned, anchor, n) == AnchoredAt(lines, anchor, n)
  {
    if n > 0 { SameAnchors(lines, scanned, anchor, n - 1); }
  }

  /** Images not yet numbered. */
  function Plain(lines: seq<string>, edits: seq<LineEdit>): (r: seq<Resolved>)
    requires Fits(lines, edits)
    ensures |r| == |edits| && forall k :: 0 <= k < |r| ==> FitsOne(lines, edits[k]) && r[k] == Image(lines, edits[k], 0)
  {
    seq(|edits|, k requires 0 <= k < |edits| => assert FitsOne(lines, edits[k]); Image(lines, edits[k], 0))
  }

  ghost predicate SameResult(lines: seq<string>, planned: Result<seq<LineEdit>, FieldError>,
                             r: Result<seq<Resolved>, FieldError>)
  {
    match planned
    case Err(error) => r == Err(error)
    case Ok(edits) => Fits(lines, edits) && r == Ok(Plain(lines, edits))
  }

  /** The operation resolves to the images of its line edits, or fails just the same. */
  ghost predicate ResolvesTo(lines: seq<string>, e: Edit, r: Result<seq<Resolved>, FieldError>)
    requires LineOp(e.operation)
  {
    SameResult(lines, LineEditsOf(lines, e), r)
  }

  lemma OneFits(lines: seq<string>, e: LineEdit)
    requires FitsOne(lines, e)
    ensures Fits(lines, [e]) && Plain(lines, [e]) == [Image(lines, e, 0)]
  {
  }

  lemma InsertPlace(lines: seq<string>, scanned: seq<SourceLine>, line: nat, block: string)
    requires LineList(lines) && lines != [] && Scans(lines, scanned) && line >= 1
    ensures LineInsert(Unlines(lines), scanned, line, block)
            == if line > |lines| + 1 then Err(InsertPosition) else Ok((Offset(lines, line - 1), block + "\n"))
  {
    OffsetInText(lines, |lines|);
    SplitUnlines(lines);
    if line <= |lines| { assert scanned[line - 1] == LineOf(lines, line - 1); }
  }

  lemma InsertResolves(lines: seq<string>, scanned: seq<SourceLine>, e: Edit)
    requires LineList(lines) && lines != [] && Scans(lines, scanned) && e.operation.Insert? && ValidateFields(e).None?
    ensures ResolvesTo(lines, e, Resolution(Unlines(lines), scanned, e))
  {
    BlockIsLines(e.newText.value);
    var block := BlockLines(e.newText.value);
    InsertPlace(lines, scanned, e.line, Join(block));
    if block != [] && e.line <= |lines| + 1 { OneFits(lines, InsertLines(e.line - 1, block)); }
  }

  lemma WholeLines(lines: seq<string>, scanned: seq<SourceLine>, from: nat, to: nat)
    requires Scans(lines, scanned) && 1 <= from <= to <= |lines|
    ensures LineRangeOf(scanned, from, to) == (Offset(lines, from - 1), Offset(lines, to))
  {
    assert scanned[to - 1] == LineOf(lines, to - 1) && scanned[from - 1] == LineOf(lines, from - 1);
    OffsetNext(lines, to - 1);
  }

  lemma DeleteRange(lines: seq<string>, scanned: seq<SourceLine>, e: Edit, last: nat)
    requires Scans(lines, scanned) && 1 <= e.line && last == (if e.endLine == 0 then e.line else e.endLine)
    requires ValidateLineRange(|lines|, e.line, last).None?
    ensures FitsOne(lines, RemoveLines(e.line - 1, last))
    ensures OneRange(scanned, e, "") == Ok([Image(lines, RemoveLines(e.line - 1, last), 0)])
  {
    WholeLines(lines, scanned, e.line, last);
  }

  lemma DeleteResolves(lines: seq<string>, scanned: seq<SourceLine>, e: Edit)
    requires Scans(lines, scanned) && e.operation.Delete? && ValidateFields(e).None?
    ensures ResolvesTo(lines, e, Resolution(Unlines(lines), scanned, e))
  {
    var endLine := if e.endLine == 0 then e.line else e.endLine;
    if ValidateLineRange(|lines|, e.line, endLine).None? {
      DeleteRange(lines, scanned, e, endLine);
      OneFits(lines, RemoveLines(e.line - 1, endLine));
    }
  }

  lemma AnchorResolves(lines: seq<string>, scanned: seq<SourceLine>, op: Operation, i: nat, block: seq<string>)
    requires Scans(lines, scanned) && i < |lines| && AnchorOp(op) && FitsOne(lines, AnchorEdit(op, i, block))
    ensures AtLine(scanned, op, i, Join(block)) == Image(lines, AnchorEdit(op, i, block), 0)
  {
    assert scanned[i] == LineOf(lines, i);
    OffsetNext(lines, i);
    if op.DeleteLine? { WholeLines(lines, scanned, i + 1, i + 1); }
  }

  lemma AnchorFits(lines: seq<string>, anchor: string, op: Operation, i: nat, block: seq<string>)
    requires i < |lines| && AnchorOp(op) && Anchored(lines[i], anchor) && anchor != ""
    requires LineList(block) && (op.DeleteLine? || block != [])
    ensures FitsOne(lines, AnchorEdit(op, i, block))
  {
    assert TrimIndent("") == "";
  }

  lemma AnchorsFit(lines: seq<string>, anchor: string, op: Operation, at: seq<nat>, block: seq<string>)
    requires AnchorOp(op) && anchor != "" && LineList(block) && (op.DeleteLine? || block != [])
    requires forall k :: 0 <= k < |at| ==> at[k] < |lines| && Anchored(lines[at[k]], anchor)
    ensures Fits(lines, AnchorEdits(op, at, block))
  {
    forall k | 0 <= k < |at| ensures FitsOne(lines, AnchorEdits(op, at, block)[k]) {
      AnchorFits(lines, anchor, op, at[k], block);
    }
  }

  lemma AnchorsResolve(lines: seq<string>, scanned: seq<SourceLine>, op: Operation, at: seq<nat>, block: seq<string>)
    requires Scans(lines, scanned) && AnchorOp(op) && Fits(lines, AnchorEdits(op, at, block))
    requires forall k :: 0 <= k < |at| ==> at[k] < |lines|
    ensures AtLines(scanned, op, at, Join(block)) == Plain(lines, AnchorEdits(op, at, block))
  {
    forall k | 0 <= k < |at|
      ensures AtLines(scanned, op, at, Join(block))[k] == Plain(lines, AnchorEdits(op, at, block))[k]
    {
      assert FitsOne(lines, AnchorEdits(op, at, block)[k]);
      AnchorResolves(lines, scanned, op, at[k], block);
    }
  }

  /** What the selected lines resolve to. */
  lemma SelectedResolve(lines: seq<string>, scanned: seq<SourceLine>, anchor: string, op: Operation, at: seq<nat>,
                        block: seq<string>)
    requires Scans(lines, scanned) && AnchorOp(op) && anchor != "" && LineList(block) && (op.DeleteLine? || block != [])
    requires forall k :: 0 <= k < |at| ==> at[k] in AnchoredAt(lines, anchor, |lines|)
    ensures Fits(lines, AnchorEdits(op, at, block)) && forall k :: 0 <= k < |at| ==> at[k] < |lines|
    ensures AtLines(scanned, op, at, Join(block)) == Plain(lines, AnchorEdits(op, at, block))
  {
    AnchorsFit(lines, anchor, op, at, block);
    AnchorsResolve(lines, scanned, op, at, block);
  }

  lemma AnchorBlockIs(e: Edit)
    ensures BlockFor(e) == if AnchorBlock(e).None? then Err(BlockRequired) else Ok(Join(AnchorBlock(e).value))
    ensures AnchorBlock(e).Some? ==> LineList(AnchorBlock(e).value) && (e.newText.None? || AnchorBlock(e).value != [])
  {
    if e.newText.Some? { BlockIsLines(e.newText.value); }
  }

  lemma AnchorOpResolves(lines: seq<string>, scanned: seq<SourceLine>, e: Edit)
    requires Scans(lines, scanned) && AnchorOp(e.operation)
    requires Normalize(e.anchor) != "" && (e.operation.DeleteLine? || e.newText.Some?)
    ensures SameResult(lines, AnchorLineEdits(lines, e), AnchorResolution(scanned, e))
  {
    var anchor := Normalize(e.anchor);
    SameAnchors(lines, scanned, anchor, |lines|);
    AnchorBlockIs(e);
    var selected, block := SelectMatches(AnchoredAt(lines, anchor, |lines|), e.index, e.allMatches), AnchorBlock(e);
    if selected.Ok? && block.Some? {
      SelectedResolve(lines, scanned, anchor, e.operation, selected.value, block.value);
    }
  }

  lemma OperationResolves(lines: seq<string>, scanned: seq<SourceLine>, e: Edit)
    requires LineList(lines) && lines != [] && Scans(lines, scanned) && LineOp(e.operation)
    ensures ResolvesTo(lines, e, Resolution(Unlines(lines), scanned, e))
  {
    if ValidateFields(e).None? {
      match e.operation
      case Insert => InsertResolves(lines, scanned, e);
      case Delete => DeleteResolves(lines, scanned, e);
      case _ => AnchorOpResolves(lines, scanned, e);
    }
  }

  // ---- a batch --------------------------------------------------------------------------------

  lemma ImagesMore(lines: seq<string>, done: seq<LineEdit>, more: seq<LineEdit>)
    requires Fits(lines, done) && Fits(lines, more)
    ensures Fits(lines, done + more)
    ensures Images(lines, done) + Number(Plain(lines, more), |done|) == Images(lines, done + more)
  {
    var all := done + more;
    forall k | 0 <= k < |all| ensures FitsOne(lines, all[k]) {
      if k < |done| { assert FitsOne(lines, done[k]); } else { assert FitsOne(lines, more[k - |done|]); }
    }
    forall k | 0 <= k < |all|
      ensures (Images(lines, done) + Number(Plain(lines, more), |done|))[k] == Images(lines, all)[k]
    {
      if k >= |done| { assert FitsOne(lines, more[k - |done|]); }
    }
  }

  ghost predicate BatchResolves(lines: seq<string>, edits: seq<Edit>, i: nat, done: seq<LineEdit>,
                                r: Result<seq<Resolved>, EditError>)
    requires i <= |edits| && forall k :: 0 <= k < |edits| ==> LineOp(edits[k].operation)
  {
    match BatchLineEdits(lines, edits, i, done)
    case Err(error) => r == Err(error)
    case Ok(all) => Fits(lines, all) && r == Ok(Images(lines, all))
  }

  lemma {:induction false} ResolutionsAreLines(lines: seq<string>, scanned: seq<SourceLine>, edits: seq<Edit>, i: nat,
                                               done: seq<LineEdit>)
    requires LineList(lines) && lines != [] && Scans(lines, scanned)
    requires i <= |edits| && forall k :: 0 <= k < |edits| ==> LineOp(edits[k].operation)
    requires Fits(lines, done)
    ensures BatchResolves(lines, edits, i, done, Resolutions(Unlines(lines), scanned, edits, i, Images(lines, done)))
    decreases |edits| - i
  {
    if i < |edits| {
      OperationResolves(lines, scanned, edits[i]);
      var more := LineEditsOf(lines, edits[i]);
      if more.Ok? {
        ImagesMore(lines, done, more.value);
        ResolutionsAreLines(lines, scanned, edits, i + 1, done + more.value);
      }
    }
  }

  /** The new lines are lines again. */
  lemma {:induction false} EditedIsLines(lines: seq<string>, edits: seq<LineEdit>, i: nat)
    requires LineList(lines) && Fits(lines, edits) && i <= |lines|
    ensures LineList(EditedLines(lines, edits, i))
    decreases |lines| - i
  {
    InsertedIsLines(lines, edits, i, |edits|);
    if i < |lines| {
      match Taking(edits, i, |edits|)
      case Keep => EditedIsLines(lines, edits, i + 1);
      case Replace(k) =>
        assert FitsOne(lines, edits[k]);
        EditedIsLines(lines, edits, if edits[k].RemoveLines? then edits[k].to else i + 1);
    }
  }

  lemma {:induction false} InsertedIsLines(lines: seq<string>, edits: seq<LineEdit>, i: nat, n: nat)
    requires Fits(lines, edits) && n <= |edits|
    ensures LineList(InsertedLines(edits, i, n))
  {
    if n > 0 {
      InsertedIsLines(lines, edits, i, n - 1);
      assert FitsOne(lines, edits[n - 1]);
    }
  }

  ghost predicate LineOutcome(lines: seq<string>, edits: seq<LineEdit>, r: Result<string, EditError>)
    requires Fits(lines, edits)
  {
    if !LinesCompatible(edits) then r == Err(EditsOverlap)
    else r == Ok(Unlines(EditedLines(lines, edits, 0))) && SplitLines(r.value) == EditedLines(lines, edits, 0)
  }

  /** A batch of line operations on non-empty newline-terminated text: it fails when one
      operation fails or two clash, and else splits into exactly the edited list of lines. */
  lemma LineBatch(lines: seq<string>, edits: seq<Edit>, r: Result<string, EditError>)
    requires LineList(lines) && lines != [] && edits != []
    requires (forall k :: 0 <= k < |edits| ==> LineOp(edits[k].operation)) && Applied(Unlines(lines), edits, r)
    ensures var batch := BatchLineEdits(lines, edits, 0, []);
            if batch.Err? then r == Err(batch.error) else Fits(lines, batch.value) && LineOutcome(lines, batch.value, r)
  {
    SplitUnlines(lines);
    NormalizeKeeps(Unlines(lines));
    ScansLines(lines);
    assert Images(lines, []) == [];
    ResolutionsAreLines(lines, LinesFrom(Unlines(lines), 0), edits, 0, []);
    assert LineOp(edits[0].operation);
    var all := BatchLineEdits(lines, edits, 0, []);
    if all.Ok? {
      SubstituteEditsLines(lines, all.value);
      CompatibleImages(lines, all.value);
      EditedIsLines(lines, all.value, 0);
      SplitLinesUnlines(EditedLines(lines, all.value, 0));
    }
  }

  // ---- what single operations do ----------------------------------------------------------

  function WithBlock(lines: seq<string>, at: nat, block: seq<string>, i: nat): seq<string>
    requires i <= |lines| && at <= |lines|
  {
    if i <= at then lines[i..at] + block + lines[at..] else lines[i..]
  }

  lemma Regroup(a: seq<string>, b: seq<string>, c: seq<string>, d: seq<string>)
    ensures a + (b + c + d) == (a + b) + c + d
  {
  }

  lemma WithBlockStep(lines: seq<string>, at: nat, block: seq<string>, i: nat)
    requires i < |lines| && at <= |lines|
    ensures (if at == i then block else []) + ([lines[i]] + WithBlock(lines, at, block, i + 1))
            == WithBlock(lines, at, block, i)
  {
    if i < at {
      assert lines[i..at] == [lines[i]] + lines[i + 1..at];
      Regroup([lines[i]], lines[i + 1..at], block, lines[at..]);
    } else {
      assert lines[i..] == [lines[i]] + lines[i + 1..];
      assert lines[i..i] == [];
    }
  }

  /** A lone insert puts its lines in front of line `at`. */
  lemma {:induction false} InsertedOnce(lines: seq<string>, at: nat, block: seq<string>, i: nat)
    requires i <= |lines| && at <= |lines| && Fits(lines, [InsertLines(at, block)])
    ensures EditedLines(lines, [InsertLines(at, block)], i) == WithBlock(lines, at, block, i)
    decreases |lines| - i
  {
    hide FitsOne;
    var edits := [InsertLines(at, block)];
    assert InsertedLines(edits, i, 1) == if at == i then block else [];
    assert Taking(edits, i, 1).Keep?;
    if i < |lines| {
      hide WithBlock;
      InsertedOnce(lines, at, block, i + 1);
      WithBlockStep(lines, at, block, i);
    }
  }

  /** A lone delete takes its lines out. */
  lemma {:induction false} RemovedOnce(lines: seq<string>, from: nat, to: nat, i: nat)
    requires from < to <= |lines| && (i <= from || to <= i <= |lines|) && Fits(lines, [RemoveLines(from, to)])
    ensures EditedLines(lines, [RemoveLines(from, to)], i)
            == if i <= from then lines[i..from] + lines[to..] else lines[i..]
    decreases |lines| - i
  {
    hide FitsOne;
    var edits := [RemoveLines(from, to)];
    assert InsertedLines(edits, i, 1) == [];
    assert Taking(edits, i, 1) == if i == from then Choice.Replace(0) else Keep;
    if i < |lines| {
      RemovedOnce(lines, from, to, if i == from then to else i + 1);
      if i < from { assert [lines[i]] + (lines[i + 1..from] + lines[to..]) == lines[i..from] + lines[to..]; }
    }
  }

  predicate Ascends(at: seq<nat>) { forall j, k :: 0 <= j < k < |at| ==> at[j] < at[k] }

  /** What an anchored operation leaves of one line that it applies to. */
  function AroundLine(op: Operation, line: string, block: seq<string>): seq<string> {
    match op
    case InsertBefore => block + [line]
    case InsertAfter => [line] + block
    case ReplaceLine => block
    case _ => []
  }

  /** The lines from `i` on with the operation applied at the lines in `at`. */
  function EachLine(lines: seq<string>, op: Operation, at: seq<nat>, block: seq<string>, i: nat): seq<string>
    requires i <= |lines|
    decreases |lines| - i
  {
    if i == |lines| then []
    else (if i in at then AroundLine(op, lines[i], block) else [lines[i]]) + EachLine(lines, op, at, block, i + 1)
  }

  lemma {:induction false} NoneInserted(edits: seq<LineEdit>, i: nat, n: nat)
    requires n <= |edits| && forall k :: 0 <= k < n ==> !(edits[k].InsertLines? && edits[k].at == i)
    ensures InsertedLines(edits, i, n) == []
  {
    if n > 0 { NoneInserted(edits, i, n - 1); }
  }

  lemma {:induction false} OneInserted(edits: seq<LineEdit>, i: nat, n: nat, only: nat)
    requires only < n <= |edits| && edits[only].InsertLines? && edits[only].at == i
    requires forall k :: 0 <= k < n && k != only ==> !(edits[k].InsertLines? && edits[k].at == i)
    ensures InsertedLines(edits, i, n) == edits[only].block
  {
    if n - 1 == only { NoneInserted(edits, i, n - 1); } else { OneInserted(edits, i, n - 1, only); }
  }

  /** The line whose application puts lines in front of line `i`, if any. */
  predicate InsertsHere(op: Operation, at: seq<nat>, i: nat) {
    (op.InsertBefore? && i in at) || (op.InsertAfter? && i > 0 && i - 1 in at)
  }

  lemma InsertedByAnchors(op: Operation, at: seq<nat>, block: seq<string>, i: nat)
    requires AnchorOp(op) && Ascends(at)
    ensures InsertedLines(AnchorEdits(op, at, block), i, |at|) == if InsertsHere(op, at, i) then block else []
  {
    var edits := AnchorEdits(op, at, block);
    if InsertsHere(op, at, i) {
      var only :| 0 <= only < |at| && at[only] == if op.InsertBefore? then i else i - 1;
      forall k | 0 <= k < |at| && k != only ensures edits[k].at != i {
        if k < only { assert at[k] < at[only]; } else { assert at[only] < at[k]; }
      }
      OneInserted(edits, i, |at|, only);
    } else {
      NoneInserted(edits, i, |at|);
    }
  }

  lemma {:induction false} TakenByAnchors(op: Operation, at: seq<nat>, block: seq<string>, i: nat, n: nat)
    requires AnchorOp(op) && n <= |at|
    ensures Taking(AnchorEdits(op, at, block), i, n).Replace? <==> (op.ReplaceLine? || op.DeleteLine?) && i in at[..n]
  {
    if n > 0 {
      TakenByAnchors(op, at, block, i, n - 1);
      assert at[..n] == at[..n - 1] + [at[n - 1]];
    }
  }

  lemma TakenLine(op: Operation, at: seq<nat>, block: seq<string>, i: nat)
    requires AnchorOp(op)
    ensures var c := Taking(AnchorEdits(op, at, block), i, |at|);
            (c.Replace? <==> (op.ReplaceLine? || op.DeleteLine?) && i in at)
            && (c.Replace? ==> AnchorEdits(op, at, block)[c.edit] == AnchorEdit(op, i, block))
  {
    assert at[..|at|] == at;
    TakenByAnchors(op, at, block, i, |at|);
  }

  lemma EditsOneLine(lines: seq<string>, op: Operation, at: seq<nat>, block: seq<string>, i: nat)
    requires AnchorOp(op) && Ascends(at) && Fits(lines, AnchorEdits(op, at, block)) && i < |lines|
    ensures EditedLines(lines, AnchorEdits(op, at, block), i)
            == (if InsertsHere(op, at, i) then block else [])
               + ((if (op.ReplaceLine? || op.DeleteLine?) && i in at then AroundLine(op, lines[i], block)
                   else [lines[i]])
                  + EditedLines(lines, AnchorEdits(op, at, block), i + 1))
  {
    InsertedByAnchors(op, at, block, i);
    TakenLine(op, at, block, i);
  }

  /** Lines that insert_after at the line before puts in front of line `i`. */
  function Carried(op: Operation, at: seq<nat>, block: seq<string>, i: nat): seq<string> {
    if op.InsertAfter? && i > 0 && i - 1 in at then block else []
  }

  lemma EachLineStep(lines: seq<string>, op: Operation, at: seq<nat>, block: seq<string>, i: nat, rest: seq<string>)
    requires AnchorOp(op) && i < |lines|
    ensures (if InsertsHere(op, at, i) then block else [])
            + ((if (op.ReplaceLine? || op.DeleteLine?) && i in at then AroundLine(op, lines[i], block) else [lines[i]])
               + (Carried(op, at, block, i + 1) + rest))
            == Carried(op, at, block, i) + ((if i in at then AroundLine(op, lines[i], block) else [lines[i]]) + rest)
  {
  }

  lemma EditsAtEnd(lines: seq<string>, op: Operation, at: seq<nat>, block: seq<string>)
    requires AnchorOp(op) && Ascends(at) && Fits(lines, AnchorEdits(op, at, block))
    requires forall k :: 0 <= k < |at| ==> at[k] < |lines|
    ensures EditedLines(lines, AnchorEdits(op, at, block), |lines|) == Carried(op, at, block, |lines|)
  {
    InsertedByAnchors(op, at, block, |lines|);
  }

  lemma {:induction false} EditsEachLine(lines: seq<string>, op: Operation, at: seq<nat>, block: seq<string>, i: nat)
    requires AnchorOp(op) && Ascends(at) && Fits(lines, AnchorEdits(op, at, block)) && i <= |lines|
    requires forall k :: 0 <= k < |at| ==> at[k] < |lines|
    ensures EditedLines(lines, AnchorEdits(op, at, block), i)
            == Carried(op, at, block, i) + EachLine(lines, op, at, block, i)
    decreases |lines| - i
  {
    if i == |lines| {
      EditsAtEnd(lines, op, at, block);
    } else {
      hide Fits, AnchorEdits, EditedLines, Carried, AroundLine, Ascends;
      EditsOneLine(lines, op, at, block, i);
      EditsEachLine(lines, op, at, block, i + 1);
      EachLineStep(lines, op, at, block, i, EachLine(lines, op, at, block, i + 1));
    }
  }

  lemma AnchorsCompatible(op: Operation, at: seq<nat>, block: seq<string>)
    requires AnchorOp(op) && Ascends(at)
    ensures LinesCompatible(AnchorEdits(op, at, block))
  {
  }

  lemma SelectedAscend(lines: seq<string>, e: Edit)
    ensures var selected := SelectMatches(AnchoredAt(lines, Normalize(e.anchor), |lines|), e.index, e.allMatches);
            selected.Ok? ==>
              Ascends(selected.value) && forall k :: 0 <= k < |selected.value| ==> selected.value[k] < |lines|
  {
  }

  lemma OneOperation(lines: seq<string>, e: Edit, edits: seq<LineEdit>)
    requires LineOp(e.operation) && LineEditsOf(lines, e) == Ok(edits)
    ensures BatchLineEdits(lines, [e], 0, []) == Ok(edits)
  {
    assert [] + edits == edits;
    assert BatchLineEdits(lines, [e], 0, []) == BatchLineEdits(lines, [e], 1, [] + edits);
  }

  /** A lone operation: its line edits, unless they clash with each other. */
  lemma LoneOperation(lines: seq<string>, e: Edit, edits: seq<LineEdit>, r: Result<string, EditError>)
    requires LineList(lines) && lines != [] && LineOp(e.operation) && LineEditsOf(lines, e) == Ok(edits)
    requires LinesCompatible(edits) && Applied(Unlines(lines), [e], r)
    ensures Fits(lines, edits) && r == Ok(Unlines(EditedLines(lines, edits, 0)))
  {
    LineBatch(lines, [e], r);
    OneOperation(lines, e, edits);
  }

  /** A lone anchored operation: applied at each selected line, at no other, and never refused. */
  lemma AnchoredOperation(lines: seq<string>, e: Edit, at: seq<nat>, block: seq<string>, r: Result<string, EditError>)
    requires LineList(lines) && lines != [] && AnchorOp(e.operation) && ValidateFields(e).None?
    requires SelectMatches(AnchoredAt(lines, Normalize(e.anchor), |lines|), e.index, e.allMatches) == Ok(at)
    requires AnchorBlock(e) == Some(block) && Applied(Unlines(lines), [e], r)
    ensures r == Ok(Unlines(EachLine(lines, e.operation, at, block, 0)))
  {
    var op, edits := e.operation, AnchorEdits(e.operation, at, block);
    SelectedAscend(lines, e);
    AnchorsCompatible(op, at, block);
    LoneOperation(lines, e, edits, r);
    EachLineResult(lines, op, at, block);
  }

  lemma EachLineResult(lines: seq<string>, op: Operation, at: seq<nat>, block: seq<string>)
    requires AnchorOp(op) && Ascends(at) && Fits(lines, AnchorEdits(op, at, block))
    requires forall k :: 0 <= k < |at| ==> at[k] < |lines|
    ensures EditedLines(lines, AnchorEdits(op, at, block), 0) == EachLine(lines, op, at, block, 0)
  {
    EditsEachLine(lines, op, at, block, 0);
  }

  lemma InsertEdits(lines: seq<string>, e: Edit)
    requires e.operation.Insert? && ValidateFields(e).None?
    requires e.line <= |lines| + 1 && BlockLines(e.newText.value) != []
    ensures LineEditsOf(lines, e) == Ok([InsertLines(e.line - 1, BlockLines(e.newText.value))])
  {
  }

  lemma LoneInsert(lines: seq<string>, e: Edit, at: nat, block: seq<string>, r: Result<string, EditError>)
    requires LineList(lines) && lines != [] && e.operation.Insert?
             && LineEditsOf(lines, e) == Ok([InsertLines(at, block)])
    requires Applied(Unlines(lines), [e], r)
    ensures at <= |lines| && r == Ok(Unlines(lines[..at] + block + lines[at..]))
  {
    LoneOperation(lines, e, [InsertLines(at, block)], r);
    InsertedFromStart(lines, at, block);
  }

  /** A lone insert: its lines, in front of the line it names. */
  lemma InsertOperation(lines: seq<string>, e: Edit, block: seq<string>, r: Result<string, EditError>)
    requires LineList(lines) && lines != [] && e.operation.Insert? && ValidateFields(e).None?
    requires e.line <= |lines| + 1 && block == BlockLines(e.newText.value) != [] && Applied(Unlines(lines), [e], r)
    ensures r == Ok(Unlines(lines[..e.line - 1] + block + lines[e.line - 1..]))
  {
    InsertEdits(lines, e);
    LoneInsert(lines, e, e.line - 1, block, r);
  }

  lemma InsertedFromStart(lines: seq<string>, at: nat, block: seq<string>)
    requires Fits(lines, [InsertLines(at, block)])
    ensures at <= |lines| && EditedLines(lines, [InsertLines(at, block)], 0) == lines[..at] + block + lines[at..]
  {
    assert FitsOne(lines, [InsertLines(at, block)][0]);
    InsertedOnce(lines, at, block, 0);
    assert lines[0..at] == lines[..at];
  }

  lemma DeleteEdits(lines: seq<string>, e: Edit, last: nat)
    requires e.operation.Delete? && ValidateFields(e).None?
    requires last == (if e.endLine == 0 then e.line else e.endLine) && e.line <= last <= |lines|
    ensures LineEditsOf(lines, e) == Ok([RemoveLines(e.line - 1, last)])
  {
  }

  lemma RemovedFromStart(lines: seq<string>, from: nat, to: nat)
    requires Fits(lines, [RemoveLines(from, to)])
    ensures from < to <= |lines| && EditedLines(lines, [RemoveLines(from, to)], 0) == lines[..from] + lines[to..]
  {
    assert FitsOne(lines, [RemoveLines(from, to)][0]);
    RemovedOnce(lines, from, to, 0);
    assert lines[0..from] == lines[..from];
  }

  /** A lone delete: every line but those it names. */
  lemma DeleteOperation(lines: seq<string>, e: Edit, last: nat, r: Result<string, EditError>)
    requires LineList(lines) && lines != [] && e.operation.Delete? && ValidateFields(e).None?
    requires last == (if e.endLine == 0 then e.line else e.endLine) && e.line <= last <= |lines|
    requires Applied(Unlines(lines), [e], r)
    ensures r == Ok(Unlines(lines[..e.line - 1] + lines[last..]))
  {
    hide Applied, ValidateFields, LineList, Unlines;
    DeleteEdits(lines, e, last);
    LoneOperation(lines, e, [RemoveLines(e.line - 1, last)], r);
    RemovedFromStart(lines, e.line - 1, last);
  }
}
