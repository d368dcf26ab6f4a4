/** The edit operations: field checks, resolution to ranges of the original text, and
    ApplyEdits over a whole batch. */
module EditOps {
  import opened Options
  import opened EditText
  import opened EditBatch

  /** The operation name after trimming and lower-casing. */
  datatype Operation =
    | Missing | Unsupported
    | ReplaceText | Replace | Insert | Delete
    | InsertBefore | InsertAfter | ReplaceLine | DeleteLine
    | Overwrite

  datatype Edit = Edit(operation: Operation, line: int, endLine: int, newText: Option<string>,
                       oldText: string, anchor: string, index: Option<int>, allMatches: bool)

  datatype FieldError =
    | OperationRequired | UnsupportedOperation
    | IndexAndAll | LineFieldsUnused | MatchFieldsUnused
    | OldTextRequired | NewTextRequired | NewTextUnused | AnchorRequired | AnchorNotOneLine
    | OldTextNotAnchor | AnchorNotOldText | OtherFieldsUnused
    | LineTooSmall | EndBeforeLine | NoLines | LineRange | InsertPosition
    | BlockRequired | NotFound | IndexRange | Ambiguous
    | OverwriteNotAlone

  datatype EditError = EditsRequired | At(edit: nat, error: FieldError) | EditsOverlap

  // ---- field checks -----------------------------------------------------------------

  /** unicode.IsSpace */
  predicate IsSpace(c: char) {
    || c == ' ' || '\t' <= c <= '\r' || c == '\U{85}' || c == '\U{A0}' || c == '\U{1680}'
    || '\U{2000}' <= c <= '\U{200A}' || c == '\U{2028}' || c == '\U{2029}' || c == '\U{202F}' || c == '\U{205F}'
    || c == '\U{3000}'
  }

  predicate Blank(s: string) { forall c <- s :: IsSpace(c) }

  predicate UsesLines(e: Edit) { e.line != 0 || e.endLine != 0 }

  predicate UsesMatches(e: Edit) { e.index.Some? || e.allMatches }

  function ValidateFields(e: Edit): Option<FieldError> {
    if e.operation.Missing? then Some(OperationRequired)
    else if e.index.Some? && e.allMatches then Some(IndexAndAll)
    else match e.operation
      case ReplaceText =>
        if Normalize(e.oldText) == "" then Some(OldTextRequired)
        else if e.newText.None? then Some(NewTextRequired)
        else if !Blank(e.anchor) then Some(OldTextNotAnchor)
        else if UsesLines(e) then Some(LineFieldsUnused) else None
      case Replace =>
        if e.line < 1 then Some(LineTooSmall)
        else if e.newText.None? then Some(NewTextRequired)
        else if e.oldText != "" || e.anchor != "" then Some(OtherFieldsUnused)
        else if UsesMatches(e) then Some(MatchFieldsUnused) else None
      case Insert =>
        if e.line < 1 then Some(LineTooSmall)
        else if e.endLine != 0 || e.oldText != "" || e.anchor != "" then Some(OtherFieldsUnused)
        else if e.newText.None? then Some(NewTextRequired)
        else if UsesMatches(e) then Some(MatchFieldsUnused) else None
      case Delete =>
        if e.line < 1 then Some(LineTooSmall)
        else if e.newText.Some? || e.oldText != "" || e.anchor != "" then Some(OtherFieldsUnused)
        else if UsesMatches(e) then Some(MatchFieldsUnused) else None
      case Overwrite =>
        if e.newText.None? then Some(NewTextRequired)
        else if UsesLines(e) || e.oldText != "" || e.anchor != "" || UsesMatches(e)
        then Some(OtherFieldsUnused) else None
      case Missing | Unsupported => Some(UnsupportedOperation)
      case InsertBefore | InsertAfter | ReplaceLine | DeleteLine =>
        var anchor := Normalize(e.anchor);
        if anchor == "" then Some(AnchorRequired)
        else if '\n' in anchor then Some(AnchorNotOneLine)
        else if e.oldText != "" then Some(AnchorNotOldText)
        else if UsesLines(e) then Some(LineFieldsUnused)
        else if e.operation.DeleteLine? then (if e.newText.Some? then Some(NewTextUnused) else None)
        else if e.newText.None? then Some(NewTextRequired) else None
  }

  // ---- matches ---------------------------------------------------------------------------

  datatype Match = Match(start: nat, end: nat)

  /** strings.Index from `from` on. */
  function IndexFrom(text: string, from: nat, needle: string): (i: Option<nat>)
    requires from <= |text| && needle != ""
    ensures i.Some? ==> from <= i.value && StartsAt(text, i.value, needle)
    ensures forall k :: from <= k < (if i.Some? then i.value else |text|) ==> !StartsAt(text, k, needle)
    decreases |text| - from
  {
    if from == |text| then None
    else if StartsAt(text, from, needle) then Some(from)
    else IndexFrom(text, from + 1, needle)
  }

  function MatchesFrom(text: string, offset: nat, needle: string): seq<Match>
    requires offset <= |text| && needle != ""
    decreases |text| - offset
  {
    match IndexFrom(text, offset, needle)
    case None => []
    case Some(i) => [Match(i, i + |needle|)] + MatchesFrom(text, i + |needle|, needle)
  }

  /** The needle is normalised first; an empty one is found nowhere. */
  method FindContentMatches(text: string, needle: string) returns (locations: seq<Match>)
    ensures locations == if Normalize(needle) == "" then [] else MatchesFrom(text, 0, Normalize(needle))
  {
    hide MatchesFrom, IndexFrom, Normalize;
    var normalized := Normalize(needle);
    if normalized == "" { return []; }
    locations := [];
    var offset := 0;
    ghost var whole := MatchesFrom(text, 0, normalized);
    while true
      invariant offset <= |text|
      invariant whole == locations + MatchesFrom(text, offset, normalized)
      decreases |text| - offset
    {
      var idx := IndexFrom(text, offset, normalized);
      if idx.None? {
        MatchesEnd(text, offset, normalized);
        break;
      }
      MatchesMore(text, offset, normalized, idx.value, locations);
      locations := locations + [Match(idx.value, idx.value + |normalized|)];
      offset := idx.value + |normalized|;
    }
  }

  lemma MatchesEnd(text: string, offset: nat, needle: string)
    requires offset <= |text| && needle != "" && IndexFrom(text, offset, needle) == None
    ensures MatchesFrom(text, offset, needle) == []
  {
  }

  lemma MatchesMore(text: string, offset: nat, needle: string, i: nat, locations: seq<Match>)
    requires offset <= |text| && needle != "" && IndexFrom(text, offset, needle) == Some(i)
    ensures var m := Match(i, i + |needle|);
            locations + MatchesFrom(text, offset, needle) == (locations + [m]) + MatchesFrom(text, i + |needle|, needle)
  {
    hide IndexFrom;
    var m, rest := Match(i, i + |needle|), MatchesFrom(text, i + |needle|, needle);
    assert MatchesFrom(text, offset, needle) == [m] + rest;
    assert locations + ([m] + rest) == (locations + [m]) + rest;
  }

  /** strings.TrimLeft of blanks and tabs. */
  function TrimIndent(s: string): string
  {
    if s != "" && (s[0] == ' ' || s[0] == '\t') then TrimIndent(s[1..]) else s
  }

  /** Trimming takes away the blanks and tabs in front, all of them and nothing else. */
  lemma {:induction false} TrimIndentIs(s: string)
    ensures var r := TrimIndent(s);
            && |r| <= |s| && r == s[|s| - |r|..] && (r != "" ==> r[0] != ' ' && r[0] != '\t')
            && forall i :: 0 <= i < |s| - |r| ==> s[i] == ' ' || s[i] == '\t'
  {
    if s != "" { TrimIndentIs(s[1..]); }
  }

  predicate Anchored(line: string, anchor: string) { StartsAt(TrimIndent(line), 0, anchor) }

  /** The indices below `n` of the lines that the anchor matches. */
  function AnchoredLines(lines: seq<SourceLine>, anchor: string, n: nat): (r: seq<nat>)
    requires n <= |lines|
    ensures forall i :: i in r ==> i < n && Anchored(lines[i].text, anchor)
  {
    if n == 0 then []
    else AnchoredLines(lines, anchor, n - 1) + (if Anchored(lines[n - 1].text, anchor) then [n - 1] else [])
  }

  method FindLineMatches(lines: seq<SourceLine>, anchor: string) returns (locations: seq<nat>)
    ensures locations == AnchoredLines(lines, anchor, |lines|)
  {
    locations := [];
    for i := 0 to |lines|
      invariant locations == AnchoredLines(lines, anchor, i)
    {
      if Anchored(lines[i].text, anchor) { locations := locations + [i]; }
    }
  }

  function SelectMatches<T>(locations: seq<T>, index: Option<int>, all: bool): (r: Result<seq<T>, FieldError>)
    ensures r.Ok? ==> r.value != [] && forall k :: 0 <= k < |r.value| ==> r.value[k] in locations
    ensures r.Ok? && all ==> r.value == locations && index.None?
    ensures r.Ok? && !all && index.None? ==> r.value == locations && |locations| == 1
    ensures r.Ok? && !all && index.Some? ==> 1 <= index.value <= |locations| && r.value == [locations[index.value - 1]]
    ensures r == Err(IndexAndAll) <==> locations != [] && index.Some? && all
    ensures r == Err(IndexRange) <==> locations != [] && index.Some? && !all && !(1 <= index.value <= |locations|)
    ensures r == Err(NotFound) <==> locations == []
    ensures r == Err(Ambiguous) <==> |locations| > 1 && index.None? && !all
  {
    var n := |locations|;
    if n == 0 then Err(NotFound)
    else if index.Some? && all then Err(IndexAndAll)
    else if all then Ok(locations)
    else if index.Some? then
      (if index.value < 1 || index.value > n then Err(IndexRange) else Ok([locations[index.value - 1]]))
    else if n > 1 then Err(Ambiguous)
    else Ok(locations)
  }

  // ---- line positions --------------------------------------------------------------------

  function ValidateLineRange(total: nat, start: int, end: int): Option<FieldError> {
    if start <= 0 then Some(LineTooSmall)
    else if end < start then Some(EndBeforeLine)
    else if total == 0 then Some(NoLines)
    else if start > total || end > total then Some(LineRange)
    else None
  }

  /** normalizeLineBlock: the new text as whole lines, without a final newline. */
  function LineBlock(text: string): Result<string, FieldError> {
    var lines := SplitLines(EnsureTrailingNewline(text));
    if lines == [] then Err(BlockRequired) else Ok(Join(lines))
  }

  function LineInsert(text: string, lines: seq<SourceLine>, line: int, block: string)
    : Result<(nat, string), FieldError>
  {
    var total := |lines|;
    if line < 1 || line > total + 1 then Err(InsertPosition)
    else if total == 0 then Ok((0, block))
    else if line <= total then Ok((lines[line - 1].start, block + "\n"))
    else if EndsInNewline(text) then Ok((|text|, block + "\n"))
    else Ok((|text|, "\n" + block))
  }

  /** The range of some whole lines; at an unterminated end it takes the newline before. */
  function LineRangeOf(lines: seq<SourceLine>, startLine: nat, endLine: nat): (nat, nat)
    requires 1 <= startLine <= endLine <= |lines|
  {
    var last := lines[endLine - 1];
    var start := if endLine == |lines| && last.fullEnd == last.end && startLine > 1 then lines[startLine - 2].end
                 else lines[startLine - 1].start;
    (start, last.fullEnd)
  }

  // ---- resolving one edit ----------------------------------------------------------------

  function OneRange(lines: seq<SourceLine>, e: Edit, text: string): Result<seq<Resolved>, FieldError> {
    var endLine := if e.endLine == 0 then e.line else e.endLine;
    match ValidateLineRange(|lines|, e.line, endLine)
    case Some(error) => Err(error)
    case None => var (start, end) := LineRangeOf(lines, e.line, endLine); Ok([Resolved(start, end, text, 0)])
  }

  /** What an anchored operation does at one matching line. */
  function AtLine(lines: seq<SourceLine>, op: Operation, i: nat, block: string): Resolved
    requires i < |lines|
  {
    var line := lines[i];
    match op
    case InsertBefore => Resolved(line.start, line.start, block + "\n", 0)
    case InsertAfter =>
      if line.fullEnd > line.end then Resolved(line.fullEnd, line.fullEnd, block + "\n", 0)
      else Resolved(line.end, line.end, "\n" + block, 0)
    case ReplaceLine => Resolved(line.start, line.end, block, 0)
    case _ => var (start, end) := LineRangeOf(lines, i + 1, i + 1); Resolved(start, end, "", 0)
  }

  function AtLines(lines: seq<SourceLine>, op: Operation, locations: seq<nat>, block: string): (r: seq<Resolved>)
    requires forall k :: 0 <= k < |locations| ==> locations[k] < |lines|
    ensures |r| == |locations| && forall k :: 0 <= k < |r| ==> r[k] == AtLine(lines, op, locations[k], block)
  {
    seq(|locations|, k requires 0 <= k < |locations| => AtLine(lines, op, locations[k], block))
  }

  function AtMatches(locations: seq<Match>, text: string): seq<Resolved> {
    seq(|locations|, k requires 0 <= k < |locations| => Resolved(locations[k].start, locations[k].end, text, 0))
  }

  /** The lines an anchored operation puts in; only delete_line is valid without new text. */
  function BlockFor(e: Edit): Result<string, FieldError> {
    if e.newText.None? then Ok("") else LineBlock(e.newText.value)
  }

  function TextResolution(text: string, e: Edit): Result<seq<Resolved>, FieldError>
    requires Normalize(e.oldText) != "" && e.newText.Some?
  {
    match SelectMatches(MatchesFrom(text, 0, Normalize(e.oldText)), e.index, e.allMatches)
    case Err(error) => Err(error)
    case Ok(locations) => Ok(AtMatches(locations, Normalize(e.newText.value)))
  }

  function AnchorResolution(lines: seq<SourceLine>, e: Edit): Result<seq<Resolved>, FieldError> {
    match SelectMatches(AnchoredLines(lines, Normalize(e.anchor), |lines|), e.index, e.allMatches)
    case Err(error) => Err(error)
    case Ok(locations) =>
      match BlockFor(e)
      case Err(error) => Err(error)
      case Ok(block) => Ok(AtLines(lines, e.operation, locations, block))
  }

  function Resolution(text: string, lines: seq<SourceLine>, e: Edit): Result<seq<Resolved>, FieldError> {
    if ValidateFields(e).Some? then Err(ValidateFields(e).value)
    else match e.operation
      case ReplaceText => TextResolution(text, e)
      case Replace => OneRange(lines, e, Normalize(e.newText.value))
      case Insert =>
        (match LineBlock(e.newText.value)
         case Err(error) => Err(error)
         case Ok(block) =>
           match LineInsert(text, lines, e.line, block)
           case Err(error) => Err(error)
           case Ok((start, inserted)) => Ok([Resolved(start, start, inserted, 0)]))
      case Delete => OneRange(lines, e, "")
      case Overwrite | Missing | Unsupported => Err(UnsupportedOperation)
      case InsertBefore | InsertAfter | ReplaceLine | DeleteLine => AnchorResolution(lines, e)
  }

  method ReplaceAtMatches(locations: seq<Match>, text: string) returns (out: seq<Resolved>)
    ensures out == AtMatches(locations, text)
  {
    out := [];
    for k := 0 to |locations|
      invariant |out| == k
      invariant forall i :: 0 <= i < k ==> out[i] == Resolved(locations[i].start, locations[i].end, text, 0)
    {
      out := out + [Resolved(locations[k].start, locations[k].end, text, 0)];
    }
  }

  method ApplyAtLines(lines: seq<SourceLine>, op: Operation, locations: seq<nat>, block: string)
    returns (out: seq<Resolved>)
    requires forall k :: 0 <= k < |locations| ==> locations[k] < |lines|
    ensures out == AtLines(lines, op, locations, block)
  {
    out := [];
    for k := 0 to |locations|
      invariant |out| == k && forall i :: 0 <= i < k ==> out[i] == AtLines(lines, op, locations, block)[i]
    {
      out := out + [AtLine(lines, op, locations[k], block)];
    }
  }

  method ResolveEdit(text: string, lines: seq<SourceLine>, e: Edit) returns (r: Result<seq<Resolved>, FieldError>)
    ensures r == Resolution(text, lines, e)
  {
    var invalid := ValidateFields(e);
    if invalid.Some? { return Err(invalid.value); }
    match e.operation {
      case ReplaceText =>
        var found := FindContentMatches(text, e.oldText);
        var selected := SelectMatches(found, e.index, e.allMatches);
        if selected.Err? { return Err(selected.error); }
        var out := ReplaceAtMatches(selected.value, Normalize(e.newText.value));
        return Ok(out);
      case Replace => return OneRange(lines, e, Normalize(e.newText.value));
      case Insert =>
        var block := LineBlock(e.newText.value);
        if block.Err? { return Err(block.error); }
        var at := LineInsert(text, lines, e.line, block.value);
        if at.Err? { return Err(at.error); }
        return Ok([Resolved(at.value.0, at.value.0, at.value.1, 0)]);
      case Delete => return OneRange(lines, e, "");
      case Overwrite | Missing | Unsupported => return Err(UnsupportedOperation);
      case InsertBefore | InsertAfter | ReplaceLine | DeleteLine =>
        var found := FindLineMatches(lines, Normalize(e.anchor));
        var selected := SelectMatches(found, e.index, e.allMatches);
        if selected.Err? { return Err(selected.error); }
        var block := BlockFor(e);
        if block.Err? { return Err(block.error); }
        var out := ApplyAtLines(lines, e.operation, selected.value, block.value);
        return Ok(out);
    }
  }

  // ---- the batch --------------------------------------------------------------------------

  function Number(items: seq<Resolved>, from: nat): (r: seq<Resolved>)
    ensures |r| == |items| && forall k :: 0 <= k < |r| ==> r[k] == items[k].(order := from + k)
  {
    seq(|items|, k requires 0 <= k < |items| => items[k].(order := from + k))
  }

  /** All edits of a batch from number `i` on, resolved after `done`. */
  function Resolutions(text: string, lines: seq<SourceLine>, edits: seq<Edit>, i: nat,
                       done: seq<Resolved>): Result<seq<Resolved>, EditError>
    requires i <= |edits|
    decreases |edits| - i
  {
    if i == |edits| then Ok(done)
    else if edits[i].operation.Overwrite? then Err(At(i, OverwriteNotAlone))
    else match Resolution(text, lines, edits[i])
         case Err(error) => Err(At(i, error))
         case Ok(items) => Resolutions(text, lines, edits, i + 1, done + Number(items, |done|))
  }

  /** What a batch does to a text: overwrite it, fail, or substitute all its edits at once. */
  ghost predicate Applied(text: string, edits: seq<Edit>, r: Result<string, EditError>) {
    var t := Normalize(text);
    if edits == [] then r == Err(EditsRequired)
    else if edits[0].operation.Overwrite? then
      if |edits| != 1 then r == Err(At(0, OverwriteNotAlone))
      else match ValidateFields(edits[0])
           case Some(error) => r == Err(At(0, error))
           case None => r == Ok(Normalize(edits[0].newText.value))
    else match Resolutions(t, LinesFrom(t, 0), edits, 0, [])
         case Err(error) => r == Err(error)
         case Ok(resolved) =>
           && InText(t, resolved)
           && r == if Compatible(resolved) then Ok(Substitute(t, resolved)) else Err(EditsOverlap)
  }

  method ApplyEdits(text: string, edits: seq<Edit>) returns (r: Result<string, EditError>)
    ensures Applied(text, edits, r)
  {
    if |edits| == 0 { return Err(EditsRequired); }
    var t := Normalize(text);
    if edits[0].operation.Overwrite? {
      if |edits| != 1 { return Err(At(0, OverwriteNotAlone)); }
      var invalid := ValidateFields(edits[0]);
      if invalid.Some? { return Err(At(0, invalid.value)); }
      return Ok(Normalize(edits[0].newText.value));
    }
    var lines := ScanLines(t);
    ScanTiles(t);
    var resolved: seq<Resolved> := [];
    for i := 0 to |edits|
      invariant InText(t, resolved)
      invariant Resolutions(t, lines, edits, 0, []) == Resolutions(t, lines, edits, i, resolved)
    {
      if edits[i].operation.Overwrite? { return Err(At(i, OverwriteNotAlone)); }
      var items := ResolveEdit(t, lines, edits[i]);
      if items.Err? { return Err(At(i, items.error)); }
      ResolutionInText(t, lines, edits[i]);
      NumberedInText(t, resolved, items.value);
      resolved := resolved + Number(items.value, |resolved|);
    }
    var verdict := Validate(resolved);
    if verdict.Overlap? { return Err(EditsOverlap); }
    var sorted := Sort(resolved);
    var out := Splice(t, resolved, sorted);
    r := Ok(out);
  }

  predicate InBounds(text: string, e: Resolved) { e.start <= e.end <= |text| }

  ghost predicate AllInText(text: string, r: Result<seq<Resolved>, FieldError>) {
    r.Ok? ==> forall k :: 0 <= k < |r.value| ==> InBounds(text, r.value[k])
  }

  lemma TextInText(text: string, e: Edit)
    requires Normalize(e.oldText) != "" && e.newText.Some?
    ensures AllInText(text, TextResolution(text, e))
  {
    MatchesInText(text, 0, Normalize(e.oldText));
  }

  lemma AnchorInText(text: string, lines: seq<SourceLine>, e: Edit)
    requires Tiles(text, lines, |text|)
    ensures AllInText(text, AnchorResolution(lines, e))
  {
    var selected := SelectMatches(AnchoredLines(lines, Normalize(e.anchor), |lines|), e.index, e.allMatches);
    if selected.Ok? && BlockFor(e).Ok? {
      forall k | 0 <= k < |selected.value|
        ensures selected.value[k] < |lines|
                && InBounds(text, AtLine(lines, e.operation, selected.value[k], BlockFor(e).value))
      {
        AtLineInText(text, lines, e.operation, selected.value[k], BlockFor(e).value);
      }
    }
  }

  lemma AtLineInText(text: string, lines: seq<SourceLine>, op: Operation, i: nat, block: string)
    requires Tiles(text, lines, |text|) && i < |lines|
    ensures InBounds(text, AtLine(lines, op, i, block))
  {
    RangesInText(text, lines);
    assert LineRangeOf(lines, i + 1, i + 1).0 <= LineRangeOf(lines, i + 1, i + 1).1 <= |text|;
  }

  /** Every resolved range lies in the text, so that splicing never slices out of bounds. */
  lemma ResolutionInText(text: string, lines: seq<SourceLine>, e: Edit)
    requires Tiles(text, lines, |text|)
    ensures AllInText(text, Resolution(text, lines, e))
  {
    if ValidateFields(e).None? {
      match e.operation {
        case ReplaceText => TextInText(text, e);
        case Replace | Delete | Insert => RangesInText(text, lines);
        case InsertBefore | InsertAfter | ReplaceLine | DeleteLine => AnchorInText(text, lines, e);
        case Overwrite | Missing | Unsupported =>
      }
    }
  }

  lemma RangesInText(text: string, lines: seq<SourceLine>)
    requires Tiles(text, lines, |text|)
    ensures forall i :: 0 <= i < |lines| ==> lines[i].start <= lines[i].end <= lines[i].fullEnd <= |text|
    ensures forall s, t :: 1 <= s <= t <= |lines| ==> LineRangeOf(lines, s, t).0 <= LineRangeOf(lines, s, t).1 <= |text|
  {
    forall i | 0 <= i < |lines| ensures lines[i].start <= lines[i].end <= lines[i].fullEnd <= |text| {
      assert LineAt(text, lines[i]);
    }
    forall s, t | 1 <= s <= t <= |lines| ensures LineRangeOf(lines, s, t).0 <= LineRangeOf(lines, s, t).1 <= |text| {
      LinesAscend(text, lines, s - 1, t - 1);
      if s > 1 { LinesAscend(text, lines, s - 2, t - 1); }
    }
  }

  lemma {:induction false} LinesAscend(text: string, lines: seq<SourceLine>, i: nat, j: nat)
    requires Tiles(text, lines, |text|) && i <= j < |lines|
    ensures lines[i].start <= lines[i].end <= lines[i].fullEnd <= lines[j].fullEnd
    ensures i < j ==> lines[i].fullEnd <= lines[j].start
    decreases j - i
  {
    assert LineAt(text, lines[i]) && LineAt(text, lines[j]);
    if i < j {
      LinesAscend(text, lines, i, j - 1);
      var k := j - 1;
      assert lines[j].start == lines[k].fullEnd;
    }
  }

  lemma {:induction false} MatchesInText(text: string, offset: nat, needle: string)
    requires offset <= |text| && needle != ""
    ensures forall m :: m in MatchesFrom(text, offset, needle) ==>
              offset <= m.start && m.end == m.start + |needle| && StartsAt(text, m.start, needle)
    decreases |text| - offset
  {
    var i := IndexFrom(text, offset, needle);
    if i.Some? { MatchesInText(text, i.value + |needle|, needle); }
  }

  lemma NumberedInText(text: string, done: seq<Resolved>, items: seq<Resolved>)
    requires InText(text, done) && forall k :: 0 <= k < |items| ==> items[k].start <= items[k].end <= |text|
    ensures InText(text, done + Number(items, |done|))
    ensures DistinctOrders(done + Number(items, |done|))
  {
  }
}
