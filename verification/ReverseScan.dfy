/** The log reader's backwards scan over blocks, against splitting the content into lines
    and walking them from the last to the first. */
module ReverseScan {
  import opened Basics
  import opened Options
  import opened EditText

  /** What the visitor answers to a line: go on, stop, or an error. */
  datatype Answer = Continue | Stop | Fail(error: string)

  datatype IoError = NoError | Eof | Other(error: string)

  datatype ScanError = ContextDone | VisitFailed(error: string) | ReadFailed(io: IoError) | UnexpectedEof | LineTooLong

  /** How the outside behaves: the visitor's answers, one a line, and Continue from then on;
      the checks that find the context ended; the reads that get no more than so many bytes,
      or an error with them. */
  datatype World = World(answers: seq<Answer>, cancelled: set<nat>, faults: map<nat, (nat, IoError)>)

  function Reply(answers: seq<Answer>, k: nat): Answer { if k < |answers| then answers[k] else Continue }

  /** The lines visited, and the error that was returned, if any. */
  datatype Outcome = Outcome(visited: seq<string>, error: Option<ScanError>)

  // ---- the simple definition --------------------------------------------------------------

  /** strings.TrimSuffix for one carriage return. */
  function TrimCr(s: string): (r: string)
    ensures s == r + "\r" || (s == r && (s == "" || s[|s| - 1] != '\r'))
  {
    if s != "" && s[|s| - 1] == '\r' then s[..|s| - 1] else s
  }

  /** The physical lines of some content: a final newline ends the last line. */
  function PhysicalLines(content: string): seq<string> {
    if content == "" then []
    else Split(if EndsInNewline(content) then content[..|content| - 1] else content)
  }

  /** Visiting lines from the last to the first. */
  function Walk(lines: seq<string>, limit: nat, answers: seq<Answer>, visited: seq<string>): Outcome {
    if lines == [] then Outcome(visited, None)
    else
      var raw := TrimCr(lines[|lines| - 1]);
      if |raw| > limit then Outcome(visited, Some(LineTooLong))
      else
        match Reply(answers, |visited|)
        case Stop => Outcome(visited + [raw], None)
        case Fail(error) => Outcome(visited + [raw], Some(VisitFailed(error)))
        case Continue => Walk(lines[..|lines| - 1], limit, answers, visited + [raw])
  }

  lemma {:induction false} WalkExtends(lines: seq<string>, limit: nat, answers: seq<Answer>, visited: seq<string>)
    ensures visited <= Walk(lines, limit, answers, visited).visited
  {
    if lines != [] { WalkExtends(lines[..|lines| - 1], limit, answers, visited + [TrimCr(lines[|lines| - 1])]); }
  }

  function Expected(content: string, limit: nat, answers: seq<Answer>): Outcome {
    Walk(PhysicalLines(content), limit, answers, [])
  }

  // ---- where the scan stands -----------------------------------------------------------------

  function Reversed(s: string): string {
    if s == "" then "" else [s[|s| - 1]] + Reversed(s[..|s| - 1])
  }

  /** The line that is handed on, for a line gathered backwards. */
  function Raw(line: string): string { TrimCr(Reversed(line)) }

  /** The bytes that count against the limit, of a line gathered backwards. */
  function ContentBytes(line: string): nat {
    if line != "" && line[0] == '\r' then |line| - 1 else |line|
  }

  /** The lines of the content up to `end`. */
  function LinesTo(content: string, end: nat): (r: seq<string>)
    requires end <= |content|
    ensures r != []
  {
    if end == 0 then [""]
    else
      var before := LinesTo(content, end - 1);
      if content[end - 1] == '\n' then before + [""]
      else before[..|before| - 1] + [before[|before| - 1] + [content[end - 1]]]
  }

  /** What remains when the lines up to `end` are still to be walked. */
  function Rest(content: string, end: nat, limit: nat, answers: seq<Answer>, visited: seq<string>): Outcome
    requires end <= |content|
  {
    Walk(LinesTo(content, end), limit, answers, visited)
  }

  /** Bytes from `pos` on have been seen; `line` holds, backwards, the part of the current
      line seen so far, and what remains is to walk the lines up to its end. */
  ghost predicate Seen(content: string, limit: nat, answers: seq<Answer>, expected: Outcome, pos: nat, line: string,
                       visited: seq<string>)
  {
    && pos + |line| <= |content|
    && line == Gathered(content, pos, |line|) && Breaks(content, pos, |line|) == 0 && ContentBytes(line) <= limit
    && expected == Rest(content, pos + |line|, limit, answers, visited)
  }

  /** `n` bytes from `pos` on, gathered from the last to the first. */
  function Gathered(content: string, pos: nat, n: nat): (r: string)
    requires pos + n <= |content|
    ensures |r| == n
    decreases n
  {
    if n == 0 then "" else Gathered(content, pos + 1, n - 1) + [content[pos]]
  }

  /** How many of the `n` bytes from `pos` on are newlines. */
  function Breaks(content: string, pos: nat, n: nat): nat
    requires pos + n <= |content|
    decreases n
  {
    if n == 0 then 0 else (if content[pos] == '\n' then 1 else 0) + Breaks(content, pos + 1, n - 1)
  }

  function Extended(lines: seq<string>, c: char): seq<string>
    requires lines != []
  {
    if c == '\n' then lines + [""] else lines[..|lines| - 1] + [lines[|lines| - 1] + [c]]
  }

  lemma ConsExtended(c: char, lines: seq<string>, d: char)
    requires lines != []
    ensures [[c] + Extended(lines, d)[0]] + Extended(lines, d)[1..] == Extended([[c] + lines[0]] + lines[1..], d)
  {
    var more := [[c] + lines[0]] + lines[1..];
    if d == '\n' {
      assert (lines + [""])[1..] == lines[1..] + [""];
    } else if |lines| == 1 {
      assert [c] + (lines[0] + [d]) == [c] + lines[0] + [d];
    } else {
      assert more[..|more| - 1] == [[c] + lines[0]] + lines[1..|lines| - 1];
    }
  }

  lemma EmptyExtended(lines: seq<string>, d: char)
    requires lines != []
    ensures [""] + Extended(lines, d) == Extended([""] + lines, d)
  {
    assert ([""] + lines)[..|lines|] == [""] + lines[..|lines| - 1];
  }

  lemma {:induction false} SplitSnoc(s: string, d: char)
    ensures Split(s + [d]) == Extended(Split(s), d)
  {
    if s == "" {
      assert s + [d] == [d] + "";
      SplitCons(d, "");
    } else {
      SplitSnoc(s[1..], d);
      SplitCons(s[0], s[1..] + [d]);
      SplitCons(s[0], s[1..]);
      assert s + [d] == [s[0]] + (s[1..] + [d]) && s == [s[0]] + s[1..];
      ConsExtended(s[0], Split(s[1..]), d);
      EmptyExtended(Split(s[1..]), d);
    }
  }

  /** Gathering lines byte by byte is splitting. */
  lemma {:induction false} LinesToSplit(content: string, end: nat)
    requires end <= |content|
    ensures LinesTo(content, end) == Split(content[..end])
  {
    if end > 0 {
      LinesToSplit(content, end - 1);
      SplitSnoc(content[..end - 1], content[end - 1]);
      assert content[..end] == content[..end - 1] + [content[end - 1]];
    } else {
      assert content[..0] == "";
    }
  }

  lemma SeenStart(content: string, limit: nat, answers: seq<Answer>)
    requires content != ""
    ensures var end := if EndsInNewline(content) then |content| - 1 else |content|;
            Seen(content, limit, answers, Expected(content, limit, answers), end, "", [])
  {
    var end := if EndsInNewline(content) then |content| - 1 else |content|;
    LinesToSplit(content, end);
    assert content[..|content|] == content;
  }

  lemma OneMoreByte(lines: seq<string>, last: string, part: string, c: char)
    ensures var before := lines + [last + part];
            before[..|before| - 1] + [before[|before| - 1] + [c]] == lines + [last + (part + [c])]
  {
    assert (last + part) + [c] == last + (part + [c]);
  }

  /** Bytes that are not newlines extend the last line. */
  lemma {:induction false} LastLine(content: string, pos: nat, end: nat)
    requires pos <= end <= |content| && '\n' !in content[pos..end]
    ensures var before := LinesTo(content, pos);
            LinesTo(content, end) == before[..|before| - 1] + [before[|before| - 1] + content[pos..end]]
    decreases end - pos
  {
    if pos < end {
      assert content[end - 1] == content[pos..end][end - 1 - pos];
      assert content[pos..end] == content[pos..end - 1] + [content[end - 1]];
      LastLine(content, pos, end - 1);
      var before := LinesTo(content, pos);
      OneMoreByte(before[..|before| - 1], before[|before| - 1], content[pos..end - 1], content[end - 1]);
    } else {
      var before := LinesTo(content, pos);
      assert before[|before| - 1] + content[pos..end] == before[|before| - 1];
    }
  }

  /** A whole line after the lines before it. */
  lemma WholeLine(content: string, pos: nat, end: nat)
    requires pos <= end <= |content| && '\n' !in content[pos..end] && (pos == 0 || content[pos - 1] == '\n')
    ensures LinesTo(content, end) == (if pos == 0 then [] else LinesTo(content, pos - 1)) + [content[pos..end]]
  {
    LastLine(content, pos, end);
    assert "" + content[pos..end] == content[pos..end];
  }

  lemma TooLong(content: string, limit: nat, answers: seq<Answer>, pos: nat, end: nat, visited: seq<string>)
    requires pos < end <= |content| && '\n' !in content[pos..end] && |TrimCr(content[pos..end])| > limit
    ensures Walk(LinesTo(content, end), limit, answers, visited) == Outcome(visited, Some(LineTooLong))
  {
    LastLine(content, pos, end);
    var part, before := content[pos..end], LinesTo(content, pos);
    var last := before[|before| - 1] + part;
    assert last[|last| - 1] == part[|part| - 1];
  }

  lemma {:induction false} TurnedRound(content: string, pos: nat, n: nat)
    requires pos + n <= |content|
    ensures Reversed(Gathered(content, pos, n)) == content[pos..pos + n]
    decreases n
  {
    if n > 0 {
      TurnedRound(content, pos + 1, n - 1);
      assert Gathered(content, pos, n)[..n - 1] == Gathered(content, pos + 1, n - 1);
    }
  }

  lemma {:induction false} FirstGathered(content: string, pos: nat, n: nat)
    requires 0 < n && pos + n <= |content|
    ensures Gathered(content, pos, n)[0] == content[pos + n - 1]
    decreases n
  {
    if n > 1 { FirstGathered(content, pos + 1, n - 1); }
  }

  lemma {:induction false} BreaksIs(content: string, pos: nat, n: nat)
    requires pos + n <= |content|
    ensures Breaks(content, pos, n) == 0 <==> '\n' !in content[pos..pos + n]
    decreases n
  {
    if n > 0 {
      BreaksIs(content, pos + 1, n - 1);
      assert content[pos..pos + n] == [content[pos]] + content[pos + 1..pos + n];
    }
  }

  lemma CountedBytes(part: string, line: string)
    requires |line| == |part| && (line != "" ==> line[0] == part[|part| - 1])
    ensures |TrimCr(part)| == ContentBytes(line)
  {
  }

  /** A line gathered backwards, turned round. */
  lemma GatheredLine(content: string, pos: nat, line: string, part: string)
    requires pos + |line| <= |content| && line == Gathered(content, pos, |line|) && part == content[pos..pos + |line|]
    ensures Raw(line) == TrimCr(part) && |TrimCr(part)| == ContentBytes(line)
    ensures Breaks(content, pos, |line|) == 0 <==> '\n' !in part
  {
    hide Gathered, Breaks, Reversed, TrimCr, ContentBytes;
    TurnedRound(content, pos, |line|);
    BreaksIs(content, pos, |line|);
    if line != "" { FirstGathered(content, pos, |line|); }
    CountedBytes(part, line);
  }

  lemma LineIsTooLong(content: string, limit: nat, answers: seq<Answer>, pos: nat, line: string, visited: seq<string>)
    requires pos + |line| <= |content| && line == Gathered(content, pos, |line|)
    requires Breaks(content, pos, |line|) == 0 && ContentBytes(line) > limit
    ensures Rest(content, pos + |line|, limit, answers, visited) == Outcome(visited, Some(LineTooLong))
  {
    GatheredLine(content, pos, line, content[pos..pos + |line|]);
    TooLong(content, limit, answers, pos, pos + |line|, visited);
  }

  lemma OneMoreGathered(content: string, pos: nat, line: string, more: string)
    requires 0 < pos && pos + |line| <= |content| && line == Gathered(content, pos, |line|)
    requires Breaks(content, pos, |line|) == 0 && content[pos - 1] != '\n' && more == line + [content[pos - 1]]
    ensures pos - 1 + |more| == pos + |line| && more == Gathered(content, pos - 1, |more|)
    ensures Breaks(content, pos - 1, |more|) == 0
  {
  }

  /** A byte that is not a newline: one more byte of the line, or the line is too long. */
  lemma SeenByte(content: string, limit: nat, answers: seq<Answer>, expected: Outcome, pos: nat, line: string,
                 more: string, visited: seq<string>)
    requires 0 < pos && Seen(content, limit, answers, expected, pos, line, visited) && content[pos - 1] != '\n'
    requires more == line + [content[pos - 1]]
    ensures ContentBytes(more) > limit ==> expected == Outcome(visited, Some(LineTooLong))
    ensures ContentBytes(more) <= limit ==> Seen(content, limit, answers, expected, pos - 1, more, visited)
  {
    OneMoreGathered(content, pos, line, more);
    if ContentBytes(more) > limit {
      LineIsTooLong(content, limit, answers, pos - 1, more, visited);
    } else {
      SeenAgain(content, limit, answers, expected, pos - 1, more, pos + |line|, visited);
    }
  }

  lemma SeenAgain(content: string, limit: nat, answers: seq<Answer>, expected: Outcome, pos: nat, line: string,
                  end: nat, visited: seq<string>)
    requires pos + |line| == end <= |content| && line == Gathered(content, pos, |line|)
    requires Breaks(content, pos, |line|) == 0 && ContentBytes(line) <= limit
             && expected == Rest(content, end, limit, answers, visited)
    ensures Seen(content, limit, answers, expected, pos, line, visited)
  {
  }

  /** What comes after a line has been visited. */
  function AfterLine(content: string, limit: nat, answers: seq<Answer>, pos: nat, all: seq<string>): Outcome
    requires 0 < |all| && pos <= |content|
  {
    match Reply(answers, |all| - 1)
    case Stop => Outcome(all, None)
    case Fail(error) => Outcome(all, Some(VisitFailed(error)))
    case Continue => if pos == 0 then Outcome(all, None) else Rest(content, pos - 1, limit, answers, all)
  }

  lemma RestLine(content: string, limit: nat, answers: seq<Answer>, pos: nat, end: nat, visited: seq<string>)
    requires pos <= end <= |content| && '\n' !in content[pos..end] && |TrimCr(content[pos..end])| <= limit
    requires pos == 0 || content[pos - 1] == '\n'
    ensures Rest(content, end, limit, answers, visited)
            == AfterLine(content, limit, answers, pos, visited + [TrimCr(content[pos..end])])
  {
    WholeLine(content, pos, end);
    var before, last := if pos == 0 then [] else LinesTo(content, pos - 1), content[pos..end];
    WalkLast(before, last, limit, answers, visited);
    assert |visited + [TrimCr(last)]| - 1 == |visited|;
  }

  /** The whole line has been seen: what visiting it leads to. */
  lemma SeenLine(content: string, limit: nat, answers: seq<Answer>, expected: Outcome, pos: nat, line: string,
                 visited: seq<string>)
    requires Seen(content, limit, answers, expected, pos, line, visited) && (pos == 0 || content[pos - 1] == '\n')
    ensures expected == AfterLine(content, limit, answers, pos, visited + [Raw(line)])
  {
    RestRaw(content, limit, answers, pos, line, visited);
  }

  lemma RestRaw(content: string, limit: nat, answers: seq<Answer>, pos: nat, line: string, visited: seq<string>)
    requires pos + |line| <= |content| && line == Gathered(content, pos, |line|) && Breaks(content, pos, |line|) == 0
    requires ContentBytes(line) <= limit && (pos == 0 || content[pos - 1] == '\n')
    ensures Rest(content, pos + |line|, limit, answers, visited)
            == AfterLine(content, limit, answers, pos, visited + [Raw(line)])
  {
    hide Gathered, Breaks, ContentBytes, AfterLine, Rest, TrimCr, Raw;
    GatheredLine(content, pos, line, content[pos..pos + |line|]);
    RestLine(content, limit, answers, pos, pos + |line|, visited);
  }

  /** What an answer makes of the call to the visitor. */
  predicate Answered(answer: Answer, stop: bool, err: Option<ScanError>) {
    err == (if answer.Fail? then Some(VisitFailed(answer.error)) else None) && (stop <==> answer.Stop?)
  }

  lemma LineEnds(content: string, limit: nat, answers: seq<Answer>, expected: Outcome, pos: nat, all: seq<string>,
                 stop: bool, err: Option<ScanError>)
    requires pos <= |content| && 0 < |all| && expected == AfterLine(content, limit, answers, pos, all)
    requires Answered(Reply(answers, |all| - 1), stop, err)
    ensures stop || err.Some? || pos == 0 ==> expected == Outcome(all, err)
    ensures !stop && err.None? && pos > 0 ==> Seen(content, limit, answers, expected, pos - 1, "", all)
  {
  }

  lemma WalkLast(before: seq<string>, last: string, limit: nat, answers: seq<Answer>, visited: seq<string>)
    requires |TrimCr(last)| <= limit
    ensures var all := visited + [TrimCr(last)];
            Walk(before + [last], limit, answers, visited) ==
            match Reply(answers, |visited|)
            case Stop => Outcome(all, None)
            case Fail(error) => Outcome(all, Some(VisitFailed(error)))
            case Continue => if before == [] then Outcome(all, None) else Walk(before, limit, answers, all)
  {
    assert (before + [last])[..|before|] == before;
    assert Walk([], limit, answers, visited + [TrimCr(last)]).error.None?;
  }

  // ---- the scan ---------------------------------------------------------------------------------

  /** The scan has come down to byte `pos`; before its first byte `atEnd` is set. */
  ghost predicate Progress(content: string, limit: nat, answers: seq<Answer>, expected: Outcome,
                           pos: nat, atEnd: bool, line: string, visited: seq<string>)
  {
    if atEnd then
      0 < pos == |content| && line == "" && visited == [] && expected == Expected(content, limit, answers)
    else
      pos < |content| && Seen(content, limit, answers, expected, pos, line, visited)
  }

  /** One scan: what it reads from, and the variables of its loop. */
  class Scanner {
    const file: string
    const size: nat
    const limit: nat
    const world: World
    ghost const content: string
    ghost const expected: Outcome
    var line: string
    var atEnd: bool
    var visited: seq<string>
    var checks: nat
    var readCount: nat

    constructor (file: string, size: nat, limit: nat, world: World)
      ensures this.file == file && this.size == size && this.limit == limit && this.world == world
      ensures line == "" && atEnd && visited == [] && checks == 0 && readCount == 0
      ensures Started()
    {
      this.file, this.size, this.limit, this.world := file, size, limit, world;
      content := file[..Min(size, |file|)];
      expected := Expected(file[..Min(size, |file|)], limit, world.answers);
      line, atEnd, visited, checks, readCount := "", true, [], 0, 0;
    }

    /** `content` is the range to scan, as far as the file has it. */
    ghost predicate Started() {
      content == file[..Min(size, |file|)] && expected == Expected(content, limit, world.answers)
    }

    ghost predicate Calm() {
      world.cancelled == {}
    }

    method Context() returns (err: Option<ScanError>)
      modifies `checks
      ensures checks == old(checks) + 1
      ensures err == if old(checks) in world.cancelled then Some(ContextDone) else None
    {
      err := if checks in world.cancelled then Some(ContextDone) else None;
      checks := checks + 1;
    }

    /** The context is looked at once before the scan, and then before and after every read
        and every visit, up to the first look that finds it ended. */
    ghost predicate Looks(err: Option<ScanError>)
      reads `checks, `visited, `readCount
    {
      var done := 2 * (|visited| + readCount);
      && (forall k :: 0 <= k < checks - 1 ==> k !in world.cancelled)
      && (0 < checks && checks - 1 in world.cancelled <==> err == Some(ContextDone))
      && match err
         case None => checks == done + 1
         case Some(ContextDone) => checks == done + 1 || checks == done + 2
         case Some(LineTooLong) => checks == done + 1
         case Some(_) => checks == done
    }

    /** The first reads failed in no way. */
    ghost predicate ReadsServed(n: nat) { forall k :: 0 <= k < n ==> !Plan(k, 0).1.Other? }

    /** What a read that did not get its block makes of the scan. */
    ghost predicate Refused(k: nat, e: ScanError, blockBytes: nat) {
      var (got, io) := Plan(k, blockBytes);
      && (got < blockBytes || size > |file| || io.Other?)
      && e == if io.NoError? then UnexpectedEof else ReadFailed(io)
    }

    /** Every read but the last was served; so was the last, unless it is what the scan
        returns. */
    ghost predicate Reads(err: Option<ScanError>, blockBytes: nat)
      reads `readCount
    {
      if err.Some? && (err.value.ReadFailed? || err.value.UnexpectedEof?) then
        0 < readCount && ReadsServed(readCount - 1) && Refused(readCount - 1, err.value, blockBytes)
      else ReadsServed(readCount)
    }

    /** Hands the current line to the visitor, between two looks at the context. */
    method Emit() returns (stop: bool, err: Option<ScanError>)
      modifies `checks, `visited, `line
      requires Looks(None)
      ensures Looks(err) && Scanning(err)
      ensures err == Some(ContextDone) ==>
                !Calm() && (visited == old(visited) || visited == old(visited) + [Raw(old(line))])
      ensures err != Some(ContextDone) ==>
                && visited == old(visited) + [Raw(old(line))] && line == ""
                && Answered(Reply(world.answers, |visited| - 1), stop, err)
    {
      err := Context();
      if err.Some? { return false, err; }
      var raw := Raw(line);
      visited := visited + [raw];
      var answer := Reply(world.answers, |visited| - 1);
      line := "";
      if answer.Fail? { return false, Some(VisitFailed(answer.error)); }
      stop := answer.Stop?;
      err := Context();
    }

    /** Errors of the scan itself, not of a read. */
    predicate Scanning(err: Option<ScanError>) {
      err.Some? ==> !err.value.ReadFailed? && !err.value.UnexpectedEof?
    }

    /** What the scan may return: the expected outcome, or less of it because the context
        ended. */
    ghost predicate Ended(err: Option<ScanError>)
      reads this
    {
      if err == Some(ContextDone) then !Calm() && visited <= expected.visited
      else expected == Outcome(visited, err)
    }

    ghost predicate Scanned(pos: nat)
      reads this
    {
      size == |content| && Progress(content, limit, world.answers, expected, pos, atEnd, line, visited)
    }

    /** The current line is complete: it starts at `pos`. */
    method LineDone(ghost pos: nat) returns (finished: bool, err: Option<ScanError>)
      requires !atEnd && Scanned(pos) && (pos == 0 || content[pos - 1] == '\n') && Looks(None)
      modifies `checks, `visited, `line
      ensures Looks(err) && Scanning(err)
      ensures finished || pos == 0 ==> Ended(err)
      ensures !finished && pos > 0 ==> err.None? && Scanned(pos - 1)
    {
      SeenLine(content, limit, world.answers, expected, pos, line, visited);
      LineVisited(content, limit, world.answers, expected, pos, line, visited);
      ghost var all := visited + [Raw(line)];
      var stop;
      stop, err := Emit();
      finished := err.Some? || stop;
      if err != Some(ContextDone) { LineEnds(content, limit, world.answers, expected, pos, all, stop, err); }
    }

    method Newline(ghost pos: nat) returns (finished: bool, err: Option<ScanError>)
      requires 0 < pos && Scanned(pos) && content[pos - 1] == '\n' && Looks(None)
      modifies `checks, `visited, `line, `atEnd
      ensures Looks(err) && Scanning(err)
      ensures if finished then Ended(err) else err.None? && Scanned(pos - 1)
    {
      hide Ended, Looks, Rest, Expected, PhysicalLines;
      if !atEnd {
        finished, err := LineDone(pos);
        if finished { return; }
      } else {
        SeenStart(content, limit, world.answers);
        finished, err := false, None;
      }
      atEnd := false;
    }

    method Byte(c: char, ghost pos: nat) returns (finished: bool, err: Option<ScanError>)
      requires 0 < pos && Scanned(pos) && content[pos - 1] == c != '\n' && Looks(None)
      modifies `line, `atEnd
      ensures Looks(err) && Scanning(err)
      ensures if finished then Ended(err) else err.None? && Scanned(pos - 1)
    {
      hide Rest, Expected, PhysicalLines, Gathered, Breaks;
      if atEnd { SeenStart(content, limit, world.answers); }
      SeenByte(content, limit, world.answers, expected, pos, line, line + [c], visited);
      line := line + [c];
      var contentBytes := |line|;
      if line[0] == '\r' { contentBytes := contentBytes - 1; }
      if contentBytes > limit { return true, Some(LineTooLong); }
      atEnd := false;
      finished, err := false, None;
    }

    /** The block holds `n` bytes of the content, from `offset` on. */
    ghost predicate Holds(block: array<char>, n: nat, offset: nat)
      requires n <= block.Length
      reads block
    {
      offset + n <= |content| && forall j :: 0 <= j < n ==> block[j] == content[offset + j]
    }

    method Step(block: array<char>, n: nat, i: nat, ghost offset: nat, ghost pos: nat)
      returns (finished: bool, err: Option<ScanError>)
      requires 0 < i <= n <= block.Length && pos == offset + i && Scanned(pos) && Holds(block, n, offset)
      requires Looks(None)
      modifies `checks, `visited, `line, `atEnd
      ensures Looks(err) && Scanning(err)
      ensures if finished then Ended(err) else err.None? && Scanned(pos - 1)
    {
      if block[i - 1] == '\n' {
        finished, err := Newline(pos);
      } else {
        finished, err := Byte(block[i - 1], pos);
      }
    }

    /** The bytes of one block, from its last to its first. */
    method ScanBlock(block: array<char>, n: nat, ghost offset: nat) returns (finished: bool, err: Option<ScanError>)
      requires n <= block.Length && Scanned(offset + n) && Holds(block, n, offset) && Looks(None)
      modifies `checks, `visited, `line, `atEnd
      ensures Looks(err) && Scanning(err)
      ensures if finished then Ended(err) else err.None? && Scanned(offset)
    {
      hide Scanned, Ended, Progress, Looks;
      ghost var pos := offset + n;
      var i: nat := n;
      finished, err := false, None;
      while i > 0
        invariant i <= n && pos == offset + i && Scanned(pos) && Looks(None) && !finished && err.None?
      {
        finished, err := Step(block, n, i, offset, pos);
        if finished { return; }
        i, pos := i - 1, pos - 1;
      }
      assert pos == offset;
    }

    function Plan(k: nat, length: nat): (nat, IoError) {
      if k in world.faults then world.faults[k] else (length, NoError)
    }

    /** io.ReaderAt on the file: at most the bytes there are. */
    method ReadAt(block: array<char>, length: nat, offset: nat) returns (n: nat, err: IoError)
      requires length <= block.Length
      modifies block, `readCount
      ensures n <= length && (n > 0 ==> offset + n <= |file| && forall j :: 0 <= j < n ==> block[j] == file[offset + j])
      ensures n == Min(Plan(old(readCount), length).0, Min(length, if offset < |file| then |file| - offset else 0))
      ensures err == Plan(old(readCount), length).1 && readCount == old(readCount) + 1
    {
      var plan := Plan(readCount, length);
      n := Min(plan.0, Min(length, if offset < |file| then |file| - offset else 0));
      for k := 0 to n
        invariant forall j :: 0 <= j < k ==> block[j] == file[offset + j]
        modifies block
      {
        block[k] := file[offset + k];
      }
      err := plan.1;
      readCount := readCount + 1;
    }

    /** Every read gets all it asks for, as far as the file has it. */
    ghost predicate Readable(blockBytes: nat) {
      forall k :: k in world.faults ==> world.faults[k].0 >= blockBytes && !world.faults[k].1.Other?
    }

    /** One block, or why there is none. */
    method ReadBlock(block: array<char>, length: nat, offset: nat) returns (err: Option<ScanError>)
      requires 0 < length <= block.Length && offset + length <= size && Looks(None) && Reads(None, block.Length)
      modifies block, `checks, `readCount
      ensures Looks(err) && Reads(err, block.Length)
      ensures err.None? && Started() ==>
                offset + length <= |file| && Holds(block, length, offset)
      ensures err.Some? ==> Broken(err.value)
      ensures Calm() ==> err != Some(ContextDone)
      ensures Calm() && Readable(block.Length) && offset + length <= |file| ==> err.None?
    {
      err := Context();
      if err.Some? { return; }
      var n, io := ReadAt(block, length, offset);
      if !io.NoError? && (!io.Eof? || n != length) { return Some(ReadFailed(io)); }
      if n != length { return Some(UnexpectedEof); }
      err := Context();
    }

    /** Errors that come from outside, not from the content or the visitor. */
    predicate Broken(e: ScanError) { e.ContextDone? || e.ReadFailed? || e.UnexpectedEof? }

    /** How a scan ends: as expected, unless it broke off, and then with a part of the
        expected lines; it breaks off only for a reason. */
    ghost predicate Returned(err: Option<ScanError>, blockBytes: nat)
      reads this
    {
      && (size <= |file| ==> visited <= expected.visited)
      && (size <= |file| && !(err.Some? && Broken(err.value)) ==> expected == Outcome(visited, err))
      && (size > |file| ==> visited == [] && err.Some? && Broken(err.value))
      && (Calm() ==> err != Some(ContextDone))
      && (Calm() && Readable(blockBytes) && size <= |file| ==> expected == Outcome(visited, err))
      && Looks(err) && Reads(err, blockBytes)
    }

    lemma EndedReturns(err: Option<ScanError>, blockBytes: nat)
      requires size == |content| && Started() && Ended(err) && Looks(err) && Reads(err, blockBytes)
      ensures Returned(err, blockBytes)
    {
    }

    /** Breaking off between two blocks. */
    lemma BrokenReturns(pos: nat, err: Option<ScanError>, blockBytes: nat)
      requires Scanned(pos) && Started() && err.Some? && Broken(err.value)
      requires (Calm() ==> !err.value.ContextDone?) && !(Calm() && Readable(blockBytes))
      requires Looks(err) && Reads(err, blockBytes)
      ensures Returned(err, blockBytes)
    {
      VisitedSoFar(content, limit, world.answers, expected, pos, atEnd, line, visited);
    }

    /** The block that ends at `end`: read, then scanned. */
    method NextBlock(block: array<char>, length: nat, ghost end: nat, offset: nat)
      returns (finished: bool, err: Option<ScanError>)
      requires 0 < length <= block.Length && end == offset + length <= size && Scanned(end) && Started()
      requires Looks(None) && Reads(None, block.Length)
      modifies `line, `atEnd, `visited, `checks, `readCount, block
      ensures finished ==> Returned(err, block.Length)
      ensures !finished ==> Scanned(offset) && Looks(None) && Reads(None, block.Length)
    {
      hide Progress, Ended, Looks;
      err := ReadBlock(block, length, offset);
      if err.Some? {
        BrokenReturns(end, err, block.Length);
        return true, err;
      }
      finished, err := ScanBlock(block, length, offset);
      if finished { EndedReturns(err, block.Length); }
    }

    /** The blocks, from the last to the first. */
    method ScanBlocks(block: array<char>) returns (finished: bool, err: Option<ScanError>)
      requires 0 < block.Length && Scanned(size) && Started() && Looks(None) && Reads(None, block.Length)
      modifies `line, `atEnd, `visited, `checks, `readCount, block
      ensures finished ==> Returned(err, block.Length)
      ensures !finished ==> Scanned(0) && Looks(None) && Reads(None, block.Length)
    {
      var offset: nat := size;
      finished, err := false, None;
      while offset > 0
        invariant offset <= size && Scanned(offset) && !finished && Looks(None) && Reads(None, block.Length)
        decreases offset
      {
        var length := Min(block.Length, offset);
        ghost var end := offset;
        offset := offset - length;
        finished, err := NextBlock(block, length, end, offset);
        if finished { return; }
      }
    }

    /** A range longer than the file: the first read runs into the end. */
    method ReadPastEnd(blockBytes: nat) returns (err: Option<ScanError>)
      requires 0 < blockBytes && size > |file| && visited == [] && Started() && Looks(None) && Reads(None, blockBytes)
      modifies `checks, `readCount
      ensures Returned(err, blockBytes)
    {
      var block := new char[blockBytes];
      var length := Min(block.Length, size);
      err := ReadBlock(block, length, size - length);
    }

    method Scan(blockBytes: nat) returns (err: Option<ScanError>)
      requires 0 < blockBytes && line == "" && atEnd && visited == [] && checks == 0 && readCount == 0
      requires Started()
      modifies this
      ensures Returned(err, blockBytes)
    {
      err := Context();
      if err.Some? { return; }
      if size == 0 { return None; }
      if size > |file| {
        err := ReadPastEnd(blockBytes);
        return;
      }
      var finished;
      var block := new char[blockBytes];
      finished, err := ScanBlocks(block);
      if finished { return; }
      finished, err := LineDone(0);
      EndedReturns(err, blockBytes);
    }
  }

  lemma LineVisited(content: string, limit: nat, answers: seq<Answer>, expected: Outcome, pos: nat, line: string,
                    visited: seq<string>)
    requires Seen(content, limit, answers, expected, pos, line, visited) && (pos == 0 || content[pos - 1] == '\n')
    ensures visited + [Raw(line)] <= expected.visited
  {
    SeenLine(content, limit, answers, expected, pos, line, visited);
    var all := visited + [Raw(line)];
    if Reply(answers, |all| - 1).Continue? && pos > 0 { WalkExtends(LinesTo(content, pos - 1), limit, answers, all); }
  }

  lemma VisitedSoFar(content: string, limit: nat, answers: seq<Answer>, expected: Outcome,
                     pos: nat, atEnd: bool, line: string, visited: seq<string>)
    requires Progress(content, limit, answers, expected, pos, atEnd, line, visited)
    ensures visited <= expected.visited
  {
    if !atEnd { WalkExtends(LinesTo(content, pos + |line|), limit, answers, visited); }
  }

  // ---- the expected outcome, for a visitor that never stops ---------------------------------------

  function Backwards(lines: seq<string>): seq<string> {
    if lines == [] then [] else [TrimCr(lines[|lines| - 1])] + Backwards(lines[..|lines| - 1])
  }

  /** Whatever the visitor answers, it sees lines newest first and leaves out none between. */
  lemma {:induction false} WalkIsPrefix(lines: seq<string>, limit: nat, answers: seq<Answer>, visited: seq<string>)
    ensures Walk(lines, limit, answers, visited).visited <= visited + Backwards(lines)
  {
    if lines != [] {
      var raw, rest := TrimCr(lines[|lines| - 1]), lines[..|lines| - 1];
      WalkIsPrefix(rest, limit, answers, visited + [raw]);
      assert (visited + [raw]) + Backwards(rest) == visited + Backwards(lines);
    }
  }

  /** How a walk ends, told by the lines, the answers and the limit: it visits from the last
      line back, each line fits, and every answer but the last is to go on; it ends with an
      error or a stop of the visitor, at a line that is too long, or at the first line. */
  ghost predicate Walked(lines: seq<string>, limit: nat, answers: seq<Answer>, visited: seq<string>, o: Outcome) {
    var back, seen := Backwards(lines), |o.visited| - |visited|;
    && 0 <= seen <= |back| && o.visited == visited + back[..seen]
    && (forall k :: 0 <= k < seen ==> |back[k]| <= limit)
    && (forall k :: |visited| <= k < |o.visited| - 1 ==> Reply(answers, k).Continue?)
    && if seen > 0 && !Reply(answers, |o.visited| - 1).Continue? then
         o.error == StoppedBy(Reply(answers, |o.visited| - 1))
       else if seen == |back| then o.error.None?
       else o.error == Some(LineTooLong) && |back[seen]| > limit
  }

  function StoppedBy(answer: Answer): Option<ScanError> {
    if answer.Fail? then Some(VisitFailed(answer.error)) else None
  }

  lemma {:induction false} BackwardsAt(lines: seq<string>, k: nat)
    requires k < |lines|
    ensures |Backwards(lines)| == |lines| && Backwards(lines)[k] == TrimCr(lines[|lines| - 1 - k])
  {
    hide TrimCr;
    var rest := lines[..|lines| - 1];
    if rest != [] { BackwardsAt(rest, if k == 0 then 0 else k - 1); }
    assert Backwards(lines) == [TrimCr(lines[|lines| - 1])] + Backwards(rest);
  }

  lemma {:induction false} WalkExactly(lines: seq<string>, limit: nat, answers: seq<Answer>, visited: seq<string>)
    ensures Walked(lines, limit, answers, visited, Walk(lines, limit, answers, visited))
  {
    if lines != [] {
      var raw, rest := TrimCr(lines[|lines| - 1]), lines[..|lines| - 1];
      if |raw| <= limit && Reply(answers, |visited|).Continue? {
        var all := visited + [raw];
        WalkExactly(rest, limit, answers, all);
        var o := Walk(rest, limit, answers, all);
        WalkedMore(raw, Backwards(rest), visited, o.visited);
      }
    }
  }

  lemma WalkedMore(raw: string, back: seq<string>, visited: seq<string>, all: seq<string>)
    requires 0 <= |all| - |visited| - 1 <= |back| && all == (visited + [raw]) + back[..|all| - |visited| - 1]
    ensures all == visited + ([raw] + back)[..|all| - |visited|]
  {
  }

  /** The physical lines hold no newline, and put together, each with a newline, they are the
      content: with a newline more, where its last line has none. */
  lemma PhysicalLinesAre(content: string)
    ensures forall i :: 0 <= i < |PhysicalLines(content)| ==> '\n' !in PhysicalLines(content)[i]
    ensures Unlines(PhysicalLines(content))
            == if content == "" || content[|content| - 1] == '\n' then content else content + "\n"
  {
    if content != "" {
      SplitParts(content);
      SplitParts(content[..|content| - 1]);
      assert content == content[..|content| - 1] + [content[|content| - 1]];
    }
  }

  lemma {:induction false} BackwardsAll(lines: seq<string>)
    ensures |Backwards(lines)| == |lines|
    ensures forall i :: 0 <= i < |lines| ==> TrimCr(lines[i]) == Backwards(lines)[|lines| - 1 - i]
  {
    if lines != [] {
      hide Backwards, TrimCr;
      BackwardsAt(lines, 0);
    }
    forall i | 0 <= i < |lines|
      ensures TrimCr(lines[i]) == Backwards(lines)[|lines| - 1 - i]
    {
      hide Backwards, TrimCr;
      BackwardsAt(lines, |lines| - 1 - i);
    }
  }

  /** A visitor that never stops sees every line, unless one is too long. */
  lemma WalkSeesAll(lines: seq<string>, limit: nat, visited: seq<string>)
    ensures Walk(lines, limit, [], visited).error.None?
            <==> forall i :: 0 <= i < |lines| ==> |TrimCr(lines[i])| <= limit
    ensures Walk(lines, limit, [], visited).error.None?
            ==> Walk(lines, limit, [], visited).visited == visited + Backwards(lines)
  {
    hide Walk, Backwards, TrimCr;
    WalkExactly(lines, limit, [], visited);
    BackwardsAll(lines);
    var back, seen := Backwards(lines), |Walk(lines, limit, [], visited).visited| - |visited|;
    assert |visited + back| == |visited| + |back|;
    if seen < |back| {
      assert |TrimCr(lines[|lines| - 1 - seen])| > limit;
    } else {
      assert back[..seen] == back;
    }
  }
}
