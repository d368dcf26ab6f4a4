/** Text as the editor sees it: line-ending normalisation, splitting into lines, the line
    ranges of the original text, and substring search. */
module EditText {

  // ---- the standard library's string functions ------------------------------------

  predicate StartsAt(s: string, i: nat, needle: string) {
    i + |needle| <= |s| && s[i..i + |needle|] == needle
  }

  /** strings.ReplaceAll for a non-empty needle: left to right, not overlapping. */
  function ReplaceAll(s: string, needle: string, repl: string): string
    requires needle != ""
    decreases |s|
  {
    if s == "" then ""
    else if StartsAt(s, 0, needle) then repl + ReplaceAll(s[|needle|..], needle, repl)
    else [s[0]] + ReplaceAll(s[1..], needle, repl)
  }

  /** strings.Split on a newline. */
  function Split(s: string): (parts: seq<string>)
    ensures parts != []
    decreases |s|
  {
    if s == "" then [""]
    else if s[0] == '\n' then [""] + Split(s[1..])
    else
      var rest := Split(s[1..]);
      [[s[0]] + rest[0]] + rest[1..]
  }

  /** strings.Join with a newline. */
  function Join(lines: seq<string>): string {
    if lines == [] then ""
    else if |lines| == 1 then lines[0]
    else lines[0] + "\n" + Join(lines[1..])
  }

  predicate EndsInNewline(s: string) { s != "" && s[|s| - 1] == '\n' }

  // ---- text.go ---------------------------------------------------------------------

  function Normalize(text: string): string {
    ReplaceAll(ReplaceAll(text, "\r\n", "\n"), "\r", "\n")
  }

  function EnsureTrailingNewline(text: string): string {
    var t := Normalize(text);
    if t == "" || EndsInNewline(t) then t else t + "\n"
  }

  function SplitLines(text: string): seq<string> {
    var t := Normalize(text);
    if t == "" then []
    else
      var u := if EndsInNewline(t) then t[..|t| - 1] else t;
      if u == "" then [""] else Split(u)
  }

  // ---- normalisation -------------------------------------------------------------------

  lemma {:induction false} ReplaceCrRemoves(s: string)
    ensures '\r' !in ReplaceAll(s, "\r", "\n")
  {
    if s != "" {
      ReplaceCrRemoves(s[1..]);
      if StartsAt(s, 0, "\r") {
        assert ReplaceAll(s, "\r", "\n") == "\n" + ReplaceAll(s[1..], "\r", "\n");
      } else {
        assert s[0..1] == [s[0]];
      }
    }
  }

  lemma {:induction false} ReplaceAbsent(s: string, needle: string, repl: string)
    requires needle != "" && needle[0] !in s
    ensures ReplaceAll(s, needle, repl) == s
  {
    if s != "" {
      ReplaceAbsent(s[1..], needle, repl);
    }
  }

  /** Normalised text has no carriage return left, and normalising is idempotent. */
  lemma NormalizeNormalizes(text: string)
    ensures '\r' !in Normalize(text) && Normalize(Normalize(text)) == Normalize(text)
  {
    ReplaceCrRemoves(ReplaceAll(text, "\r\n", "\n"));
    NormalizeKeeps(Normalize(text));
  }

  lemma NormalizeKeeps(text: string)
    requires '\r' !in text
    ensures Normalize(text) == text
  {
    ReplaceAbsent(text, "\r\n", "\n");
    ReplaceAbsent(text, "\r", "\n");
  }

  // ---- normalisation of a text cut at its line ends ---------------------------------------

  datatype LineEnd = Lf | CrLf | Cr

  /** A line of plain text and how it ends. */
  datatype EndedLine = EndedLine(line: string, end: LineEnd)

  function EndText(end: LineEnd): string {
    match end case Lf => "\n" case CrLf => "\r\n" case Cr => "\r"
  }

  function Written(parts: seq<EndedLine>, tail: string): string {
    if parts == [] then tail else parts[0].line + EndText(parts[0].end) + Written(parts[1..], tail)
  }

  function WithNewlines(parts: seq<EndedLine>, tail: string): string {
    if parts == [] then tail else parts[0].line + "\n" + WithNewlines(parts[1..], tail)
  }

  predicate PlainLine(s: string) { '\n' !in s && '\r' !in s }

  /** The lines are plain, and no lone carriage return is followed by a lone newline. */
  ghost predicate CutAtEnds(parts: seq<EndedLine>, tail: string) {
    && PlainLine(tail) && (forall p :: p in parts ==> PlainLine(p.line))
    && (forall i, j :: 0 <= i && j == i + 1 < |parts| && parts[i].end == Cr ==>
          parts[j].line != "" || parts[j].end != Lf)
  }

  lemma {:induction false} ReplacePlain(line: string, rest: string, needle: string, repl: string)
    requires needle != "" && needle[0] !in line
    ensures ReplaceAll(line + rest, needle, repl) == line + ReplaceAll(rest, needle, repl)
  {
    if line == "" {
      assert line + rest == rest;
    } else {
      ReplacePlain(line[1..], rest, needle, repl);
      assert (line + rest)[1..] == line[1..] + rest && (line + rest)[0] == line[0];
    }
  }

  lemma ReplaceHere(rest: string, needle: string, repl: string)
    requires needle != ""
    ensures ReplaceAll(needle + rest, needle, repl) == repl + ReplaceAll(rest, needle, repl)
  {
    assert (needle + rest)[0..|needle|] == needle && (needle + rest)[|needle|..] == rest;
  }

  lemma ReplaceOther(c: char, rest: string, needle: string, repl: string)
    requires needle != "" && !StartsAt([c] + rest, 0, needle)
    ensures ReplaceAll([c] + rest, needle, repl) == [c] + ReplaceAll(rest, needle, repl)
  {
    assert ([c] + rest)[1..] == rest;
  }

  lemma FirstEnd(end: LineEnd, rest: string)
    requires end == Cr ==> rest == "" || rest[0] != '\n'
    ensures ReplaceAll(EndText(end) + rest, "\r\n", "\n")
            == (if end == Cr then "\r" else "\n") + ReplaceAll(rest, "\r\n", "\n")
  {
    hide ReplaceAll;
    var after := EndText(end) + rest;
    match end
    case CrLf => ReplaceHere(rest, "\r\n", "\n");
    case Lf =>
      assert after[0] == '\n';
      ReplaceOther('\n', rest, "\r\n", "\n");
    case Cr =>
      if rest != "" { assert after[1] == rest[0]; }
      ReplaceOther('\r', rest, "\r\n", "\n");
  }

  lemma Regrouped(a: string, b: string, c: string)
    ensures a + b + c == a + (b + c)
  {
  }

  /** What replacing carriage return and newline makes of one line and its end. */
  lemma FirstPass(line: string, end: LineEnd, rest: string)
    requires PlainLine(line) && (end == Cr ==> rest == "" || rest[0] != '\n')
    ensures ReplaceAll(line + EndText(end) + rest, "\r\n", "\n")
            == line + (if end == Cr then "\r" else "\n") + ReplaceAll(rest, "\r\n", "\n")
  {
    hide ReplaceAll, EndText;
    Regrouped(line, EndText(end), rest);
    ReplacePlain(line, EndText(end) + rest, "\r\n", "\n");
    FirstEnd(end, rest);
    Regrouped(line, if end == Cr then "\r" else "\n", ReplaceAll(rest, "\r\n", "\n"));
  }

  lemma SecondPass(line: string, end: string, rest: string)
    requires PlainLine(line) && (end == "\r" || end == "\n")
    ensures ReplaceAll(line + end + rest, "\r", "\n") == line + "\n" + ReplaceAll(rest, "\r", "\n")
  {
    assert line + end + rest == line + (end + rest);
    ReplacePlain(line, end + rest, "\r", "\n");
    if end == "\r" { ReplaceHere(rest, "\r", "\n"); } else { ReplaceOther('\n', rest, "\r", "\n"); }
  }

  /** Every line end becomes one newline, and nothing else changes. */
  lemma {:induction false} NormalizeLineEnds(parts: seq<EndedLine>, tail: string)
    requires CutAtEnds(parts, tail)
    ensures Normalize(Written(parts, tail)) == WithNewlines(parts, tail)
  {
    if parts == [] {
      NormalizeKeeps(tail);
    } else {
      var p, rest := parts[0], Written(parts[1..], tail);
      NormalizeLineEnds(parts[1..], tail);
      if p.end == Cr { NoNewlineAhead(parts, tail); }
      FirstPass(p.line, p.end, rest);
      SecondPass(p.line, if p.end == Cr then "\r" else "\n", ReplaceAll(rest, "\r\n", "\n"));
    }
  }

  lemma NoNewlineAhead(parts: seq<EndedLine>, tail: string)
    requires CutAtEnds(parts, tail) && parts != [] && parts[0].end == Cr
    ensures var rest := Written(parts[1..], tail); rest == "" || rest[0] != '\n'
  {
    if |parts| == 1 {
      assert parts[1..] == [];
    } else {
      assert parts[1..][0] == parts[1] && parts[1] in parts;
      if parts[1].line != "" { assert Written(parts[1..], tail)[0] == parts[1].line[0]; }
    }
  }

  // ---- lines -----------------------------------------------------------------------------

  /** Every line followed by its newline. */
  function Unlines(lines: seq<string>): string {
    if lines == [] then "" else lines[0] + "\n" + Unlines(lines[1..])
  }

  predicate OneLine(s: string) { '\n' !in s && '\r' !in s }

  ghost predicate LineList(lines: seq<string>) { forall i :: 0 <= i < |lines| ==> OneLine(lines[i]) }

  lemma {:induction false} SplitLine(line: string, rest: string)
    requires '\n' !in line
    ensures Split(line + "\n" + rest) == [line] + Split(rest)
  {
    var s := line + "\n" + rest;
    if line == "" {
      assert s == "\n" + rest && s[1..] == rest;
    } else {
      SplitLine(line[1..], rest);
      assert s[1..] == line[1..] + "\n" + rest && [line[0]] + line[1..] == line;
      assert ([line[1..]] + Split(rest))[0] == line[1..] && ([line[1..]] + Split(rest))[1..] == Split(rest);
    }
  }

  lemma {:induction false} SplitOne(line: string)
    requires '\n' !in line
    ensures Split(line) == [line]
  {
    if line != "" {
      SplitOne(line[1..]);
      assert [line[0]] + line[1..] == line;
    }
  }

  lemma SplitCons(c: char, s: string)
    ensures Split([c] + s) == if c == '\n' then [""] + Split(s) else [[c] + Split(s)[0]] + Split(s)[1..]
  {
    assert ([c] + s)[1..] == s;
  }

  lemma UnlinesHead(c: char, first: string, more: seq<string>)
    ensures Unlines([[c] + first] + more) == [c] + Unlines([first] + more)
  {
    assert ([[c] + first] + more)[1..] == more && ([first] + more)[1..] == more;
    assert [c] + first + "\n" + Unlines(more) == [c] + (first + "\n" + Unlines(more));
  }

  lemma UnlinesEmpty()
    ensures Unlines([""]) == "\n" && forall more :: Unlines([""] + more) == "\n" + Unlines(more)
  {
    forall more ensures Unlines([""] + more) == "\n" + Unlines(more) { assert ([""] + more)[1..] == more; }
  }

  /** The parts hold no newline, and each followed by one they are the text and a newline. */
  lemma {:induction false} SplitParts(s: string)
    ensures Unlines(Split(s)) == s + "\n" && forall i :: 0 <= i < |Split(s)| ==> '\n' !in Split(s)[i]
  {
    hide Unlines;
    UnlinesEmpty();
    if s != "" {
      SplitParts(s[1..]);
      SplitCons(s[0], s[1..]);
      assert s == [s[0]] + s[1..];
      var parts := Split(s[1..]);
      if s[0] == '\n' {
        assert ([""] + parts)[1..] == parts;
      } else {
        assert [parts[0]] + parts[1..] == parts;
        UnlinesHead(s[0], parts[0], parts[1..]);
      }
    }
  }

  lemma {:induction false} SplitUnlines(lines: seq<string>)
    requires LineList(lines) && lines != []
    ensures Unlines(lines) != "" && EndsInNewline(Unlines(lines)) && '\r' !in Unlines(lines)
    ensures Split(Unlines(lines)[..|Unlines(lines)| - 1]) == lines
  {
    var u, rest := Unlines(lines), Unlines(lines[1..]);
    if |lines| == 1 {
      assert rest == "" && u == lines[0] + "\n" && u[..|u| - 1] == lines[0];
      SplitOne(lines[0]);
    } else {
      SplitUnlines(lines[1..]);
      assert u[..|u| - 1] == lines[0] + "\n" + rest[..|rest| - 1];
      SplitLine(lines[0], rest[..|rest| - 1]);
    }
  }

  /** Splitting newline-terminated lines gives the lines back. */
  lemma SplitLinesUnlines(lines: seq<string>)
    requires LineList(lines)
    ensures SplitLines(Unlines(lines)) == lines
  {
    if lines != [] {
      SplitUnlines(lines);
      var u := Unlines(lines);
      NormalizeKeeps(u);
      if u[..|u| - 1] == "" { assert Split("") == [""]; }
    }
  }

  lemma {:induction false} JoinUnlines(lines: seq<string>)
    requires lines != []
    ensures Join(lines) + "\n" == Unlines(lines)
  {
    if |lines| > 1 {
      JoinUnlines(lines[1..]);
      assert Join(lines) + "\n" == lines[0] + "\n" + (Join(lines[1..]) + "\n");
    } else {
      assert Unlines(lines[1..]) == "";
    }
  }

  lemma {:induction false} SplitPieces(s: string)
    requires '\r' !in s
    ensures LineList(Split(s)) && Join(Split(s)) == s
  {
    if s != "" {
      SplitPieces(s[1..]);
      var rest := Split(s[1..]);
      if s[0] == '\n' {
        assert ([""] + rest)[1..] == rest;
      } else {
        assert OneLine(rest[0]);
        var parts := [[s[0]] + rest[0]] + rest[1..];
        if |rest| > 1 {
          assert parts[1..] == rest[1..];
        }
      }
    }
  }

  /** Newline-terminated text is its lines, each with its newline. */
  lemma TerminatedText(text: string)
    requires '\r' !in text && EndsInNewline(text)
    ensures LineList(SplitLines(text)) && SplitLines(text) != [] && Unlines(SplitLines(text)) == text
  {
    NormalizeKeeps(text);
    var u := text[..|text| - 1];
    SplitPieces(u);
    JoinUnlines(Split(u));
    assert text == u + "\n";
  }

  lemma {:induction false} UnlinesAppend(a: seq<string>, b: seq<string>)
    ensures Unlines(a + b) == Unlines(a) + Unlines(b)
  {
    if a == [] {
      assert a + b == b;
    } else {
      UnlinesAppend(a[1..], b);
      assert (a + b)[1..] == a[1..] + b;
    }
  }

  /** The lines of any text hold no newline, and each followed by one they are the normalised
      text: with a newline more, where its last line has none. */
  lemma SplitLinesAre(text: string)
    ensures forall i :: 0 <= i < |SplitLines(text)| ==> '\n' !in SplitLines(text)[i]
    ensures var t := Normalize(text);
            Unlines(SplitLines(text)) == if t == "" || t[|t| - 1] == '\n' then t else t + "\n"
  {
    var t := Normalize(text);
    if t != "" {
      SplitParts(t);
      SplitParts(t[..|t| - 1]);
      assert t == t[..|t| - 1] + [t[|t| - 1]];
    }
  }

  // ---- the line ranges of a text -----------------------------------------------------------

  /** `end` is where the line's text ends, `fullEnd` includes its newline. */
  datatype SourceLine = SourceLine(start: nat, end: nat, fullEnd: nat, text: string)

  /** strings.IndexByte for a newline, from `from` on; the length when there is none. */
  function NextNewline(text: string, from: nat): (i: nat)
    requires from <= |text|
    ensures from <= i <= |text| && (i < |text| ==> text[i] == '\n')
    ensures forall k :: from <= k < i ==> text[k] != '\n'
    decreases |text| - from
  {
    if from == |text| || text[from] == '\n' then from else NextNewline(text, from + 1)
  }

  /** The ranges tile the text: each starts where the one before it ended, and a line lacks
      its newline only at the very end. */
  ghost predicate Tiles(text: string, lines: seq<SourceLine>, upto: nat) {
    && upto <= |text|
    && (lines == [] ==> upto == 0)
    && (lines != [] ==> lines[0].start == 0 && lines[|lines| - 1].fullEnd == upto)
    && (forall i, j :: 0 <= i && j == i + 1 < |lines| ==> lines[j].start == lines[i].fullEnd)
    && (forall i :: 0 <= i < |lines| ==> LineAt(text, lines[i]))
    && (forall i :: 0 <= i < |lines| && lines[i].end == lines[i].fullEnd ==> lines[i].end == |text|)
  }

  ghost predicate LineAt(text: string, l: SourceLine) {
    && l.start <= l.end <= l.fullEnd <= |text| && l.start < l.fullEnd <= l.end + 1
    && l.text == text[l.start..l.end] && '\n' !in l.text
    && (l.end < l.fullEnd ==> text[l.end] == '\n')
  }

  /** The line that starts at `start`. */
  function LineFrom(text: string, start: nat): SourceLine
    requires start < |text|
  {
    var end := NextNewline(text, start);
    if end == |text| then SourceLine(start, end, end, text[start..])
    else SourceLine(start, end, end + 1, text[start..end])
  }

  lemma TilesMore(text: string, lines: seq<SourceLine>, start: nat)
    requires start < |text| && Tiles(text, lines, start)
    ensures Tiles(text, lines + [LineFrom(text, start)], LineFrom(text, start).fullEnd)
  {
    var l := LineFrom(text, start);
    assert '\n' !in l.text;
    var more := lines + [l];
    forall i, j | 0 <= i && j == i + 1 < |more| ensures more[j].start == more[i].fullEnd {
      if j < |lines| { assert lines[j].start == lines[i].fullEnd; }
    }
    forall i | 0 <= i < |more|
      ensures LineAt(text, more[i]) && (more[i].end == more[i].fullEnd ==> more[i].end == |text|)
    {
      if i < |lines| { assert LineAt(text, lines[i]); }
    }
  }

  lemma LinesMore(text: string, lines: seq<SourceLine>, start: nat)
    requires start < |text|
    ensures var l := LineFrom(text, start);
            lines + LinesFrom(text, start) == (lines + [l]) + LinesFrom(text, l.fullEnd)
  {
  }

  method ScanLines(text: string) returns (lines: seq<SourceLine>)
    ensures lines == LinesFrom(text, 0)
  {
    lines := [];
    var start := 0;
    while start < |text|
      invariant start <= |text|
      invariant LinesFrom(text, 0) == lines + LinesFrom(text, start)
      decreases |text| - start
    {
      var end := NextNewline(text, start);
      LinesMore(text, lines, start);
      if end == |text| {
        lines := lines + [SourceLine(start, |text|, |text|, text[start..])];
        start := |text|;
      } else {
        lines := lines + [SourceLine(start, end, end + 1, text[start..end])];
        start := end + 1;
      }
    }
    assert lines + LinesFrom(text, |text|) == lines;
  }

  /** The scanned ranges tile the text. */
  lemma ScanTiles(text: string)
    ensures Tiles(text, LinesFrom(text, 0), |text|)
  {
    TilesAll(text, [], 0);
    assert [] + LinesFrom(text, 0) == LinesFrom(text, 0);
  }

  lemma {:induction false} TilesAll(text: string, lines: seq<SourceLine>, start: nat)
    requires Tiles(text, lines, start)
    ensures Tiles(text, lines + LinesFrom(text, start), |text|)
    decreases |text| - start
  {
    if start < |text| {
      TilesMore(text, lines, start);
      LinesMore(text, lines, start);
      TilesAll(text, lines + [LineFrom(text, start)], LineFrom(text, start).fullEnd);
    } else {
      assert lines + LinesFrom(text, start) == lines;
    }
  }

  function LinesFrom(text: string, start: nat): seq<SourceLine>
    requires start <= |text|
    decreases |text| - start
  {
    if start == |text| then []
    else [LineFrom(text, start)] + LinesFrom(text, LineFrom(text, start).fullEnd)
  }

  function Texts(lines: seq<SourceLine>): seq<string> {
    if lines == [] then [] else [lines[0].text] + Texts(lines[1..])
  }

  /** What the text from `start` on splits into, its last newline aside. */
  function Pieces(text: string, start: nat): seq<string>
    requires start < |text|
  {
    if text[|text| - 1] == '\n' then Split(text[start..|text| - 1]) else Split(text[start..])
  }

  lemma CutAt(text: string, start: nat, end: nat, hi: nat)
    requires start <= end < hi <= |text| && text[end] == '\n'
    ensures text[start..hi] == text[start..end] + "\n" + text[end + 1..hi]
  {
  }

  lemma PiecesTo(text: string, start: nat, hi: nat)
    requires start < |text| && hi == if text[|text| - 1] == '\n' then |text| - 1 else |text|
    ensures Pieces(text, start) == Split(text[start..hi])
  {
    assert text[start..|text|] == text[start..];
  }

  lemma PiecesStep(text: string, start: nat)
    requires start < |text|
    ensures var l := LineFrom(text, start);
            Pieces(text, start) == if l.fullEnd == |text| then [l.text] else [l.text] + Pieces(text, l.fullEnd)
  {
    hide Split;
    var end := NextNewline(text, start);
    if end == |text| {
      SplitOne(text[start..]);
    } else {
      var line := text[start..end];
      if end + 1 == |text| {
        SplitOne(line);
      } else {
        var hi := if text[|text| - 1] == '\n' then |text| - 1 else |text|;
        CutAt(text, start, end, hi);
        SplitLine(line, text[end + 1..hi]);
        PiecesTo(text, start, hi);
        PiecesTo(text, end + 1, hi);
      }
    }
  }

  lemma {:induction false} TextsArePieces(text: string, start: nat)
    requires start < |text|
    ensures Texts(LinesFrom(text, start)) == Pieces(text, start)
    decreases |text| - start
  {
    PiecesStep(text, start);
    var l := LineFrom(text, start);
    assert LinesFrom(text, start)[1..] == LinesFrom(text, l.fullEnd);
    if l.fullEnd < |text| { TextsArePieces(text, l.fullEnd); }
  }

  /** The scanned ranges carry the lines that SplitLines gives, for text without CR. */
  lemma ScanAgreesWithSplit(text: string)
    requires '\r' !in text
    ensures Texts(LinesFrom(text, 0)) == SplitLines(text)
  {
    NormalizeKeeps(text);
    if text != "" {
      TextsArePieces(text, 0);
      assert text[0..] == text && text[0..|text| - 1] == text[..|text| - 1];
    }
  }
}
