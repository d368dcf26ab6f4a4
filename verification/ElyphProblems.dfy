/** The problems the ELyph parser reports, line by line, told from the lines alone. */
module ElyphProblems {
  import opened Options
  import opened Elyph

  // ---- what the lines before say about a line ---------------------------------------------------

  /** The kind of block that a line opens, unless it is rejected. */
  function Opener(t: Token): Option<Kind> {
    match t
    case OpenIf => Some(IfBlock)
    case OpenElse => Some(ElseBlock)
    case OpenEach => Some(EachBlock)
    case OpenStep(_) => Some(StepBlock)
    case Bad(_, opens) => opens
    case Blank | Hash(_) | CloseLine | SimpleLine | StepLine(_, _) => None
  }

  function StepName(t: Token): Option<string> {
    match t
    case OpenStep(name) => Some(name)
    case StepLine(name, _) => Some(name)
    case Blank | Hash(_) | CloseLine | SimpleLine | OpenIf | OpenElse | OpenEach | Bad(_, _) => None
  }

  predicate IsHeader(t: Token) { t.Hash? && t.header.Some? }

  predicate IsStatement(t: Token) { !t.Blank? && !t.Hash? && !t.CloseLine? }

  /** Some line is a well-formed header. */
  ghost predicate Begun(tokens: seq<Token>) { exists i :: 0 <= i < |tokens| && IsHeader(tokens[i]) }

  /** The lines whose blocks are open after these lines, outermost first. */
  ghost function Open(tokens: seq<Token>): (open: seq<nat>)
    ensures forall k :: 0 <= k < |open| ==> open[k] < |tokens| && Opener(tokens[open[k]]).Some?
    decreases |tokens|, 0
  {
    if tokens == [] then []
    else
      var before, t := tokens[..|tokens| - 1], tokens[|tokens| - 1];
      var open := Open(before);
      if t.CloseLine? then (if open == [] then [] else open[..|open| - 1])
      else if Begun(before) && Opener(t).Some? && !Rejected(before, t) then open + [|before|]
      else open
  }

  /** Some open block is a step's. */
  ghost predicate Nested(tokens: seq<Token>)
    decreases |tokens|, 1
  {
    var open := Open(tokens);
    exists k :: 0 <= k < |open| && Opener(tokens[open[k]]) == Some(StepBlock)
  }

  /** Some step of this name stands outside other steps. */
  ghost predicate Used(tokens: seq<Token>, name: string)
    decreases |tokens|, 1
  {
    exists i :: 0 <= i < |tokens| && StepName(tokens[i]) == Some(name) && Begun(tokens[..i]) && !Nested(tokens[..i])
  }

  /** The last line closed an if block; blank lines, headers, and else lines that open
      nothing do not matter. */
  ghost predicate AfterIf(tokens: seq<Token>)
    decreases |tokens|, 1
  {
    tokens != [] &&
    var before, t := tokens[..|tokens| - 1], tokens[|tokens| - 1];
    var open := Open(before);
    if t.CloseLine? then open != [] && Opener(tokens[open[|open| - 1]]) == Some(IfBlock)
    else (t.Blank? || t.Hash? || (t.Bad? && t.elseLine && t.opens.None?)) && AfterIf(before)
  }

  /** Steps inside steps, steps of a name in use, and else lines that follow no if block. */
  ghost predicate Rejected(before: seq<Token>, t: Token)
    decreases |before|, 2
  {
    || (t.OpenElse? && !AfterIf(before))
    || (StepName(t).Some? && (Nested(before) || Used(before, StepName(t).value)))
  }

  /** How many statements stand directly in the block that line `i` opens. */
  ghost function Direct(tokens: seq<Token>, i: nat): nat {
    if tokens == [] then 0
    else
      var before, open := tokens[..|tokens| - 1], Open(tokens[..|tokens| - 1]);
      Direct(before, i) + if IsStatement(tokens[|tokens| - 1]) && open != [] && open[|open| - 1] == i then 1 else 0
  }

  // ---- the problems -------------------------------------------------------------------------------

  /** What is wrong with a line, after the lines before it. */
  ghost function ProblemOf(before: seq<Token>, t: Token): Option<Problem> {
    if t.Blank? then None
    else if !Begun(before) then (if IsHeader(t) then None else Some(FirstNotHeader))
    else if t.Hash? then Some(HeaderAgain)
    else if t.CloseLine? then CloseProblemOf(before)
    else StatementProblemOf(before, t)
  }

  ghost function CloseProblemOf(before: seq<Token>): Option<Problem> {
    var open := Open(before);
    if open == [] then Some(UnexpectedClose)
    else if Opener(before[open[|open| - 1]]) != Some(StepBlock) then None
    else if Direct(before, open[|open| - 1]) == 0 then Some(StepEmpty)
    else if Direct(before, open[|open| - 1]) == 1 then Some(StepNotSingleLine)
    else None
  }

  ghost function StatementProblemOf(before: seq<Token>, t: Token): Option<Problem>
    requires IsStatement(t)
  {
    match t
    case SimpleLine | OpenIf | OpenEach => None
    case OpenElse => if AfterIf(before) then None else Some(ElseWithoutIf)
    case OpenStep(name) => StepProblemOf(before, name)
    case StepLine(name, good) =>
      if StepProblemOf(before, name).None? && !good then Some(Malformed) else StepProblemOf(before, name)
    case Bad(_, _) => Some(Malformed)
  }

  ghost function StepProblemOf(before: seq<Token>, name: string): Option<Problem> {
    if Nested(before) then Some(StepNested) else if Used(before, name) then Some(StepNameUsed) else None
  }

  function Listed(e: Option<Problem>): seq<Problem> { if e.Some? then [e.value] else [] }

  ghost function Problems(tokens: seq<Token>): seq<Problem> {
    if tokens == [] then []
    else
      var before := tokens[..|tokens| - 1];
      Problems(before) + Listed(ProblemOf(before, tokens[|tokens| - 1]))
  }

  /** The first well-formed header. */
  function HeaderOf(tokens: seq<Token>): Option<Header> {
    if tokens == [] then None
    else
      var h, t := HeaderOf(tokens[..|tokens| - 1]), tokens[|tokens| - 1];
      if h.None? && IsHeader(t) then t.header else h
  }

  /** The names of the steps that stand outside other steps, each at its first use. */
  ghost function StepNames(tokens: seq<Token>): seq<string> {
    if tokens == [] then []
    else
      var before, t := tokens[..|tokens| - 1], tokens[|tokens| - 1];
      StepNames(before) + if Begun(before) then NewStep(before, t) else []
  }

  ghost function NewStep(before: seq<Token>, t: Token): seq<string> {
    if StepName(t).Some? && StepProblemOf(before, StepName(t).value).None? then [StepName(t).value] else []
  }

  predicate Differs(expected: string, actual: string) { expected != "" && actual != "" && actual != expected }

  /** What is wrong at the end; an empty kind or name expects nothing. */
  ghost function EndProblems(tokens: seq<Token>, kind: string, name: string): seq<Problem> {
    var h := HeaderOf(tokens);
    (if h.None? then [HeaderMissing] else [])
    + (if h.Some? && Differs(kind, h.value.kind) then [KindMismatch] else [])
    + (if h.Some? && Differs(name, h.value.name) then [NameMismatch] else [])
    + (if Open(tokens) != [] then [Unclosed] else [])
  }

  // ---- the parser keeps what this needs ------------------------------------------------------------

  ghost predicate FramesShow(blocks: seq<Frame>, tokens: seq<Token>, open: seq<nat>) {
    |blocks| == |open| && forall k :: 0 <= k < |open| ==>
      && open[k] < |tokens| && Opener(tokens[open[k]]) == Some(blocks[k].kind)
      && blocks[k].directCount == Direct(tokens, open[k])
  }

  ghost predicate Ascending(open: seq<nat>) { forall k, m :: 0 <= k < m < |open| ==> open[k] < open[m] }

  /** The parser's state, read off the lines. */
  ghost predicate Shows(p: Parser, tokens: seq<Token>) {
    && (p.header.Some? <==> Begun(tokens))
    && (p.header.None? ==> p.blocks == [] && p.lastClosed.None? && p.steps == [])
    && FramesShow(p.blocks, tokens, Open(tokens)) && Ascending(Open(tokens))
    && (p.lastClosed == Some(IfBlock) <==> AfterIf(tokens))
    && (forall name :: name in p.steps <==> Used(tokens, name))
  }

  lemma BegunNext(before: seq<Token>, t: Token)
    ensures Begun(before + [t]) <==> Begun(before) || IsHeader(t)
  {
    var tokens := before + [t];
    if Begun(before) {
      var i :| 0 <= i < |before| && IsHeader(before[i]);
      assert IsHeader(tokens[i]);
    }
    if IsHeader(t) { assert IsHeader(tokens[|before|]); }
  }

  lemma UsedNext(before: seq<Token>, t: Token, name: string)
    ensures Used(before + [t], name)
            <==> Used(before, name) || (StepName(t) == Some(name) && Begun(before) && !Nested(before))
  {
    var tokens := before + [t];
    assert tokens[..|before|] == before;
    assert forall i :: 0 <= i < |before| ==> tokens[i] == before[i] && tokens[..i] == before[..i];
    if Used(before, name) {
      var i :| 0 <= i < |before| && StepName(before[i]) == Some(name) && Begun(before[..i]) && !Nested(before[..i]);
      assert StepName(tokens[i]) == Some(name);
    }
    if StepName(t) == Some(name) && Begun(before) && !Nested(before) {
      assert StepName(tokens[|before|]) == Some(name);
    }
  }

  /** What one more line makes of the open blocks and of the last closed one. */
  lemma Next(before: seq<Token>, t: Token)
    ensures var all, open := before + [t], Open(before);
            && Open(all) == (if t.CloseLine? then (if open == [] then [] else open[..|open| - 1])
                             else if Begun(before) && Opener(t).Some? && !Rejected(before, t) then open + [|before|]
                             else open)
            && (AfterIf(all) <==>
                  if t.CloseLine? then open != [] && Opener(all[open[|open| - 1]]) == Some(IfBlock)
                  else (t.Blank? || t.Hash? || (t.Bad? && t.elseLine && t.opens.None?)) && AfterIf(before))
  {
    assert (before + [t])[..|before|] == before;
  }

  lemma DirectNext(before: seq<Token>, t: Token, i: nat)
    ensures var open := Open(before);
            Direct(before + [t], i)
            == Direct(before, i) + if IsStatement(t) && open != [] && open[|open| - 1] == i then 1 else 0
  {
    assert (before + [t])[..|before|] == before;
  }

  lemma {:induction false} DirectFresh(tokens: seq<Token>, i: nat)
    requires |tokens| <= i + 1
    ensures Direct(tokens, i) == 0
  {
    if tokens != [] { DirectFresh(tokens[..|tokens| - 1], i); }
  }

  lemma NestedIs(blocks: seq<Frame>, tokens: seq<Token>)
    requires FramesShow(blocks, tokens, Open(tokens))
    ensures InStep(blocks) <==> Nested(tokens)
  {
    if InStep(blocks) {
      var k :| 0 <= k < |blocks| && blocks[k].kind == StepBlock;
      assert Opener(tokens[Open(tokens)[k]]) == Some(StepBlock);
    }
    if Nested(tokens) {
      var k :| 0 <= k < |Open(tokens)| && Opener(tokens[Open(tokens)[k]]) == Some(StepBlock);
      assert blocks[k].kind == StepBlock;
    }
  }

  function Bumped(blocks: seq<Frame>, t: Token): seq<Frame> { if IsStatement(t) then Counted(blocks) else blocks }

  lemma {:induction false} FrameNext(blocks: seq<Frame>, before: seq<Token>, t: Token, open: seq<nat>, k: nat)
    requires open == Open(before) && k < |open| == |blocks| && open[k] < |before| && Ascending(open)
    requires blocks[k].directCount == Direct(before, open[k])
    ensures |Bumped(blocks, t)| == |blocks| && Bumped(blocks, t)[k].kind == blocks[k].kind
    ensures Bumped(blocks, t)[k].directCount == Direct(before + [t], open[k])
  {
    hide Open, Direct;
    DirectNext(before, t, open[k]);
    if k < |open| - 1 { assert open[k] < open[|open| - 1]; }
  }

  lemma {:induction false} FramesNext(blocks: seq<Frame>, before: seq<Token>, t: Token)
    requires FramesShow(blocks, before, Open(before)) && Ascending(Open(before))
    ensures FramesShow(Bumped(blocks, t), before + [t], Open(before))
  {
    hide Open, Direct, Bumped, Ascending;
    var open := Open(before);
    if blocks == [] { BumpedNone(t); }
    forall k | 0 <= k < |open|
      ensures |Bumped(blocks, t)| == |blocks| && Bumped(blocks, t)[k].kind == blocks[k].kind
      ensures Bumped(blocks, t)[k].directCount == Direct(before + [t], open[k])
    {
      FrameNext(blocks, before, t, open, k);
    }
    if blocks != [] { FrameNext(blocks, before, t, open, 0); }
  }

  lemma BumpedNone(t: Token)
    ensures Bumped([], t) == []
  {
  }

  lemma {:induction false} FramesOpened(blocks: seq<Frame>, before: seq<Token>, t: Token, kind: Kind)
    requires FramesShow(blocks, before + [t], Open(before)) && Opener(t) == Some(kind)
    ensures FramesShow(blocks + [Frame(kind, 0)], before + [t], Open(before) + [|before|])
  {
    hide Direct, Open;
    DirectFresh(before + [t], |before|);
  }

  lemma FramesClosed(blocks: seq<Frame>, tokens: seq<Token>, open: seq<nat>)
    requires FramesShow(blocks, tokens, open) && open != []
    ensures FramesShow(blocks[..|blocks| - 1], tokens, open[..|open| - 1])
  {
  }

  // ---- line by line -----------------------------------------------------------------------------------

  lemma CountedInStep(blocks: seq<Frame>)
    ensures InStep(Counted(blocks)) <==> InStep(blocks)
  {
    if InStep(blocks) {
      var k :| 0 <= k < |blocks| && blocks[k].kind == StepBlock;
      assert Counted(blocks)[k].kind == StepBlock;
    }
  }

  /** What a statement does, told from the lines before it. */
  lemma StatementDoes(p: Parser, before: seq<Token>, t: Token)
    requires p.header.Some? && IsStatement(t) && (InStep(Counted(p.blocks)) <==> Nested(before))
    requires p.lastClosed == Some(IfBlock) <==> AfterIf(before)
    requires forall name :: name in p.steps <==> Used(before, name)
    ensures var q, opens := Line(p, t), Opener(t).Some? && !Rejected(before, t);
            && q.header == p.header && q.errors == p.errors + Listed(StatementProblemOf(before, t))
            && q.blocks == (if opens then Counted(p.blocks) + [Frame(Opener(t).value, 0)] else Counted(p.blocks))
            && (q.lastClosed == Some(IfBlock) <==> t.Bad? && t.elseLine && t.opens.None? && AfterIf(before))
            && q.steps == p.steps + NewStep(before, t)
            && (StepName(t).Some? && !Nested(before)
                ==> Used(before, StepName(t).value) || NewStep(before, t) == [StepName(t).value])
            && (StepName(t).None? || Nested(before) ==> NewStep(before, t) == [])
            && (StepName(t).Some? && Used(before, StepName(t).value) ==> NewStep(before, t) == [])
  {
    hide InStep, Counted, Nested, Used, AfterIf, Begun;
  }

  lemma StatementShows(p: Parser, before: seq<Token>, t: Token)
    requires Shows(p, before) && p.header.Some? && IsStatement(t)
    ensures Shows(Line(p, t), before + [t])
    ensures Line(p, t).errors == p.errors + Listed(StatementProblemOf(before, t)) && Line(p, t).header == p.header
    ensures Line(p, t).steps == p.steps + NewStep(before, t)
  {
    hide NewStep, Line, Open, Nested, Used, AfterIf, Begun, Direct, Counted, InStep, Rejected, FramesShow;
    hide StatementProblemOf;
    var q, all, opens := Line(p, t), before + [t], Opener(t).Some? && !Rejected(before, t);
    BegunNext(before, t);
    Next(before, t);
    NestedIs(p.blocks, before);
    CountedInStep(p.blocks);
    StatementDoes(p, before, t);
    FramesNext(p.blocks, before, t);
    if opens { FramesOpened(Counted(p.blocks), before, t, Opener(t).value); }
    forall name ensures name in q.steps <==> Used(all, name) {
      UsedNext(before, t, name);
    }
  }

  lemma {:induction false} CloseShows(p: Parser, before: seq<Token>)
    requires Shows(p, before) && p.header.Some?
    ensures Shows(Line(p, CloseLine), before + [CloseLine])
    ensures Line(p, CloseLine).errors == p.errors + Listed(CloseProblemOf(before))
    ensures Line(p, CloseLine).header == p.header && Line(p, CloseLine).steps == p.steps
  {
    hide Open, Nested, Used, AfterIf, Begun, Direct;
    var all := before + [CloseLine];
    BegunNext(before, CloseLine);
    Next(before, CloseLine);
    FramesNext(p.blocks, before, CloseLine);
    if p.blocks != [] { FramesClosed(p.blocks, all, Open(before)); }
    forall name ensures name in p.steps <==> Used(all, name) {
      UsedNext(before, CloseLine, name);
    }
  }

  /** Blank lines, headers, and all before the header. */
  lemma OtherShows(p: Parser, before: seq<Token>, t: Token)
    requires Shows(p, before) && (p.header.None? || t.Blank? || t.Hash?)
    ensures Shows(Line(p, t), before + [t])
    ensures Line(p, t).errors == p.errors + Listed(ProblemOf(before, t))
    ensures Line(p, t).header == (if p.header.None? && IsHeader(t) then t.header else p.header)
    ensures Line(p, t).steps == p.steps
  {
    hide Open, Nested, Used, AfterIf, Begun, Direct;
    BegunNext(before, t);
    Next(before, t);
    if t.Blank? || t.Hash? { FramesNext(p.blocks, before, t); }
    forall name ensures name in p.steps <==> Used(before + [t], name) {
      UsedNext(before, t, name);
    }
  }

  lemma HeaderShows(p: Parser, before: seq<Token>)
    requires Shows(p, before)
    ensures p.header.Some? <==> Begun(before)
  {
  }

  /** The problems that a line adds, and the state after it. */
  lemma LineShows(p: Parser, before: seq<Token>, t: Token)
    requires Shows(p, before)
    ensures Shows(Line(p, t), before + [t])
    ensures Line(p, t).errors == p.errors + Listed(ProblemOf(before, t))
    ensures Line(p, t).header == (if p.header.None? && IsHeader(t) then t.header else p.header)
    ensures Line(p, t).steps == p.steps + if Begun(before) then NewStep(before, t) else []
  {
    hide NewStep, Line, Shows, CloseProblemOf, StatementProblemOf;
    HeaderShows(p, before);
    if p.header.None? || t.Blank? || t.Hash? {
      if p.header.Some? { NoNewStep(before, t); }
      OtherShows(p, before, t);
    } else if t.CloseLine? {
      NoNewStep(before, t);
      CloseShows(p, before);
    } else {
      StatementShows(p, before, t);
    }
  }

  lemma NoNewStep(before: seq<Token>, t: Token)
    requires !IsStatement(t)
    ensures NewStep(before, t) == []
  {
  }

  lemma {:induction false} RunShows(tokens: seq<Token>)
    ensures Shows(Run(Start(), tokens), tokens)
    ensures Run(Start(), tokens).errors == Problems(tokens)
    ensures Run(Start(), tokens).header == HeaderOf(tokens) && Run(Start(), tokens).steps == StepNames(tokens)
  {
    if tokens != [] {
      var before, t := tokens[..|tokens| - 1], tokens[|tokens| - 1];
      RunShows(before);
      assert tokens == before + [t];
      LineShows(Run(Start(), before), before, t);
    }
  }

  /** The parser reports, in order, exactly the problems of the lines and then those of the
      end, whatever the document, and lists the steps that it accepts. */
  lemma {:induction false} Reports(tokens: seq<Token>, kind: string, name: string)
    ensures var p := Finished(Run(Start(), tokens), kind, name);
            p.errors == Problems(tokens) + EndProblems(tokens, kind, name) && p.steps == StepNames(tokens)
  {
    hide Run, Problems, StepNames, Open, Begun, Nested, Used, AfterIf, Direct;
    RunShows(tokens);
    var p := Run(Start(), tokens);
    assert p.blocks != [] <==> Open(tokens) != [];
  }
}
