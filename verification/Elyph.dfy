/** The ELyph parser over tokenised lines: a stack of blocks, the kind of the block closed
    last, and the steps seen. */
module Elyph {
  import opened Options

  datatype Kind = IfBlock | ElseBlock | EachBlock | StepBlock

  datatype Header = Header(kind: string, name: string)

  /** A trimmed line. `Hash` starts with `#`, with its header if that is well formed; `Bad` is
      any other malformed line, which may still open a block, and may start with `?else`. A
      single-line step has a simple statement as its body, which may be malformed too. */
  datatype Token =
    | Blank | Hash(header: Option<Header>) | CloseLine
    | SimpleLine | OpenIf | OpenElse | OpenEach | OpenStep(name: string) | StepLine(name: string, good: bool)
    | Bad(elseLine: bool, opens: Option<Kind>)

  datatype Problem =
    | FirstNotHeader | HeaderAgain | UnexpectedClose | StepEmpty | StepNotSingleLine | ElseWithoutIf
    | StepNested | StepNameUsed | Malformed | HeaderMissing | KindMismatch | NameMismatch | Unclosed

  datatype Frame = Frame(kind: Kind, directCount: nat)

  datatype Parser = Parser(header: Option<Header>, blocks: seq<Frame>, lastClosed: Option<Kind>,
                           steps: seq<string>, errors: seq<Problem>)

  // ---- the parser's functions --------------------------------------------------------------------

  function Add(p: Parser, e: Problem): Parser { p.(errors := p.errors + [e]) }

  function Opened(p: Parser, kind: Kind): Parser {
    p.(blocks := p.blocks + [Frame(kind, 0)], lastClosed := None)
  }

  /** One direct statement more for the innermost block. */
  function Counted(blocks: seq<Frame>): seq<Frame> {
    var n := |blocks|;
    if n == 0 then blocks else blocks[n - 1 := blocks[n - 1].(directCount := blocks[n - 1].directCount + 1)]
  }

  predicate InStep(blocks: seq<Frame>) { exists i :: 0 <= i < |blocks| && blocks[i].kind == StepBlock }

  function StepProblem(p: Parser, name: string): Option<Problem> {
    if InStep(p.blocks) then Some(StepNested) else if name in p.steps then Some(StepNameUsed) else None
  }

  function Closed(p: Parser): Parser {
    var n := |p.blocks|;
    if n == 0 then Add(p, UnexpectedClose).(lastClosed := None)
    else
      var frame := p.blocks[n - 1];
      var q := p.(blocks := p.blocks[..n - 1], lastClosed := Some(frame.kind));
      if frame.kind == StepBlock && frame.directCount == 0 then Add(q, StepEmpty)
      else if frame.kind == StepBlock && frame.directCount == 1 then Add(q, StepNotSingleLine)
      else q
  }

  /** parseStatementContent */
  function Statement(p: Parser, t: Token): Parser {
    var q := if t.OpenElse? || (t.Bad? && t.elseLine) then p else p.(lastClosed := None);
    match t
    case SimpleLine => q
    case OpenIf => Opened(q, IfBlock)
    case OpenElse => if p.lastClosed != Some(IfBlock) then Add(q, ElseWithoutIf) else Opened(q, ElseBlock)
    case OpenEach => Opened(q, EachBlock)
    case OpenStep(name) =>
      (match StepProblem(q, name)
       case Some(e) => Add(q, e)
       case None => Opened(q.(steps := q.steps + [name]), StepBlock))
    case StepLine(name, good) =>
      (match StepProblem(q, name)
       case Some(e) => Add(q, e)
       case None =>
         var r := q.(steps := q.steps + [name]);
         if good then r else Add(r, Malformed))
    case Bad(elseLine, opens) => if opens.Some? then Opened(Add(q, Malformed), opens.value) else Add(q, Malformed)
    case Blank | Hash(_) | CloseLine => Add(q, Malformed)
  }

  /** parseLine */
  function Line(p: Parser, t: Token): Parser {
    if t.Blank? then p
    else if p.header.None? then
      (if t.Hash? && t.header.Some? then p.(header := t.header) else Add(p, FirstNotHeader))
    else if t.Hash? then Add(p, HeaderAgain)
    else if t.CloseLine? then Closed(p)
    else Statement(p.(blocks := Counted(p.blocks)), t)
  }

  function Start(): Parser { Parser(None, [], None, [], []) }

  function Run(p: Parser, tokens: seq<Token>): Parser {
    if tokens == [] then p else Line(Run(p, tokens[..|tokens| - 1]), tokens[|tokens| - 1])
  }

  /** finish; an empty string expects nothing. */
  function Finished(p: Parser, kind: string, name: string): Parser {
    var a := if p.header.None? then Add(p, HeaderMissing) else p;
    var b := if kind != "" && p.header.Some? && p.header.value.kind != "" && p.header.value.kind != kind
             then Add(a, KindMismatch) else a;
    var c := if name != "" && p.header.Some? && p.header.value.name != "" && p.header.value.name != name
             then Add(b, NameMismatch) else b;
    if p.blocks != [] then Add(c, Unclosed) else c
  }

  // ---- the parser object ------------------------------------------------------------------------------

  class ParserObject {
    const expectedKind: string
    const expectedName: string
    var header: Option<Header>
    var blocks: seq<Frame>
    var lastClosed: Option<Kind>
    var steps: seq<string>
    var errors: seq<Problem>

    function View(): Parser
      reads this
    {
      Parser(header, blocks, lastClosed, steps, errors)
    }

    constructor (expectedKind: string, expectedName: string)
      ensures View() == Start() && this.expectedKind == expectedKind && this.expectedName == expectedName
    {
      this.expectedKind, this.expectedName := expectedKind, expectedName;
      header, blocks, lastClosed, steps, errors := None, [], None, [], [];
    }

    method Report(e: Problem)
      modifies `errors
      ensures View() == Add(old(View()), e)
    {
      errors := errors + [e];
    }

    method OpenBlock(kind: Kind)
      modifies `blocks, `lastClosed
      ensures View() == Opened(old(View()), kind)
    {
      blocks := blocks + [Frame(kind, 0)];
      lastClosed := None;
    }

    method CloseBlock()
      modifies `blocks, `lastClosed, `errors
      ensures View() == Closed(old(View()))
    {
      if |blocks| == 0 {
        Report(UnexpectedClose);
        lastClosed := None;
        return;
      }
      var frame := blocks[|blocks| - 1];
      blocks := blocks[..|blocks| - 1];
      if frame.kind == StepBlock {
        if frame.directCount == 0 {
          Report(StepEmpty);
        } else if frame.directCount == 1 {
          Report(StepNotSingleLine);
        }
      }
      lastClosed := Some(frame.kind);
    }

    /** The two loops of rejectStepContext. */
    method RejectStepContext(name: string) returns (rejected: bool)
      modifies `errors
      ensures rejected <==> StepProblem(old(View()), name).Some?
      ensures View() == if rejected then Add(old(View()), StepProblem(old(View()), name).value) else old(View())
    {
      for i := 0 to |blocks|
        invariant forall k :: 0 <= k < i ==> blocks[k].kind != StepBlock
        invariant errors == old(errors)
      {
        if blocks[i].kind == StepBlock {
          Report(StepNested);
          return true;
        }
      }
      for i := 0 to |steps|
        invariant name !in steps[..i] && errors == old(errors)
      {
        if steps[i] == name {
          Report(StepNameUsed);
          return true;
        }
      }
      rejected := false;
    }

    method ParseElse()
      modifies `blocks, `lastClosed, `errors
      ensures View() == if old(lastClosed) != Some(IfBlock) then Add(old(View()), ElseWithoutIf)
                        else Opened(old(View()), ElseBlock)
    {
      if lastClosed != Some(IfBlock) {
        Report(ElseWithoutIf);
        return;
      }
      OpenBlock(ElseBlock);
    }

    method ParseStep(name: string, good: Option<bool>)
      modifies `blocks, `lastClosed, `errors, `steps
      ensures lastClosed == old(lastClosed) || lastClosed == None
      ensures old(lastClosed).None?
              ==> View() == Statement(old(View()), if good.Some? then StepLine(name, good.value) else OpenStep(name))
    {
      var rejected := RejectStepContext(name);
      if rejected { return; }
      steps := steps + [name];
      if good.None? {
        OpenBlock(StepBlock);
      } else if !good.value {
        Report(Malformed);
      }
    }

    method ParseStatementContent(t: Token)
      modifies `blocks, `lastClosed, `errors, `steps
      ensures View() == Statement(old(View()), t)
    {
      if !t.OpenElse? && !(t.Bad? && t.elseLine) { lastClosed := None; }
      match t {
        case SimpleLine =>
        case OpenIf => OpenBlock(IfBlock);
        case OpenElse => ParseElse();
        case OpenEach => OpenBlock(EachBlock);
        case OpenStep(name) => ParseStep(name, None);
        case StepLine(name, good) => ParseStep(name, Some(good));
        case Bad(elseLine, opens) =>
          Report(Malformed);
          if opens.Some? { OpenBlock(opens.value); }
        case Blank | Hash(_) | CloseLine => Report(Malformed);
      }
    }

    method ParseLine(t: Token)
      modifies this
      ensures View() == Line(old(View()), t)
    {
      if t.Blank? { return; }
      if header.None? {
        if t.Hash? && t.header.Some? { header := t.header; } else { Report(FirstNotHeader); }
        return;
      }
      if t.Hash? {
        Report(HeaderAgain);
        return;
      }
      if t.CloseLine? {
        CloseBlock();
        return;
      }
      if |blocks| > 0 {
        var top := blocks[|blocks| - 1];
        blocks := blocks[|blocks| - 1 := top.(directCount := top.directCount + 1)];
      }
      ParseStatementContent(t);
    }

    method Finish()
      modifies `errors
      ensures View() == Finished(old(View()), expectedKind, expectedName)
    {
      if header.None? { Report(HeaderMissing); }
      if expectedKind != "" && header.Some? && header.value.kind != "" && header.value.kind != expectedKind {
        Report(KindMismatch);
      }
      if expectedName != "" && header.Some? && header.value.name != "" && header.value.name != expectedName {
        Report(NameMismatch);
      }
      if |blocks| != 0 { Report(Unclosed); }
    }
  }

  /** parseDocument, from the tokens of the lines. */
  method ParseDocument(tokens: seq<Token>, kind: string, name: string) returns (p: Parser)
    ensures p == Finished(Run(Start(), tokens), kind, name)
  {
    var parser := new ParserObject(kind, name);
    for i := 0 to |tokens|
      invariant parser.View() == Run(Start(), tokens[..i])
    {
      assert tokens[..i + 1][..i] == tokens[..i];
      parser.ParseLine(tokens[i]);
    }
    assert tokens[..|tokens|] == tokens;
    parser.Finish();
    p := parser.View();
  }
}
