/** What the ELyph parser accepts: a header and the flattening of a forest of blocks. */
module ElyphGrammar {
  import opened Basics
  import opened Options
  import opened Elyph

  datatype Node = Simple | Step(name: string) | Block(kind: Kind, name: string, body: Forest)

  /** A list of nodes, growing at its end. */
  datatype Forest = Empty | Then(rest: Forest, last: Node)

  function OpenToken(kind: Kind, name: string): Token {
    match kind
    case IfBlock => OpenIf
    case ElseBlock => OpenElse
    case EachBlock => OpenEach
    case StepBlock => OpenStep(name)
  }

  function Flatten(f: Forest): seq<Token> {
    match f
    case Empty => []
    case Then(rest, last) => Flatten(rest) + FlatNode(last)
  }

  function FlatNode(n: Node): seq<Token> {
    match n
    case Simple => [SimpleLine]
    case Step(name) => [StepLine(name, true)]
    case Block(kind, name, body) => [OpenToken(kind, name)] + Flatten(body) + [CloseLine]
  }

  function Count(f: Forest): nat { if f.Empty? then 0 else Count(f.rest) + 1 }

  /** Step names in the order of their lines. */
  function Names(f: Forest): seq<string> {
    match f
    case Empty => []
    case Then(rest, last) => Names(rest) + NodeNames(last)
  }

  function NodeNames(n: Node): seq<string> {
    match n
    case Simple => []
    case Step(name) => [name]
    case Block(kind, name, body) => (if kind == StepBlock then [name] else []) + Names(body)
  }

  predicate EndsInIf(f: Forest) { f.Then? && f.last.Block? && f.last.kind == IfBlock }

  /** Only step blocks have a name; else blocks directly follow a sibling if block; inside a
      step there is no step; a step block has at least two direct statements. */
  predicate WellFormed(f: Forest, inStep: bool) {
    match f
    case Empty => true
    case Then(rest, last) =>
      && WellFormed(rest, inStep) && NodeWellFormed(last, inStep)
      && (last.Block? && last.kind == ElseBlock ==> EndsInIf(rest))
  }

  predicate NodeWellFormed(n: Node, inStep: bool) {
    match n
    case Simple => true
    case Step(name) => !inStep
    case Block(kind, name, body) =>
      && (kind != StepBlock ==> name == "")
      && (kind == StepBlock ==> !inStep && Count(body) >= 2)
      && WellFormed(body, inStep || kind == StepBlock)
  }

  // ---- a forest is parsed without a problem ------------------------------------------------------

  lemma {:induction false} RunConcat(p: Parser, a: seq<Token>, b: seq<Token>)
    ensures Run(p, a + b) == Run(Run(p, a), b)
    decreases |b|
  {
    if b == [] {
      assert a + b == a;
    } else {
      RunConcat(p, a, b[..|b| - 1]);
      assert (a + b)[..|a + b| - 1] == a + b[..|b| - 1];
    }
  }

  lemma RunOne(p: Parser, t: Token)
    ensures Run(p, [t]) == Line(p, t)
  {
    assert Run(p, []) == p;
  }

  /** The direct statements of the innermost block, `n` more. */
  function CountedBy(blocks: seq<Frame>, n: nat): seq<Frame> {
    var k := |blocks|;
    if k == 0 then blocks else blocks[k - 1 := blocks[k - 1].(directCount := blocks[k - 1].directCount + n)]
  }

  /** The block closed last, after the forest. */
  function LastClosed(f: Forest, before: Option<Kind>): Option<Kind> {
    if f.Empty? then before else if f.last.Block? then Some(f.last.kind) else None
  }

  /** The parser after a forest that it has no problem with. */
  function Through(p: Parser, f: Forest): Parser {
    p.(blocks := CountedBy(p.blocks, Count(f)), lastClosed := LastClosed(f, p.lastClosed), steps := p.steps + Names(f))
  }

  function ThroughNode(p: Parser, n: Node): Parser {
    p.(blocks := Counted(p.blocks),
       lastClosed := if n.Block? then Some(n.kind) else None,
       steps := p.steps + NodeNames(n))
  }

  lemma ThroughMore(p: Parser, f: Forest)
    requires f.Then?
    ensures ThroughNode(Through(p, f.rest), f.last) == Through(p, f)
  {
    assert p.steps + Names(f.rest) + NodeNames(f.last) == p.steps + (Names(f.rest) + NodeNames(f.last));
  }

  lemma DistinctParts(steps: seq<string>, a: seq<string>, b: seq<string>)
    requires Distinct(steps + (a + b))
    ensures Distinct(steps + a) && Distinct(steps + a + b)
  {
    assert steps + a + b == steps + (a + b);
    assert forall i :: 0 <= i < |steps + a| ==> (steps + a)[i] == (steps + (a + b))[i];
  }

  lemma CountedStep(blocks: seq<Frame>, frame: Frame)
    ensures InStep(Counted(blocks)) == InStep(blocks)
    ensures InStep(blocks + [frame]) == (InStep(blocks) || frame.kind == StepBlock)
  {
    if InStep(blocks) {
      var i :| 0 <= i < |blocks| && blocks[i].kind == StepBlock;
      assert Counted(blocks)[i].kind == StepBlock && (blocks + [frame])[i].kind == StepBlock;
    }
    if frame.kind == StepBlock { assert (blocks + [frame])[|blocks|].kind == StepBlock; }
  }

  lemma CountedBySteps(blocks: seq<Frame>, n: nat)
    ensures InStep(CountedBy(blocks, n)) == InStep(blocks)
  {
    if InStep(blocks) {
      var i :| 0 <= i < |blocks| && blocks[i].kind == StepBlock;
      assert CountedBy(blocks, n)[i].kind == StepBlock;
    }
  }

  lemma {:induction false} ForestParses(p: Parser, f: Forest)
    requires p.header.Some? && WellFormed(f, InStep(p.blocks)) && Distinct(p.steps + Names(f))
    ensures Run(p, Flatten(f)) == Through(p, f)
    decreases f
  {
    if f.Then? {
      DistinctParts(p.steps, Names(f.rest), NodeNames(f.last));
      ForestParses(p, f.rest);
      RunConcat(p, Flatten(f.rest), FlatNode(f.last));
      CountedBySteps(p.blocks, Count(f.rest));
      NodeParses(Through(p, f.rest), f.last);
      ThroughMore(p, f);
    } else {
      assert p.steps + [] == p.steps;
    }
  }

  lemma {:induction false} NodeParses(p: Parser, n: Node)
    requires p.header.Some? && NodeWellFormed(n, InStep(p.blocks)) && Distinct(p.steps + NodeNames(n))
    requires n.Block? && n.kind == ElseBlock ==> p.lastClosed == Some(IfBlock)
    ensures Run(p, FlatNode(n)) == ThroughNode(p, n)
    decreases n
  {
    match n
    case Simple => RunOne(p, SimpleLine); assert p.steps + [] == p.steps;
    case Step(name) =>
      RunOne(p, StepLine(name, true));
      CountedStep(p.blocks, Frame(StepBlock, 0));
      NotUsed(p.steps, name);
    case Block(kind, name, body) =>
      BlockOpens(p, n);
      var q := InBlock(p, n);
      CountedStep(Counted(p.blocks), Frame(kind, 0));
      CountedStep(p.blocks, Frame(kind, 0));
      BlockNames(p.steps, n);
      ForestParses(q, body);
      BlockCloses(p, n);
      RunConcat(p, [OpenToken(kind, name)] + Flatten(body), [CloseLine]);
      RunConcat(p, [OpenToken(kind, name)], Flatten(body));
      RunOne(Run(q, Flatten(body)), CloseLine);
  }

  lemma NotUsed(steps: seq<string>, name: string)
    requires Distinct(steps + [name])
    ensures name !in steps
  {
    forall i | 0 <= i < |steps| ensures steps[i] != name {
      assert (steps + [name])[i] != (steps + [name])[|steps|];
    }
  }

  /** The parser inside the block that it has just opened. */
  function InBlock(p: Parser, n: Node): Parser
    requires n.Block?
  {
    p.(blocks := Counted(p.blocks) + [Frame(n.kind, 0)], lastClosed := None,
       steps := p.steps + (if n.kind == StepBlock then [n.name] else []))
  }

  lemma BlockNames(steps: seq<string>, n: Node)
    requires n.Block? && Distinct(steps + NodeNames(n))
    ensures Distinct(steps + (if n.kind == StepBlock then [n.name] else []) + Names(n.body))
    ensures n.kind == StepBlock ==> n.name !in steps
  {
    DistinctParts(steps, if n.kind == StepBlock then [n.name] else [], Names(n.body));
    if n.kind == StepBlock { NotUsed(steps, n.name); }
  }

  lemma BlockOpens(p: Parser, n: Node)
    requires n.Block? && p.header.Some? && NodeWellFormed(n, InStep(p.blocks)) && Distinct(p.steps + NodeNames(n))
    requires n.kind == ElseBlock ==> p.lastClosed == Some(IfBlock)
    ensures Run(p, [OpenToken(n.kind, n.name)]) == InBlock(p, n)
  {
    RunOne(p, OpenToken(n.kind, n.name));
    CountedStep(p.blocks, Frame(n.kind, 0));
    BlockNames(p.steps, n);
    assert p.steps + [] == p.steps;
  }

  lemma BlockCloses(p: Parser, n: Node)
    requires n.Block? && p.header.Some? && (n.kind == StepBlock ==> Count(n.body) >= 2)
    ensures Line(Through(InBlock(p, n), n.body), CloseLine) == ThroughNode(p, n)
  {
    TopCounted(Counted(p.blocks), Frame(n.kind, 0), Count(n.body));
    Regroup(p.steps, if n.kind == StepBlock then [n.name] else [], Names(n.body));
  }

  lemma TopCounted(blocks: seq<Frame>, frame: Frame, n: nat)
    ensures var more := CountedBy(blocks + [frame], n);
            && |more| == |blocks| + 1 && more[..|blocks|] == blocks
            && more[|blocks|] == frame.(directCount := frame.directCount + n)
  {
  }

  lemma Regroup<T>(a: seq<T>, b: seq<T>, c: seq<T>)
    ensures a + (b + c) == a + b + c
  {
  }

  // ---- a run without a problem has read a forest ------------------------------------------------------

  /** What has been read so far: the document's nodes at the bottom, above them the open
      blocks with theirs. */
  datatype Stack = Bottom(forest: Forest) | Level(below: Stack, frame: Frame, name: string, forest: Forest)

  function Flat(s: Stack): seq<Token> {
    match s
    case Bottom(forest) => Flatten(forest)
    case Level(below, frame, name, forest) => Flat(below) + [OpenToken(frame.kind, name)] + Flatten(forest)
  }

  function Frames(s: Stack): seq<Frame> {
    if s.Bottom? then [] else Frames(s.below) + [s.frame]
  }

  function StackNames(s: Stack): seq<string> {
    match s
    case Bottom(forest) => Names(forest)
    case Level(below, frame, name, forest) =>
      StackNames(below) + (if frame.kind == StepBlock then [name] else []) + Names(forest)
  }

  function AddNode(s: Stack, n: Node): Stack { s.(forest := Then(s.forest, n)) }

  function Bump(s: Stack): Stack {
    if s.Bottom? then s else s.(frame := s.frame.(directCount := s.frame.directCount + 1))
  }

  /** One more token read. */
  function Grow(s: Stack, t: Token): Stack {
    match t
    case SimpleLine => AddNode(Bump(s), Simple)
    case StepLine(name, good) => AddNode(Bump(s), Step(name))
    case OpenIf => Level(Bump(s), Frame(IfBlock, 0), "", Empty)
    case OpenElse => Level(Bump(s), Frame(ElseBlock, 0), "", Empty)
    case OpenEach => Level(Bump(s), Frame(EachBlock, 0), "", Empty)
    case OpenStep(name) => Level(Bump(s), Frame(StepBlock, 0), name, Empty)
    case CloseLine => if s.Bottom? then s else AddNode(s.below, Block(s.frame.kind, s.name, s.forest))
    case _ => s
  }

  /** Every level is well formed as far as it goes; counts are those of the levels, and one
      more where a block is open inside. */
  predicate StackOk(s: Stack, busy: bool) {
    match s
    case Bottom(forest) => WellFormed(forest, false)
    case Level(below, frame, name, forest) =>
      && StackOk(below, true)
      && frame.directCount == Count(forest) + (if busy then 1 else 0)
      && (frame.kind == ElseBlock ==> EndsInIf(below.forest))
      && (frame.kind != StepBlock ==> name == "")
      && (frame.kind == StepBlock ==> !StepOpen(below))
      && WellFormed(forest, StepOpen(s))
  }

  predicate StepOpen(s: Stack) { s.Level? && (s.frame.kind == StepBlock || StepOpen(s.below)) }

  predicate Reads(p: Parser, s: Stack) {
    && Frames(s) == p.blocks && StackOk(s, false)
    && (p.lastClosed == Some(IfBlock) ==> EndsInIf(s.forest))
    && StackNames(s) == p.steps && Distinct(p.steps)
  }

  lemma {:induction false} StepOpenIs(s: Stack)
    ensures StepOpen(s) <==> InStep(Frames(s))
  {
    if s.Level? {
      StepOpenIs(s.below);
      CountedStep(Frames(s.below), s.frame);
    }
  }

  lemma BumpOk(s: Stack)
    requires StackOk(s, false)
    ensures StackOk(Bump(s), true) && Frames(Bump(s)) == Counted(Frames(s)) && Flat(Bump(s)) == Flat(s)
    ensures StackNames(Bump(s)) == StackNames(s) && StepOpen(Bump(s)) == StepOpen(s) && Bump(s).forest == s.forest
  {
    if s.Level? {
      assert Frames(s)[..|Frames(s)| - 1] == Frames(s.below);
    }
  }

  lemma AddNodeOk(s: Stack, n: Node)
    requires StackOk(s, true) && NodeWellFormed(n, StepOpen(s))
             && (n.Block? && n.kind == ElseBlock ==> EndsInIf(s.forest))
    ensures StackOk(AddNode(s, n), false) && Frames(AddNode(s, n)) == Frames(s)
    ensures Flat(AddNode(s, n)) == Flat(s) + FlatNode(n) && StackNames(AddNode(s, n)) == StackNames(s) + NodeNames(n)
  {
    if s.Level? {
      var open := [OpenToken(s.frame.kind, s.name)];
      assert Flat(s.below) + open + (Flatten(s.forest) + FlatNode(n))
             == Flat(s.below) + open + Flatten(s.forest) + FlatNode(n);
      var own := if s.frame.kind == StepBlock then [s.name] else [];
      assert StackNames(s.below) + own + (Names(s.forest) + NodeNames(n))
             == StackNames(s.below) + own + Names(s.forest) + NodeNames(n);
    }
  }

  lemma OpenOk(s: Stack, kind: Kind, name: string)
    requires StackOk(s, true) && (kind == ElseBlock ==> EndsInIf(s.forest))
    requires (kind != StepBlock ==> name == "") && (kind == StepBlock ==> !StepOpen(s))
    ensures var t := Level(s, Frame(kind, 0), name, Empty);
            && StackOk(t, false) && Frames(t) == Frames(s) + [Frame(kind, 0)]
            && Flat(t) == Flat(s) + [OpenToken(kind, name)]
            && StackNames(t) == StackNames(s) + (if kind == StepBlock then [name] else [])
  {
    assert Flat(s) + [OpenToken(kind, name)] + [] == Flat(s) + [OpenToken(kind, name)];
    var own := if kind == StepBlock then [name] else [];
    assert StackNames(s) + own + [] == StackNames(s) + own;
  }

  lemma DistinctMore(steps: seq<string>, name: string)
    requires Distinct(steps) && name !in steps
    ensures Distinct(steps + [name])
  {
  }

  lemma CloseOk(s: Stack)
    requires s.Level? && StackOk(s, false) && (s.frame.kind == StepBlock ==> s.frame.directCount >= 2)
    ensures var t := Grow(s, CloseLine);
            && StackOk(t, false) && Frames(t) == Frames(s.below) && Flat(t) == Flat(s) + [CloseLine]
            && StackNames(t) == StackNames(s) && (s.frame.kind == IfBlock ==> EndsInIf(t.forest))
  {
    var n := Block(s.frame.kind, s.name, s.forest);
    AddNodeOk(s.below, n);
    Regroup(Flat(s.below), [OpenToken(s.frame.kind, s.name)] + Flatten(s.forest), [CloseLine]);
    Regroup(Flat(s.below), [OpenToken(s.frame.kind, s.name)], Flatten(s.forest));
    Regroup(StackNames(s.below), if s.frame.kind == StepBlock then [s.name] else [], Names(s.forest));
  }

  /** A line without a problem, read into the stack. */
  lemma CloseReads(p: Parser, s: Stack)
    requires p.header.Some? && Reads(p, s) && Line(p, CloseLine).errors == p.errors
    ensures Reads(Line(p, CloseLine), Grow(s, CloseLine)) && Flat(Grow(s, CloseLine)) == Flat(s) + [CloseLine]
  {
    assert s.Level?;
    assert p.blocks[|p.blocks| - 1] == s.frame && p.blocks[..|p.blocks| - 1] == Frames(s.below);
    CloseOk(s);
  }

  lemma StepReads(p: Parser, s: Stack, name: string, single: bool)
    requires p.header.Some? && Reads(p, s)
    requires var t := if single then StepLine(name, true) else OpenStep(name); Line(p, t).errors == p.errors
    ensures var t := if single then StepLine(name, true) else OpenStep(name);
            Reads(Line(p, t), Grow(s, t)) && Flat(Grow(s, t)) == Flat(s) + [t]
  {
    BumpOk(s);
    StepOpenIs(s);
    CountedStep(p.blocks, Frame(StepBlock, 0));
    assert name !in p.steps && !StepOpen(s);
    DistinctMore(p.steps, name);
    if single { AddNodeOk(Bump(s), Step(name)); } else { OpenOk(Bump(s), StepBlock, name); }
  }

  lemma OtherReads(p: Parser, s: Stack, t: Token)
    requires p.header.Some? && Reads(p, s) && Line(p, t).errors == p.errors
    requires t.SimpleLine? || t.OpenIf? || t.OpenElse? || t.OpenEach?
    ensures Reads(Line(p, t), Grow(s, t)) && Flat(Grow(s, t)) == Flat(s) + [t]
  {
    BumpOk(s);
    if t.SimpleLine? {
      AddNodeOk(Bump(s), Simple);
    } else {
      var kind := if t.OpenIf? then IfBlock else if t.OpenElse? then ElseBlock else EachBlock;
      OpenOk(Bump(s), kind, "");
    }
  }

  lemma LineReads(p: Parser, s: Stack, t: Token)
    requires p.header.Some? && Reads(p, s) && Line(p, t).errors == p.errors && !t.Blank?
    ensures Reads(Line(p, t), Grow(s, t)) && Flat(Grow(s, t)) == Flat(s) + [t] && Line(p, t).header == p.header
  {
    match t
    case CloseLine => CloseReads(p, s);
    case OpenStep(name) => StepReads(p, s, name, false);
    case StepLine(name, good) => assert good; StepReads(p, s, name, true);
    case SimpleLine => OtherReads(p, s, t);
    case OpenIf => OtherReads(p, s, t);
    case OpenElse => OtherReads(p, s, t);
    case OpenEach => OtherReads(p, s, t);
    case _ =>
  }

  function NonBlank(tokens: seq<Token>): seq<Token> {
    if tokens == [] then []
    else NonBlank(tokens[..|tokens| - 1]) + (if tokens[|tokens| - 1].Blank? then [] else [tokens[|tokens| - 1]])
  }

  lemma {:induction false} RunSkipsBlanks(p: Parser, tokens: seq<Token>)
    ensures Run(p, NonBlank(tokens)) == Run(p, tokens)
  {
    if tokens != [] {
      var n := |tokens| - 1;
      RunSkipsBlanks(p, tokens[..n]);
      if tokens[n].Blank? {
        assert NonBlank(tokens) == NonBlank(tokens[..n]);
      } else {
        RunConcat(p, NonBlank(tokens[..n]), [tokens[n]]);
        RunOne(Run(p, NonBlank(tokens[..n])), tokens[n]);
      }
    }
  }

  lemma ErrorsGrow(p: Parser, t: Token)
    ensures Line(p, t).errors == [] ==> p.errors == []
  {
  }

  /** A run without a problem has read nothing but blanks, or a header and then a stack. */
  lemma {:induction false} RunReads(tokens: seq<Token>) returns (s: Stack)
    requires Run(Start(), tokens).errors == []
    ensures var p := Run(Start(), tokens);
            if p.header.None? then NonBlank(tokens) == [] && p == Start()
            else NonBlank(tokens) == [Hash(p.header)] + Flat(s) && Reads(p, s)
  {
    s := Bottom(Empty);
    if tokens != [] {
      var n := |tokens| - 1;
      var before, t := Run(Start(), tokens[..n]), tokens[n];
      ErrorsGrow(before, t);
      s := RunReads(tokens[..n]);
      if t.Blank? {
        assert NonBlank(tokens) == NonBlank(tokens[..n]);
      } else if before.header.None? {
        s := Bottom(Empty);
        assert NonBlank(tokens) == [t] && [t] == [t] + Flat(s);
      } else {
        LineReads(before, s, t);
        assert [Hash(before.header)] + Flat(s) + [t] == [Hash(before.header)] + (Flat(s) + [t]);
        s := Grow(s, t);
      }
    }
  }

  // ---- acceptance -------------------------------------------------------------------------------------

  predicate HeaderFits(h: Header, kind: string, name: string) {
    (kind != "" && h.kind != "" ==> h.kind == kind) && (name != "" && h.name != "" ==> h.name == name)
  }

  /** The document is a header and the lines of a well-formed forest with distinct step names. */
  predicate Document(tokens: seq<Token>, h: Header, f: Forest) {
    NonBlank(tokens) == [Hash(Some(h))] + Flatten(f) && WellFormed(f, false) && Distinct(Names(f))
  }

  lemma DocumentParses(tokens: seq<Token>, h: Header, f: Forest)
    requires Document(tokens, h, f)
    ensures Run(Start(), tokens) == Through(Start().(header := Some(h)), f)
    ensures Run(Start(), tokens).errors == [] && Run(Start(), tokens).blocks == []
            && Run(Start(), tokens).steps == Names(f)
  {
    RunSkipsBlanks(Start(), tokens);
    RunConcat(Start(), [Hash(Some(h))], Flatten(f));
    RunOne(Start(), Hash(Some(h)));
    var p := Start().(header := Some(h));
    assert p.steps + Names(f) == Names(f);
    ForestParses(p, f);
  }

  /** The parser finds no problem exactly in documents whose header is the expected one. */
  lemma Accepts(tokens: seq<Token>, kind: string, name: string)
    ensures Finished(Run(Start(), tokens), kind, name).errors == [] <==>
              exists h, f :: Document(tokens, h, f) && HeaderFits(h, kind, name)
  {
    var p := Run(Start(), tokens);
    if Finished(p, kind, name).errors == [] {
      var s := RunReads(tokens);
      assert s.Bottom?;
      assert Document(tokens, p.header.value, s.forest) && HeaderFits(p.header.value, kind, name);
    }
    if h, f :| Document(tokens, h, f) && HeaderFits(h, kind, name) {
      DocumentParses(tokens, h, f);
    }
  }

  /** Of an accepted document the parser lists the steps of its forest, in order. */
  lemma ListsSteps(tokens: seq<Token>, kind: string, name: string, h: Header, f: Forest)
    requires Document(tokens, h, f)
    ensures Finished(Run(Start(), tokens), kind, name).steps == Names(f)
  {
    DocumentParses(tokens, h, f);
  }

  // ---- there is only one such forest -------------------------------------------------------------------

  function GrowAll(s: Stack, tokens: seq<Token>): Stack {
    if tokens == [] then s else Grow(GrowAll(s, tokens[..|tokens| - 1]), tokens[|tokens| - 1])
  }

  lemma {:induction false} GrowConcat(s: Stack, a: seq<Token>, b: seq<Token>)
    ensures GrowAll(s, a + b) == GrowAll(GrowAll(s, a), b)
    decreases |b|
  {
    if b == [] {
      assert a + b == a;
    } else {
      GrowConcat(s, a, b[..|b| - 1]);
      assert (a + b)[..|a + b| - 1] == a + b[..|b| - 1];
    }
  }

  lemma GrowOne(s: Stack, t: Token)
    ensures GrowAll(s, [t]) == Grow(s, t)
  {
    assert GrowAll(s, []) == s;
  }

  function Append(a: Forest, b: Forest): Forest {
    if b.Empty? then a else Then(Append(a, b.rest), b.last)
  }

  lemma {:induction false} AppendEmpty(f: Forest)
    ensures Append(Empty, f) == f
  {
    if f.Then? { AppendEmpty(f.rest); }
  }

  /** The stack with a forest more at its top. */
  function Grown(s: Stack, f: Forest): Stack {
    match s
    case Bottom(forest) => Bottom(Append(forest, f))
    case Level(below, frame, name, forest) =>
      Level(below, frame.(directCount := frame.directCount + Count(f)), name, Append(forest, f))
  }

  lemma {:induction false} GrowForest(s: Stack, f: Forest, tokens: seq<Token>, inStep: bool)
    requires WellFormed(f, inStep) && tokens == Flatten(f)
    ensures GrowAll(s, tokens) == Grown(s, f)
    decreases f
  {
    if f.Then? {
      GrowForest(s, f.rest, Flatten(f.rest), inStep);
      GrowConcat(s, Flatten(f.rest), FlatNode(f.last));
      GrowNode(Grown(s, f.rest), f.last, inStep);
    }
  }

  lemma {:induction false} GrowNode(s: Stack, n: Node, inStep: bool)
    requires NodeWellFormed(n, inStep)
    ensures GrowAll(s, FlatNode(n)) == AddNode(Bump(s), n)
    decreases n
  {
    match n
    case Simple => GrowOne(s, SimpleLine);
    case Step(name) => GrowOne(s, StepLine(name, true));
    case Block(kind, name, body) =>
      var t := Level(Bump(s), Frame(kind, 0), name, Empty);
      GrowForest(t, body, Flatten(body), inStep || kind == StepBlock);
      AppendEmpty(body);
      GrowBlock(s, n, t);
  }

  lemma GrowBlock(s: Stack, n: Node, t: Stack)
    requires n.Block? && (n.kind != StepBlock ==> n.name == "") && t == Level(Bump(s), Frame(n.kind, 0), n.name, Empty)
    requires GrowAll(t, Flatten(n.body)) == Grown(t, n.body) && Append(Empty, n.body) == n.body
    ensures GrowAll(s, FlatNode(n)) == AddNode(Bump(s), n)
  {
    hide Append, Flatten;
    var first := [OpenToken(n.kind, n.name)];
    GrowOne(s, OpenToken(n.kind, n.name));
    GrowConcat(s, first + Flatten(n.body), [CloseLine]);
    GrowConcat(s, first, Flatten(n.body));
    GrowOne(Grown(t, n.body), CloseLine);
  }

  /** A document has only one forest. */
  lemma ForestUnique(tokens: seq<Token>, h: Header, f: Forest, i: Header, g: Forest)
    requires Document(tokens, h, f) && Document(tokens, i, g)
    ensures h == i && f == g
  {
    var a, b := [Hash(Some(h))] + Flatten(f), [Hash(Some(i))] + Flatten(g);
    assert a[0] == b[0] && a[1..] == Flatten(f) && b[1..] == Flatten(g);
    GrowForest(Bottom(Empty), f, Flatten(f), false);
    GrowForest(Bottom(Empty), g, Flatten(g), false);
    AppendEmpty(f);
    AppendEmpty(g);
  }
}
