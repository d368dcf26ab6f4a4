/** Cutting an edit script into hunks, and replaying the hunks as a patch. */
module DiffHunks {
  import opened Basics
  import opened LineDiff
  import opened Options

  datatype Hunk = Hunk(ops: seq<Op>, oldStart: nat, newStart: nat)

  // ---- what a list of hunks means ------------------------------------------------

  /** Apply the hunks to `text` from line `pos` on, having produced `out` so far. A hunk
      applies only if it starts where it says on both sides and its old lines are there. */
  function Replay(text: seq<Line>, hunks: seq<Hunk>, pos: nat, out: seq<Line>): Option<seq<Line>>
    requires pos <= |text|
    decreases |hunks|
  {
    if hunks == [] then Some(out + text[pos..])
    else
      var h := hunks[0];
      var start, count := h.oldStart - 1, |OldSide(h.ops)|;
      if pos <= start && start + count <= |text| && text[start..start + count] == OldSide(h.ops)
         && |out| + start - pos == h.newStart - 1
      then Replay(text, hunks[1..], start + count, out + text[pos..start] + NewSide(h.ops))
      else None
  }

  function Patch(text: seq<Line>, hunks: seq<Hunk>): Option<seq<Line>> { Replay(text, hunks, 0, []) }

  function FlipOp(op: Op): Op {
    op.(kind := match op.kind case Equal => Equal case Delete => Insert case Insert => Delete)
  }

  function FlipOps(ops: seq<Op>): seq<Op> {
    seq(|ops|, i requires 0 <= i < |ops| => FlipOp(ops[i]))
  }

  /** The same hunk read backwards: from the new text to the old one. */
  function Flip(h: Hunk): Hunk { Hunk(FlipOps(h.ops), h.newStart, h.oldStart) }

  function FlipAll(hunks: seq<Hunk>): seq<Hunk> {
    seq(|hunks|, i requires 0 <= i < |hunks| => Flip(hunks[i]))
  }

  // ---- groups of changes ----------------------------------------------------------

  predicate Changed(ops: seq<Op>, i: int) { 0 <= i < |ops| && ops[i].kind != Equal }

  /** First and last change of one hunk. */
  datatype Group = Group(first: nat, last: nat)

  ghost predicate Quiet(ops: seq<Op>, lo: int, hi: int) { forall x :: lo <= x < hi ==> !Changed(ops, x) }

  /** Some op among the 2 * context + 1 from `x` on is a change. */
  ghost predicate Busy(ops: seq<Op>, context: nat, x: int) { !Quiet(ops, x, x + 2 * context + 1) }

  /** No stretch of more than twice the context inside a group is without a change. */
  ghost predicate Tight(ops: seq<Op>, context: nat, g: Group) {
    forall x :: g.first <= x && x + 2 * context <= g.last ==> Busy(ops, context, x)
  }

  ghost predicate GroupOk(ops: seq<Op>, context: nat, g: Group, upto: int) {
    g.first <= g.last < upto && Changed(ops, g.first) && Changed(ops, g.last) && Tight(ops, context, g)
  }

  /** Between groups there is more than twice the context. */
  ghost predicate Apart(context: nat, groups: seq<Group>) {
    forall k, m :: 0 <= k < m < |groups| ==> groups[m].first - groups[k].last - 1 > 2 * context
  }

  /** Nothing changed between group k - 1 and group k, before the first, or after the last. */
  ghost predicate Gap(ops: seq<Op>, groups: seq<Group>, upto: int, k: int)
    requires 0 <= k <= |groups|
  {
    Quiet(ops, if k == 0 then 0 else groups[k - 1].last + 1, if k == |groups| then upto else groups[k].first)
  }

  ghost predicate Covers(ops: seq<Op>, groups: seq<Group>, upto: int) {
    forall k :: 0 <= k <= |groups| ==> Gap(ops, groups, upto, k)
  }

  /** The changes before index `upto` are cut into groups exactly where more than twice
      the context separates them. */
  ghost predicate Grouped(ops: seq<Op>, context: nat, groups: seq<Group>, upto: int) {
    && upto <= |ops|
    && (forall k :: 0 <= k < |groups| ==> GroupOk(ops, context, groups[k], upto))
    && Apart(context, groups)
    && Covers(ops, groups, upto)
  }

  /** The ops of a hunk: its changes with up to `context` equal lines around them. */
  function Start(g: Group, context: nat): nat { Max(0, g.first - context) }

  function End(ops: seq<Op>, g: Group, context: nat): nat { Min(g.last + context + 1, |ops|) }

  function HunkOf(ops: seq<Op>, g: Group, context: nat): Hunk
    requires g.first <= g.last < |ops|
  {
    var s := Start(g, context);
    Hunk(ops[s..End(ops, g, context)], 1 + |OldSide(ops[..s])|, 1 + |NewSide(ops[..s])|)
  }

  /** What the change at `i` makes of the groups so far: it widens the last group, or,
      too far from it, opens a new one. */
  function WithChange(groups: seq<Group>, context: nat, i: nat): seq<Group> {
    if groups == [] || i - groups[|groups| - 1].last - 1 > 2 * context then groups + [Group(i, i)]
    else groups[..|groups| - 1] + [Group(groups[|groups| - 1].first, i)]
  }

  /** The groups of the changes before index `upto`. */
  function Groups(ops: seq<Op>, context: nat, upto: nat): (r: seq<Group>)
    requires upto <= |ops|
    ensures forall k :: 0 <= k < |r| ==> r[k].first <= r[k].last < upto
  {
    if upto == 0 then []
    else
      var before := Groups(ops, context, upto - 1);
      if Changed(ops, upto - 1) then WithChange(before, context, upto - 1) else before
  }

  function AllGroups(ops: seq<Op>, context: nat): seq<Group> { Groups(ops, context, |ops|) }

  function Hunks(ops: seq<Op>, context: nat): seq<Hunk> {
    var groups := AllGroups(ops, context);
    seq(|groups|, k requires 0 <= k < |groups| => HunkOf(ops, groups[k], context))
  }

  // ---- the code ----------------------------------------------------------------------

  /** How many ops from `start` to `end` keep a line. */
  method EqualOpsBetween(ops: seq<Op>, start: nat, end: nat) returns (count: nat)
    requires start <= end <= |ops|
    ensures count == |Kept(ops[start..end])|
  {
    count := 0;
    for i := start to end
      invariant count == |Kept(ops[start..i])|
    {
      assert ops[start..i + 1] == ops[start..i] + [ops[i]];
      KeptSnoc(ops[start..i], ops[i], ops[start..i + 1]);
      if ops[i].kind == Equal { count := count + 1; }
    }
  }

  lemma {:induction false} KeptSnoc(ops: seq<Op>, op: Op, all: seq<Op>)
    requires all == ops + [op]
    ensures |Kept(all)| == |Kept(ops)| + (if op.kind == Equal then 1 else 0)
  {
    if ops == [] {
      assert all[1..] == [];
    } else {
      assert all[1..] == ops[1..] + [op];
      KeptSnoc(ops[1..], op, all[1..]);
    }
  }

  /** Where nothing changed every op keeps its line. */
  lemma {:induction false} QuietKept(ops: seq<Op>, lo: nat, hi: nat)
    requires lo <= hi <= |ops| && Quiet(ops, lo, hi)
    ensures |Kept(ops[lo..hi])| == hi - lo
    decreases hi - lo
  {
    if lo < hi {
      QuietKept(ops, lo, hi - 1);
      KeptSnoc(ops[lo..hi - 1], ops[hi - 1], ops[lo..hi]);
      assert !Changed(ops, hi - 1);
    }
  }

  lemma SideSnoc(ops: seq<Op>, i: nat)
    requires i < |ops|
    ensures OldSide(ops[..i + 1]) == OldSide(ops[..i]) + (if ops[i].kind == Insert then [] else [ops[i].line])
    ensures NewSide(ops[..i + 1]) == NewSide(ops[..i]) + (if ops[i].kind == Delete then [] else [ops[i].line])
  {
    assert ops[..i + 1] == ops[..i] + [ops[i]];
    SideAppend(ops[..i], [ops[i]]);
  }

  lemma OldCons(op: Op, rest: seq<Op>)
    ensures OldSide([op] + rest) == (if op.kind == Insert then OldSide(rest) else [op.line] + OldSide(rest))
  {
    assert ([op] + rest)[1..] == rest;
  }

  lemma {:induction false} OldAppend(x: seq<Op>, y: seq<Op>)
    ensures OldSide(x + y) == OldSide(x) + OldSide(y)
  {
    if x == [] {
      assert x + y == y;
    } else {
      var op, rest := x[0], x[1..];
      assert x == [op] + rest && x + y == [op] + (rest + y);
      OldAppend(rest, y);
      OldCons(op, rest);
      OldCons(op, rest + y);
    }
  }

  lemma NewCons(op: Op, rest: seq<Op>)
    ensures NewSide([op] + rest) == (if op.kind == Delete then NewSide(rest) else [op.line] + NewSide(rest))
  {
    assert ([op] + rest)[1..] == rest;
  }

  lemma {:induction false} NewAppend(x: seq<Op>, y: seq<Op>, both: seq<Op>)
    requires both == x + y
    ensures NewSide(both) == NewSide(x) + NewSide(y)
  {
    if x == [] {
      assert both == y;
    } else {
      var op, rest := x[0], x[1..];
      assert x == [op] + rest && both == [op] + (rest + y);
      NewAppend(rest, y, rest + y);
      NewCons(op, rest);
      NewCons(op, rest + y);
    }
  }

  lemma SideAppend(x: seq<Op>, y: seq<Op>)
    ensures OldSide(x + y) == OldSide(x) + OldSide(y) && NewSide(x + y) == NewSide(x) + NewSide(y)
  {
    OldAppend(x, y);
    NewAppend(x, y, x + y);
  }

  method HunkCounts(ops: seq<Op>) returns (oldCount: nat, newCount: nat)
    ensures oldCount == |OldSide(ops)| && newCount == |NewSide(ops)|
  {
    oldCount, newCount := 0, 0;
    for i := 0 to |ops|
      invariant oldCount == |OldSide(ops[..i])| && newCount == |NewSide(ops[..i])|
    {
      SideSnoc(ops, i);
      match ops[i].kind {
        case Equal => oldCount, newCount := oldCount + 1, newCount + 1;
        case Delete => oldCount := oldCount + 1;
        case Insert => newCount := newCount + 1;
      }
    }
    assert ops[..|ops|] == ops;
  }

  method TrimContextRange(ops: seq<Op>, first: nat, last: nat, context: nat) returns (h: Hunk)
    requires first <= last < |ops|
    ensures h == HunkOf(ops, Group(first, last), context)
  {
    var start := first - context;
    if start < 0 { start := 0; }
    var end := last + context + 1;
    if end > |ops| { end := |ops|; }
    var oldStart, newStart := 1, 1;
    for i := 0 to start
      invariant oldStart == 1 + |OldSide(ops[..i])| && newStart == 1 + |NewSide(ops[..i])|
    {
      SideSnoc(ops, i);
      match ops[i].kind {
        case Equal => oldStart, newStart := oldStart + 1, newStart + 1;
        case Delete => oldStart := oldStart + 1;
        case Insert => newStart := newStart + 1;
      }
    }
    h := Hunk(ops[start..end], oldStart, newStart);
  }

  /** The first loop of buildDiffHunks; -1 when nothing changed. */
  method FindChanges(ops: seq<Op>) returns (firstChange: int, lastChange: int)
    ensures firstChange == -1 ==> Quiet(ops, 0, |ops|)
    ensures firstChange != -1 ==> firstChange <= lastChange && Changed(ops, firstChange) && Changed(ops, lastChange)
    ensures firstChange != -1 ==> Quiet(ops, 0, firstChange) && Quiet(ops, lastChange + 1, |ops|)
  {
    firstChange, lastChange := -1, -1;
    for i := 0 to |ops|
      invariant -1 <= firstChange <= lastChange < i
      invariant firstChange == -1 ==> Quiet(ops, 0, i)
      invariant firstChange != -1 ==> Changed(ops, firstChange) && Changed(ops, lastChange)
      invariant firstChange != -1 ==> Quiet(ops, 0, firstChange) && Quiet(ops, lastChange + 1, i)
    {
      if ops[i].kind != Equal {
        if firstChange == -1 { firstChange := i; }
        lastChange := i;
      }
    }
  }

  lemma {:induction false} QuietGroups(ops: seq<Op>, context: nat, lo: nat, hi: nat)
    requires lo <= hi <= |ops| && Quiet(ops, lo, hi)
    ensures Groups(ops, context, hi) == Groups(ops, context, lo)
    decreases hi - lo
  {
    if lo < hi {
      QuietGroups(ops, context, lo, hi - 1);
      assert !Changed(ops, hi - 1);
    }
  }

  lemma NextGroups(ops: seq<Op>, context: nat, ranges: seq<Group>, g: Group, i: nat)
    requires i < |ops| && ranges + [g] == Groups(ops, context, i)
    ensures Groups(ops, context, i + 1)
         == if !Changed(ops, i) then ranges + [g]
            else if i - g.last - 1 > 2 * context then ranges + [g] + [Group(i, i)]
            else ranges + [Group(g.first, i)]
  {
    assert (ranges + [g])[..|ranges|] == ranges;
  }

  /** The second loop: changes more than twice the context apart start a new range. */
  method GroupChanges(ops: seq<Op>, context: nat, firstChange: nat, lastChange: nat) returns (ranges: seq<Group>)
    requires firstChange <= lastChange && Changed(ops, firstChange) && Changed(ops, lastChange)
    requires Quiet(ops, 0, firstChange) && Quiet(ops, lastChange + 1, |ops|)
    ensures ranges == AllGroups(ops, context)
  {
    ranges := [];
    var start: nat, last: nat := firstChange, firstChange;
    QuietGroups(ops, context, 0, firstChange);
    for i := firstChange + 1 to lastChange + 1
      invariant last < i && Quiet(ops, last + 1, i)
      invariant ranges + [Group(start, last)] == Groups(ops, context, i)
    {
      NextGroups(ops, context, ranges, Group(start, last), i);
      if ops[i].kind != Equal {
        var gap := EqualOpsBetween(ops, last + 1, i);
        QuietKept(ops, last + 1, i);
        if gap > context * 2 {
          ranges := ranges + [Group(start, last)];
          start := i;
        }
        last := i;
      }
    }
    ranges := ranges + [Group(start, last)];
    QuietGroups(ops, context, lastChange + 1, |ops|);
  }

  method BuildHunks(ops: seq<Op>, context: nat) returns (hunks: seq<Hunk>)
    ensures hunks == Hunks(ops, context)
  {
    var firstChange, lastChange := FindChanges(ops);
    if firstChange == -1 {
      QuietGroups(ops, context, 0, |ops|);
      return [];
    }
    var ranges := GroupChanges(ops, context, firstChange, lastChange);
    hunks := [];
    for i := 0 to |ranges|
      invariant hunks == Hunks(ops, context)[..i]
    {
      var h := TrimContextRange(ops, ranges[i].first, ranges[i].last, context);
      hunks := hunks + [h];
    }
  }

  lemma CoversNew(ops: seq<Op>, was: seq<Group>, i: nat)
    requires Covers(ops, was, i)
    ensures Covers(ops, was + [Group(i, i)], i + 1)
  {
    var now, upto := was + [Group(i, i)], i + 1;
    forall k | 0 <= k <= |now| ensures Gap(ops, now, upto, k) {
      if k <= |was| { assert Gap(ops, was, i, k); }
    }
  }

  lemma CoversWiden(ops: seq<Op>, ranges: seq<Group>, g: Group, i: nat)
    requires Covers(ops, ranges + [g], i)
    ensures Covers(ops, ranges + [Group(g.first, i)], i + 1)
  {
    var was, now, upto := ranges + [g], ranges + [Group(g.first, i)], i + 1;
    forall k | 0 <= k <= |now| ensures Gap(ops, now, upto, k) {
      if k < |now| { assert Gap(ops, was, i, k); }
    }
  }

  lemma ApartNew(context: nat, was: seq<Group>, i: nat)
    requires Apart(context, was) && was != [] && was[|was| - 1].first <= was[|was| - 1].last
    requires i - was[|was| - 1].last - 1 > 2 * context
    ensures Apart(context, was + [Group(i, i)])
  {
  }

  lemma RegroupNew(ops: seq<Op>, context: nat, was: seq<Group>, i: nat, now: seq<Group>)
    requires Grouped(ops, context, was, i) && was != [] && i < |ops| && Changed(ops, i)
    requires i - was[|was| - 1].last - 1 > 2 * context
    requires now == was + [Group(i, i)]
    ensures Grouped(ops, context, now, i + 1)
  {
    CoversNew(ops, was, i);
    forall k | 0 <= k < |now| ensures GroupOk(ops, context, now[k], i + 1) {
      if k < |was| { assert GroupOk(ops, context, was[k], i); }
    }
    assert GroupOk(ops, context, was[|was| - 1], i);
    ApartNew(context, was, i);
  }

  lemma TightWiden(ops: seq<Op>, context: nat, g: Group, i: nat)
    requires Tight(ops, context, g) && Changed(ops, g.last) && g.last < i && Quiet(ops, g.last + 1, i)
    requires Changed(ops, i) && i - g.last - 1 <= 2 * context
    ensures Tight(ops, context, Group(g.first, i))
  {
    forall x | g.first <= x && x + 2 * context <= i ensures Busy(ops, context, x) {
      if x + 2 * context > g.last {
        if x <= g.last { assert Changed(ops, g.last); } else { assert Changed(ops, i); }
      }
    }
  }

  lemma RegroupWiden(ops: seq<Op>, context: nat, ranges: seq<Group>, g: Group, i: nat, was: seq<Group>, now: seq<Group>)
    requires was == ranges + [g] && Grouped(ops, context, was, i)
    requires g.last < i < |ops| && Changed(ops, i) && Quiet(ops, g.last + 1, i) && i - g.last - 1 <= 2 * context
    requires now == ranges + [Group(g.first, i)]
    ensures Grouped(ops, context, now, i + 1)
  {
    var n := |ranges|;
    CoversWiden(ops, ranges, g, i);
    assert was[n] == g && GroupOk(ops, context, was[n], i);
    TightWiden(ops, context, g, i);
    forall k | 0 <= k < |now| ensures GroupOk(ops, context, now[k], i + 1) {
      if k < n { assert GroupOk(ops, context, was[k], i); }
    }
    forall k, m | 0 <= k < m < |now| ensures now[m].first - now[k].last - 1 > 2 * context {
      assert was[m].first == now[m].first && was[k] == now[k];
    }
  }

  lemma LastGroup(ops: seq<Op>, context: nat, groups: seq<Group>, i: nat)
    requires Grouped(ops, context, groups, i) && groups != []
    ensures groups[|groups| - 1].last < i && Quiet(ops, groups[|groups| - 1].last + 1, i)
  {
    assert Gap(ops, groups, i, |groups|);
    assert GroupOk(ops, context, groups[|groups| - 1], i);
  }

  lemma RegroupFirst(ops: seq<Op>, context: nat, i: nat, now: seq<Group>)
    requires Grouped(ops, context, [], i) && Changed(ops, i)
    requires now == [Group(i, i)]
    ensures Grouped(ops, context, now, i + 1)
  {
    assert Gap(ops, [], i, 0);
  }

  lemma RegroupSkip(ops: seq<Op>, context: nat, groups: seq<Group>, i: nat, upto: nat)
    requires Grouped(ops, context, groups, i) && i < |ops| && !Changed(ops, i) && upto == i + 1
    ensures Grouped(ops, context, groups, upto)
  {
    forall k | 0 <= k < |groups| ensures GroupOk(ops, context, groups[k], upto) {
      assert GroupOk(ops, context, groups[k], i);
    }
    forall k | 0 <= k <= |groups| ensures Gap(ops, groups, upto, k) {
      assert Gap(ops, groups, i, k);
    }
  }

  lemma Regroup(ops: seq<Op>, context: nat, was: seq<Group>, i: nat, now: seq<Group>)
    requires Grouped(ops, context, was, i) && i < |ops| && Changed(ops, i)
    requires now == WithChange(was, context, i)
    ensures Grouped(ops, context, now, i + 1)
  {
    if was == [] {
      RegroupFirst(ops, context, i, now);
    } else {
      LastGroup(ops, context, was, i);
      var ranges, g := was[..|was| - 1], was[|was| - 1];
      if i - g.last - 1 > 2 * context {
        RegroupNew(ops, context, was, i, now);
      } else {
        RegroupWiden(ops, context, ranges, g, i, was, now);
      }
    }
  }

  lemma GroupedNone(ops: seq<Op>, context: nat)
    ensures Grouped(ops, context, [], 0)
  {
  }

  lemma GroupsStep(ops: seq<Op>, context: nat, i: nat, was: seq<Group>, now: seq<Group>)
    requires i < |ops| && Grouped(ops, context, was, i)
    requires now == if Changed(ops, i) then WithChange(was, context, i) else was
    ensures Grouped(ops, context, now, i + 1)
  {
    if Changed(ops, i) { Regroup(ops, context, was, i, now); } else { RegroupSkip(ops, context, now, i, i + 1); }
  }

  lemma GroupsNext(ops: seq<Op>, context: nat, upto: nat)
    requires 0 < upto <= |ops|
    ensures Groups(ops, context, 0) == []
    ensures var was := Groups(ops, context, upto - 1);
            Groups(ops, context, upto) == if Changed(ops, upto - 1) then WithChange(was, context, upto - 1) else was
  {
  }

  /** The groups cut the changes exactly where more than twice the context separates them. */
  lemma {:induction false} GroupsCut(ops: seq<Op>, context: nat, upto: nat)
    requires upto <= |ops|
    ensures Grouped(ops, context, Groups(ops, context, upto), upto)
  {
    if upto == 0 {
      GroupedNone(ops, context);
    } else {
      hide Grouped, Changed, Groups, WithChange;
      GroupsNext(ops, context, upto);
      GroupsCut(ops, context, upto - 1);
      GroupsStep(ops, context, upto - 1, Groups(ops, context, upto - 1), Groups(ops, context, upto));
    }
  }

  // ---- the hunks are a correct patch -------------------------------------------------

  /** Old lines before op `i`. */
  function OldAt(ops: seq<Op>, i: nat): nat
    requires i <= |ops|
  {
    |OldSide(ops[..i])|
  }

  lemma SliceOld(ops: seq<Op>, x: nat, y: nat)
    requires x <= y <= |ops|
    ensures OldAt(ops, x) <= OldAt(ops, y) <= |OldSide(ops)|
    ensures OldAt(ops, y) == OldAt(ops, x) + |OldSide(ops[x..y])|
    ensures OldSide(ops)[OldAt(ops, x)..OldAt(ops, y)] == OldSide(ops[x..y])
  {
    assert ops == ops[..y] + ops[y..] && ops[..y] == ops[..x] + ops[x..y];
    OldAppend(ops[..y], ops[y..]);
    OldAppend(ops[..x], ops[x..y]);
  }

  lemma NewExtend(ops: seq<Op>, x: nat, y: nat)
    requires x <= y <= |ops|
    ensures NewSide(ops[..y]) == NewSide(ops[..x]) + NewSide(ops[x..y])
  {
    assert ops[..y] == ops[..x] + ops[x..y];
    NewAppend(ops[..x], ops[x..y], ops[..x] + ops[x..y]);
  }

  lemma {:induction false} QuietSides(ops: seq<Op>, lo: nat, hi: nat)
    requires lo <= hi <= |ops| && Quiet(ops, lo, hi)
    ensures OldSide(ops[lo..hi]) == NewSide(ops[lo..hi])
    decreases hi - lo
  {
    if lo < hi {
      QuietSides(ops, lo + 1, hi);
      assert !Changed(ops, lo);
      assert ops[lo..hi] == [ops[lo]] + ops[lo + 1..hi];
      OldCons(ops[lo], ops[lo + 1..hi]);
      NewCons(ops[lo], ops[lo + 1..hi]);
    }
  }

  /** Where the hunk before number k ended. */
  function Before(ops: seq<Op>, context: nat, groups: seq<Group>, k: nat): int
    requires k <= |groups|
  {
    if k == 0 then 0 else End(ops, groups[k - 1], context)
  }

  /** Between two hunks nothing changed, and at least one op separates them. */
  lemma GroupsApart(ops: seq<Op>, context: nat, groups: seq<Group>, k: nat)
    requires Grouped(ops, context, groups, |ops|) && k <= |groups|
    ensures 0 <= Before(ops, context, groups, k) <= |ops|
    ensures var e := Before(ops, context, groups, k);
            if k == |groups| then Quiet(ops, e, |ops|)
            else var s := Start(groups[k], context);
                 (if k == 0 then e <= s else e < s) && s < End(ops, groups[k], context) <= |ops| && Quiet(ops, e, s)
  {
    assert Gap(ops, groups, |ops|, k);
    if k > 0 { assert GroupOk(ops, context, groups[k - 1], |ops|); }
    if k < |groups| { assert GroupOk(ops, context, groups[k], |ops|); }
    if 0 < k < |groups| { assert groups[k].first - groups[k - 1].last - 1 > 2 * context; }
  }

  /** Where hunk number k starts; the end of the script after the last. */
  function After(ops: seq<Op>, context: nat, groups: seq<Group>, k: nat): nat
    requires k <= |groups|
  {
    if k == |groups| then |ops| else Start(groups[k], context)
  }

  lemma HunksApart(ops: seq<Op>, context: nat, k: nat)
    requires k <= |AllGroups(ops, context)|
    ensures var groups := AllGroups(ops, context);
            var e, s := Before(ops, context, groups, k), After(ops, context, groups, k);
            0 <= e <= s <= |ops| && Quiet(ops, e, s) && (k < |groups| ==> s <= End(ops, groups[k], context) <= |ops|)
  {
    GroupsCut(ops, context, |ops|);
    GroupsApart(ops, context, AllGroups(ops, context), k);
  }

  /** What replaying hunks k and later gives from op e on. */
  function Restored(ops: seq<Op>, hunks: seq<Hunk>, k: nat, e: int): Option<seq<Line>> {
    if 0 <= e <= |ops| && OldAt(ops, e) <= |OldSide(ops)| && k <= |hunks|
    then Replay(OldSide(ops), hunks[k..], OldAt(ops, e), NewSide(ops[..e]))
    else None
  }

  lemma {:induction false} ReplayFrom(ops: seq<Op>, context: nat, k: nat)
    requires k <= |AllGroups(ops, context)|
    ensures Restored(ops, Hunks(ops, context), k, Before(ops, context, AllGroups(ops, context), k))
            == Some(NewSide(ops))
    decreases |AllGroups(ops, context)| - k
  {
    hide Replay, OldSide, NewSide, Quiet;
    var groups, hunks := AllGroups(ops, context), Hunks(ops, context);
    HunksApart(ops, context, k);
    var e, s := Before(ops, context, groups, k), After(ops, context, groups, k);
    if k == |groups| {
      assert hunks[k..] == [];
      ReplayEnd(ops, e);
    } else {
      ReplayFrom(ops, context, k + 1);
      ReplayOne(ops, hunks, k, e, s, End(ops, groups[k], context));
    }
  }

  lemma ReplayOne(ops: seq<Op>, hunks: seq<Hunk>, k: nat, e: nat, s: nat, t: nat)
    requires k < |hunks| && e <= s <= t <= |ops| && Quiet(ops, e, s)
    requires hunks[k] == Hunk(ops[s..t], 1 + OldAt(ops, s), 1 + |NewSide(ops[..s])|)
    ensures Restored(ops, hunks, k, e) == Restored(ops, hunks, k + 1, t)
  {
    ReplayStep(ops, e, s, t, hunks[k], hunks[k + 1..]);
    assert hunks[k..] == [hunks[k]] + hunks[k + 1..];
  }

  lemma ReplayEnd(ops: seq<Op>, e: nat)
    requires e <= |ops| && Quiet(ops, e, |ops|)
    ensures OldAt(ops, e) <= |OldSide(ops)|
    ensures Replay(OldSide(ops), [], OldAt(ops, e), NewSide(ops[..e])) == Some(NewSide(ops))
  {
    var x, y := ops[..e], ops[e..];
    assert ops == x + y && ops[e..|ops|] == y;
    OldAppend(x, y);
    NewAppend(x, y, x + y);
    QuietSides(ops, e, |ops|);
    assert OldSide(ops)[|OldSide(x)|..] == OldSide(y);
  }

  lemma ReplayHead(text: seq<Line>, h: Hunk, rest: seq<Hunk>, pos: nat, out: seq<Line>)
    requires pos <= h.oldStart - 1 && h.oldStart - 1 + |OldSide(h.ops)| <= |text|
    requires text[h.oldStart - 1..h.oldStart - 1 + |OldSide(h.ops)|] == OldSide(h.ops)
    requires |out| + h.oldStart - 1 - pos == h.newStart - 1
    ensures Replay(text, [h] + rest, pos, out)
         == Replay(text, rest, h.oldStart - 1 + |OldSide(h.ops)|, out + text[pos..h.oldStart - 1] + NewSide(h.ops))
  {
    assert ([h] + rest)[1..] == rest;
  }

  /** One hunk covering ops s..t takes the replay from op e to op t. */
  lemma ReplayStep(ops: seq<Op>, e: nat, s: nat, t: nat, h: Hunk, rest: seq<Hunk>)
    requires e <= s <= t <= |ops| && Quiet(ops, e, s)
    requires h == Hunk(ops[s..t], 1 + OldAt(ops, s), 1 + |NewSide(ops[..s])|)
    ensures OldAt(ops, e) <= |OldSide(ops)| && OldAt(ops, t) <= |OldSide(ops)|
    ensures Replay(OldSide(ops), [h] + rest, OldAt(ops, e), NewSide(ops[..e]))
         == Replay(OldSide(ops), rest, OldAt(ops, t), NewSide(ops[..t]))
  {
    SliceOld(ops, e, s);
    SliceOld(ops, s, t);
    QuietSides(ops, e, s);
    NewExtend(ops, e, s);
    NewExtend(ops, s, t);
    ReplayHead(OldSide(ops), h, rest, OldAt(ops, e), NewSide(ops[..e]));
  }

  /** Replaying the hunks over the old lines gives the new lines. */
  lemma HunksPatch(ops: seq<Op>, context: nat)
    ensures Patch(OldSide(ops), Hunks(ops, context)) == Some(NewSide(ops))
  {
    ReplayFrom(ops, context, 0);
    assert ops[..0] == [] && Hunks(ops, context)[0..] == Hunks(ops, context);
  }

  // ---- and so is the reversed one -------------------------------------------------------

  lemma {:induction false} FlipSides(ops: seq<Op>)
    ensures OldSide(FlipOps(ops)) == NewSide(ops) && NewSide(FlipOps(ops)) == OldSide(ops)
  {
    if ops != [] {
      FlipSides(ops[1..]);
      assert FlipOps(ops) == [FlipOp(ops[0])] + FlipOps(ops[1..]);
      OldCons(FlipOp(ops[0]), FlipOps(ops[1..]));
      NewCons(FlipOp(ops[0]), FlipOps(ops[1..]));
    }
  }

  lemma FlipChanged(ops: seq<Op>, i: nat)
    ensures Changed(FlipOps(ops), i) == Changed(ops, i)
  {
  }

  lemma {:induction false} FlipGroups(ops: seq<Op>, context: nat, upto: nat)
    requires upto <= |ops|
    ensures Groups(FlipOps(ops), context, upto) == Groups(ops, context, upto)
  {
    if upto > 0 {
      FlipGroups(ops, context, upto - 1);
      FlipChanged(ops, upto - 1);
    }
  }

  lemma FlipHunk(ops: seq<Op>, g: Group, context: nat)
    requires g.first <= g.last < |ops|
    ensures Flip(HunkOf(ops, g, context)) == HunkOf(FlipOps(ops), g, context)
  {
    var s, t := Start(g, context), End(ops, g, context);
    assert FlipOps(ops)[..s] == FlipOps(ops[..s]) && FlipOps(ops)[s..t] == FlipOps(ops[s..t]);
    FlipSides(ops[..s]);
  }

  lemma FlipHunks(ops: seq<Op>, context: nat)
    ensures FlipAll(Hunks(ops, context)) == Hunks(FlipOps(ops), context)
  {
    var groups := AllGroups(ops, context);
    FlipGroups(ops, context, |ops|);
    forall k | 0 <= k < |groups| ensures FlipAll(Hunks(ops, context))[k] == HunkOf(FlipOps(ops), groups[k], context) {
      FlipHunk(ops, groups[k], context);
    }
  }

  /** Replaying the reversed hunks over the new lines gives the old lines back. */
  lemma HunksUnpatch(ops: seq<Op>, context: nat)
    ensures Patch(NewSide(ops), FlipAll(Hunks(ops, context))) == Some(OldSide(ops))
  {
    FlipHunks(ops, context);
    HunksPatch(FlipOps(ops), context);
    FlipSides(ops);
  }

  // ---- layout ---------------------------------------------------------------------------

  ghost predicate InHunk(ops: seq<Op>, context: nat, g: Group, i: int) {
    Start(g, context) <= i < End(ops, g, context)
  }

  lemma GroupsOrdered(ops: seq<Op>, context: nat, groups: seq<Group>, k: nat, m: nat)
    requires Grouped(ops, context, groups, |ops|) && k < m < |groups|
    ensures End(ops, groups[k], context) < Start(groups[m], context)
  {
    assert groups[m].first - groups[k].last - 1 > 2 * context;
    assert GroupOk(ops, context, groups[k], |ops|);
  }

  /** Hunks are in order, disjoint, and with at least one op between them. */
  lemma HunksOrdered(ops: seq<Op>, context: nat, k: nat, m: nat)
    requires k < m < |AllGroups(ops, context)|
    ensures End(ops, AllGroups(ops, context)[k], context) < Start(AllGroups(ops, context)[m], context)
  {
    GroupsCut(ops, context, |ops|);
    GroupsOrdered(ops, context, AllGroups(ops, context), k, m);
  }

  lemma QuietAround(ops: seq<Op>, context: nat, groups: seq<Group>, k: nat)
    requires Grouped(ops, context, groups, |ops|) && k < |groups|
    ensures var g := groups[k];
            && g.first <= g.last < |ops| && Changed(ops, g.first) && Changed(ops, g.last)
            && Quiet(ops, Start(g, context), g.first) && Quiet(ops, g.last + 1, End(ops, g, context))
  {
    assert GroupOk(ops, context, groups[k], |ops|);
    assert Gap(ops, groups, |ops|, k) && Gap(ops, groups, |ops|, k + 1);
    if k > 0 { assert groups[k].first - groups[k - 1].last - 1 > 2 * context; }
    if k + 1 < |groups| { assert groups[k + 1].first - groups[k].last - 1 > 2 * context; }
  }

  /** Hunk number k is ops s..t of the script with their line numbers: its first change is op
      `first`, its last op `last`, and around them are `context` unchanged ops, or all there
      are up to the ends of the script. */
  lemma HunkHasContext(ops: seq<Op>, context: nat, k: nat) returns (s: nat, first: nat, last: nat, t: nat)
    requires k < |Hunks(ops, context)|
    ensures s <= first <= last < t <= |ops| && Changed(ops, first) && Changed(ops, last)
    ensures Quiet(ops, s, first) && Quiet(ops, last + 1, t)
    ensures first - s == context || (first - s < context && s == 0)
    ensures t - last - 1 == context || (t - last - 1 < context && t == |ops|)
    ensures Hunks(ops, context)[k] == Hunk(ops[s..t], 1 + |OldSide(ops[..s])|, 1 + |NewSide(ops[..s])|)
  {
    hide Groups, Quiet, Changed, Grouped;
    var g := AllGroups(ops, context)[k];
    GroupsCut(ops, context, |ops|);
    QuietAround(ops, context, AllGroups(ops, context), k);
    s, first, last, t := Start(g, context), g.first, g.last, End(ops, g, context);
  }

  lemma {:induction false} FindGroup(ops: seq<Op>, context: nat, groups: seq<Group>, i: nat, k: nat) returns (m: nat)
    requires Grouped(ops, context, groups, |ops|) && Changed(ops, i) && k < |groups|
    requires if k == 0 then true else groups[k - 1].last < i
    ensures k <= m < |groups| && groups[m].first <= i <= groups[m].last
    decreases |groups| - k
  {
    assert Gap(ops, groups, |ops|, k);
    if i <= groups[k].last {
      m := k;
    } else {
      assert Gap(ops, groups, |ops|, |groups|);
      if k + 1 < |groups| { m := FindGroup(ops, context, groups, i, k + 1); } else { assert false; m := k; }
    }
  }

  lemma ChangeInGroup(ops: seq<Op>, context: nat, groups: seq<Group>, i: nat) returns (k: nat)
    requires Grouped(ops, context, groups, |ops|) && Changed(ops, i)
    ensures k < |groups| && InHunk(ops, context, groups[k], i)
  {
    assert Gap(ops, groups, |ops|, 0);
    k := FindGroup(ops, context, groups, i, 0);
    assert GroupOk(ops, context, groups[k], |ops|);
  }

  /** Every changed line is in exactly one hunk. */
  lemma ChangesInOneHunk(ops: seq<Op>, context: nat, i: nat) returns (k: nat)
    requires Changed(ops, i)
    ensures var groups := AllGroups(ops, context);
            && k < |groups| && InHunk(ops, context, groups[k], i)
            && forall m :: 0 <= m < |groups| && InHunk(ops, context, groups[m], i) ==> m == k
  {
    var groups := AllGroups(ops, context);
    GroupsCut(ops, context, |ops|);
    k := ChangeInGroup(ops, context, groups, i);
    forall m | 0 <= m < |groups| && InHunk(ops, context, groups[m], i) ensures m == k {
      if m < k { HunksOrdered(ops, context, m, k); }
      if k < m { HunksOrdered(ops, context, k, m); }
    }
  }

  /** The whole pipeline: the hunks printed for two texts patch the one into the other,
      in both directions, whatever the context. */
  method DiffHunksOf(a: seq<Line>, b: seq<Line>, context: nat) returns (hunks: seq<Hunk>)
    ensures Patch(a, hunks) == Some(b)
    ensures Patch(b, FlipAll(hunks)) == Some(a)
    ensures a == b <==> hunks == []
  {
    var ops := DiffLines(a, b);
    hunks := BuildHunks(ops, context);
    HunksPatch(ops, context);
    HunksUnpatch(ops, context);
    if a == b {
      ScriptOfSame(a, 0);
      QuietGroups(ops, context, 0, |ops|);
    }
  }

  lemma {:induction false} ScriptOfSame(a: seq<Line>, i: nat)
    requires i <= |a|
    ensures Quiet(Script(a, a, i, i), 0, |Script(a, a, i, i)|)
    decreases |a| - i
  {
    if i < |a| {
      ScriptOfSame(a, i + 1);
      var rest := Script(a, a, i + 1, i + 1);
      forall x | 0 <= x < |rest| + 1 ensures !Changed([Op(Equal, a[i])] + rest, x) {
        if x > 0 { assert !Changed(rest, x - 1); }
      }
    }
  }
}
