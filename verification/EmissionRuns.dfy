/** One emission to its registrations, under any interleaving of admission, callbacks,
    timeouts, refusals and forwarding. */
module EmissionRuns {
  import Options
  import opened SignalEmission

  /** Where a registration stands. Task 0 of its connection is this emission's. */
  datatype Phase =
    | Fresh
    | Owned                                   // the connection has let it in
    | Queued                                  // the queue has its job
    | Recorded | Released                     // Finish has been called; result, then connection
    | Forwarded(answered: bool, stage: nat)   // stage 1: connection released, 2: exited
    | Refused | Failed                        // not queued; Failed once its result is recorded
    | Over

  datatype Mode = Admitting(next: nat) | Failing(at: nat)

  datatype World = World(emission: Emission, phases: seq<Phase>, connections: seq<Connection>, mode: Mode)

  datatype Step =
    | Acquire
    | Submit(ok: bool)
    | FailResult(r: Result) | FailExit
    | Start(i: nat)
    | JobResult(i: nat, r: Result) | JobRelease(i: nat) | JobExit(i: nat)
    | Forward(i: nat) | ChildResult(i: nat, r: Result) | ChildRelease(i: nat) | ChildExit(i: nat)
    | Timeout(i: nat, r: Result)
    | Foreign(i: nat, task: nat, enter: bool) | CloseConnection(i: nat)
    | Watch(fn: nat) | WatchExit(fn: nat)

  /** The steps that the emission's own code takes, as against those of its surroundings. */
  predicate Own(step: Step) {
    !step.Start? && !step.Timeout? && !step.Foreign? && !step.CloseConnection? && !step.Watch? && !step.WatchExit?
  }

  predicate At(w: World, i: nat, p: Phase) { i < |w.phases| && w.phases[i] == p }

  predicate Enabled(w: World, step: Step) {
    match step
    case Acquire => w.mode.Admitting? && At(w, w.mode.next, Fresh)
    case Submit(ok) => w.mode.Admitting? && At(w, w.mode.next, Owned)
    case FailResult(r) => w.mode.Failing? && (At(w, w.mode.at, Fresh) || At(w, w.mode.at, Refused))
    case FailExit => w.mode.Failing? && At(w, w.mode.at, Failed)
    case Start(i) => At(w, i, Queued)
    case JobResult(i, r) => At(w, i, Queued)
    case JobRelease(i) => At(w, i, Recorded)
    case JobExit(i) => At(w, i, Released)
    case Forward(i) => At(w, i, Queued)
    case ChildResult(i, r) => i < |w.phases| && w.phases[i].Forwarded? && !w.phases[i].answered
    case ChildRelease(i) => i < |w.phases| && w.phases[i].Forwarded? && w.phases[i].stage == 0
    case ChildExit(i) => i < |w.phases| && w.phases[i].Forwarded? && w.phases[i].stage == 1
    case Timeout(i, r) => i < |w.phases| && w.phases[i] != Fresh
    case Foreign(i, t, enter) => i < |w.connections| && t != 0
    case CloseConnection(i) => i < |w.connections|
    case Watch(fn) => w.emission.synchronous
    case WatchExit(fn) => true
  }

  /** A result is recorded only when results are collected. */
  function Answer(e: Emission, i: nat, r: Result): Emission
    requires e.synchronous ==> i < |e.finished| == |e.results| == |e.started|
  {
    if e.synchronous then Finish(e, i, r) else e
  }

  function Move(w: World, i: nat, p: Phase): World
    requires i < |w.phases|
  {
    w.(phases := w.phases[i := p])
  }

  function LetGo(w: World, i: nat): World
    requires i < |w.connections|
  {
    w.(connections := w.connections[i := Release(w.connections[i], 0)])
  }

  /** As many connections, results and flags as registrations. */
  predicate Shaped(w: World) {
    && |w.connections| == |w.phases|
    && (w.emission.synchronous ==> |w.emission.finished| == |w.emission.results| == |w.emission.started| == |w.phases|)
  }

  function After(w: World, step: Step): World
    requires Shaped(w) && Enabled(w, step)
  {
    match step
    case Acquire =>
      var i := w.mode.next;
      if w.connections[i].closed then w.(mode := Failing(i))
      else Move(w.(connections := w.connections[i := Acquired(w.connections[i], 0)]), i, Owned)
    case Submit(ok) =>
      var i := w.mode.next;
      if ok then Move(w, i, Queued).(mode := Admitting(i + 1)) else Move(LetGo(w, i), i, Refused).(mode := Failing(i))
    case FailResult(r) => Move(w.(emission := Answer(w.emission, w.mode.at, r)), w.mode.at, Failed)
    case FailExit => Move(w.(emission := Exit(w.emission)), w.mode.at, Over).(mode := Failing(w.mode.at + 1))
    case Start(i) =>
      if w.emission.synchronous then w.(emission := w.emission.(started := w.emission.started[i := true])) else w
    case JobResult(i, r) => Move(w.(emission := Answer(w.emission, i, r)), i, Recorded)
    case JobRelease(i) => Move(LetGo(w, i), i, Released)
    case JobExit(i) => Move(w.(emission := Exit(w.emission)), i, Over)
    case Forward(i) => Move(w, i, Forwarded(!w.emission.synchronous, 0))
    case ChildResult(i, r) => Move(w.(emission := Answer(w.emission, i, r)), i, w.phases[i].(answered := true))
    case ChildRelease(i) => Move(LetGo(w, i), i, w.phases[i].(stage := 1))
    case ChildExit(i) => Move(w.(emission := Exit(w.emission)), i, w.phases[i].(stage := 2))
    case Timeout(i, r) => w.(emission := Answer(w.emission, i, r))
    case Foreign(i, t, enter) =>
      var c := w.connections[i];
      w.(connections := w.connections[i := if enter then Acquired(c, t) else Release(c, t)])
    case CloseConnection(i) => w.(connections := w.connections[i := Closed(w.connections[i])])
    case Watch(fn) => w.(emission := OnComplete(w.emission, fn))
    case WatchExit(fn) => w.(emission := OnExit(w.emission, fn))
  }

  function Started(connections: seq<Connection>, synchronous: bool): World {
    World(NewEmission(|connections|, synchronous), Repeat(Fresh, |connections|), connections, Admitting(0))
  }

  // ---- the invariant --------------------------------------------------------------------------------

  predicate Exited(p: Phase) { p.Over? || (p.Forwarded? && p.stage >= 2) }

  predicate Holds(p: Phase) { p.Owned? || p.Queued? || p.Recorded? || (p.Forwarded? && p.stage == 0) }

  predicate Answered(p: Phase) { p.Recorded? || p.Released? || p.Failed? || p.Over? || (p.Forwarded? && p.answered) }

  /** Registrations whose work is not over. */
  function Working(phases: seq<Phase>): nat {
    if phases == [] then 0 else (if Exited(phases[|phases| - 1]) then 0 else 1) + Working(phases[..|phases| - 1])
  }

  ghost predicate Tasks(phases: seq<Phase>, connections: seq<Connection>) {
    forall i :: 0 <= i < |phases| && i < |connections| ==>
      ConnectionOk(connections[i]) && (0 in connections[i].tasks <==> Holds(phases[i]))
  }

  ghost predicate Results(phases: seq<Phase>, finished: seq<bool>) {
    forall i :: 0 <= i < |phases| && i < |finished| ==> Answered(phases[i]) ==> finished[i]
  }

  /** Registrations are admitted, or failed, from the first to the last. */
  ghost predicate InOrder(phases: seq<Phase>, mode: Mode) {
    var k := if mode.Admitting? then mode.next else mode.at;
    && k <= |phases|
    && (forall i :: 0 <= i < |phases| ==> PhaseFits(phases[i], mode, i, k))
  }

  predicate PhaseFits(p: Phase, mode: Mode, i: nat, k: nat) {
    && (p.Forwarded? ==> p.stage <= 2)
    && if i > k then p.Fresh?
       else if i == k then (if mode.Admitting? then p.Fresh? || p.Owned? else p.Fresh? || p.Refused? || p.Failed?)
       else !p.Fresh? && !p.Owned? && !p.Refused? && !p.Failed?
  }

  ghost predicate WorldOk(w: World) {
    && Shaped(w) && EmissionOk(w.emission) && w.emission.work == Working(w.phases)
    && Tasks(w.phases, w.connections) && InOrder(w.phases, w.mode)
    && (w.emission.synchronous ==> Results(w.phases, w.emission.finished))
  }

  // ---- every step keeps it -----------------------------------------------------------------------------

  lemma {:induction false} WorkingMoved(phases: seq<Phase>, i: nat, p: Phase)
    requires i < |phases|
    ensures Working(phases[i := p])
            == Working(phases) - (if Exited(phases[i]) then 0 else 1) + (if Exited(p) then 0 else 1)
  {
    var n := |phases| - 1;
    if i == n {
      assert phases[i := p][..n] == phases[..n];
    } else {
      WorkingMoved(phases[..n], i, p);
      assert phases[i := p][..n] == phases[..n][i := p];
    }
  }

  lemma {:induction false} WorkingFresh(n: nat)
    ensures Working(Repeat(Fresh, n)) == n
  {
    if n > 0 {
      WorkingFresh(n - 1);
      assert Repeat(Fresh, n)[..n - 1] == Repeat(Fresh, n - 1);
    }
  }

  lemma {:induction false} WorkingZero(phases: seq<Phase>)
    ensures Working(phases) == 0 <==> forall i :: 0 <= i < |phases| ==> Exited(phases[i])
  {
    if phases != [] {
      var n := |phases| - 1;
      WorkingZero(phases[..n]);
      assert forall i :: 0 <= i < n ==> phases[..n][i] == phases[i];
    }
  }

  lemma StartOk(connections: seq<Connection>, synchronous: bool)
    requires forall i :: 0 <= i < |connections| ==> ConnectionOk(connections[i]) && 0 !in connections[i].tasks
    ensures WorldOk(Started(connections, synchronous))
  {
    NewOk(|connections|, synchronous);
    WorkingFresh(|connections|);
  }

  lemma AnswerOk(e: Emission, i: nat, r: Result)
    requires EmissionOk(e) && (e.synchronous ==> i < |e.finished|)
    ensures var f := Answer(e, i, r);
            && EmissionOk(f) && f.work == e.work && f.synchronous == e.synchronous && |f.finished| == |e.finished|
            && |f.results| == |f.started| == |f.finished| && (e.synchronous ==> f.finished == e.finished[i := true])
  {
    if e.synchronous { FinishOk(e, i, r); }
  }

  lemma WorkLeft(w: World, i: nat)
    requires WorldOk(w) && i < |w.phases| && !Exited(w.phases[i])
    ensures w.emission.work > 0
  {
    WorkingZero(w.phases);
  }

  /** Exits and callbacks keep the accounts. */
  lemma SideOk(e: Emission, fn: nat)
    requires EmissionOk(e)
    ensures EmissionOk(OnComplete(e, fn)) && EmissionOk(OnExit(e, fn)) && (e.work > 0 ==> EmissionOk(Exit(e)))
  {
    SideKept(e, fn);
  }

  lemma SideKept(e: Emission, fn: nat)
    ensures SameResults(e, OnComplete(e, fn)) && SameResults(e, OnExit(e, fn)) && SameResults(e, Exit(e))
  {
  }

  predicate SameResults(e: Emission, f: Emission) {
    && f.synchronous == e.synchronous && f.results == e.results && f.finished == e.finished && f.started == e.started
  }

  predicate Answering(step: Step) { step.FailResult? || step.JobResult? || step.ChildResult? || step.Timeout? }

  predicate Exiting(step: Step) { step.FailExit? || step.JobExit? || step.ChildExit? }

  /** The registration that a step answers for. */
  function Target(w: World, step: Step): nat
    requires Answering(step) && Enabled(w, step)
  {
    if step.FailResult? then w.mode.at else step.i
  }

  function Begun(e: Emission, i: nat): Emission {
    if e.synchronous && i < |e.started| then e.(started := e.started[i := true]) else e
  }

  /** What a step does to the emission alone. */
  lemma EmissionAfter(w: World, step: Step)
    requires Shaped(w) && Enabled(w, step)
    ensures var e, f := w.emission, After(w, step).emission;
            && (Answering(step) ==> Target(w, step) < |w.phases| && f == Answer(e, Target(w, step), step.r))
            && (Exiting(step) ==> f == Exit(e))
            && (step.Start? ==> f == Begun(e, step.i))
            && (step.Watch? ==> f == OnComplete(e, step.fn)) && (step.WatchExit? ==> f == OnExit(e, step.fn))
            && (!Answering(step) && !Exiting(step) && !step.Start? && !step.Watch? && !step.WatchExit? ==> f == e)
    ensures |After(w, step).phases| == |After(w, step).connections| == |w.phases|
  {
    hide Release, Acquired, Closed, Finish, Answer, Exit, OnComplete, OnExit;
  }

  lemma StepKeepsEmission(w: World, step: Step)
    requires WorldOk(w) && Enabled(w, step)
    ensures Shaped(After(w, step)) && EmissionOk(After(w, step).emission)
    ensures After(w, step).emission.synchronous == w.emission.synchronous
  {
    hide After, Release, Acquired, Closed, Pending, Tasks, InOrder, Results, Finish, Answer, Exit, OnComplete, OnExit;
    EmissionAfter(w, step);
    SideOk(w.emission, if step.Watch? || step.WatchExit? then step.fn else 0);
    SideKept(w.emission, if step.Watch? || step.WatchExit? then step.fn else 0);
    if Answering(step) { AnswerOk(w.emission, Target(w, step), step.r); }
    if Exiting(step) { WorkLeft(w, if step.FailExit? then w.mode.at else step.i); }
  }

  lemma AdmissionKeepsWork(w: World, step: Step)
    requires Shaped(w) && w.emission.work == Working(w.phases) && Enabled(w, step)
    requires step.Acquire? || step.Submit? || step.FailResult? || step.FailExit?
    ensures After(w, step).emission.work == Working(After(w, step).phases)
  {
    match step
    case Acquire => WorkingMoved(w.phases, w.mode.next, Owned);
    case Submit(ok) => WorkingMoved(w.phases, w.mode.next, if ok then Queued else Refused);
    case FailResult(r) => WorkingMoved(w.phases, w.mode.at, Failed);
    case FailExit => WorkingMoved(w.phases, w.mode.at, Over);
  }

  lemma StepKeepsWork(w: World, step: Step)
    requires Shaped(w) && w.emission.work == Working(w.phases) && Enabled(w, step)
    ensures After(w, step).emission.work == Working(After(w, step).phases)
  {
    hide Release, Acquired, Closed, Working;
    match step
    case JobResult(i, r) => WorkingMoved(w.phases, i, Recorded);
    case JobRelease(i) => WorkingMoved(w.phases, i, Released);
    case JobExit(i) => WorkingMoved(w.phases, i, Over);
    case Forward(i) => WorkingMoved(w.phases, i, Forwarded(!w.emission.synchronous, 0));
    case ChildResult(i, r) => WorkingMoved(w.phases, i, w.phases[i].(answered := true));
    case ChildRelease(i) => WorkingMoved(w.phases, i, w.phases[i].(stage := 1));
    case ChildExit(i) => WorkingMoved(w.phases, i, w.phases[i].(stage := 2));
    case _ => if step.Acquire? || step.Submit? || step.FailResult? || step.FailExit? { AdmissionKeepsWork(w, step); }
  }

  lemma StepKeepsTasks(w: World, step: Step)
    requires Shaped(w) && Tasks(w.phases, w.connections) && Enabled(w, step)
    ensures Tasks(After(w, step).phases, After(w, step).connections)
  {
    hide Finish, Exit, OnComplete, OnExit;
  }

  lemma StepKeepsOrder(w: World, step: Step)
    requires Shaped(w) && InOrder(w.phases, w.mode) && Enabled(w, step)
    ensures InOrder(After(w, step).phases, After(w, step).mode)
  {
    hide Release, Acquired, Closed, Finish, Exit, OnComplete, OnExit;
  }

  lemma StepKeepsResults(w: World, step: Step)
    requires Shaped(w) && EmissionOk(w.emission) && Results(w.phases, w.emission.finished) && Enabled(w, step)
             && w.emission.synchronous
    ensures Results(After(w, step).phases, After(w, step).emission.finished)
  {
    hide Release, Acquired, Closed, Pending, Finish, Answer, Tasks, InOrder, Exit, OnComplete, OnExit;
    SideKept(w.emission, if step.Watch? || step.WatchExit? then step.fn else 0);
    match step
    case FailResult(r) => AnswerOk(w.emission, w.mode.at, r);
    case JobResult(i, r) => AnswerOk(w.emission, i, r);
    case ChildResult(i, r) => AnswerOk(w.emission, i, r);
    case Timeout(i, r) => AnswerOk(w.emission, i, r);
    case _ =>
  }

  lemma StepOk(w: World, step: Step)
    requires WorldOk(w) && Enabled(w, step)
    ensures WorldOk(After(w, step))
  {
    StepKeepsEmission(w, step);
    StepKeepsWork(w, step);
    StepKeepsTasks(w, step);
    StepKeepsOrder(w, step);
    if w.emission.synchronous { StepKeepsResults(w, step); }
  }

  // ---- what it comes to ------------------------------------------------------------------------------

  /** Once recorded a result never changes, and the channel, once closed, stays closed. */
  lemma ResultsStay(w: World, step: Step, i: nat)
    requires WorldOk(w) && Enabled(w, step) && w.emission.synchronous && i < |w.phases|
    ensures Shaped(After(w, step)) && After(w, step).emission.synchronous && |After(w, step).phases| == |w.phases|
    ensures w.emission.finished[i] ==>
              After(w, step).emission.finished[i] && After(w, step).emission.results[i] == w.emission.results[i]
    ensures w.emission.done ==> After(w, step).emission.done && After(w, step).emission.results == w.emission.results
  {
    hide Release, Acquired, Closed, Pending, Tasks, InOrder, Results;
    StepKeepsEmission(w, step);
    if w.emission.done { DoneAtLast(w.emission); }
  }

  /** Nothing is left for the emission's own code to do. */
  ghost predicate Settled(w: World) {
    forall step :: Own(step) ==> !Enabled(w, step)
  }

  lemma NotSettled(w: World, step: Step)
    requires Own(step) && Enabled(w, step)
    ensures !Settled(w)
  {
  }

  /** The registration at the front of admission, or of failing, has a step to take. */
  lemma FrontMoves(w: World, i: nat)
    requires InOrder(w.phases, w.mode) && i < |w.phases|
    requires w.phases[i].Fresh? || w.phases[i].Owned? || w.phases[i].Refused? || w.phases[i].Failed?
    ensures !Settled(w)
  {
    if w.mode.Admitting? {
      NotSettled(w, if w.phases[w.mode.next].Fresh? then Acquire else Submit(true));
    } else {
      var none := SignalEmission.Result(0, Options.None, false);
      NotSettled(w, if w.phases[w.mode.at].Failed? then FailExit else FailResult(none));
    }
  }

  /** A registration that has not run its course has a step to take. */
  lemma CanMove(w: World, i: nat)
    requires WorldOk(w) && i < |w.phases| && (!Exited(w.phases[i]) || !Answered(w.phases[i]))
    ensures !Settled(w)
  {
    var p, r := w.phases[i], SignalEmission.Result(0, Options.None, false);
    if p.Queued? {
      NotSettled(w, JobResult(i, r));
    } else if p.Recorded? {
      NotSettled(w, JobRelease(i));
    } else if p.Released? {
      NotSettled(w, JobExit(i));
    } else if p.Forwarded? {
      NotSettled(w, if !p.answered then ChildResult(i, r) else if p.stage == 0 then ChildRelease(i) else ChildExit(i));
    } else {
      FrontMoves(w, i);
    }
  }

  /** When nothing is left to do, every registration has one result and has exited, done is
      closed, no task of the emission is left in a connection, and every callback has been called. */
  lemma SettledMeansComplete(w: World)
    requires WorldOk(w) && Settled(w)
    ensures w.emission.work == 0 && w.emission.exitCallbacks == []
    ensures w.emission.synchronous ==>
              && w.emission.done && w.emission.callbacks == []
              && forall i :: 0 <= i < |w.phases| ==> w.emission.finished[i]
    ensures forall i :: 0 <= i < |w.connections| ==> 0 !in w.connections[i].tasks
  {
    forall i | 0 <= i < |w.phases| ensures Exited(w.phases[i]) && Answered(w.phases[i]) {
      if !Exited(w.phases[i]) || !Answered(w.phases[i]) { CanMove(w, i); }
    }
    WorkingZero(w.phases);
    if w.emission.synchronous { DoneAtLast(w.emission); }
    forall i | 0 <= i < |w.connections|
      ensures 0 !in w.connections[i].tasks
    {
      assert Exited(w.phases[i]) && !Holds(w.phases[i]);
    }
  }

  /** A closed connection whose other tasks are gone is done as soon as the emission is settled. */
  lemma ClosedConnectionEnds(w: World, i: nat)
    requires WorldOk(w) && Settled(w) && i < |w.connections| && w.connections[i].closed && w.connections[i].tasks <= {0}
    ensures w.connections[i].done
  {
    SettledMeansComplete(w);
    assert w.connections[i].tasks == {};
  }

  // ---- how long it can take ---------------------------------------------------------------------------

  function StepsLeft(p: Phase): nat {
    match p
    case Fresh => 6
    case Owned => 5
    case Queued => 4
    case Recorded => 2
    case Released => 1
    case Forwarded(answered, stage) => (if answered then 0 else 1) + (if stage >= 2 then 0 else 2 - stage)
    case Refused => 2
    case Failed => 1
    case Over => 0
  }

  function Rank(phases: seq<Phase>): nat {
    if phases == [] then 0 else StepsLeft(phases[|phases| - 1]) + Rank(phases[..|phases| - 1])
  }

  lemma {:induction false} RankMoved(phases: seq<Phase>, i: nat, p: Phase)
    requires i < |phases|
    ensures Rank(phases[i := p]) == Rank(phases) - StepsLeft(phases[i]) + StepsLeft(p)
  {
    var n := |phases| - 1;
    if i == n {
      assert phases[i := p][..n] == phases[..n];
    } else {
      RankMoved(phases[..n], i, p);
      assert phases[i := p][..n] == phases[..n][i := p];
    }
  }

  /** The steps its own code can still take; turning to failure counts as one. */
  function Measure(w: World): nat { Rank(w.phases) + (if w.mode.Admitting? then 1 else 0) }

  lemma AdmissionEnds(w: World, step: Step)
    requires Shaped(w) && Enabled(w, step) && (step.Acquire? || step.Submit? || step.FailResult? || step.FailExit?)
    ensures Measure(After(w, step)) < Measure(w)
  {
    match step
    case Acquire => RankMoved(w.phases, w.mode.next, Owned);
    case Submit(ok) => RankMoved(w.phases, w.mode.next, if ok then Queued else Refused);
    case FailResult(r) => RankMoved(w.phases, w.mode.at, Failed);
    case FailExit => RankMoved(w.phases, w.mode.at, Over);
  }

  lemma JobEnds(w: World, step: Step)
    requires Shaped(w) && Enabled(w, step) && (step.JobResult? || step.JobRelease? || step.JobExit? || step.Forward?)
    ensures Measure(After(w, step)) < Measure(w)
  {
    match step
    case JobResult(i, r) => RankMoved(w.phases, i, Recorded);
    case JobRelease(i) => RankMoved(w.phases, i, Released);
    case JobExit(i) => RankMoved(w.phases, i, Over);
    case Forward(i) => RankMoved(w.phases, i, Forwarded(!w.emission.synchronous, 0));
  }

  lemma ChildEnds(w: World, step: Step)
    requires Shaped(w) && Enabled(w, step) && (step.ChildResult? || step.ChildRelease? || step.ChildExit?)
    ensures Measure(After(w, step)) < Measure(w)
  {
    match step
    case ChildResult(i, r) => RankMoved(w.phases, i, w.phases[i].(answered := true));
    case ChildRelease(i) => RankMoved(w.phases, i, w.phases[i].(stage := 1));
    case ChildExit(i) => RankMoved(w.phases, i, w.phases[i].(stage := 2));
  }

  /** Each own step brings the end nearer, and nothing from outside puts it off. */
  lemma OwnStepsEnd(w: World, step: Step)
    requires Shaped(w) && Enabled(w, step)
    ensures Own(step) ==> Measure(After(w, step)) < Measure(w)
    ensures !Own(step) ==> Measure(After(w, step)) == Measure(w)
  {
    if step.Acquire? || step.Submit? || step.FailResult? || step.FailExit? {
      AdmissionEnds(w, step);
    } else if step.JobResult? || step.JobRelease? || step.JobExit? || step.Forward? {
      JobEnds(w, step);
    } else if step.ChildResult? || step.ChildRelease? || step.ChildExit? {
      ChildEnds(w, step);
    }
  }

  // ---- whole runs ----------------------------------------------------------------------------------------

  /** Where the steps lead, if every one of them was possible. */
  function Outcome(connections: seq<Connection>, synchronous: bool, steps: seq<Step>): Options.Option<World> {
    if steps == [] then Options.Some(Started(connections, synchronous))
    else
      var p, last := Outcome(connections, synchronous, steps[..|steps| - 1]), steps[|steps| - 1];
      if p.Some? && Shaped(p.value) && Enabled(p.value, last) then Options.Some(After(p.value, last)) else Options.None
  }

  function OwnSteps(steps: seq<Step>): nat {
    if steps == [] then 0 else (if Own(steps[|steps| - 1]) then 1 else 0) + OwnSteps(steps[..|steps| - 1])
  }

  lemma {:induction false} RankFresh(n: nat)
    ensures Rank(Repeat(Fresh, n)) == 6 * n
  {
    if n > 0 {
      RankFresh(n - 1);
      assert Repeat(Fresh, n)[..n - 1] == Repeat(Fresh, n - 1);
    }
  }

  /** In every run the invariant holds, and the emission's own code takes at most six steps
      for each registration and one more. */
  lemma {:induction false} RunOk(connections: seq<Connection>, synchronous: bool, steps: seq<Step>)
    requires forall i :: 0 <= i < |connections| ==> ConnectionOk(connections[i]) && 0 !in connections[i].tasks
    requires Outcome(connections, synchronous, steps).Some?
    ensures WorldOk(Outcome(connections, synchronous, steps).value)
    ensures OwnSteps(steps) + Measure(Outcome(connections, synchronous, steps).value) <= 6 * |connections| + 1
  {
    if steps == [] {
      StartOk(connections, synchronous);
      RankFresh(|connections|);
    } else {
      var before, last := steps[..|steps| - 1], steps[|steps| - 1];
      RunOk(connections, synchronous, before);
      StepOk(Outcome(connections, synchronous, before).value, last);
      OwnStepsEnd(Outcome(connections, synchronous, before).value, last);
    }
  }

  // ---- callbacks -----------------------------------------------------------------------------------------

  /** The completion callback that a step registers. */
  function Watcher(step: Step): seq<nat> { if step.Watch? then [step.fn] else [] }

  function ExitWatcher(step: Step): seq<nat> { if step.WatchExit? then [step.fn] else [] }

  /** The completion callbacks registered in a run, in order. */
  function Watchers(steps: seq<Step>): seq<nat> {
    if steps == [] then [] else Watchers(steps[..|steps| - 1]) + Watcher(steps[|steps| - 1])
  }

  function ExitWatchers(steps: seq<Step>): seq<nat> {
    if steps == [] then [] else ExitWatchers(steps[..|steps| - 1]) + ExitWatcher(steps[|steps| - 1])
  }

  lemma AnswerCalls(e: Emission, i: nat, r: Result)
    requires EmissionOk(e) && (e.synchronous ==> i < |e.finished|)
    ensures Called(Answer(e, i, r)) == Called(e) && CalledOnExit(Answer(e, i, r)) == CalledOnExit(e)
  {
    if e.synchronous { FinishCalls(e, i, r); }
  }

  lemma StepCalls(w: World, step: Step)
    requires WorldOk(w) && Enabled(w, step)
    ensures Called(After(w, step).emission) == Called(w.emission) + Watcher(step)
    ensures CalledOnExit(After(w, step).emission) == CalledOnExit(w.emission) + ExitWatcher(step)
  {
    hide Called, CalledOnExit, Tasks, InOrder, Results, Finish, Exit;
    match step
    case FailResult(r) => AnswerCalls(w.emission, w.mode.at, r);
    case JobResult(i, r) => AnswerCalls(w.emission, i, r);
    case ChildResult(i, r) => AnswerCalls(w.emission, i, r);
    case Timeout(i, r) => AnswerCalls(w.emission, i, r);
    case FailExit => ExitCalls(w.emission);
    case JobExit(i) => ExitCalls(w.emission);
    case ChildExit(i) => ExitCalls(w.emission);
    case Watch(fn) => OnCompleteCalls(w.emission, fn);
    case WatchExit(fn) => OnExitCalls(w.emission, fn);
    case Start(i) => if w.emission.synchronous { StartCalls(w.emission, i); }
    case _ =>
  }

  lemma StartCalls(e: Emission, i: nat)
    requires i < |e.started|
    ensures Called(e.(started := e.started[i := true])) == Called(e)
    ensures CalledOnExit(e.(started := e.started[i := true])) == CalledOnExit(e)
  {
  }

  /** In every run, callbacks wait exactly until the last result is recorded and until the
      last registration has exited; the emission's context is cancelled at the former, or at
      the latter when no results are collected. */
  lemma CalledInTime(connections: seq<Connection>, synchronous: bool, steps: seq<Step>)
    requires forall i :: 0 <= i < |connections| ==> ConnectionOk(connections[i]) && 0 !in connections[i].tasks
    requires Outcome(connections, synchronous, steps).Some?
    ensures var w := Outcome(connections, synchronous, steps).value;
            var answered, exited := forall i :: 0 <= i < |w.emission.finished| ==> w.emission.finished[i],
                                    forall i :: 0 <= i < |w.phases| ==> Exited(w.phases[i]);
            && (if exited then w.emission.exitCallbacks == [] else w.emission.left == [])
            && (if answered then w.emission.callbacks == [] else w.emission.completed == [])
            && (w.emission.cancelled <==> if w.emission.synchronous then answered else exited)
  {
    RunOk(connections, synchronous, steps);
    var w := Outcome(connections, synchronous, steps).value;
    WorkingZero(w.phases);
    PendingZero(w.emission.finished);
  }

  /** Every callback, registered when it may be, is called once or still waits to be, in the
      order of registration; when the emission has settled all have been called. */
  lemma {:induction false} CallbacksOnce(connections: seq<Connection>, synchronous: bool, steps: seq<Step>)
    requires forall i :: 0 <= i < |connections| ==> ConnectionOk(connections[i]) && 0 !in connections[i].tasks
    requires Outcome(connections, synchronous, steps).Some?
    ensures var w := Outcome(connections, synchronous, steps).value;
            && Called(w.emission) == Watchers(steps) && CalledOnExit(w.emission) == ExitWatchers(steps)
            && (Settled(w) ==> w.emission.left == ExitWatchers(steps))
            && (Settled(w) && w.emission.synchronous ==> w.emission.completed == Watchers(steps))
  {
    hide After, Enabled, WorldOk;
    var w := Outcome(connections, synchronous, steps).value;
    RunOk(connections, synchronous, steps);
    if steps == [] {
      NoCalls(|connections|, synchronous);
    } else {
      var before, last := steps[..|steps| - 1], steps[|steps| - 1];
      CallbacksOnce(connections, synchronous, before);
      RunOk(connections, synchronous, before);
      StepCalls(Outcome(connections, synchronous, before).value, last);
    }
    if Settled(w) { SettledCalls(w); }
  }

  lemma NoCalls(n: nat, synchronous: bool)
    ensures Called(NewEmission(n, synchronous)) == [] && CalledOnExit(NewEmission(n, synchronous)) == []
  {
  }

  lemma SettledCalls(w: World)
    requires WorldOk(w) && Settled(w)
    ensures CalledOnExit(w.emission) == w.emission.left
    ensures w.emission.synchronous ==> Called(w.emission) == w.emission.completed
  {
    SettledMeansComplete(w);
  }

  // ---- which result a registration has -------------------------------------------------------------------

  /** The result that a step brings for registration `i`. */
  function AnswerFor(w: World, step: Step, i: nat): Options.Option<Result> {
    match step
    case FailResult(r) => if w.mode.Failing? && w.mode.at == i then Options.Some(r) else Options.None
    case JobResult(k, r) => if k == i then Options.Some(r) else Options.None
    case ChildResult(k, r) => if k == i then Options.Some(r) else Options.None
    case Timeout(k, r) => if k == i then Options.Some(r) else Options.None
    case _ => Options.None
  }

  /** Whether the task of registration `i` has been started in a run. */
  predicate StartedIn(steps: seq<Step>, i: nat) { Start(i) in steps }

  /** The first result that a run brings for registration `i`, marked as started when the
      task had been started by then. */
  function FirstAnswer(connections: seq<Connection>, synchronous: bool, steps: seq<Step>, i: nat)
    : Options.Option<Result>
  {
    if steps == [] then Options.None
    else
      var before, last := steps[..|steps| - 1], steps[|steps| - 1];
      var first, p := FirstAnswer(connections, synchronous, before, i), Outcome(connections, synchronous, before);
      if first.Some? || p.None? then first
      else
        match AnswerFor(p.value, last, i)
        case None => Options.None
        case Some(r) => Options.Some(Result(r.value, r.err, r.started || StartedIn(before, i)))
  }

  /** The result, started mark and flag that registration `i` has. */
  ghost predicate Holding(e: Emission, i: nat, first: Options.Option<Result>, started: bool) {
    && i < |e.finished| == |e.results| == |e.started|
    && (e.finished[i] <==> first.Some?) && (first.Some? ==> e.results[i] == first.value)
    && e.started[i] == started
  }

  /** Recording an answer: the first one stays, whichever registration it is for. */
  lemma AnswerHolds(e: Emission, k: nat, r: Result, i: nat, first: Options.Option<Result>, started: bool)
    requires k < |e.finished| && Holding(e, i, first, started)
    ensures Holding(Finish(e, k, r), i,
              if first.Some? || k != i then first else Options.Some(Result(r.value, r.err, r.started || started)),
              started)
  {
  }

  lemma StepHolds(w: World, step: Step, i: nat, first: Options.Option<Result>, started: bool)
    requires WorldOk(w) && Enabled(w, step) && w.emission.synchronous && Holding(w.emission, i, first, started)
    ensures var a := AnswerFor(w, step, i);
            Holding(After(w, step).emission, i,
              if first.Some? || a.None? then first
              else Options.Some(Result(a.value.value, a.value.err, a.value.started || started)),
              started || step == Start(i))
  {
    hide After, EmissionOk, Finish, Release, Acquired, Closed, Exit, OnComplete, OnExit;
    EmissionAfter(w, step);
    SideKept(w.emission, if step.Watch? || step.WatchExit? then step.fn else 0);
    if Answering(step) { AnswerHolds(w.emission, Target(w, step), step.r, i, first, started); }
  }

  /** In every run of a synchronous emission a registration is finished exactly when some step
      has brought a result for it, and its result is the first that was brought. */
  lemma {:induction false} ResultIsFirst(connections: seq<Connection>, steps: seq<Step>, i: nat)
    requires forall k :: 0 <= k < |connections| ==> ConnectionOk(connections[k]) && 0 !in connections[k].tasks
    requires Outcome(connections, true, steps).Some? && i < |connections|
    ensures var w := Outcome(connections, true, steps).value;
            && w.emission.synchronous
            && Holding(w.emission, i, FirstAnswer(connections, true, steps, i), StartedIn(steps, i))
  {
    hide After, Enabled, WorldOk;
    if steps != [] {
      var before, last := steps[..|steps| - 1], steps[|steps| - 1];
      var w := Outcome(connections, true, before).value;
      ResultIsFirst(connections, before, i);
      RunOk(connections, true, before);
      StepKeepsEmission(w, last);
      StepHolds(w, last, i, FirstAnswer(connections, true, before, i), StartedIn(before, i));
      assert steps == before + [last];
    }
  }
}
