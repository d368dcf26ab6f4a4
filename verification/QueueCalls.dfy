/** How often the queue calls a task's Run: once for each time a worker begins the task with
    a context that is not done, and a drained task exactly once. */
module QueueCalls {
  import opened Basics
  import opened QueueState
  import opened QueueInvariant
  import opened QueueSteps
  import opened QueueTheorems

  /** A worker comes to job `i`. */
  predicate BeginOf(step: Step, i: nat) { step.DoBegin? && step.job.id == i }

  /** How often a worker comes to job `i` in a run, and how often with a live context. */
  function BeginsOf(run: seq<Step>, i: nat): nat {
    if run == [] then 0 else (if BeginOf(run[0], i) then 1 else 0) + BeginsOf(run[1..], i)
  }

  function LiveBeginsOf(run: seq<Step>, i: nat): nat {
    if run == [] then 0 else (if BeginOf(run[0], i) && run[0].live then 1 else 0) + LiveBeginsOf(run[1..], i)
  }

  predicate Begun(f: Fate) { f == Running || f == Reported || f == Completed }

  /** What a step means for job `i`: its Run is called when a worker comes to it with a live
      context and at no other time, and a worker comes to it only once. */
  ghost predicate RunKept(s: State, step: Step, t: State, i: nat) {
    && i < |s.runs| && i < |t.runs| && i < |s.fate| && i < |t.fate|
    && t.runs[i] == s.runs[i] + (if BeginOf(step, i) && step.live then 1 else 0)
    && (BeginOf(step, i) ==> !Begun(s.fate[i]))
    && (Begun(t.fate[i]) <==> Begun(s.fate[i]) || BeginOf(step, i))
  }

  lemma {:induction false} ClaimAllRuns(s: State, c: nat, js: seq<Job>)
    ensures ClaimAll(s, c, js).runs == s.runs
    decreases |js|
  {
    if js != [] { ClaimAllRuns(s, c, js[..|js| - 1]); }
  }

  lemma ClaimRuns(s: State, c: nat, j: Job)
    requires InLane(s, j) && c < |s.calls| && j.id < |s.fate|
    ensures Claim(s, c, j).runs == s.runs
  {
  }

  /** A step that begins no job and calls no Run. */
  lemma NotBegun(s: State, step: Step, t: State, i: nat)
    requires !step.DoBegin? && i < |s.runs| && t.runs == s.runs && i < |s.fate| == |t.fate|
    requires Begun(t.fate[i]) == Begun(s.fate[i])
    ensures RunKept(s, step, t, i)
  {
  }

  lemma StopRuns(s: State, all: bool, removed: seq<Job>, i: nat)
    requires Inv(s) && WellIndexed(s) && CanStop(s, all, removed) && i < |s.admitted|
    ensures RunKept(s, DoStop(all, removed), Stop(s, all, removed), i)
  {
    hide ClaimAll, Core, RunKept;
    var o := OpenCall(s.(closed := true));
    OpenCallKeepsCore(s, true);
    ClaimAllMoves(o, |s.calls|, removed, i);
    ClaimAllRuns(o, |s.calls|, removed);
    NotBegun(s, DoStop(all, removed), Stop(s, all, removed), i);
  }

  lemma SubmitRuns(s: State, key: Key, policy: ShutdownPolicy, i: nat)
    requires LaneTable(s) && ReadyList(s) && WellIndexed(s) && CanSubmit(s) && i < |s.admitted|
    ensures RunKept(s, DoSubmit(key, policy), Submit(s, key, policy), i)
  {
    QueueForm(s, key, policy);
  }

  lemma PickRuns(s: State, i: nat)
    requires Core(s) && WellIndexed(s) && s.ready != [] && i < |s.admitted|
    ensures RunKept(s, DoPick, Pick(s), i)
  {
    hide Pick, RunKept, LaneTable, ReadyList, Queued;
    PickForm(s);
    WaitingIn(s, s.arena[s.ready[0]].jobs[0]);
    NotBegun(s, DoPick, Pick(s), i);
  }

  lemma BeginRuns(s: State, j: Job, live: bool, i: nat)
    requires WellIndexed(s) && CanBegin(s, j) && i < |s.admitted|
    ensures RunKept(s, DoBegin(j, live), Begin(s, j, live), i)
  {
  }

  lemma ReportRuns(s: State, j: Job, i: nat)
    requires WellIndexed(s) && CanReport(s, j) && i < |s.admitted|
    ensures RunKept(s, DoReport(j), Report(s, j), i)
  {
  }

  lemma CompleteRuns(s: State, j: Job, i: nat)
    requires Core(s) && WellIndexed(s) && CanComplete(s, j) && i < |s.admitted|
    ensures RunKept(s, DoComplete(j), Complete(s, j), i)
  {
    hide Complete, RunKept, LaneTable, ReadyList, Queued;
    ActiveLane(s, j);
    CompleteForm(s, j);
    NotBegun(s, DoComplete(j), Complete(s, j), i);
  }

  lemma CancelRuns(s: State, j: Job, i: nat)
    requires Core(s) && WellIndexed(s) && InLane(s, j) && j.id < |s.fate| && i < |s.admitted|
    ensures RunKept(s, DoCancel(j), CancelClaim(s, j), i)
  {
    hide Claim, Core, RunKept;
    var o := OpenCall(s);
    OpenCallKeepsCore(s, s.closed);
    ClaimMoves(o, |s.calls|, j, i);
    ClaimRuns(o, |s.calls|, j);
    NotBegun(s, DoCancel(j), CancelClaim(s, j), i);
  }

  lemma DropRuns(s: State, c: nat, i: nat)
    requires WellIndexed(s) && Calls(s) && CanDrop(s, c) && i < |s.admitted|
    ensures RunKept(s, DoDrop(c), Drop(s, c), i)
  {
  }

  lemma CounterRuns(s: State, i: nat)
    requires WellIndexed(s) && i < |s.admitted|
    ensures RunKept(s, DoRetire, Retire(s), i)
    ensures forall c :: CanEndCall(s, c) ==> RunKept(s, DoEndCall(c), EndCall(s, c), i)
  {
  }

  lemma StepRuns(s: State, step: Step, i: nat)
    requires Inv(s) && Enabled(s, step) && i < |s.admitted|
    ensures RunKept(s, step, Next(s, step), i)
  {
    hide Submit, Pick, Retire, Begin, Report, Complete, CancelClaim, Stop, Drop, EndCall, RunKept;
    match step
    case DoSubmit(key, policy) => SubmitRuns(s, key, policy, i);
    case DoPick => PickRuns(s, i);
    case DoRetire => CounterRuns(s, i);
    case DoBegin(j, live) => BeginRuns(s, j, live, i);
    case DoReport(j) => ReportRuns(s, j, i);
    case DoComplete(j) => CompleteRuns(s, j, i);
    case DoCancel(j) => CancelRuns(s, j, i);
    case DoStop(all, removed) => StopRuns(s, all, removed, i);
    case DoDrop(c) => DropRuns(s, c, i);
    case DoEndCall(c) => CounterRuns(s, i);
  }

  /** In a run a task's Run is called exactly as often as a worker comes to it with a live
      context, and a worker comes to it at most once. */
  lemma {:induction false} RunsCounted(s: State, run: seq<Step>, t: State, i: nat)
    requires Inv(s) && Run(s, run, t) && i < |s.admitted|
    ensures i < |s.runs| && i < |t.runs| && i < |s.fate| && i < |t.fate|
    ensures t.runs[i] == s.runs[i] + LiveBeginsOf(run, i)
    ensures BeginsOf(run, i) == if Begun(t.fate[i]) && !Begun(s.fate[i]) then 1 else 0
    ensures Begun(s.fate[i]) ==> Begun(t.fate[i])
    decreases |run|
  {
    hide Next, Enabled;
    if run != [] {
      StepKeepsInv(s, run[0]);
      StepMoves(s, run[0], i);
      StepRuns(s, run[0], i);
      RunsCounted(Next(s, run[0]), run[1..], t, i);
    }
  }

  lemma {:induction false} AllLive(run: seq<Step>, i: nat)
    requires forall step <- run :: BeginOf(step, i) ==> step.live
    ensures LiveBeginsOf(run, i) == BeginsOf(run, i)
  {
    if run != [] {
      assert run[0] in run && forall step <- run[1..] :: step in run;
      AllLive(run[1..], i);
    }
  }

  /** A job that waits, that no cancellation and no stop takes, and whose context is live when
      a worker comes to it, has been run exactly once when the queue is done. */
  lemma DrainJobsRunOnce(s: State, run: seq<Step>, t: State, i: nat)
    requires Inv(s) && Run(s, run, t) && i < |s.admitted| && Respects(run, s.admitted[i])
    requires i < |s.fate| && s.fate[i] == Waiting && forall step <- run :: BeginOf(step, i) ==> step.live
    ensures t.done ==> i < |t.runs| && t.runs[i] == 1 && i < |t.finishCalls| && t.finishCalls[i] == 1
  {
    DrainJobsRun(s, run, t, i);
    RunsCounted(s, run, t, i);
    AllLive(run, i);
  }
}
