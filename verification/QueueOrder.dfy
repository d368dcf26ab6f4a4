/** In which order lanes are served, how many workers are launched, and what becomes of
    pending jobs that are cancelled or stopped. */
module QueueOrder {
  import opened Basics
  import opened QueueState
  import opened QueueInvariant
  import opened QueueSteps
  import opened QueueTheorems

  // ---- lanes take turns -----------------------------------------------------------

  /** Lane `l` is in the list, at position `n` or before. */
  ghost predicate Within(ready: seq<nat>, l: nat, n: int) {
    exists k :: 0 <= k <= n && k < |ready| && ready[k] == l
  }

  /** A cancellation or a stop that removes jobs of lane `l`. */
  predicate TakesFrom(step: Step, l: nat) {
    (step.DoCancel? && step.job.lane == l) || (step.DoStop? && exists j <- step.removed :: j.lane == l)
  }

  function PicksIn(run: seq<Step>): nat {
    if run == [] then 0 else (if run[0].DoPick? then 1 else 0) + PicksIn(run[1..])
  }

  lemma {:induction false} RemoveKeepsTurn(ready: seq<nat>, x: nat, l: nat, n: int)
    requires Within(ready, l, n) && x != l
    ensures Within(Remove(ready, x), l, n)
  {
    var k :| 0 <= k <= n && k < |ready| && ready[k] == l;
    if ready[0] == x {
      assert ready[1..][k - 1] == l;
    } else if k == 0 {
      assert Remove(ready, x)[0] == l;
    } else {
      assert ready[1..][k - 1] == l;
      RemoveKeepsTurn(ready[1..], x, l, n - 1);
      var m :| 0 <= m <= n - 1 && m < |Remove(ready[1..], x)| && Remove(ready[1..], x)[m] == l;
      assert Remove(ready, x)[m + 1] == l;
    }
  }

  lemma AppendKeepsTurn(ready: seq<nat>, more: seq<nat>, l: nat, n: int)
    requires Within(ready, l, n)
    ensures Within(ready + more, l, n)
  {
    var k :| 0 <= k <= n && k < |ready| && ready[k] == l;
    assert (ready + more)[k] == l;
  }

  lemma ClaimTurn(s: State, c: nat, j: Job, l: nat, n: int)
    requires ReadyList(s) && InLane(s, j) && c < |s.calls| && j.id < |s.fate| && Within(s.ready, l, n) && j.lane != l
    ensures Claim(s, c, j).starts == s.starts && Within(Claim(s, c, j).ready, l, n)
  {
    hide Remove, RemovePending, Within, ReadyOk;
    RemovePendingForm(s, j);
    RemoveKeepsTurn(s.ready, j.lane, l, n);
  }

  lemma {:induction false} ClaimAllTurn(s: State, c: nat, js: seq<Job>, l: nat, n: int)
    requires Core(s) && c < |s.calls| && s.calls[c].open && Within(s.ready, l, n) && forall j <- js :: j.lane != l
    ensures ClaimAll(s, c, js).starts == s.starts && Within(ClaimAll(s, c, js).ready, l, n)
    decreases |js|
  {
    hide Within, Claim;
    if js != [] {
      var before := js[..|js| - 1];
      var t, j := ClaimAll(s, c, before), js[|js| - 1];
      ClaimAllTurn(s, c, before, l, n);
      ClaimAllKeepsCore(s, c, before);
      if InLane(t, j) && j.id < |t.fate| { ClaimTurn(t, c, j, l, n); }
    }
  }

  lemma {:induction false} ClaimAllStarts(s: State, c: nat, js: seq<Job>)
    ensures ClaimAll(s, c, js).starts == s.starts
    decreases |js|
  {
    if js != [] { ClaimAllStarts(s, c, js[..|js| - 1]); }
  }

  lemma SubmitStarts(s: State, key: Key, policy: ShutdownPolicy)
    requires Core(s) && WellIndexed(s) && CanSubmit(s)
    ensures var q, t := Queue(s, key, policy), Submit(s, key, policy);
            t.starts == s.starts && t.ready == q.ready
            && (q.ready == s.ready || q.ready == s.ready + [LaneFor(s, key).1])
  {
    hide ReadyOk, LanesOk, Queue, Submit;
    QueueForm(s, key, policy);
    QueueKeepsLists(s, key, policy);
    SubmitCounters(s, key, policy);
  }

  lemma CompleteStarts(s: State, j: Job)
    requires Core(s) && CanComplete(s, j)
    ensures Complete(s, j).starts == s.starts
    ensures Complete(s, j).ready == s.ready || Complete(s, j).ready == s.ready + [j.lane]
  {
    ActiveLane(s, j);
    CompleteForm(s, j);
  }

  lemma OtherStarts(s: State, step: Step)
    requires Core(s) && Enabled(s, step) && !step.DoSubmit? && !step.DoPick? && !step.DoComplete?
    ensures Next(s, step).starts == s.starts
  {
    hide Core, Remove;
    if step.DoStop? { ClaimAllStarts(OpenCall(s.(closed := true)), |s.calls|, step.removed); }
  }

  lemma PickStarts(s: State)
    requires WellIndexed(s) && CanPick(s) && ReadyList(s) && LaneTable(s)
    ensures s.ready != [] && FrontReady(s) && Pick(s).starts == s.starts + [s.arena[s.ready[0]].jobs[0]]
    ensures s.arena[s.ready[0]].jobs[0].lane == s.ready[0]
  {
    PickForm(s);
  }

  /** Only a pick starts a job, and it starts one, of the lane that is first. */
  lemma StepStarts(s: State, step: Step)
    requires Inv(s) && Enabled(s, step)
    ensures step.DoPick? ==> s.ready != [] && |Next(s, step).starts| == |s.starts| + 1
                             && s.starts <= Next(s, step).starts && Next(s, step).starts[|s.starts|].lane == s.ready[0]
    ensures !step.DoPick? ==> Next(s, step).starts == s.starts
  {
    hide Submit, Pick, Retire, Begin, Report, Complete, CancelClaim, Stop, Drop, EndCall;
    match step
    case DoSubmit(key, policy) => SubmitStarts(s, key, policy);
    case DoPick => PickStarts(s);
    case DoComplete(j) => CompleteStarts(s, j);
    case _ => OtherStarts(s, step);
  }

  /** A step that takes no job from a ready lane leaves the lane where it is in the list, or
      moves it forward; a pick moves it one place forward, or serves it if it is the first. */
  lemma StepTurn(s: State, step: Step, l: nat, n: nat)
    requires Inv(s) && Enabled(s, step) && Within(s.ready, l, n) && !TakesFrom(step, l)
    ensures step.DoPick? ==> s.ready[0] == l || Within(Next(s, step).ready, l, n - 1)
    ensures !step.DoPick? ==> Within(Next(s, step).ready, l, n)
  {
    hide Within, Remove, ReadyOk, LanesOk, Submit, Pick, Complete, ClaimAll, MakeReady;
    match step
    case DoSubmit(key, policy) =>
      SubmitStarts(s, key, policy);
      AppendKeepsTurn(s.ready, [LaneFor(s, key).1], l, n);
    case DoPick => PickTurn(s, l, n);
    case DoComplete(j) =>
      CompleteStarts(s, j);
      AppendKeepsTurn(s.ready, [j.lane], l, n);
    case DoCancel(j) => ClaimTurn(OpenCall(s), |s.calls|, j, l, n);
    case DoStop(all, removed) =>
      OpenCallKeepsCore(s, true);
      ClaimAllTurn(OpenCall(s.(closed := true)), |s.calls|, removed, l, n);
    case _ =>
  }

  lemma PickTurn(s: State, l: nat, n: nat)
    requires WellIndexed(s) && s.ready != [] && ReadyList(s) && LaneTable(s) && Within(s.ready, l, n)
    ensures s.ready[0] == l || Within(Pick(s).ready, l, n - 1)
  {
    PickForm(s);
    var k :| 0 <= k <= n && k < |s.ready| && s.ready[k] == l;
    if k > 0 {
      assert s.ready[1..][k - 1] == l;
      AppendKeepsTurn(s.ready[1..], Pick(s).ready[|s.ready| - 1..], l, n - 1);
      assert Pick(s).ready == s.ready[1..] + Pick(s).ready[|s.ready| - 1..];
    }
  }

  lemma {:induction false} StartsGrow(s: State, run: seq<Step>, t: State)
    requires Inv(s) && Run(s, run, t)
    ensures s.starts <= t.starts
    decreases |run|
  {
    hide Next, Enabled;
    if run != [] {
      StepKeepsInv(s, run[0]);
      StepStarts(s, run[0]);
      StartsGrow(Next(s, run[0]), run[1..], t);
    }
  }

  /** A ready lane is served after at most as many others as were before it: with more than
      `n` picks to come, the lane at position `n` has a job among the next `n + 1` started,
      unless its jobs are taken away. */
  lemma {:induction false} LanesTakeTurns(s: State, run: seq<Step>, t: State, l: nat, n: nat) returns (a: nat)
    requires Inv(s) && Run(s, run, t) && Within(s.ready, l, n) && forall step <- run :: !TakesFrom(step, l)
    requires PicksIn(run) > n
    ensures |s.starts| <= a <= |s.starts| + n && a < |t.starts| && t.starts[a].lane == l
    decreases |run|
  {
    hide Next, Within, TakesFrom, Inv, Enabled;
    var step, next := run[0], Next(s, run[0]);
    StepKeepsInv(s, step);
    StepStarts(s, step);
    StepTurn(s, step, l, n);
    if step.DoPick? && s.ready[0] == l {
      StartsGrow(next, run[1..], t);
      a := |s.starts|;
    } else {
      if step.DoPick? { WithinSome(next.ready, l, n - 1); }
      a := LanesTakeTurns(next, run[1..], t, l, if step.DoPick? then n - 1 else n);
    }
  }

  lemma WithinSome(ready: seq<nat>, l: nat, n: int)
    requires Within(ready, l, n)
    ensures 0 <= n
  {
  }

  // ---- workers ------------------------------------------------------------------------

  /** Submitting launches workers until the active jobs and all that could run now have one
      each, or the limit is reached, and no more than that. */
  lemma SubmitLaunches(s: State, key: Key, policy: ShutdownPolicy)
    requires Inv(s) && WellIndexed(s) && CanSubmit(s)
    ensures var t := Submit(s, key, policy);
            && (forall i :: 0 <= i < |t.ready| ==> t.ready[i] < |t.arena|)
            && t.workers == Max(s.workers, Min(s.concurrency, |s.active| + Runnable(t.ready, t.arena)))
  {
    hide Inv, CanSubmit, Enqueue, MakeReady, StartWorkers;
    QueueLaunches(s, key, policy);
    Launches(Queue(s, key, policy));
  }

  lemma QueueLaunches(s: State, key: Key, policy: ShutdownPolicy)
    requires Inv(s)
    ensures var q := Queue(s, key, policy);
            && (forall i :: 0 <= i < |q.ready| ==> q.ready[i] < |q.arena|)
            && q.workers == s.workers <= s.concurrency && q.concurrency == s.concurrency && q.active == s.active
  {
    hide Queue, LanesOk;
    QueueForm(s, key, policy);
    QueueKeepsLists(s, key, policy);
  }

  lemma Launches(s: State)
    requires (forall i :: 0 <= i < |s.ready| ==> s.ready[i] < |s.arena|) && s.workers <= s.concurrency
    ensures var t := StartWorkers(s);
            && t.ready == s.ready && t.arena == s.arena
            && t.workers == Max(s.workers, Min(s.concurrency, |s.active| + Runnable(s.ready, s.arena)))
  {
  }

  // ---- taken away ----------------------------------------------------------------------

  lemma CancelTakes(s: State, j: Job)
    requires Inv(s) && InLane(s, j) && j.id < |s.fate|
    ensures forall x :: InLane(CancelClaim(s, j), x) <==> InLane(s, x) && x != j
  {
    hide Claim;
    OpenCallKeepsCore(s, s.closed);
    assert OpenCall(s.(closed := s.closed)) == OpenCall(s);
    assert forall x :: InLane(OpenCall(s), x) <==> InLane(s, x);
    ClaimLeaves(OpenCall(s), |s.calls|, j);
  }

  /** The pending jobs that a cancellation or a stop leaves. */
  ghost predicate Spared(step: Step, x: Job) {
    if step.DoCancel? then x != step.job else step.DoStop? && !Stoppable(step.all, x)
  }

  lemma TakenLeaves(s: State, step: Step)
    requires Inv(s) && Enabled(s, step) && (step.DoCancel? || step.DoStop?)
    ensures forall x :: InLane(Next(s, step), x) <==> InLane(s, x) && Spared(step, x)
  {
    hide CancelClaim, Stop, Inv;
    if step.DoCancel? { CancelTakes(s, step.job); } else { StopLeavesTheRest(s, step.all, step.removed); }
  }

  lemma NotInLane(s: State, i: nat)
    requires Core(s) && i < |s.admitted| && !InLane(s, s.admitted[i])
    ensures i < |s.fate| && s.fate[i] != Waiting
  {
  }

  lemma CancelMovesTo(s: State, j: Job, i: nat)
    requires Inv(s) && InLane(s, j) && j.id < |s.fate| && i < |s.admitted|
    ensures var t := CancelClaim(s, j);
            i < |t.fate| && t.admitted == s.admitted && (t.fate[i] == s.fate[i] || t.fate[i].Claimed?)
  {
    hide Claim;
    OpenCallKeepsCore(s, s.closed);
    assert OpenCall(s.(closed := s.closed)) == OpenCall(s);
    ClaimMoves(OpenCall(s), |s.calls|, j, i);
  }

  lemma StopMovesTo(s: State, all: bool, removed: seq<Job>, i: nat)
    requires Inv(s) && CanStop(s, all, removed) && i < |s.admitted|
    ensures var t := Stop(s, all, removed);
            i < |t.fate| && t.admitted == s.admitted && (t.fate[i] == s.fate[i] || t.fate[i].Claimed?)
  {
    var o := OpenCall(s.(closed := true));
    OpenCallKeepsCore(s, true);
    ClaimAllMoves(o, |s.calls|, removed, i);
  }

  lemma WaitingNow(s: State, j: Job)
    requires Inv(s) && InLane(s, j)
    ensures j.id < |s.admitted| && s.admitted[j.id] == j && j.id < |s.fate| && s.fate[j.id] == Waiting
  {
    WaitingIn(s, j);
  }

  lemma TakenOffPath(s: State, step: Step, j: Job)
    requires Inv(s) && Enabled(s, step) && InLane(s, j) && Takes(step, j)
    ensures j.id < |s.admitted| && j.id < |Next(s, step).fate| && OffPath(Next(s, step).fate[j.id])
  {
    hide CancelClaim, Stop, Core;
    WaitingNow(s, j);
    if step.DoCancel? { CancelMovesTo(s, j, j.id); } else { StopMovesTo(s, step.all, step.removed, j.id); }
    StepKeepsInv(s, step);
    TakenLeaves(s, step);
    NotInLane(Next(s, step), j.id);
  }

  /** A pending job that is cancelled, or covered by a stop, leaves its lane at once, never
      runs, and has its one Finish when the queue is done; the other pending jobs stay,
      except those that the stop covers. */
  lemma TakenNeverRuns(s: State, step: Step, j: Job, run: seq<Step>, t: State)
    requires Inv(s) && Enabled(s, step) && InLane(s, j) && Takes(step, j) && Run(Next(s, step), run, t)
    ensures forall x :: InLane(Next(s, step), x)
                        <==> InLane(s, x) && if step.DoCancel? then x != j else step.DoStop? && !Stoppable(step.all, x)
    ensures j.id < |t.runs| && t.runs[j.id] == 0 && j.id < |t.finishCalls| && (t.done ==> t.finishCalls[j.id] == 1)
  {
    hide Next, Enabled;
    TakenOffPath(s, step, j);
    TakenLeaves(s, step);
    StepKeepsInv(s, step);
    StepMoves(s, step, j.id);
    RemovedNeverRuns(Next(s, step), run, t, j.id);
    RunKeepsInv(Next(s, step), run, t);
    if t.done { DeliveredWhenDrained(t, j.id); }
  }
}
